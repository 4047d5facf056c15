/** Numbers as runs of bits, lowest bit first, and the writer and reader of such runs. */
module BitPacked {
  import opened Numbers

  type Bits = seq<bool>

  function ToBits(n: nat, width: nat): (bits: Bits)
    ensures |bits| == width
  {
    if width == 0 then [] else [n % 2 == 1] + ToBits(n / 2, width - 1)
  }

  function FromBits(bits: Bits): nat {
    if bits == [] then 0 else (if bits[0] then 1 else 0) + 2 * FromBits(bits[1..])
  }

  lemma {:induction false} BitsRoundTrip(n: nat, width: nat)
    requires n < Pow2(width)
    ensures FromBits(ToBits(n, width)) == n
  {
    if width == 0 {
    } else {
      BitsRoundTrip(n / 2, width - 1);
      assert ToBits(n, width)[1..] == ToBits(n / 2, width - 1);
    }
  }

  lemma {:induction false} NumberRoundTrip(bits: Bits)
    ensures FromBits(bits) < Pow2(|bits|) && ToBits(FromBits(bits), |bits|) == bits
  {
    if bits == [] {
    } else {
      NumberRoundTrip(bits[1..]);
      var n := FromBits(bits);
      assert n / 2 == FromBits(bits[1..]) && (n % 2 == 1 <==> bits[0]);
      assert bits == [bits[0]] + bits[1..];
    }
  }

  class BitWriter {
    var bits: Bits

    constructor ()
      ensures bits == []
    {
      bits := [];
    }

    // Appends the low bits of the number, one after the other.
    method Write(width: nat, number: nat)
      modifies this
      ensures bits == old(bits) + ToBits(number, width)
    {
      var left: nat, n: nat := width, number;
      while left > 0
        invariant left <= width && bits + ToBits(n, left) == old(bits) + ToBits(number, width)
      {
        bits := bits + [n % 2 == 1];
        left, n := left - 1, n / 2;
      }
    }
  }

  class BitReader {
    var rest: Bits

    constructor (bits: Bits)
      ensures rest == bits
    {
      rest := bits;
    }

    method Read(width: nat) returns (number: nat)
      requires width <= |rest|
      modifies this
      ensures number == FromBits(old(rest)[..width]) && rest == old(rest)[width..]
    {
      ghost var all := rest;
      number := 0;
      var place: nat, k: nat := 1, 0;
      while k < width
        invariant k <= width && rest == all[k..]
        invariant number + place * FromBits(all[k..width]) == FromBits(all[..width])
      {
        ReadStep(number, place, all[k..width]);
        assert all[k..width][1..] == all[k + 1..width] && all[k..width][0] == rest[0];
        number := number + if rest[0] then place else 0;
        place, rest, k := 2 * place, rest[1..], k + 1;
      }
      assert all[width..width] == [];
    }
  }

  lemma ReadStep(number: nat, place: nat, bits: Bits)
    requires bits != []
    ensures number + place * FromBits(bits) ==
            number + (if bits[0] then place else 0) + (2 * place) * FromBits(bits[1..])
  {
    Distribute(place, if bits[0] then 1 else 0, FromBits(bits[1..]));
  }

  lemma Distribute(p: nat, b: nat, f: nat)
    requires b <= 1
    ensures p * (b + 2 * f) == (if b == 1 then p else 0) + (2 * p) * f
  {
  }

  lemma MoveBracket(a: Bits, b: Bits, c: Bits)
    ensures a + (b + c) == (a + b) + c
  {
  }
}
