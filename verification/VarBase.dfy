/** Packing digits of different bases into one number, and that number into a byte buffer. */
module VarBase {

  type Byte = b: nat | b < 256

  // The digits fit their bases.
  predicate Fits(bases: seq<nat>, digits: seq<nat>) {
    |bases| == |digits| && forall k :: 0 <= k < |bases| ==> digits[k] < bases[k]
  }

  function Pack(bases: seq<nat>, digits: seq<nat>): nat
    requires |bases| == |digits|
  {
    if digits == [] then 0 else digits[0] + bases[0] * Pack(bases[1..], digits[1..])
  }

  function Unpack(bases: seq<nat>, n: nat): (digits: seq<nat>)
    requires forall k :: 0 <= k < |bases| ==> bases[k] > 0
    ensures |digits| == |bases| && Fits(bases, digits)
  {
    if bases == [] then [] else [n % bases[0]] + Unpack(bases[1..], n / bases[0])
  }

  function Product(bases: seq<nat>): nat {
    if bases == [] then 1 else bases[0] * Product(bases[1..])
  }

  lemma MulMonotone(a: nat, b: nat, c: nat)
    ensures a <= b ==> c * a <= c * b
  {
    if a <= b { assert c * b == c * a + c * (b - a); }
  }

  lemma DivMod(q: nat, b: nat, r: nat)
    requires r < b
    ensures (r + b * q) % b == r && (r + b * q) / b == q
  {
    var k := (r + b * q) / b;
    MulMonotone(k + 1, q, b);
    MulMonotone(q + 1, k, b);
    assert b * k <= r + b * q < b * k + b;
    assert b * (k + 1) == b * k + b && b * (q + 1) == b * q + b;
    assert k == q;
  }

  lemma {:induction false} UnpackPack(bases: seq<nat>, digits: seq<nat>)
    requires Fits(bases, digits)
    ensures Unpack(bases, Pack(bases, digits)) == digits
  {
    if digits == [] {
    } else {
      UnpackPack(bases[1..], digits[1..]);
      DivMod(Pack(bases[1..], digits[1..]), bases[0], digits[0]);
    }
  }

  lemma {:induction false} PackBound(bases: seq<nat>, digits: seq<nat>)
    requires Fits(bases, digits)
    ensures Pack(bases, digits) < Product(bases)
  {
    if digits == [] {
    } else {
      PackBound(bases[1..], digits[1..]);
      DigitBelow(bases[0], digits[0], Pack(bases[1..], digits[1..]), Product(bases[1..]));
    }
  }

  lemma DigitBelow(b: nat, d: nat, p: nat, q: nat)
    requires d < b && p < q
    ensures d + b * p < b * q
  {
    MulMonotone(p + 1, q, b);
    assert b * (p + 1) == b * p + b;
  }

  lemma {:induction false} PackAppend(bases: seq<nat>, digits: seq<nat>, base: nat, item: nat)
    requires |bases| == |digits|
    ensures Pack(bases + [base], digits + [item]) == Pack(bases, digits) + Product(bases) * item
    ensures Product(bases + [base]) == Product(bases) * base
  {
    if digits == [] {
      assert Pack([base], [item]) == item + base * Pack([], []);
    } else {
      PackAppend(bases[1..], digits[1..], base, item);
      assert (bases + [base])[1..] == bases[1..] + [base] && (digits + [item])[1..] == digits[1..] + [item];
      Distribute(bases[0], Pack(bases[1..], digits[1..]), Product(bases[1..]), item);
      Distribute(bases[0], 0, Product(bases[1..]), base);
    }
  }

  lemma Distribute(b: nat, p: nat, q: nat, x: nat)
    ensures b * (p + q * x) == b * p + (b * q) * x
  {
  }

  // The writer keeps the packed number and the product of the bases so far.
  class Writer {
    var data: nat
    var multiplier: nat
    ghost var bases: seq<nat>
    ghost var digits: seq<nat>

    ghost predicate Valid()
      reads this
    {
      Fits(bases, digits) && data == Pack(bases, digits) && multiplier == Product(bases)
    }

    constructor ()
      ensures Valid() && bases == digits == []
    {
      data, multiplier, bases, digits := 0, 1, [], [];
    }

    method Write(base: nat, item: nat)
      requires Valid() && item < base
      modifies this
      ensures Valid() && bases == old(bases) + [base] && digits == old(digits) + [item]
    {
      PackAppend(bases, digits, base, item);
      data := data + multiplier * item;
      multiplier := multiplier * base;
      bases, digits := bases + [base], digits + [item];
    }

    // Writes the number into a cleared buffer, lowest byte first, and uses it up.
    method GetData(exported: array<Byte>) returns (count: nat)
      requires data < Power256(exported.Length)
      requires forall k :: 0 <= k < exported.Length ==> exported[k] == 0
      modifies this, exported
      ensures exported[..] == ToBytes(old(data), exported.Length)
      ensures count <= exported.Length && data == 0
    {
      count := 0;
      while data != 0
        invariant 0 <= count <= exported.Length && data < Power256(exported.Length - count)
        invariant forall k :: count <= k < exported.Length ==> exported[k] == 0
        invariant exported[..count] + ToBytes(data, exported.Length - count) == ToBytes(old(data), exported.Length)
      {
        ghost var done, left := exported[..count], exported.Length - count;
        exported[count] := data % 256;
        data := data / 256;
        count := count + 1;
        assert exported[..count] == done + [exported[count - 1]];
      }
      ZeroBytes(exported.Length - count);
      assert exported[..] == exported[..count] + ToBytes(0, exported.Length - count);
    }
  }

  class Reader {
    var data: nat

    constructor (buffer: seq<Byte>)
      ensures data == FromBytes(buffer)
    {
      var value, shift := 0, 1;
      for count := 0 to |buffer|
        invariant shift == Power256(count)
        invariant value + shift * FromBytes(buffer[count..]) == FromBytes(buffer)
      {
        ByteStep(buffer, count, shift);
        value := value + shift * buffer[count];
        shift := shift * 256;
      }
      data := value;
    }

    method Read(base: nat) returns (digit: nat)
      requires base > 0
      modifies this
      ensures digit == old(data) % base && data == old(data) / base
    {
      digit := data % base;
      data := data / base;
    }
  }

  // ---- The byte buffer ----

  function Power256(n: nat): nat {
    if n == 0 then 1 else 256 * Power256(n - 1)
  }

  lemma ByteStep(buffer: seq<Byte>, k: nat, shift: nat)
    requires k < |buffer| && shift == Power256(k)
    ensures shift * FromBytes(buffer[k..]) == shift * buffer[k] + (shift * 256) * FromBytes(buffer[k + 1..])
    ensures shift * 256 == Power256(k + 1)
  {
    assert buffer[k..][1..] == buffer[k + 1..];
    var rest := FromBytes(buffer[k + 1..]);
    assert FromBytes(buffer[k..]) == buffer[k] + 256 * rest;
    assert shift * (buffer[k] + 256 * rest) == shift * buffer[k] + shift * 256 * rest;
  }

  function ToBytes(n: nat, len: nat): (bytes: seq<Byte>)
    ensures |bytes| == len
  {
    if len == 0 then [] else [n % 256] + ToBytes(n / 256, len - 1)
  }

  function FromBytes(bytes: seq<Byte>): nat {
    if bytes == [] then 0 else bytes[0] + 256 * FromBytes(bytes[1..])
  }

  lemma {:induction false} ZeroBytes(len: nat)
    ensures forall k :: 0 <= k < len ==> ToBytes(0, len)[k] == 0
  {
    if len == 0 {
    } else {
      ZeroBytes(len - 1);
    }
  }

  lemma {:induction false} BytesRoundTrip(n: nat, len: nat)
    requires n < Power256(len)
    ensures FromBytes(ToBytes(n, len)) == n
  {
    if len == 0 {
    } else {
      BytesRoundTrip(n / 256, len - 1);
    }
  }

  // ---- Which digit and which byte stands where ----

  lemma DivDiv(n: nat, a: nat, b: nat)
    requires a > 0 && b > 0
    ensures a * b > 0 && n / a / b == n / (a * b)
  {
    DivTwice(n, a, b, n / a, n / a / b, n % a, n / a % b);
  }

  lemma DivTwice(n: nat, a: nat, b: nat, m: nat, q: nat, r: nat, r': nat)
    requires r < a && r' < b && n == r + a * m && m == r' + b * q
    ensures a * b > 0 && n / (a * b) == q
  {
    Nested(a, b, q, r, r');
    DivMod(q, a * b, a * r' + r);
  }

  lemma Nested(a: nat, b: nat, q: nat, r: nat, r': nat)
    requires r < a && r' < b
    ensures a * b > 0 && r + a * (r' + b * q) == (a * r' + r) + (a * b) * q && a * r' + r < a * b
  {
    MulMonotone(r' + 1, b, a);
    assert a * (r' + 1) == a * r' + a;
    assert a * (r' + b * q) == a * r' + a * (b * q) && a * (b * q) == (a * b) * q;
  }

  lemma {:induction false} ProductPositive(bases: seq<nat>)
    requires forall k :: 0 <= k < |bases| ==> bases[k] > 0
    ensures Product(bases) > 0
  {
    if bases != [] {
      ProductPositive(bases[1..]);
      MulMonotone(1, Product(bases[1..]), bases[0]);
    }
  }

  // The first digit is the lowest one: a digit counts as often as the product of the bases before it says.
  lemma {:induction false} DigitAt(bases: seq<nat>, digits: seq<nat>, k: nat)
    requires Fits(bases, digits) && k < |digits|
    ensures Product(bases[..k]) > 0 && digits[k] == Pack(bases, digits) / Product(bases[..k]) % bases[k]
  {
    ProductPositive(bases[..k]);
    var n, rest := Pack(bases, digits), Pack(bases[1..], digits[1..]);
    DivMod(rest, bases[0], digits[0]);
    if k == 0 {
      assert bases[..0] == [] && n / 1 == n;
    } else {
      DigitAt(bases[1..], digits[1..], k - 1);
      assert bases[..k][0] == bases[0] && bases[..k][1..] == bases[1..][..k - 1];
      DivDiv(n, bases[0], Product(bases[1..][..k - 1]));
    }
  }

  lemma {:induction false} ByteAt(n: nat, len: nat, k: nat)
    requires k < len
    ensures Power256(k) > 0 && ToBytes(n, len)[k] == n / Power256(k) % 256
  {
    if k > 0 {
      ByteAt(n / 256, len - 1, k - 1);
      DivDiv(n, 256, Power256(k - 1));
    }
  }
}
