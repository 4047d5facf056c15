/** The 16-byte keys under which the solvers store positions. */
module Keys {
  import opened Cards
  import opened Positions
  import opened Boards
  import opened Placement
  import opened VarBase
  import opened Debondt
  import opened DebondtRoundTrip
  import opened DeltaStater

  type Key = seq<Byte>

  const KEY_LEN := 16

  // ---- Every key fits the buffer ----

  function Pow(b: nat, n: nat): nat {
    if n == 0 then 1 else b * Pow(b, n - 1)
  }

  lemma {:induction false} PowSum(b: nat, m: nat, n: nat)
    ensures Pow(b, m + n) == Pow(b, m) * Pow(b, n)
  {
    if m == 0 {
    } else {
      PowSum(b, m - 1, n);
      assert b * (Pow(b, m - 1) * Pow(b, n)) == b * Pow(b, m - 1) * Pow(b, n);
    }
  }

  lemma ProductStep(k: nat)
    requires k < 52
    ensures Product(Bases()[k..]) == BaseAt(k) * Product(Bases()[k + 1..])
  {
    assert Bases()[k..][0] == BaseAt(k) && Bases()[k..][1..] == Bases()[k + 1..];
  }

  lemma {:induction false} ProductOfOptions(k: nat)
    requires 4 <= k <= 48
    ensures Product(Bases()[k..]) == Pow(NUM_OPTS, 48 - k) * 81
    decreases 48 - k
  {
    ProductStep(if k < 48 then k else 47);
    if k == 48 {
      ProductStep(48);
      ProductStep(49);
      ProductStep(50);
      ProductStep(51);
      assert Bases()[52..] == [];
      assert Pow(NUM_OPTS, 0) == 1;
    } else {
      ProductOfOptions(k + 1);
      assert Pow(NUM_OPTS, 48 - k) == NUM_OPTS * Pow(NUM_OPTS, 47 - k);
    }
  }

  lemma PowFive()
    ensures Pow(5, 44) == 5684341886080801486968994140625
  {
    assert Pow(5, 11) == 48828125;
    PowSum(5, 11, 11);
    PowSum(5, 22, 22);
  }

  lemma FoundationStep(k: nat)
    requires k < 4
    ensures Product(Bases()[k..]) == 14 * Product(Bases()[k + 1..])
  {
    ProductStep(k);
  }

  lemma FirstFour()
    ensures Product(Bases()) == 38416 * Product(Bases()[4..])
  {
    FoundationStep(0);
    FoundationStep(1);
    FoundationStep(2);
    FoundationStep(3);
    assert Bases()[0..] == Bases();
  }

  lemma BufferSize()
    ensures Power256(KEY_LEN) == 0x1_0000_0000_0000_0000_0000_0000_0000_0000
  {
    assert Power256(8) == 0x1_0000_0000_0000_0000;
    assert Power256(12) == 0x1_0000_0000_0000_0000_0000_0000;
  }

  // 14 values for each foundation, 5 options for 44 cards and 3 for the kings: below 2^128.
  lemma ProductFitsBuffer()
    ensures Product(Bases()) == (14 * 14 * 14 * 14) * (5684341886080801486968994140625 * (3 * 3 * 3 * 3))
    ensures Product(Bases()) < Power256(KEY_LEN)
  {
    assert Product(Bases()[4..]) == 460431692772544920444488525390625 by {
      ProductOfOptions(4);
      PowFive();
    }
    FirstFour();
    BufferSize();
  }

  ghost function EncodeKey(s: Position): (key: Key)
    requires FullDeck(s)
    ensures |key| == KEY_LEN
  {
    ToBytes(Pack(Bases(), Digits(s)), KEY_LEN)
  }

  function DecodeKey(init: Position, key: Key): Position {
    BasesArePositive();
    Decode(init, Unpack(Bases(), FromBytes(key)))
  }

  lemma KeyHoldsDigits(s: Position)
    requires FullDeck(s)
    ensures FromBytes(EncodeKey(s)) == Pack(Bases(), Digits(s)) < Power256(KEY_LEN)
    ensures PositiveBases() && Unpack(Bases(), FromBytes(EncodeKey(s))) == Digits(s)
  {
    BasesArePositive();
    DigitsFit(s);
    PackBound(Bases(), Digits(s));
    ProductFitsBuffer();
    BytesRoundTrip(Pack(Bases(), Digits(s)), KEY_LEN);
    UnpackPack(Bases(), Digits(s));
  }

  // Decoding a key gives the encoded position up to placement.
  lemma KeyRoundTrip(init: Position, s: Position)
    requires Descends(init, s)
    ensures Alike(DecodeKey(init, EncodeKey(s)), s)
  {
    KeyHoldsDigits(s);
    RoundTrip(init, s);
  }

  // Equal keys mean positions that differ only by placement, and the other way round.
  lemma SameKeyIffAlike(init: Position, s: Position, t: Position)
    requires Descends(init, s) && Descends(init, t)
    ensures EncodeKey(s) == EncodeKey(t) <==> Alike(s, t)
  {
    KeyHoldsDigits(s);
    KeyHoldsDigits(t);
    SameDigitsIffAlike(init, s, t);
  }

  // ---- The encoder and decoder of the solver threads ----

  method WriteState(stater: Stater, s: Position) returns (w: Writer)
    requires FullDeck(s) && stater.cardStates.Length == CARD_ARRAY_LEN
    modifies stater.cardStates
    ensures fresh(w) && w.data == Pack(Bases(), Digits(s))
  {
    w := new Writer();
    stater.EncodeComposite(s, w);
  }

  method EncodeIntoBuffer(stater: Stater, s: Position) returns (key: Key)
    requires FullDeck(s) && stater.cardStates.Length == CARD_ARRAY_LEN
    modifies stater.cardStates
    ensures key == EncodeKey(s)
  {
    var w := WriteState(stater, s);
    var buffer := new Byte[KEY_LEN](_ => 0);
    WrittenKey(s, w.data, buffer.Length);
    var count := w.GetData(buffer);
    key := buffer[..];
  }

  lemma WrittenKey(s: Position, data: nat, len: nat)
    requires FullDeck(s) && data == Pack(Bases(), Digits(s)) && len == KEY_LEN
    ensures data < Power256(len) && EncodeKey(s) == ToBytes(data, len)
  {
    KeyHoldsDigits(s);
  }

  method DecodeIntoState(stater: Stater, key: Key, ghost s: Position) returns (t: Position)
    requires Descends(stater.init, s) && key == EncodeKey(s) && stater.cardStates.Length == CARD_ARRAY_LEN
    modifies stater.cardStates
    ensures t == DecodeKey(stater.init, key)
  {
    var reader := new Reader(key);
    var blankCols: seq<Column> := seq(|stater.init.cols|, _ => []);
    var blankCells: seq<Option<Card>> := seq(|stater.init.cells|, _ => None);
    var ret := new Board(Position(blankCols, blankCells, [0, 0, 0, 0]));
    KeyHoldsDigits(s);
    FreecellCardsFit(stater.init, s);
    stater.DecodeInto(reader, ret, Digits(s));
    t := ret.Pos();
  }

  lemma FreecellCardsFit(init: Position, s: Position)
    requires Descends(init, s)
    ensures |FreecellCards(Digits(s))| <= |init.cells|
  {
    var cards := FreecellCards(Digits(s));
    CellsRoundTrip(init, s);
    WrapLength(cards);
    assert |multiset(s.cells)| == |s.cells|;
    assert |multiset(Decode(init, Digits(s)).cells)| == |Decode(init, Digits(s)).cells|;
  }

  // ---- There are only so many keys ----

  lemma {:induction false} SmallNumbers(numbers: set<nat>, n: nat)
    requires forall x :: x in numbers ==> x < n
    ensures |numbers| <= n
  {
    if n == 0 {
      assert numbers == {};
    } else {
      SmallNumbers(numbers - {n - 1}, n - 1);
      assert |numbers| <= |numbers - {n - 1}| + 1;
    }
  }

  lemma {:induction false} FromBytesInjective(a: Key, b: Key)
    requires |a| == |b| && FromBytes(a) == FromBytes(b)
    ensures a == b
  {
    if a == [] {
    } else {
      assert a[0] == b[0] && FromBytes(a[1..]) == FromBytes(b[1..]);
      FromBytesInjective(a[1..], b[1..]);
      assert a == [a[0]] + a[1..] && b == [b[0]] + b[1..];
    }
  }

  lemma {:induction false} FromBytesBound(a: Key)
    ensures FromBytes(a) < Power256(|a|)
  {
    if a == [] {
    } else {
      FromBytesBound(a[1..]);
    }
  }

  lemma {:induction false} NumbersOfKeys(keys: set<Key>) returns (numbers: set<nat>)
    requires forall k :: k in keys ==> |k| == KEY_LEN
    ensures |numbers| == |keys|
    ensures forall x :: x in numbers ==> exists k :: k in keys && x == FromBytes(k)
    decreases |keys|
  {
    numbers := {};
    if keys != {} {
      var k :| k in keys;
      numbers := NumbersOfKeys(keys - {k});
      forall x | x in numbers ensures x != FromBytes(k) {
        var k' :| k' in keys - {k} && x == FromBytes(k');
        if x == FromBytes(k) { FromBytesInjective(k, k'); }
      }
      numbers := numbers + {FromBytes(k)};
    }
  }

  lemma KeysAreFew(keys: set<Key>)
    requires forall k :: k in keys ==> |k| == KEY_LEN
    ensures |keys| <= Power256(KEY_LEN)
  {
    var numbers := NumbersOfKeys(keys);
    forall x | x in numbers ensures x < Power256(KEY_LEN) {
      var k :| k in keys && x == FromBytes(k);
      FromBytesBound(k);
    }
    SmallNumbers(numbers, Power256(KEY_LEN));
  }
}
