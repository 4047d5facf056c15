/** The Debondt encoder and decoder with their loops over the table of card states. */
module DeltaStater {
  import opened Cards
  import opened Positions
  import opened Boards
  import opened VarBase
  import opened Debondt

  const CARD_ARRAY_LEN := 56

  function CardPos(c: Card): (k: nat)
    ensures 4 <= k < CARD_ARRAY_LEN
  {
    c.rank * 4 + c.suit
  }

  lemma CardPosInjective(c: Card, d: Card)
    requires CardPos(c) == CardPos(d)
    ensures c == d
  {
  }

  lemma OptFitsBase(s: Position, c: Card)
    requires FullDeck(s)
    ensures Opt(s, c) < NUM_OPTS && (c.rank == KING ==> Opt(s, c) < NUM_KING_OPTS)
  {
    assert HasOpt(s, c, Opt(s, c));
  }

  lemma NextDigit(s: Position, card: Card)
    requires FullDeck(s) && card.rank >= 2
    ensures var n, base := 4 + IndexOf(card), if card.rank == KING then NUM_KING_OPTS else NUM_OPTS;
            Opt(s, card) < base && Bases()[..n] + [base] == Bases()[..n + 1]
            && Digits(s)[..n] + [Opt(s, card)] == Digits(s)[..n + 1]
  {
    OptFitsBase(s, card);
    TakeNext(Bases(), 4 + IndexOf(card));
    TakeNext(Digits(s), 4 + IndexOf(card));
  }

  lemma DigitsFit(s: Position)
    requires FullDeck(s)
    ensures Fits(Bases(), Digits(s))
  {
    forall n | 0 <= n < 52 ensures Digits(s)[n] < Bases()[n] {
      if n >= 4 { OptFitsBase(s, CardAt(n - 4)); }
      else { assert s.found[n] <= KING; }
    }
  }

  // What the table holds for a card once it has been looked at.
  ghost predicate Known(s: Position, table: seq<int>, c: Card)
    requires FullDeck(s) && |table| == CARD_ARRAY_LEN
  {
    c.rank >= 2 ==> table[CardPos(c)] == Opt(s, c)
  }

  lemma StoreKnown(s: Position, table: seq<int>, c: Card, opt: nat)
    requires FullDeck(s) && |table| == CARD_ARRAY_LEN && HasOpt(s, c, opt)
    ensures forall x: Card :: Known(s, table, x) || x == c ==> Known(s, table[CardPos(c) := opt], x)
  {
    OptUnique(s, c, opt);
    forall x: Card | x != c ensures CardPos(x) != CardPos(c) {
      if CardPos(x) == CardPos(c) { CardPosInjective(x, c); }
    }
  }

  class Stater {
    const init: Position
    var cardStates: array<int>

    constructor (init: Position)
      ensures this.init == init && cardStates.Length == CARD_ARRAY_LEN && fresh(cardStates)
    {
      this.init := init;
      cardStates := new int[CARD_ARRAY_LEN];
    }

    method InitCardStates()
      requires cardStates.Length == CARD_ARRAY_LEN
      modifies cardStates
      ensures forall k :: 0 <= k < CARD_ARRAY_LEN ==> cardStates[k] == -1
    {
      for i := 0 to CARD_ARRAY_LEN
        invariant forall k :: 0 <= k < i ==> cardStates[k] == -1
      {
        cardStates[i] := -1;
      }
    }

    // Marks the cards on the foundations, and the aces, and writes the foundations.
    method EncodeFoundations(s: Position, w: Writer)
      requires FullDeck(s) && cardStates.Length == CARD_ARRAY_LEN && w.Valid() && w.bases == []
      modifies cardStates, w
      ensures w.Valid() && w.bases == Bases()[..4] && w.digits == s.found
      ensures forall c: Card :: c.rank <= s.found[c.suit] ==> Known(s, cardStates[..], c)
    {
      for suit := 0 to 4
        invariant w.Valid() && w.bases == Bases()[..suit] && w.digits == s.found[..suit]
        invariant forall c: Card :: c.suit < suit && c.rank <= s.found[c.suit] ==> Known(s, cardStates[..], c)
      {
        var rank := s.found[suit];
        assert Bases()[..suit] + [FOUNDATION_BASE] == Bases()[..suit + 1];
        assert s.found[..suit] + [rank] == s.found[..suit + 1];
        assert rank <= KING by { assert s.found[suit as Suit] <= KING; }
        w.Write(FOUNDATION_BASE, rank);
        var maxRank := if rank < 1 then 1 else rank;
        for r := 1 to maxRank + 1
          modifies cardStates
          invariant forall c: Card :: c.suit < suit && c.rank <= s.found[c.suit] ==> Known(s, cardStates[..], c)
          invariant forall c: Card :: c.suit == suit && c.rank <= s.found[c.suit] && c.rank < r ==>
                      Known(s, cardStates[..], c)
        {
          ghost var table := cardStates[..];
          var card := Card(r, suit);
          cardStates[CardPos(card)] := OPT_TOPMOST;
          assert cardStates[..] == table[CardPos(card) := OPT_TOPMOST];
          if r <= rank { StoreKnown(s, table, card, OPT_TOPMOST); }
          else { StoreAce(s, table, card, OPT_TOPMOST); }
        }
      }
      assert s.found[..4] == s.found;
    }

    // Sets the option of a card; what is known of other cards stays known.
    method Mark(s: Position, card: Card, opt: nat)
      requires FullDeck(s) && cardStates.Length == CARD_ARRAY_LEN && HasOpt(s, card, opt)
      modifies cardStates
      ensures forall c: Card :: old(Known(s, cardStates[..], c)) || c == card ==> Known(s, cardStates[..], c)
    {
      ghost var table := cardStates[..];
      cardStates[CardPos(card)] := opt;
      assert cardStates[..] == table[CardPos(card) := opt];
      StoreKnown(s, table, card, opt);
    }

    // Marks the cards in the freecells.
    method EncodeCells(s: Position)
      requires FullDeck(s) && cardStates.Length == CARD_ARRAY_LEN
      modifies cardStates
      ensures forall c: Card :: old(Known(s, cardStates[..], c)) ==> Known(s, cardStates[..], c)
      ensures forall c: Card :: Some(c) in s.cells ==> Known(s, cardStates[..], c)
    {
      for fc := 0 to |s.cells|
        invariant forall c: Card :: old(Known(s, cardStates[..], c)) ==> Known(s, cardStates[..], c)
        invariant forall j :: 0 <= j < fc && s.cells[j].Some? ==> Known(s, cardStates[..], s.cells[j].value)
      {
        if s.cells[fc].Some? {
          assert HasOpt(s, s.cells[fc].value, OPT_FREECELL);
          Mark(s, s.cells[fc].value, OPT_FREECELL);
        }
      }
    }

    // Marks the cards of one column by what they lie on.
    method EncodeColumn(s: Position, i: nat)
      requires FullDeck(s) && cardStates.Length == CARD_ARRAY_LEN && i < |s.cols|
      modifies cardStates
      ensures forall c: Card :: old(Known(s, cardStates[..], c)) ==> Known(s, cardStates[..], c)
      ensures forall c: Card :: c in s.cols[i] ==> Known(s, cardStates[..], c)
    {
      var col := s.cols[i];
      if col == [] {
        return;
      }
      if col[0].rank != 1 {
        assert HasOpt(s, col[0], ColumnOpt(col, 0));
        Mark(s, col[0], OPT_TOPMOST);
      }
      var parent := col[0];
      for k := 1 to |col|
        invariant parent == col[k - 1]
        invariant forall c: Card :: old(Known(s, cardStates[..], c)) ==> Known(s, cardStates[..], c)
        invariant forall l :: 0 <= l < k ==> Known(s, cardStates[..], col[l])
      {
        var child := col[k];
        if child.rank != 1 {
          assert HasOpt(s, child, ColumnOpt(col, k));
          Mark(s, child, CalcChildCardOption(parent, child));
        }
        parent := child;
      }
    }

    // Writes the digits of a position: the foundations, then one option for each card.
    method EncodeComposite(s: Position, w: Writer)
      requires FullDeck(s) && cardStates.Length == CARD_ARRAY_LEN && w.Valid() && w.bases == []
      modifies cardStates, w
      ensures w.Valid() && w.bases == Bases() && w.digits == Digits(s)
    {
      InitCardStates();
      EncodeFoundations(s, w);
      EncodeCells(s);
      for i := 0 to |s.cols|
        modifies cardStates
        invariant forall c: Card :: c.rank <= s.found[c.suit] || Some(c) in s.cells ==> Known(s, cardStates[..], c)
        invariant forall l :: 0 <= l < i ==> forall c: Card :: c in s.cols[l] ==> Known(s, cardStates[..], c)
      {
        EncodeColumn(s, i);
      }
      forall c: Card ensures Known(s, cardStates[..], c) {
        if s.found[c.suit] < c.rank {
          var inCell, i, k := Locate(s, c);
        }
      }
      WriteOptions(s, w);
    }

    method WriteOption(s: Position, card: Card, w: Writer)
      requires FullDeck(s) && cardStates.Length == CARD_ARRAY_LEN && card.rank >= 2 && Known(s, cardStates[..], card)
      requires var n := 4 + IndexOf(card); w.Valid() && w.bases == Bases()[..n] && w.digits == Digits(s)[..n]
      modifies w
      ensures var n := 5 + IndexOf(card); w.Valid() && w.bases == Bases()[..n] && w.digits == Digits(s)[..n]
    {
      NextDigit(s, card);
      var opt := cardStates[CardPos(card)];
      w.Write(if card.rank == KING then NUM_KING_OPTS else NUM_OPTS, opt);
    }

    method WriteOptions(s: Position, w: Writer)
      requires FullDeck(s) && cardStates.Length == CARD_ARRAY_LEN
      requires w.Valid() && w.bases == Bases()[..4] && w.digits == s.found
      requires forall c: Card :: Known(s, cardStates[..], c)
      modifies w
      ensures w.Valid() && w.bases == Bases() && w.digits == Digits(s)
    {
      assert Digits(s)[..4] == s.found;
      for rank := 2 to KING + 1
        invariant w.Valid() && w.bases == Bases()[..4 * (rank - 1)] && w.digits == Digits(s)[..4 * (rank - 1)]
      {
        for suit := 0 to 4
          invariant w.Valid() && w.bases == Bases()[..4 * (rank - 1) + suit]
          invariant w.digits == Digits(s)[..4 * (rank - 1) + suit]
        {
          WriteOption(s, Card(rank, suit), w);
        }
      }
      assert Bases()[..52] == Bases() && Digits(s)[..52] == Digits(s);
    }

    // ---- Decoding ----

    ghost predicate TableHolds(d: seq<nat>, upTo: nat)
      requires |d| == 52
      reads this, cardStates
    {
      cardStates.Length == CARD_ARRAY_LEN && TableIs(cardStates[..], d, upTo)
    }

    method MarkFoundation(suit: Suit, foundationRank: nat)
      requires cardStates.Length == CARD_ARRAY_LEN && foundationRank <= KING
      modifies cardStates
      ensures forall k :: 0 <= k < 4 ==> cardStates[k] == old(cardStates[k])
      ensures forall c: Card :: cardStates[CardPos(c)] ==
                if c.suit == suit && c.rank <= foundationRank then OPT_IN_FOUNDATION else old(cardStates[CardPos(c)])
    {
      for rank := 1 to foundationRank + 1
        invariant forall k :: 0 <= k < 4 ==> cardStates[k] == old(cardStates[k])
        invariant forall c: Card :: cardStates[CardPos(c)] ==
                    if c.suit == suit && c.rank < rank then OPT_IN_FOUNDATION else old(cardStates[CardPos(c)])
      {
        cardStates[CardPos(Card(rank, suit))] := OPT_IN_FOUNDATION;
      }
    }

    // The table holds the home cards of the first suits and nothing else.
    ghost predicate HomeMarked(d: seq<nat>, suits: nat)
      reads this, cardStates
      requires |d| == 52
    {
      && cardStates.Length == CARD_ARRAY_LEN
      && (forall k :: 0 <= k < 4 ==> cardStates[k] == -1)
      && forall c: Card :: cardStates[CardPos(c)] == if c.suit < suits && c.rank <= d[c.suit] then OPT_IN_FOUNDATION
                                                     else -1
    }

    method DecodeFoundation(suit: Suit, reader: Reader, ret: Board, ghost d: seq<nat>)
      requires |d| == 52 && HomeMarked(d, suit) && PositiveBases() && Unpack(Bases()[suit..], reader.data) == d[suit..]
      modifies cardStates, reader, ret`found
      ensures HomeMarked(d, suit + 1) && Unpack(Bases()[suit + 1..], reader.data) == d[suit + 1..]
      ensures ret.found == old(ret.found)[suit := d[suit]]
    {
      ReadStep(reader.data, d, suit);
      var foundationRank := reader.Read(FOUNDATION_BASE);
      MarkFoundation(suit, foundationRank);
      ret.found := ret.found[suit := foundationRank];
    }

    method DecodeFoundations(reader: Reader, ret: Board, ghost d: seq<nat>)
      requires cardStates.Length == CARD_ARRAY_LEN && PositiveBases() && d == Unpack(Bases(), reader.data)
      modifies cardStates, reader, ret`found
      ensures ret.found == d[..4] && TableHolds(d, 0) && Unpack(Bases()[4..], reader.data) == d[4..]
    {
      InitCardStates();
      ret.found := [0, 0, 0, 0];
      assert Bases()[0..] == Bases() && d[0..] == d;
      for suit := 0 to 4
        invariant HomeMarked(d, suit) && Unpack(Bases()[suit..], reader.data) == d[suit..]
        invariant forall u :: 0 <= u < suit ==> ret.found[u] == d[u]
      {
        DecodeFoundation(suit, reader, ret, d);
      }
    }

    method FindOrigTops() returns (origTops: array<bool>)
      ensures fresh(origTops) && origTops.Length == CARD_ARRAY_LEN
      ensures forall c: Card :: origTops[CardPos(c)] == IsOrigTop(init, c)
    {
      origTops := new bool[CARD_ARRAY_LEN](_ => false);
      for i := 0 to |init.cols|
        invariant forall c: Card :: origTops[CardPos(c)] <==>
                    exists l :: 0 <= l < i && init.cols[l] != [] && init.cols[l][0] == c
      {
        if init.cols[i] != [] {
          origTops[CardPos(init.cols[i][0])] := true;
        }
      }
    }

    // What has been read after the first n options: the table, the rest of the number, the cards for
    // the freecells, which fill the first freecells, and the cards that have become the top of a column.
    ghost predicate ReadSoFar(reader: Reader, ret: Board, next: nat, tops: seq<Card>, d: seq<nat>, n: nat)
      requires |d| == 52 && n <= 48 && PositiveBases()
      reads this, cardStates, reader, ret
    {
      && TableHolds(d, 4 + n) && Unpack(Bases()[4 + n..], reader.data) == d[4 + n..]
      && tops == Pick(n, IsNewTop(init, d))
      && FirstCells(ret.cells, next, Pick(n, IsFreecellCard(d))) && |FreecellCards(d)| <= |ret.cells|
    }

    // Reads the options of the cards of one rank.
    method DecodeRank(rank: Rank, reader: Reader, ret: Board, next: nat, tops: seq<Card>, origTops: array<bool>,
                      ghost d: seq<nat>)
      returns (next': nat, tops': seq<Card>)
      requires rank >= 2 && |d| == 52 && PositiveBases() && ReadSoFar(reader, ret, next, tops, d, 4 * (rank - 2))
      requires origTops.Length == CARD_ARRAY_LEN && forall c: Card :: origTops[CardPos(c)] == IsOrigTop(init, c)
      modifies cardStates, reader, ret`cells
      ensures ReadSoFar(reader, ret, next', tops', d, 4 * (rank - 1)) && |ret.cells| == old(|ret.cells|)
    {
      next', tops' := next, tops;
      ghost var n := 4 * (rank - 2);
      for suit := 0 to 4
        invariant ReadSoFar(reader, ret, next', tops', d, n + suit) && |ret.cells| == old(|ret.cells|)
      {
        next', tops' := DecodeCard(Card(rank, suit), reader, ret, next', tops', origTops, d);
      }
    }

    // Reads the option of a card into the table unless the card is on a foundation.
    method ReadOption(card: Card, reader: Reader, ghost d: seq<nat>) returns (inPlay: bool, option: nat)
      requires card.rank >= 2 && |d| == 52 && TableHolds(d, Order(card)) && PositiveBases()
      requires Unpack(Bases()[Order(card)..], reader.data) == d[Order(card)..]
      modifies cardStates, reader
      ensures TableHolds(d, Order(card) + 1) && Unpack(Bases()[Order(card) + 1..], reader.data) == d[Order(card) + 1..]
      ensures inPlay == (d[card.suit] < card.rank) && (inPlay ==> option == State(d, card))
    {
      ghost var table := cardStates[..];
      var existing := cardStates[CardPos(card)];
      ReadStep(reader.data, d, Order(card));
      TableStep(table, d, card);
      option := reader.Read(if card.rank == KING then NUM_KING_OPTS else NUM_OPTS);
      inPlay := existing < 0;
      if inPlay {
        cardStates[CardPos(card)] := option;
        assert cardStates[..] == table[CardPos(card) := option];
      }
    }

    method DecodeCard(card: Card, reader: Reader, ret: Board, next: nat, tops: seq<Card>, origTops: array<bool>,
                      ghost d: seq<nat>)
      returns (next': nat, tops': seq<Card>)
      requires card.rank >= 2 && |d| == 52 && PositiveBases() && ReadSoFar(reader, ret, next, tops, d, IndexOf(card))
      requires origTops.Length == CARD_ARRAY_LEN && forall c: Card :: origTops[CardPos(c)] == IsOrigTop(init, c)
      modifies cardStates, reader, ret`cells
      ensures ReadSoFar(reader, ret, next', tops', d, IndexOf(card) + 1) && |ret.cells| == old(|ret.cells|)
    {
      var inPlay, option := ReadOption(card, reader, d);
      next', tops' := PlaceCard(card, inPlay, option, ret, next, tops, origTops[CardPos(card)], d);
    }

    method PlaceCard(card: Card, inPlay: bool, option: nat, ret: Board, next: nat, tops: seq<Card>, isOrigTop: bool,
                     ghost d: seq<nat>)
      returns (next': nat, tops': seq<Card>)
      requires card.rank >= 2 && |d| == 52 && isOrigTop == IsOrigTop(init, card)
      requires inPlay == (d[card.suit] < card.rank) && (inPlay ==> option == State(d, card))
      requires tops == Pick(IndexOf(card), IsNewTop(init, d))
      requires FirstCells(ret.cells, next, Pick(IndexOf(card), IsFreecellCard(d))) && |FreecellCards(d)| <= |ret.cells|
      modifies ret`cells
      ensures tops' == Pick(IndexOf(card) + 1, IsNewTop(init, d))
      ensures FirstCells(ret.cells, next', Pick(IndexOf(card) + 1, IsFreecellCard(d)))
              && |ret.cells| == old(|ret.cells|)
    {
      next', tops' := next, tops;
      PlacedOrNot(init, d, card, inPlay, option, isOrigTop);
      if inPlay {
        if option == OPT_FREECELL {
          CellCardPlaced(d, card, ret.cells, next);
          ret.cells := ret.cells[next := Some(card)];
          next' := next + 1;
        } else if option == OPT_TOPMOST && !isOrigTop {
          tops' := tops + [card];
        }
      }
    }

    // All cards in the order of the code: aces first, then the ranks whose options are read.
    method DecodeOptions(reader: Reader, ret: Board, ghost d: seq<nat>) returns (tops: seq<Card>)
      requires |d| == 52 && TableHolds(d, 0) && PositiveBases() && Unpack(Bases()[4..], reader.data) == d[4..]
      requires |FreecellCards(d)| <= |ret.cells|
      modifies cardStates, reader, ret`cells
      ensures TableHolds(d, 52) && tops == NewTops(init, d)
      ensures ret.cells == PadCells(Wrap(FreecellCards(d)), old(|ret.cells|))
    {
      var origTops := FindOrigTops();
      MarkAces(d);
      var next: nat;
      next, tops := DecodeRanks(reader, ret, origTops, d);
      EmptyRest(ret, next, FreecellCards(d));
    }

    method DecodeRanks(reader: Reader, ret: Board, origTops: array<bool>, ghost d: seq<nat>)
      returns (next: nat, tops: seq<Card>)
      requires |d| == 52 && PositiveBases() && ReadSoFar(reader, ret, 0, [], d, 0)
      requires origTops.Length == CARD_ARRAY_LEN && forall c: Card :: origTops[CardPos(c)] == IsOrigTop(init, c)
      modifies cardStates, reader, ret`cells
      ensures ReadSoFar(reader, ret, next, tops, d, |d| - 4) && |ret.cells| == old(|ret.cells|)
    {
      next, tops := 0, [];
      for rank := 2 to KING + 1
        invariant ReadSoFar(reader, ret, next, tops, d, 4 * (rank - 2)) && |ret.cells| == old(|ret.cells|)
        invariant forall c: Card :: origTops[CardPos(c)] == IsOrigTop(init, c)
      {
        next, tops := DecodeRank(rank, reader, ret, next, tops, origTops, d);
      }
    }

    method EmptyRest(ret: Board, next: nat, ghost cards: seq<Card>)
      requires FirstCells(ret.cells, next, cards)
      modifies ret`cells
      ensures ret.cells == PadCells(Wrap(cards), old(|ret.cells|))
    {
      for fc := next to |ret.cells|
        invariant |ret.cells| == old(|ret.cells|) && ret.cells[..next] == Wrap(cards)
        invariant forall j :: next <= j < fc ==> ret.cells[j] == None
      {
        ret.cells := ret.cells[fc := None];
      }
      WrapLength(cards);
    }

    method MarkAces(ghost d: seq<nat>)
      requires |d| == 52 && TableHolds(d, 0)
      modifies cardStates
      ensures TableHolds(d, 4)
    {
      for suit := 0 to 4
        invariant TableHolds(d, suit)
      {
        ghost var table := cardStates[..];
        var ace := Card(1, suit);
        TableStep(table, d, ace);
        if cardStates[CardPos(ace)] < 0 {
          cardStates[CardPos(ace)] := OPT_ORIG_POS;
          assert cardStates[..] == table[CardPos(ace) := OPT_ORIG_POS];
        }
      }
    }

    // Continues a column downwards for as long as some card says it lies on the last one.
    method FillColumnWithDescendentCards(col: Column, ghost d: seq<nat>) returns (filled: Column)
      requires |d| == 52 && TableHolds(d, 52) && col != []
      ensures filled == col + Descendants(d, Last(col))
    {
      filled := col;
      var parent := Some(Last(col));
      while parent.Some?
        invariant parent.Some? ==> filled + Descendants(d, parent.value) == col + Descendants(d, Last(col))
        invariant parent.None? ==> filled == col + Descendants(d, Last(col))
        decreases if parent.Some? then parent.value.rank else 0
      {
        var child := FindChild(parent.value, d);
        if child.Some? {
          filled := filled + [child.value];
        }
        parent := child;
      }
    }

    method FindChild(parent: Card, ghost d: seq<nat>) returns (child: Option<Card>)
      requires |d| == 52 && TableHolds(d, 52)
      ensures child == ChildOf(d, parent)
      ensures child.Some? ==> child.value.rank < parent.rank
    {
      var wanted, candidateRank := WantedSuitBitOpt(parent), parent.rank - 1;
      var suit := 1 - parent.suit % 2;
      while suit < 4
        invariant suit % 2 == 1 - parent.suit % 2 && NoneBelow(d, parent, suit)
      {
        CandidateState(cardStates[..], d, parent, suit);
        if cardStates[candidateRank * 4 + suit] == wanted {
          FirstChild(d, parent, suit);
          return Some(Card(candidateRank, suit));
        }
        NextSuit(d, parent, suit);
        suit := suit + 2;
      }
      NoChild(d, parent);
      return None;
    }

    // The part of a column of the deal that is still in place.
    method KeepColumn(orig: Column, ghost d: seq<nat>) returns (col: Column)
      requires |d| == 52 && TableHolds(d, 52) && orig != []
      ensures col == orig[..KeptLen(d, orig, 1)]
    {
      col := [orig[0]];
      var parent := orig[0];
      for pos := 1 to |orig|
        invariant col == orig[..pos] && parent == orig[pos - 1]
        invariant KeptLen(d, orig, pos) == KeptLen(d, orig, 1)
      {
        var child := orig[pos];
        TableState(cardStates[..], d, child);
        if cardStates[CardPos(child)] == OPT_IN_FOUNDATION
           || cardStates[CardPos(child)] != CalcChildCardOption(parent, child) {
          return;
        }
        col := col + [child];
        parent := child;
      }
    }

    // A column of the deal keeps its place if its top card is still a top card; otherwise the last of
    // the new top cards takes it.
    method DecodeColumn(orig: Column, tops: seq<Card>, ghost d: seq<nat>) returns (col: Column, tops': seq<Card>)
      requires |d| == 52 && TableHolds(d, 52)
      ensures col == FirstColumn(d, orig, tops) && tops' == LeftTops(d, orig, tops)
    {
      col, tops' := [], tops;
      var topOpt := if orig == [] then -1 else cardStates[CardPos(orig[0])];
      if orig != [] { TableState(cardStates[..], d, orig[0]); }
      if topOpt != OPT_TOPMOST && topOpt != OPT_ORIG_POS {
        if tops != [] {
          col := FillColumnWithDescendentCards([tops[|tops| - 1]], d);
          tops' := tops[..|tops| - 1];
        }
        TopNotKept(d, orig, tops);
      } else {
        col := KeepColumn(orig, d);
        TopIsKept(d, orig, tops, col);
        col := FillColumnWithDescendentCards(col, d);
      }
    }

    method DecodeColumns(ret: Board, newTops: seq<Card>, ghost d: seq<nat>)
      requires |d| == 52 && TableHolds(d, 52) && |ret.cols| == |init.cols|
      modifies ret`cols
      ensures ret.cols == DecodeCols(d, init.cols, newTops)
    {
      var tops := newTops;
      ghost var done: seq<Column>, rest := [], init.cols;
      for i := 0 to |init.cols|
        invariant |ret.cols| == |init.cols| && ret.cols[..i] == done && init.cols[i..] == rest
        invariant done + DecodeCols(d, rest, tops) == DecodeCols(d, init.cols, newTops)
      {
        var col, tops' := DecodeColumn(init.cols[i], tops, d);
        ret.cols := ret.cols[i := col];
        Regroup(done, col, DecodeCols(d, rest[1..], tops'));
        done, rest, tops := done + [col], rest[1..], tops';
      }
    }

    // Rebuilds the position from the number in the reader.
    method DecodeInto(reader: Reader, ret: Board, ghost d: seq<nat>)
      requires cardStates.Length == CARD_ARRAY_LEN && PositiveBases() && d == Unpack(Bases(), reader.data)
      requires |ret.cols| == |init.cols| && |ret.cells| == |init.cells|
      requires |FreecellCards(d)| <= |init.cells|
      modifies cardStates, reader, ret
      ensures ret.Pos() == Decode(init, d)
    {
      DecodeFoundations(reader, ret, d);
      DecodeCards(reader, ret, d);
    }

    method DecodeCards(reader: Reader, ret: Board, ghost d: seq<nat>)
      requires |d| == 52 && TableHolds(d, 0) && PositiveBases() && Unpack(Bases()[4..], reader.data) == d[4..]
      requires |ret.cols| == |init.cols| && |ret.cells| == |init.cells| && ret.found == d[..4]
      requires |FreecellCards(d)| <= |init.cells|
      modifies cardStates, reader, ret
      ensures ret.Pos() == Decode(init, d)
    {
      var tops := DecodeOptions(reader, ret, d);
      DecodeColumns(ret, tops, d);
      DecodedParts(init, d, ret.Pos(), tops);
    }
  }

  lemma DecodedParts(init: Position, d: seq<nat>, t: Position, tops: seq<Card>)
    requires |d| == 52 && t.found == d[..4]
    requires t.cells == PadCells(Wrap(FreecellCards(d)), |init.cells|)
    requires tops == NewTops(init, d) && t.cols == DecodeCols(d, init.cols, tops)
    ensures t == Decode(init, d)
  {
  }

  lemma {:induction false} WrapLength(cards: seq<Card>)
    ensures |Wrap(cards)| == |cards|
  {
    if cards == [] {
    } else {
      WrapLength(cards[..|cards| - 1]);
    }
  }

  // Entries of the table that have been settled; rank 0 stays unused.
  ghost predicate TableIs(table: seq<int>, d: seq<nat>, upTo: nat)
    requires |d| == 52 && |table| == CARD_ARRAY_LEN
  {
    && (forall k :: 0 <= k < 4 ==> table[k] == -1)
    && forall c: Card :: table[CardPos(c)] == Settled(d, c, upTo)
  }

  // A column whose top card is still a top card is kept and continued; another starts from a new top card.
  lemma TopIsKept(d: seq<nat>, orig: Column, tops: seq<Card>, col: Column)
    requires |d| == 52 && TopKept(d, orig) && col == orig[..KeptLen(d, orig, 1)]
    ensures col != [] && FirstColumn(d, orig, tops) == col + Descendants(d, Last(col))
            && LeftTops(d, orig, tops) == tops
  {
  }

  lemma TopNotKept(d: seq<nat>, orig: Column, tops: seq<Card>)
    requires |d| == 52 && !TopKept(d, orig)
    ensures tops == [] ==> FirstColumn(d, orig, tops) == [] && LeftTops(d, orig, tops) == tops
    ensures tops != [] ==>
              && FirstColumn(d, orig, tops) == [Last(tops)] + Descendants(d, Last(tops))
              && LeftTops(d, orig, tops) == tops[..|tops| - 1]
  {
  }

  // No card of the other colour and a lower suit is placed on the parent.
  ghost predicate NoneBelow(d: seq<nat>, parent: Card, suit: nat)
    requires |d| == 52
  {
    forall u: Suit :: u < suit && u % 2 == 1 - parent.suit % 2 && parent.rank > 1 ==>
      State(d, Card(parent.rank - 1, u)) != WantedSuitBitOpt(parent)
  }

  lemma NextSuit(d: seq<nat>, parent: Card, suit: Suit)
    requires |d| == 52 && suit % 2 == 1 - parent.suit % 2 && NoneBelow(d, parent, suit)
    requires parent.rank > 1 ==> State(d, Card(parent.rank - 1, suit)) != WantedSuitBitOpt(parent)
    ensures NoneBelow(d, parent, suit + 2)
  {
    forall u: Suit | u < suit + 2 && u % 2 == 1 - parent.suit % 2 && parent.rank > 1
      ensures State(d, Card(parent.rank - 1, u)) != WantedSuitBitOpt(parent)
    {
      if u >= suit { assert u == suit; }
    }
  }

  // No card of rank 0 is marked as a child.
  lemma CandidateState(table: seq<int>, d: seq<nat>, parent: Card, suit: Suit)
    requires |d| == 52 && |table| == CARD_ARRAY_LEN && TableIs(table, d, 52)
    ensures table[(parent.rank - 1) * 4 + suit] == WantedSuitBitOpt(parent) <==>
            parent.rank > 1 && State(d, Card(parent.rank - 1, suit)) == WantedSuitBitOpt(parent)
  {
    if parent.rank > 1 { TableState(table, d, Card(parent.rank - 1, suit)); }
  }

  lemma FirstChild(d: seq<nat>, parent: Card, suit: Suit)
    requires |d| == 52 && parent.rank > 1 && suit % 2 == 1 - parent.suit % 2 && NoneBelow(d, parent, suit)
    requires State(d, Card(parent.rank - 1, suit)) == WantedSuitBitOpt(parent)
    ensures ChildOf(d, parent) == Some(Card(parent.rank - 1, suit))
  {
    if suit >= 2 {
      var low: Suit := suit - 2;
      assert low < suit && low % 2 == suit % 2;
      assert State(d, Card(parent.rank - 1, low)) != WantedSuitBitOpt(parent);
    }
  }

  lemma NoChild(d: seq<nat>, parent: Card)
    requires |d| == 52 && NoneBelow(d, parent, 4)
    ensures ChildOf(d, parent) == None
  {
    if parent.rank > 1 {
      var low: Suit, high: Suit := 1 - parent.suit % 2, 3 - parent.suit % 2;
      assert low % 2 == 1 - parent.suit % 2 && high % 2 == 1 - parent.suit % 2;
      assert State(d, Card(parent.rank - 1, low)) != WantedSuitBitOpt(parent);
      assert State(d, Card(parent.rank - 1, high)) != WantedSuitBitOpt(parent);
    }
  }

  lemma TableState(table: seq<int>, d: seq<nat>, c: Card)
    requires |d| == 52 && |table| == CARD_ARRAY_LEN && TableIs(table, d, 52)
    ensures table[CardPos(c)] == State(d, c)
  {
  }

  // The freecell cards found so far fill the first freecells.
  ghost predicate FirstCells(cells: seq<Option<Card>>, next: nat, cards: seq<Card>) {
    next == |cards| <= |cells| && cells[..next] == Wrap(cards)
  }

  lemma CellStep(cells: seq<Option<Card>>, next: nat, cards: seq<Card>, card: Card)
    requires FirstCells(cells, next, cards) && next < |cells|
    ensures FirstCells(cells[next := Some(card)], next + 1, cards + [card])
  {
    assert (cards + [card])[..next] == cards;
  }

  // What the option of a card adds to the freecell cards and to the new tops.
  lemma PlacedOrNot(init: Position, d: seq<nat>, card: Card, inPlay: bool, option: nat, isOrigTop: bool)
    requires card.rank >= 2 && |d| == 52 && isOrigTop == IsOrigTop(init, card)
    requires inPlay == (d[card.suit] < card.rank) && (inPlay ==> option == State(d, card))
    ensures var n := IndexOf(card);
            && Pick(n + 1, IsFreecellCard(d)) ==
               (if inPlay && option == OPT_FREECELL then Pick(n, IsFreecellCard(d)) + [card]
                else Pick(n, IsFreecellCard(d)))
            && Pick(n + 1, IsNewTop(init, d)) ==
               (if inPlay && option == OPT_TOPMOST && !isOrigTop then Pick(n, IsNewTop(init, d)) + [card]
                else Pick(n, IsNewTop(init, d)))
  {
    PickStep(IndexOf(card), IsFreecellCard(d));
    PickStep(IndexOf(card), IsNewTop(init, d));
  }

  // There is a freecell left for the card.
  lemma CellCardPlaced(d: seq<nat>, card: Card, cells: seq<Option<Card>>, next: nat)
    requires card.rank >= 2 && |d| == 52 && |FreecellCards(d)| <= |cells|
    requires FirstCells(cells, next, Pick(IndexOf(card), IsFreecellCard(d)))
    requires Pick(IndexOf(card) + 1, IsFreecellCard(d)) == Pick(IndexOf(card), IsFreecellCard(d)) + [card]
    ensures next < |cells|
    ensures FirstCells(cells[next := Some(card)], next + 1, Pick(IndexOf(card) + 1, IsFreecellCard(d)))
  {
    PickLength(IndexOf(card) + 1, |d| - 4, IsFreecellCard(d));
    CellStep(cells, next, Pick(IndexOf(card), IsFreecellCard(d)), card);
  }

  lemma PickStep(n: nat, wanted: Card -> bool)
    requires n < 48
    ensures Pick(n + 1, wanted) == if wanted(CardAt(n)) then Pick(n, wanted) + [CardAt(n)] else Pick(n, wanted)
  {
  }

  lemma {:induction false} PickLength(n: nat, m: nat, wanted: Card -> bool)
    requires n <= m <= 48
    ensures |Pick(n, wanted)| <= |Pick(m, wanted)|
    decreases m
  {
    if n < m { PickLength(n, m - 1, wanted); }
  }

  // Cards by rank, then suit.
  function Order(c: Card): nat {
    (c.rank - 1) * 4 + c.suit
  }

  // The table entry of a card when the first `upTo` cards have been gone through.
  function Settled(d: seq<nat>, c: Card, upTo: nat): int
    requires |d| == 52
  {
    if c.rank <= d[c.suit] then OPT_IN_FOUNDATION else if Order(c) < upTo then State(d, c) else -1
  }

  ghost predicate PositiveBases() {
    forall k :: 0 <= k < |Bases()| ==> Bases()[k] > 0
  }

  lemma BasesArePositive()
    ensures PositiveBases()
  {
  }

  lemma ReadStep(data: nat, d: seq<nat>, k: nat)
    requires k < 52 && |d| == 52 && PositiveBases() && Unpack(Bases()[k..], data) == d[k..]
    ensures data % BaseAt(k) == d[k] && d[k] < BaseAt(k)
    ensures Unpack(Bases()[k + 1..], data / BaseAt(k)) == d[k + 1..]
  {
    assert Bases()[k..][0] == BaseAt(k) && Bases()[k..][1..] == Bases()[k + 1..];
    assert d[k..][0] == d[k] && d[k..][1..] == d[k + 1..];
  }

  lemma StoreAce(s: Position, table: seq<int>, ace: Card, opt: nat)
    requires FullDeck(s) && |table| == CARD_ARRAY_LEN && ace.rank == 1
    ensures forall x: Card :: Known(s, table, x) ==> Known(s, table[CardPos(ace) := opt], x)
  {
  }

  lemma TableStep(table: seq<int>, d: seq<nat>, card: Card)
    requires |d| == 52 && |table| == CARD_ARRAY_LEN && TableIs(table, d, Order(card))
    ensures card.rank <= d[card.suit] ==> table[CardPos(card)] >= 0 && TableIs(table, d, Order(card) + 1)
    ensures card.rank > d[card.suit] ==>
              table[CardPos(card)] < 0 && TableIs(table[CardPos(card) := State(d, card)], d, Order(card) + 1)
  {
    forall c: Card
      ensures Settled(d, c, Order(card) + 1) == if c == card then State(d, card) else Settled(d, c, Order(card))
    {
      assert CardPos(c) == CardPos(card) ==> c == card by {
        if CardPos(c) == CardPos(card) { CardPosInjective(c, card); }
      }
    }
    forall c: Card | c != card ensures CardPos(c) != CardPos(card) {
      if CardPos(c) == CardPos(card) { CardPosInjective(c, card); }
    }
  }

  lemma Regroup(a: seq<Column>, x: Column, b: seq<Column>)
    ensures a + ([x] + b) == (a + [x]) + b
  {
  }
}
