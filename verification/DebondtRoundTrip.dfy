/**
 Decoding gives back the encoded position up to placement, for every position that can come from
 the initial deal by moving cards that are not aces.
 */
module DebondtRoundTrip {
  import opened Cards
  import opened Positions
  import opened Placement
  import opened Debondt

  // The column is still the start of a column of the initial deal, up to and including k.
  ghost predicate OnOriginal(init: Position, col: Column, k: nat)
    requires k < |col|
  {
    exists j :: 0 <= j < |init.cols| && k < |init.cols[j]| && col[..k + 1] == init.cols[j][..k + 1]
  }

  ghost predicate PlacedAt(col: Column, k: nat)
    requires k < |col|
  {
    col[k].rank != 1 && (k == 0 || IsParent(col[k], col[k - 1]))
  }

  // Every card of the column is where the deal put it or was placed there by the rules.
  ghost predicate ColumnDescends(init: Position, col: Column) {
    forall k :: 0 <= k < |col| ==> OnOriginal(init, col, k) || PlacedAt(col, k)
  }

  // Every column descends from the deal; aces move only to the foundations.
  ghost predicate Descends(init: Position, s: Position) {
    && FullDeck(init) && FullDeck(s)
    && |s.cols| == |init.cols| && |s.cells| == |init.cells|
    && (forall i {:trigger ColumnDescends(init, s.cols[i])} :: 0 <= i < |s.cols| ==> ColumnDescends(init, s.cols[i]))
    && (forall j :: 0 <= j < |s.cells| && s.cells[j].Some? ==> s.cells[j].value.rank != 1)
  }

  // ---- What the digits say about a card ----

  lemma StateIsOpt(s: Position, c: Card)
    requires FullDeck(s)
    ensures State(Digits(s), c) == if c.rank <= s.found[c.suit] then OPT_IN_FOUNDATION
                                   else if c.rank == 1 then OPT_ORIG_POS else Opt(s, c)
  {
    if c.rank >= 2 { assert Digits(s)[4 + IndexOf(c)] == Opt(s, CardAt(IndexOf(c))); }
  }

  lemma StateInColumn(s: Position, i: nat, k: nat)
    requires FullDeck(s) && i < |s.cols| && k < |s.cols[i]|
    ensures State(Digits(s), s.cols[i][k]) ==
            if s.cols[i][k].rank == 1 then OPT_ORIG_POS else ColumnOpt(s.cols[i], k)
  {
    var c := s.cols[i][k];
    StateIsOpt(s, c);
    InPlayNotHome(s, i, k);
    assert HasOpt(s, c, ColumnOpt(s.cols[i], k));
    OptUnique(s, c, ColumnOpt(s.cols[i], k));
  }

  lemma StateInCell(s: Position, c: Card)
    requires FullDeck(s) && Some(c) in s.cells && c.rank != 1
    ensures State(Digits(s), c) == OPT_FREECELL
  {
    var j :| 0 <= j < |s.cells| && s.cells[j] == Some(c);
    CellNotHome(s, j);
    StateIsOpt(s, c);
    assert HasOpt(s, c, OPT_FREECELL);
    OptUnique(s, c, OPT_FREECELL);
  }

  // A card whose state is neither home nor freecell is in a column with that state.
  lemma FindByState(init: Position, s: Position, c: Card) returns (i: nat, k: nat)
    requires Descends(init, s)
    requires State(Digits(s), c) != OPT_IN_FOUNDATION && State(Digits(s), c) != OPT_FREECELL
    ensures i < |s.cols| && k < |s.cols[i]| && s.cols[i][k] == c
    ensures c.rank != 1 ==> ColumnOpt(s.cols[i], k) == State(Digits(s), c)
  {
    StateIsOpt(s, c);
    var inCell;
    inCell, i, k := Locate(s, c);
    if inCell {
      StateInCell(s, c);
      assert false;
    }
    StateInColumn(s, i, k);
  }

  // ---- Rebuilding one column ----

  lemma WantedIsParent(c: Card, p: Card, q: Card)
    requires IsParent(c, q) && c.rank + 1 == p.rank && !SameColour(c.suit, p.suit)
    requires WantedSuitBitOpt(p) == WantedSuitBitOpt(q)
    ensures p == q
  {
  }

  lemma ChildIsBelow(init: Position, s: Position, i: nat, k: nat, c: Card)
    requires Descends(init, s) && i < |s.cols| && k < |s.cols[i]|
    requires IsParent(c, s.cols[i][k]) && State(Digits(s), c) == WantedSuitBitOpt(s.cols[i][k])
    ensures k + 1 < |s.cols[i]| && s.cols[i][k + 1] == c && c.rank != 1
  {
    StateIsOpt(s, c);
    var i', k' := FindByState(init, s, c);
    WantedIsParent(c, s.cols[i][k], s.cols[i'][k' - 1]);
    UniqueInColumns(s, i, k, i', k' - 1);
  }

  lemma CandidateIsBelow(init: Position, s: Position, i: nat, k: nat, c: Card)
    requires Descends(init, s) && i < |s.cols| && k < |s.cols[i]| && IsParent(c, s.cols[i][k])
    ensures State(Digits(s), c) == WantedSuitBitOpt(s.cols[i][k]) <==>
            k + 1 < |s.cols[i]| && s.cols[i][k + 1] == c && c.rank != 1
  {
    if State(Digits(s), c) == WantedSuitBitOpt(s.cols[i][k]) { ChildIsBelow(init, s, i, k, c); }
    if k + 1 < |s.cols[i]| { StateInColumn(s, i, k + 1); }
  }

  function Below(col: Column, k: nat): Option<Card>
    requires k < |col|
  {
    if k + 1 < |col| && PlacedHere(col[k], col[k + 1]) then Some(col[k + 1]) else None
  }

  predicate PlacedHere(parent: Card, c: Card) {
    c.rank != 1 && IsParent(c, parent)
  }

  lemma ChildOfIsNext(init: Position, s: Position, i: nat, k: nat)
    requires Descends(init, s) && i < |s.cols| && k < |s.cols[i]|
    ensures ChildOf(Digits(s), s.cols[i][k]) == Below(s.cols[i], k)
  {
    var p := s.cols[i][k];
    if p.rank != 1 {
      var low, high := Card(p.rank - 1, 1 - p.suit % 2), Card(p.rank - 1, 3 - p.suit % 2);
      OnlyCandidates(p, low, high);
      CandidateIsBelow(init, s, i, k, low);
      CandidateIsBelow(init, s, i, k, high);
    }
  }

  lemma OnlyCandidates(p: Card, low: Card, high: Card)
    requires p.rank != 1 && low == Card(p.rank - 1, 1 - p.suit % 2) && high == Card(p.rank - 1, 3 - p.suit % 2)
    ensures IsParent(low, p) && IsParent(high, p) && forall c: Card :: IsParent(c, p) ==> c == low || c == high
  {
  }

  lemma {:induction false} DescendantsFollow(d: seq<nat>, col: Column, k: nat)
    requires |d| == 52 && k < |col|
    requires forall l :: k <= l < |col| ==> ChildOf(d, col[l]) == if l + 1 < |col| then Some(col[l + 1]) else None
    ensures Descendants(d, col[k]) == col[k + 1..]
    decreases |col| - k
  {
    assert ChildOf(d, col[k]) == if k + 1 < |col| then Some(col[k + 1]) else None;
    if k + 1 < |col| {
      DescendantsFollow(d, col, k + 1);
      assert col[k + 1..] == [col[k + 1]] + col[k + 2..];
    }
  }

  lemma DescendantsAreRest(init: Position, s: Position, i: nat, k: nat)
    requires Descends(init, s) && i < |s.cols| && k < |s.cols[i]|
    requires forall l :: k < l < |s.cols[i]| ==> PlacedAt(s.cols[i], l)
    ensures Descendants(Digits(s), s.cols[i][k]) == s.cols[i][k + 1..]
  {
    var d, col := Digits(s), s.cols[i];
    forall l | k <= l < |col| ensures ChildOf(d, col[l]) == if l + 1 < |col| then Some(col[l + 1]) else None {
      ChildOfIsNext(init, s, i, l);
      assert l + 1 < |col| ==> PlacedAt(col, l + 1);
    }
    DescendantsFollow(d, col, k);
  }

  lemma OriginalColumn(init: Position, s: Position, i: nat, j: nat, k: nat)
    requires Descends(init, s) && i < |s.cols| && j < |init.cols| && k < |s.cols[i]|
    requires init.cols[j] != [] && s.cols[i][0] == init.cols[j][0] && OnOriginal(init, s.cols[i], k)
    ensures k < |init.cols[j]| && s.cols[i][k] == init.cols[j][k]
  {
    var j' :| 0 <= j' < |init.cols| && k < |init.cols[j']| && s.cols[i][..k + 1] == init.cols[j'][..k + 1];
    assert s.cols[i][..k + 1][0] == init.cols[j'][..k + 1][0];
    assert s.cols[i][..k + 1][k] == init.cols[j'][..k + 1][k];
    UniqueInColumns(init, j, 0, j', 0);
  }

  // A card still marked as in its original place is there, and so is everything above it.
  lemma StillInPlace(init: Position, s: Position, i: nat, j: nat, pos: nat)
    requires Descends(init, s) && i < |s.cols| && j < |init.cols| && 0 < pos < |init.cols[j]|
    requires s.cols[i] != [] && s.cols[i][0] == init.cols[j][0]
    requires State(Digits(s), init.cols[j][pos]) == OPT_ORIG_POS
    ensures pos < |s.cols[i]| && s.cols[i][pos] == init.cols[j][pos]
  {
    var c := init.cols[j][pos];
    var i', k' := FindByState(init, s, c);
    var col := s.cols[i'];
    assert ColumnDescends(init, col) && !PlacedAt(col, k');
    var j' :| 0 <= j' < |init.cols| && k' < |init.cols[j']| && col[..k' + 1] == init.cols[j'][..k' + 1];
    assert col[..k' + 1][k'] == init.cols[j'][k'] && col[..k' + 1][0] == init.cols[j'][0];
    UniqueInColumns(init, j, pos, j', k');
    UniqueInColumns(s, i, 0, i', 0);
  }

  lemma NextIsKept(init: Position, s: Position, i: nat, j: nat, pos: nat)
    requires Descends(init, s) && i < |s.cols| && j < |init.cols| && 0 < pos <= |s.cols[i]| && pos < |init.cols[j]|
    requires s.cols[i][0] == init.cols[j][0] && s.cols[i][pos - 1] == init.cols[j][pos - 1]
    requires KeptLen(Digits(s), init.cols[j], pos) != pos
    ensures pos < |s.cols[i]| && s.cols[i][pos] == init.cols[j][pos]
  {
    var orig := init.cols[j];
    if CalcChildCardOption(orig[pos - 1], orig[pos]) == OPT_ORIG_POS {
      StillInPlace(init, s, i, j, pos);
    } else {
      ChildIsBelow(init, s, i, pos - 1, orig[pos]);
    }
  }

  lemma RestIsPlaced(init: Position, s: Position, i: nat, j: nat, pos: nat, l: nat)
    requires Descends(init, s) && i < |s.cols| && j < |init.cols| && 0 < pos <= l < |s.cols[i]| && pos <= |init.cols[j]|
    requires s.cols[i][0] == init.cols[j][0] && s.cols[i][pos - 1] == init.cols[j][pos - 1]
    requires KeptLen(Digits(s), init.cols[j], pos) == pos
    ensures PlacedAt(s.cols[i], l)
  {
    var col := s.cols[i];
    assert ColumnDescends(init, col);
    if OnOriginal(init, col, l) && !PlacedAt(col, l) {
      OnOriginalAbove(init, col, pos, l);
      OriginalColumn(init, s, i, j, pos);
      StateInColumn(s, i, pos);
      assert false;
    }
  }

  lemma KeptLenStep(d: seq<nat>, orig: Column, pos: nat)
    requires |d| == 52 && 0 < pos <= |orig| && KeptLen(d, orig, pos) != pos
    ensures pos < |orig| && KeptLen(d, orig, pos) == KeptLen(d, orig, pos + 1)
  {
  }

  lemma {:induction false} KeptLenIsCommon(init: Position, s: Position, i: nat, j: nat, pos: nat)
    requires Descends(init, s) && i < |s.cols| && j < |init.cols|
    requires 0 < pos <= |s.cols[i]| && pos <= |init.cols[j]| && s.cols[i][..pos] == init.cols[j][..pos]
    ensures var m := KeptLen(Digits(s), init.cols[j], pos);
            && m <= |s.cols[i]| && s.cols[i][..m] == init.cols[j][..m]
            && forall l :: m <= l < |s.cols[i]| ==> PlacedAt(s.cols[i], l)
    decreases |init.cols[j]| - pos
  {
    var d, orig, col := Digits(s), init.cols[j], s.cols[i];
    assert col[..pos][0] == col[0] && orig[..pos][0] == orig[0] && col[..pos][pos - 1] == orig[..pos][pos - 1];
    if KeptLen(d, orig, pos) != pos {
      KeptLenStep(d, orig, pos);
      NextIsKept(init, s, i, j, pos);
      TakeNext(col, pos);
      TakeNext(orig, pos);
      KeptLenIsCommon(init, s, i, j, pos + 1);
    } else {
      forall l | pos <= l < |col| ensures PlacedAt(col, l) { RestIsPlaced(init, s, i, j, pos, l); }
    }
  }

  lemma OnOriginalAbove(init: Position, col: Column, k: nat, l: nat)
    requires k <= l < |col| && OnOriginal(init, col, l)
    ensures OnOriginal(init, col, k)
  {
    var j :| 0 <= j < |init.cols| && l < |init.cols[j]| && col[..l + 1] == init.cols[j][..l + 1];
    assert col[..k + 1] == col[..l + 1][..k + 1] == init.cols[j][..l + 1][..k + 1] == init.cols[j][..k + 1];
  }

  lemma RestAfter(init: Position, s: Position, i: nat, j: nat, m: nat)
    requires Descends(init, s) && i < |s.cols| && j < |init.cols|
    requires 0 < m <= |s.cols[i]| && m <= |init.cols[j]| && s.cols[i][..m] == init.cols[j][..m]
    requires forall l :: m <= l < |s.cols[i]| ==> PlacedAt(s.cols[i], l)
    ensures init.cols[j][..m] + Descendants(Digits(s), init.cols[j][m - 1]) == s.cols[i]
  {
    assert s.cols[i][..m][m - 1] == init.cols[j][..m][m - 1];
    DescendantsAreRest(init, s, i, m - 1);
  }

  lemma KeptColumnExact(init: Position, s: Position, i: nat, j: nat)
    requires Descends(init, s) && i < |s.cols| && j < |init.cols|
    requires s.cols[i] != [] && init.cols[j] != [] && s.cols[i][0] == init.cols[j][0]
    ensures KeptColumn(Digits(s), init.cols[j]) == s.cols[i]
  {
    assert s.cols[i][..1] == [s.cols[i][0]] && init.cols[j][..1] == [init.cols[j][0]];
    KeptLenIsCommon(init, s, i, j, 1);
    RestAfter(init, s, i, j, KeptLen(Digits(s), init.cols[j], 1));
  }

  lemma OnOriginalTop(init: Position, col: Column, k: nat)
    requires k < |col| && OnOriginal(init, col, k)
    ensures IsOrigTop(init, col[0])
  {
    var j :| 0 <= j < |init.cols| && k < |init.cols[j]| && col[..k + 1] == init.cols[j][..k + 1];
    assert col[0] == col[..k + 1][0] == init.cols[j][..k + 1][0] == init.cols[j][0];
  }

  lemma NewColumnExact(init: Position, s: Position, i: nat)
    requires Descends(init, s) && i < |s.cols| && s.cols[i] != [] && !IsOrigTop(init, s.cols[i][0])
    ensures [s.cols[i][0]] + Descendants(Digits(s), s.cols[i][0]) == s.cols[i]
  {
    NewColumnPlaced(init, s, i);
    DescendantsAreRest(init, s, i, 0);
  }

  lemma NewColumnPlaced(init: Position, s: Position, i: nat)
    requires Descends(init, s) && i < |s.cols| && s.cols[i] != [] && !IsOrigTop(init, s.cols[i][0])
    ensures forall l :: 0 < l < |s.cols[i]| ==> PlacedAt(s.cols[i], l)
  {
    var col := s.cols[i];
    assert ColumnDescends(init, col);
    forall l | 0 < l < |col| ensures PlacedAt(col, l) {
      if OnOriginal(init, col, l) { OnOriginalTop(init, col, l); }
    }
  }

  // ---- Putting the columns together ----

  // The top cards of the nonempty columns.
  ghost function Tops(cols: seq<Column>): multiset<Card> {
    if cols == [] then multiset{}
    else (if cols[0] == [] then multiset{} else multiset{cols[0][0]}) + Tops(cols[1..])
  }

  lemma {:induction false} TopsInTableau(cols: seq<Column>)
    ensures Tops(cols) <= Tableau(cols)
  {
    if cols == [] {
    } else {
      TopsInTableau(cols[1..]);
      if cols[0] != [] { assert cols[0][0] in multiset(cols[0]); }
    }
  }

  lemma {:induction false} TopsSize(cols: seq<Column>)
    ensures |Tops(cols)| <= |cols|
  {
    if cols == [] {
    } else {
      TopsSize(cols[1..]);
    }
  }

  lemma {:induction false} TopsMember(cols: seq<Column>, t: Card)
    ensures t in Tops(cols) <==> exists i :: 0 <= i < |cols| && cols[i] != [] && cols[i][0] == t
  {
    if cols == [] {
    } else {
      TopsMember(cols[1..], t);
      if t in Tops(cols[1..]) {
        var i :| 0 <= i < |cols[1..]| && cols[1..][i] != [] && cols[1..][i][0] == t;
        assert cols[i + 1] != [] && cols[i + 1][0] == t;
      }
      forall i | 0 < i < |cols| && cols[i] != [] && cols[i][0] == t ensures t in Tops(cols[1..]) {
        assert cols[1..][i - 1] == cols[i];
      }
    }
  }

  lemma {:induction false} ColumnAtMostTops(cols: seq<Column>, x: Column)
    requires x != []
    ensures multiset(cols)[x] <= Tops(cols)[x[0]]
  {
    if cols == [] {
    } else {
      ColumnAtMostTops(cols[1..], x);
      assert cols == [cols[0]] + cols[1..];
      assert multiset(cols) == multiset{cols[0]} + multiset(cols[1..]);
    }
  }

  // The columns of the deal whose top card is still a top card.
  function KeptCols(d: seq<nat>, orig: seq<Column>): (kept: seq<Column>)
    requires |d| == 52
    ensures |kept| == |orig|
  {
    if orig == [] then [] else [if TopKept(d, orig[0]) then orig[0] else []] + KeptCols(d, orig[1..])
  }

  lemma {:induction false} KeptTopsMember(d: seq<nat>, orig: seq<Column>, t: Card)
    requires |d| == 52
    ensures Tops(KeptCols(d, orig)) <= Tops(orig)
    ensures t in Tops(KeptCols(d, orig)) <==>
            t in Tops(orig) && (State(d, t) == OPT_TOPMOST || State(d, t) == OPT_ORIG_POS)
  {
    if orig == [] {
    } else {
      KeptTopsMember(d, orig[1..], t);
      assert KeptCols(d, orig)[1..] == KeptCols(d, orig[1..]);
    }
  }

  lemma DecodedTopsStep(d: seq<nat>, orig: seq<Column>, tops: seq<Card>)
    requires |d| == 52 && orig != []
    requires var rest := LeftTops(d, orig[0], tops);
             Tops(DecodeCols(d, orig[1..], rest)) == Tops(KeptCols(d, orig[1..])) + multiset(rest)
    ensures Tops(DecodeCols(d, orig, tops)) == Tops(KeptCols(d, orig)) + multiset(tops)
  {
    var rest := LeftTops(d, orig[0], tops);
    FirstColumnTop(d, orig[0], tops);
    TopsAdd(FirstColumn(d, orig[0], tops), if TopKept(d, orig[0]) then orig[0] else [],
            DecodeCols(d, orig[1..], rest), KeptCols(d, orig[1..]), tops, rest);
  }

  lemma TopsAdd(x: Column, k: Column, cols: seq<Column>, kept: seq<Column>, tops: seq<Card>, rest: seq<Card>)
    requires Tops(cols) == Tops(kept) + multiset(rest)
    requires if k != [] then x != [] && x[0] == k[0] && tops == rest
             else if x == [] then tops == rest else tops == rest + [x[0]]
    ensures Tops([x] + cols) == Tops([k] + kept) + multiset(tops)
  {
    TopsCons(x, cols);
    TopsCons(k, kept);
  }

  lemma TopsCons(x: Column, cols: seq<Column>)
    ensures Tops([x] + cols) == (if x == [] then multiset{} else multiset{x[0]}) + Tops(cols)
  {
    assert ([x] + cols)[1..] == cols;
  }

  lemma FirstColumnTop(d: seq<nat>, orig: Column, tops: seq<Card>)
    requires |d| == 52
    ensures var x, rest := FirstColumn(d, orig, tops), LeftTops(d, orig, tops);
            if TopKept(d, orig) then x != [] && x[0] == orig[0] && tops == rest
            else if x == [] then tops == rest else tops == rest + [x[0]]
  {
    if TopKept(d, orig) { assert KeptColumn(d, orig)[0] == orig[0]; }
    else if tops != [] { assert tops == tops[..|tops| - 1] + [tops[|tops| - 1]]; }
  }

  // All new top cards find a column when there is room for them.
  lemma {:induction false} DecodedTops(d: seq<nat>, orig: seq<Column>, tops: seq<Card>)
    requires |d| == 52 && |Tops(KeptCols(d, orig))| + |tops| <= |orig|
    ensures Tops(DecodeCols(d, orig, tops)) == Tops(KeptCols(d, orig)) + multiset(tops)
    decreases |orig|
  {
    if orig == [] {
    } else {
      TopsSize(KeptCols(d, orig[1..]));
      assert KeptCols(d, orig)[1..] == KeptCols(d, orig[1..]);
      DecodedTops(d, orig[1..], LeftTops(d, orig[0], tops));
      DecodedTopsStep(d, orig, tops);
    }
  }

  // Every decoded column comes from a kept column or from one of the new top cards.
  lemma {:induction false} DecodedFrom(d: seq<nat>, orig: seq<Column>, tops: seq<Card>, x: Column)
    requires |d| == 52 && x in DecodeCols(d, orig, tops) && x != []
    ensures (exists o :: o in orig && TopKept(d, o) && x == KeptColumn(d, o))
         || (exists t :: t in tops && x == [t] + Descendants(d, t))
    decreases |orig|
  {
    if x != FirstColumn(d, orig[0], tops) {
      DecodedFrom(d, orig[1..], LeftTops(d, orig[0], tops), x);
    } else if TopKept(d, orig[0]) {
      assert x == KeptColumn(d, orig[0]);
    } else {
      assert x == [tops[|tops| - 1]] + Descendants(d, tops[|tops| - 1]);
    }
  }

  lemma PickCountStep(n: nat, wanted: Card -> bool, c: Card)
    requires 0 < n <= 48
    ensures multiset(Pick(n, wanted))[c] ==
            multiset(Pick(n - 1, wanted))[c] + if c == CardAt(n - 1) && wanted(c) then 1 else 0
  {
    var more := if wanted(CardAt(n - 1)) then [CardAt(n - 1)] else [];
    assert Pick(n, wanted) == Pick(n - 1, wanted) + more;
  }

  lemma IsCardAt(n: nat, c: Card)
    requires n < 48
    ensures c == CardAt(n) <==> c.rank >= 2 && IndexOf(c) == n
  {
  }

  lemma {:induction false} PickCount(n: nat, wanted: Card -> bool, c: Card)
    requires n <= 48
    ensures multiset(Pick(n, wanted))[c] == if c.rank >= 2 && IndexOf(c) < n && wanted(c) then 1 else 0
  {
    if n == 0 {
    } else {
      PickCount(n - 1, wanted, c);
      PickCountStep(n, wanted, c);
      IsCardAt(n - 1, c);
    }
  }

  ghost predicate IsTop(cols: seq<Column>, t: Card) {
    exists i :: 0 <= i < |cols| && cols[i] != [] && cols[i][0] == t
  }

  lemma TopIsPredicted(init: Position, s: Position, i: nat)
    requires Descends(init, s) && i < |s.cols| && s.cols[i] != []
    ensures var t, d := s.cols[i][0], Digits(s);
            if IsOrigTop(init, t) then State(d, t) == OPT_TOPMOST || State(d, t) == OPT_ORIG_POS
            else t.rank >= 2 && IsNewTop(init, d)(t)
  {
    StateInColumn(s, i, 0);
    assert ColumnDescends(init, s.cols[i]);
    if OnOriginal(init, s.cols[i], 0) { OnOriginalTop(init, s.cols[i], 0); }
  }

  lemma PredictedIsTop(init: Position, s: Position, t: Card)
    requires Descends(init, s)
    requires State(Digits(s), t) == OPT_TOPMOST || (IsOrigTop(init, t) && State(Digits(s), t) == OPT_ORIG_POS)
    ensures IsTop(s.cols, t)
  {
    StateIsOpt(s, t);
    var i, k := FindByState(init, s, t);
    if State(Digits(s), t) == OPT_ORIG_POS {
      var j :| 0 <= j < |init.cols| && init.cols[j] != [] && init.cols[j][0] == t;
      var col := s.cols[i];
      assert ColumnDescends(init, col) && !PlacedAt(col, k);
      var j' :| 0 <= j' < |init.cols| && k < |init.cols[j']| && col[..k + 1] == init.cols[j'][..k + 1];
      assert t == col[..k + 1][k] == init.cols[j'][k];
      UniqueInColumns(init, j, 0, j', k);
    }
    assert k == 0;
  }

  lemma TopsAtMostOne(s: Position, t: Card)
    requires FullDeck(s)
    ensures Tops(s.cols)[t] <= 1
  {
    TopsInTableau(s.cols);
    assert Copies(s, t) <= 1;
  }

  lemma TopIffPredicted(init: Position, s: Position, t: Card)
    requires Descends(init, s)
    ensures var d := Digits(s);
            IsTop(s.cols, t) <==>
            || (IsOrigTop(init, t) && (State(d, t) == OPT_TOPMOST || State(d, t) == OPT_ORIG_POS))
            || (t.rank >= 2 && IsNewTop(init, d)(t))
  {
    var d := Digits(s);
    if IsTop(s.cols, t) {
      var i :| 0 <= i < |s.cols| && s.cols[i] != [] && s.cols[i][0] == t;
      TopIsPredicted(init, s, i);
    } else if State(d, t) == OPT_TOPMOST || (IsOrigTop(init, t) && State(d, t) == OPT_ORIG_POS) {
      PredictedIsTop(init, s, t);
    }
  }

  lemma TopsPredictedAt(init: Position, s: Position, t: Card)
    requires Descends(init, s)
    ensures var d := Digits(s);
            Tops(KeptCols(d, init.cols))[t] + multiset(NewTops(init, d))[t] == Tops(s.cols)[t]
  {
    var d := Digits(s);
    TopIffPredicted(init, s, t);
    TopsAtMostOne(s, t);
    TopsAtMostOne(init, t);
    KeptTopsMember(d, init.cols, t);
    PickCount(|d| - 4, IsNewTop(init, d), t);
    TopsMember(init.cols, t);
    TopsMember(s.cols, t);
  }

  lemma TopsPredicted(init: Position, s: Position)
    requires Descends(init, s)
    ensures var d := Digits(s);
            Tops(KeptCols(d, init.cols)) + multiset(NewTops(init, d)) == Tops(s.cols)
  {
    var kept, tops := Tops(KeptCols(Digits(s), init.cols)), multiset(NewTops(init, Digits(s)));
    forall t: Card ensures kept[t] + tops[t] == Tops(s.cols)[t] {
      TopsPredictedAt(init, s, t);
    }
    SumByCounts(kept, tops, Tops(s.cols));
  }

  lemma SumByCounts(a: multiset<Card>, b: multiset<Card>, c: multiset<Card>)
    requires forall t: Card :: a[t] + b[t] == c[t]
    ensures a + b == c
  {
    forall t: Card ensures (a + b)[t] == c[t] {}
  }

  lemma FromKept(init: Position, s: Position, j: nat)
    requires Descends(init, s) && j < |init.cols| && TopKept(Digits(s), init.cols[j])
    ensures KeptColumn(Digits(s), init.cols[j]) in s.cols
  {
    var t := init.cols[j][0];
    PredictedIsTop(init, s, t);
    var i :| 0 <= i < |s.cols| && s.cols[i] != [] && s.cols[i][0] == t;
    KeptColumnExact(init, s, i, j);
  }

  lemma NewTopIsWanted(init: Position, d: seq<nat>, t: Card)
    requires |d| == 52 && t in NewTops(init, d)
    ensures t.rank >= 2 && IsNewTop(init, d)(t)
  {
    PickCount(|d| - 4, IsNewTop(init, d), t);
    assert t in multiset(NewTops(init, d));
  }

  lemma FromNewTop(init: Position, s: Position, t: Card)
    requires Descends(init, s) && t in NewTops(init, Digits(s))
    ensures [t] + Descendants(Digits(s), t) in s.cols
  {
    NewTopIsWanted(init, Digits(s), t);
    var i := NewTopColumn(init, s, t);
    NewColumnExact(init, s, i);
  }

  lemma NewTopColumn(init: Position, s: Position, t: Card) returns (i: nat)
    requires Descends(init, s) && t.rank >= 2 && IsNewTop(init, Digits(s))(t)
    ensures i < |s.cols| && s.cols[i] != [] && s.cols[i][0] == t && !IsOrigTop(init, t)
  {
    PredictedIsTop(init, s, t);
    i :| 0 <= i < |s.cols| && s.cols[i] != [] && s.cols[i][0] == t;
  }

  lemma DecodedColumnInPosition(init: Position, s: Position, x: Column)
    requires Descends(init, s) && x != []
    requires x in DecodeCols(Digits(s), init.cols, NewTops(init, Digits(s)))
    ensures x in s.cols
  {
    var d := Digits(s);
    var tops := NewTops(init, d);
    DecodedFrom(d, init.cols, tops, x);
    forall j | 0 <= j < |init.cols| && TopKept(d, init.cols[j]) ensures KeptColumn(d, init.cols[j]) in s.cols {
      FromKept(init, s, j);
    }
    forall t | t in tops ensures [t] + Descendants(d, t) in s.cols { FromNewTop(init, s, t); }
  }

  // Columns with the same top cards, all of them columns of s, are the columns of s.
  lemma SameColumns(s: Position, cols: seq<Column>)
    requires FullDeck(s) && |cols| == |s.cols| && Tops(cols) == Tops(s.cols)
    requires forall x :: x in cols && x != [] ==> x in s.cols
    ensures multiset(cols) == multiset(s.cols)
  {
    var blank: Column := [];
    forall x: Column | x != blank ensures multiset(cols)[x] == multiset(s.cols)[x] {
      ColumnAtMostTops(cols, x);
      ColumnAtMostTops(s.cols, x);
      TopsAtMostOne(s, x[0]);
      if x in s.cols {
        SameTopSameColumn(s, cols, x);
        assert x in multiset(s.cols) && x in multiset(cols);
      } else {
        assert x !in multiset(s.cols) && x !in multiset(cols);
      }
    }
    AllButOne(cols, s.cols, blank);
  }

  lemma SameTopSameColumn(s: Position, cols: seq<Column>, x: Column)
    requires FullDeck(s) && Tops(cols) == Tops(s.cols) && x in s.cols && x != []
    requires forall y :: y in cols && y != [] ==> y in s.cols
    ensures x in cols
  {
    var i :| 0 <= i < |s.cols| && s.cols[i] == x;
    TopsMember(s.cols, x[0]);
    TopsMember(cols, x[0]);
    var j :| 0 <= j < |cols| && cols[j] != [] && cols[j][0] == x[0];
    assert cols[j] in cols;
    var i' :| 0 <= i' < |s.cols| && s.cols[i'] == cols[j];
    UniqueInColumns(s, i, 0, i', 0);
  }

  // Sequences of the same length that agree on all elements but one have the same elements.
  lemma AllButOne<T>(a: seq<T>, b: seq<T>, z: T)
    requires |a| == |b| && forall x :: x != z ==> multiset(a)[x] == multiset(b)[x]
    ensures multiset(a) == multiset(b)
  {
    var a', b' := multiset(a)[z := 0], multiset(b)[z := 0];
    assert a' == b';
    assert multiset(a) == a'[z := multiset(a)[z]] && multiset(b) == b'[z := multiset(b)[z]];
    assert |multiset(a)| == |a| && |multiset(b)| == |b|;
  }

  lemma ColumnsRoundTrip(init: Position, s: Position)
    requires Descends(init, s)
    ensures multiset(Decode(init, Digits(s)).cols) == multiset(s.cols)
  {
    var d := Digits(s);
    var tops := NewTops(init, d);
    TopsPredicted(init, s);
    TopsSize(s.cols);
    assert |Tops(s.cols)| == |Tops(KeptCols(d, init.cols))| + |multiset(tops)|;
    assert |multiset(tops)| == |tops|;
    DecodedTops(d, init.cols, tops);
    forall x | x in DecodeCols(d, init.cols, tops) && x != [] ensures x in s.cols {
      DecodedColumnInPosition(init, s, x);
    }
    SameColumns(s, DecodeCols(d, init.cols, tops));
  }

  // ---- Freecells ----

  lemma {:induction false} WrapCount(cards: seq<Card>, c: Card)
    ensures |Wrap(cards)| == |cards|
    ensures multiset(Wrap(cards))[Some(c)] == multiset(cards)[c] && multiset(Wrap(cards))[None] == 0
  {
    if cards == [] {
    } else {
      WrapCount(cards[..|cards| - 1], c);
      assert cards == cards[..|cards| - 1] + [cards[|cards| - 1]];
    }
  }

  lemma CellsRoundTrip(init: Position, s: Position)
    requires Descends(init, s)
    ensures multiset(Decode(init, Digits(s)).cells) == multiset(s.cells)
  {
    var d := Digits(s);
    var cards := FreecellCards(d);
    var filled := Wrap(cards);
    forall x: Option<Card> | x != None ensures multiset(filled)[x] == multiset(s.cells)[x] {
      var c := x.value;
      WrapCount(cards, c);
      PickCount(|d| - 4, IsFreecellCard(d), c);
      StateIsOpt(s, c);
      assert Copies(s, c) <= 1;
      assert Some(c) in s.cells <==> Some(c) in multiset(s.cells);
      if Some(c) in s.cells { StateInCell(s, c); }
      else if State(d, c) == OPT_FREECELL { FreecellStateInCell(s, c); }
    }
    WrapCount(cards, Card(1, 0));
    FillUp(filled, s.cells);
  }

  lemma FreecellStateInCell(s: Position, c: Card)
    requires FullDeck(s) && State(Digits(s), c) == OPT_FREECELL
    ensures Some(c) in s.cells
  {
    StateIsOpt(s, c);
    var inCell, i, k := Locate(s, c);
    if !inCell { StateInColumn(s, i, k); }
  }

  lemma FillUp(filled: seq<Option<Card>>, cells: seq<Option<Card>>)
    requires multiset(filled)[None] == 0
    requires forall x :: x != None ==> multiset(filled)[x] == multiset(cells)[x]
    ensures multiset(PadCells(filled, |cells|)) == multiset(cells)
  {
    assert multiset(filled) <= multiset(cells);
    assert multiset(cells) == multiset(filled) + (multiset(cells) - multiset(filled));
    assert |filled| == |multiset(filled)| <= |multiset(cells)| == |cells|;
    var pad: seq<Option<Card>> := seq(|cells| - |filled|, k => None);
    assert PadCells(filled, |cells|) == filled + pad;
    forall x: Option<Card> | x != None ensures multiset(pad)[x] == 0 {
      assert x !in pad;
    }
    AllButOne(filled + pad, cells, None);
  }

  // ---- The codec ----

  lemma RoundTrip(init: Position, s: Position)
    requires Descends(init, s)
    ensures Alike(Decode(init, Digits(s)), s)
  {
    ColumnsRoundTrip(init, s);
    CellsRoundTrip(init, s);
  }

  lemma AlikeSameOpt(s: Position, t: Position, c: Card)
    requires FullDeck(s) && FullDeck(t) && Alike(s, t)
    ensures Opt(s, c) == Opt(t, c)
  {
    var o := Opt(s, c);
    assert HasOpt(t, c, o) by {
      if Some(c) in s.cells { assert Some(c) in multiset(s.cells); }
      if exists i, k :: 0 <= i < |s.cols| && 0 <= k < |s.cols[i]| && s.cols[i][k] == c && o == ColumnOpt(s.cols[i], k) {
        var i, k :| 0 <= i < |s.cols| && 0 <= k < |s.cols[i]| && s.cols[i][k] == c && o == ColumnOpt(s.cols[i], k);
        assert s.cols[i] in multiset(t.cols);
        var i' :| 0 <= i' < |t.cols| && t.cols[i'] == s.cols[i];
      }
    }
    OptUnique(t, c, o);
  }

  // Positions have the same digits exactly when they differ only by placement.
  lemma SameDigitsIffAlike(init: Position, s: Position, t: Position)
    requires Descends(init, s) && Descends(init, t)
    ensures Digits(s) == Digits(t) <==> Alike(s, t)
  {
    if Alike(s, t) {
      forall n | 0 <= n < 48 ensures Opt(s, CardAt(n)) == Opt(t, CardAt(n)) {
        AlikeSameOpt(s, t, CardAt(n));
      }
    }
    if Digits(s) == Digits(t) {
      RoundTrip(init, s);
      RoundTrip(init, t);
    }
  }
}
