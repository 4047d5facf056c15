/** FreeCell positions, the single-card moves of the game, and what every move keeps. */
module Positions {
  import opened Cards
  import opened Shuffles

  type Column = seq<Card>

  // Number of cards on the foundation of each suit.
  type Foundations = f: seq<nat> | |f| == 4 witness [0, 0, 0, 0]

  datatype Position = Position(cols: seq<Column>, cells: seq<Option<Card>>, found: Foundations)

  // Where a card can be taken from or put. The foundation is fixed by the card's suit.
  datatype Place = Col(i: nat) | Cell(j: nat) | Home

  datatype Move = Move(src: Place, dst: Place)

  function Last(col: Column): Card
    requires col != []
  {
    col[|col| - 1]
  }

  function Exposed(s: Position, p: Place): Option<Card> {
    match p
    case Col(i) => if i < |s.cols| && s.cols[i] != [] then Some(Last(s.cols[i])) else None
    case Cell(j) => if j < |s.cells| then s.cells[j] else None
    case Home => None
  }

  predicate Accepts(s: Position, p: Place, c: Card) {
    match p
    case Col(i) => i < |s.cols| && (s.cols[i] == [] || IsParent(c, Last(s.cols[i])))
    case Cell(j) => j < |s.cells| && s.cells[j] == None
    case Home => s.found[c.suit] + 1 == c.rank
  }

  function Take(s: Position, p: Place): Position
    requires Exposed(s, p).Some?
  {
    match p
    case Col(i) => s.(cols := s.cols[i := s.cols[i][..|s.cols[i]| - 1]])
    case Cell(j) => s.(cells := s.cells[j := None])
  }

  function Put(s: Position, p: Place, c: Card): Position
    requires p.Col? ==> p.i < |s.cols|
    requires p.Cell? ==> p.j < |s.cells|
  {
    match p
    case Col(i) => s.(cols := s.cols[i := s.cols[i] + [c]])
    case Cell(j) => s.(cells := s.cells[j := Some(c)])
    case Home => s.(found := s.found[c.suit := s.found[c.suit] + 1])
  }

  // The rules of the game, one card at a time.
  predicate Legal(s: Position, m: Move) {
    Exposed(s, m.src).Some? && Accepts(s, m.dst, Exposed(s, m.src).value)
  }

  function Apply(s: Position, m: Move): Position
    requires Legal(s, m)
  {
    Put(Take(s, m.src), m.dst, Exposed(s, m.src).value)
  }

  predicate Solved(s: Position) {
    forall u :: 0 <= u < 4 ==> s.found[u] >= KING
  }

  ghost predicate IsSolution(s: Position, moves: seq<Move>)
    decreases |moves|
  {
    if moves == [] then Solved(s)
    else Legal(s, moves[0]) && IsSolution(Apply(s, moves[0]), moves[1..])
  }

  ghost predicate Solvable(s: Position) {
    exists moves :: IsSolution(s, moves)
  }

  // The moves are legal one after the other and lead from s to t.
  ghost predicate Reaches(s: Position, moves: seq<Move>, t: Position)
    decreases |moves|
  {
    if moves == [] then s == t else Legal(s, moves[0]) && Reaches(Apply(s, moves[0]), moves[1..], t)
  }

  lemma PrependMove(s: Position, m: Move, rest: seq<Move>)
    requires Legal(s, m) && IsSolution(Apply(s, m), rest)
    ensures IsSolution(s, [m] + rest)
  {
    assert ([m] + rest)[1..] == rest;
  }

  // ---- Every card of the deck is in exactly one place ----

  ghost function Tableau(cols: seq<Column>): multiset<Card> {
    if cols == [] then multiset{} else multiset(cols[0]) + Tableau(cols[1..])
  }

  ghost function Copies(s: Position, c: Card): nat {
    Tableau(s.cols)[c] + multiset(s.cells)[Some(c)]
  }

  // The cards not yet home are each in play once, and no other card is.
  ghost predicate FullDeck(s: Position) {
    && (forall u: Suit :: s.found[u] <= KING)
    && forall c: Card :: Copies(s, c) == if s.found[c.suit] < c.rank then 1 else 0
  }

  lemma {:induction false} TableauUpdate(cols: seq<Column>, i: nat, x: Column)
    requires i < |cols|
    ensures multiset(cols[i]) <= Tableau(cols)
    ensures Tableau(cols[i := x]) == Tableau(cols) - multiset(cols[i]) + multiset(x)
  {
    if i == 0 {
      assert cols[i := x][1..] == cols[1..];
    } else {
      TableauUpdate(cols[1..], i - 1, x);
      assert cols[i := x][1..] == cols[1..][i - 1 := x];
    }
  }

  lemma PopCounts(col: Column)
    requires col != []
    ensures multiset(col) == multiset(col[..|col| - 1]) + multiset{Last(col)}
  {
    assert col == col[..|col| - 1] + [Last(col)];
  }

  lemma TakeCounts(s: Position, p: Place)
    requires Exposed(s, p).Some?
    ensures var t, e := Take(s, p), Exposed(s, p).value;
            forall c: Card :: Copies(t, c) == Copies(s, c) - if c == e then 1 else 0
    ensures Copies(s, Exposed(s, p).value) > 0
  {
    if p.Col? {
      PopCounts(s.cols[p.i]);
      TableauUpdate(s.cols, p.i, s.cols[p.i][..|s.cols[p.i]| - 1]);
    } else {
      assert s.cells[p.j] in multiset(s.cells);
    }
  }

  lemma PutCounts(s: Position, p: Place, d: Card)
    requires Accepts(s, p, d)
    ensures var t := Put(s, p, d);
            forall c: Card :: Copies(t, c) == Copies(s, c) + if c == d && p != Home then 1 else 0
  {
    if p.Col? {
      TableauUpdate(s.cols, p.i, s.cols[p.i] + [d]);
    } else if p.Cell? {
      assert s.cells[p.j] in multiset(s.cells);
    }
  }

  lemma StillAccepts(s: Position, m: Move)
    requires Legal(s, m)
    ensures Accepts(Take(s, m.src), m.dst, Exposed(s, m.src).value)
  {
  }

  // Conservation: a legal move keeps each card in exactly one place.
  lemma MoveKeepsDeck(s: Position, m: Move)
    requires FullDeck(s) && Legal(s, m)
    ensures FullDeck(Apply(s, m))
    ensures |Apply(s, m).cols| == |s.cols| && |Apply(s, m).cells| == |s.cells|
  {
    var d := Exposed(s, m.src).value;
    TakeCounts(s, m.src);
    StillAccepts(s, m);
    PutCounts(Take(s, m.src), m.dst, d);
    var t := Apply(s, m);
    forall c: Card
      ensures Copies(t, c) == if t.found[c.suit] < c.rank then 1 else 0
    {
      assert Copies(s, c) == if s.found[c.suit] < c.rank then 1 else 0;
      assert Copies(s, d) == 1;
    }
  }

  // ---- Consequences of FullDeck ----

  lemma {:induction false} InColumn(cols: seq<Column>, i: nat, k: nat)
    requires i < |cols| && k < |cols[i]|
    ensures Tableau(cols)[cols[i][k]] > 0
  {
    TableauUpdate(cols, i, []);
    assert cols[i][k] in multiset(cols[i]);
  }

  lemma {:induction false} FindInColumns(cols: seq<Column>, c: Card) returns (i: nat, k: nat)
    requires Tableau(cols)[c] > 0
    ensures i < |cols| && k < |cols[i]| && cols[i][k] == c
  {
    if c in cols[0] {
      i := 0;
      k :| 0 <= k < |cols[0]| && cols[0][k] == c;
    } else {
      i, k := FindInColumns(cols[1..], c);
      i := i + 1;
    }
  }

  lemma TwiceInColumn(col: Column, k: nat, l: nat)
    requires k < l < |col| && col[k] == col[l]
    ensures multiset(col)[col[k]] >= 2
  {
    assert col == col[..l] + col[l..];
    assert col[k] in multiset(col[..l]) by { assert col[..l][k] == col[k]; }
    assert col[l] in multiset(col[l..]) by { assert col[l..][0] == col[l]; }
  }

  lemma TwiceInTableau(cols: seq<Column>, i: nat, k: nat, j: nat, l: nat)
    requires i < j < |cols| && k < |cols[i]| && l < |cols[j]| && cols[i][k] == cols[j][l]
    ensures Tableau(cols)[cols[i][k]] >= 2
  {
    var c := cols[i][k];
    TableauUpdate(cols, i, []);
    var rest := cols[i := []];
    InColumn(rest, j, l);
    assert c in multiset(cols[i]);
  }

  // A card sits at one place of the tableau only.
  lemma UniqueInColumns(s: Position, i: nat, k: nat, j: nat, l: nat)
    requires FullDeck(s)
    requires i < |s.cols| && k < |s.cols[i]| && j < |s.cols| && l < |s.cols[j]|
    requires s.cols[i][k] == s.cols[j][l]
    ensures i == j && k == l
  {
    var c := s.cols[i][k];
    assert Copies(s, c) <= 1;
    if i != j {
      if i < j { TwiceInTableau(s.cols, i, k, j, l); } else { TwiceInTableau(s.cols, j, l, i, k); }
      assert false;
    } else if k != l {
      TableauUpdate(s.cols, i, []);
      TwiceInColumn(s.cols[i], if k < l then k else l, if k < l then l else k);
      assert false;
    }
  }

  lemma InPlayNotHome(s: Position, i: nat, k: nat)
    requires FullDeck(s) && i < |s.cols| && k < |s.cols[i]|
    ensures s.found[s.cols[i][k].suit] < s.cols[i][k].rank
    ensures Some(s.cols[i][k]) !in s.cells
  {
    var c := s.cols[i][k];
    InColumn(s.cols, i, k);
    assert Copies(s, c) <= 1;
    assert Some(c) in s.cells ==> Some(c) in multiset(s.cells);
  }

  lemma CellNotHome(s: Position, j: nat)
    requires FullDeck(s) && j < |s.cells| && s.cells[j].Some?
    ensures s.found[s.cells[j].value.suit] < s.cells[j].value.rank
  {
    assert s.cells[j] in multiset(s.cells);
    assert Copies(s, s.cells[j].value) > 0;
  }

  lemma ExposedNotHome(s: Position, p: Place)
    requires FullDeck(s) && Exposed(s, p).Some?
    ensures s.found[Exposed(s, p).value.suit] < Exposed(s, p).value.rank
  {
    if p.Col? { InPlayNotHome(s, p.i, |s.cols[p.i]| - 1); } else { CellNotHome(s, p.j); }
  }

  // Different places expose different cards.
  lemma ExposedOnce(s: Position, p: Place, q: Place)
    requires FullDeck(s) && Exposed(s, p).Some? && Exposed(s, p) == Exposed(s, q)
    ensures p == q
  {
    var c := Exposed(s, p).value;
    TakeCounts(s, p);
    var t := Take(s, p);
    assert Copies(t, c) == Copies(s, c) - 1 <= 0;
    if Exposed(t, q) == Some(c) {
      TakeCounts(t, q);
      assert false;
    }
  }

  // A card that is not home is in a column or in a freecell.
  lemma Locate(s: Position, c: Card) returns (inCell: bool, i: nat, k: nat)
    requires FullDeck(s) && s.found[c.suit] < c.rank
    ensures inCell ==> i < |s.cells| && s.cells[i] == Some(c)
    ensures !inCell ==> i < |s.cols| && k < |s.cols[i]| && s.cols[i][k] == c
  {
    i, k := 0, 0;
    assert Copies(s, c) == 1;
    inCell := Some(c) in s.cells;
    if inCell {
      i :| 0 <= i < |s.cells| && s.cells[i] == Some(c);
    } else {
      assert Some(c) !in multiset(s.cells);
      i, k := FindInColumns(s.cols, c);
    }
  }

  // ---- The tableau as a whole ----

  lemma {:induction false} SameTableau(a: seq<Column>, b: seq<Column>)
    requires multiset(a) == multiset(b)
    ensures Tableau(a) == Tableau(b)
    decreases |a|
  {
    if a == [] {
      assert |multiset(b)| == |b|;
    } else {
      var j := FirstIn(a, b);
      SameTableau(a[1..], b[..j] + b[j + 1..]);
      RemoveTableau(b, j);
    }
  }

  lemma {:induction false} RemoveTableau(cols: seq<Column>, j: nat)
    requires j < |cols|
    ensures Tableau(cols) == multiset(cols[j]) + Tableau(cols[..j] + cols[j + 1..])
  {
    if j == 0 {
      assert cols[..j] + cols[j + 1..] == cols[1..];
    } else {
      RemoveTableau(cols[1..], j - 1);
      assert (cols[..j] + cols[j + 1..])[1..] == cols[1..][..j - 1] + cols[1..][j..];
    }
  }

  function Deck(): seq<Card> {
    seq(52, n requires 0 <= n < 52 => Card(1 + n / 4, n % 4))
  }

  lemma TableauFitsDeck(s: Position)
    requires FullDeck(s)
    ensures |Tableau(s.cols)| <= 52
  {
    var all := multiset(Deck());
    forall c: Card ensures Tableau(s.cols)[c] <= all[c] {
      assert Copies(s, c) <= 1;
      assert Deck()[(c.rank - 1) * 4 + c.suit] == c;
    }
    assert Tableau(s.cols) <= all;
    assert all == Tableau(s.cols) + (all - Tableau(s.cols));
    assert |all| == |Deck()| == 52;
  }

  // A game is won exactly when no card is left in play.
  lemma SolvedMeansCleared(s: Position)
    requires FullDeck(s)
    ensures Solved(s) <==> (forall i :: 0 <= i < |s.cols| ==> s.cols[i] == [])
                           && forall j :: 0 <= j < |s.cells| ==> s.cells[j] == None
  {
    if Solved(s) {
      forall i | 0 <= i < |s.cols| ensures s.cols[i] == [] { if s.cols[i] != [] { InPlayNotHome(s, i, 0); } }
      forall j | 0 <= j < |s.cells| ensures s.cells[j] == None { if s.cells[j] != None { CellNotHome(s, j); } }
    } else {
      var u: Suit :| s.found[u] < KING;
      var inCell, i, k := Locate(s, Card(KING, u));
    }
  }
}
