/** Sorting by a number, alone and among items that keep their places. */
module Arranging {
  import opened Shuffles

  predicate IsSorted<T>(s: seq<T>, key: T -> nat) {
    forall i, j :: 0 <= i < j < |s| ==> key(s[i]) <= key(s[j])
  }

  function Insert<T>(x: T, s: seq<T>, key: T -> nat): (r: seq<T>)
    ensures multiset(r) == multiset{x} + multiset(s)
  {
    if s == [] || key(x) <= key(s[0]) then [x] + s
    else
      assert s == [s[0]] + s[1..];
      [s[0]] + Insert(x, s[1..], key)
  }

  lemma {:induction false} InsertSorted<T>(x: T, s: seq<T>, key: T -> nat)
    requires IsSorted(s, key)
    ensures IsSorted(Insert(x, s, key), key)
  {
    if s != [] && key(x) > key(s[0]) {
      InsertSorted(x, s[1..], key);
      var r := Insert(x, s[1..], key);
      forall j | 0 <= j < |r| ensures key(s[0]) <= key(r[j]) {
        assert r[j] in multiset(r);
        assert r[j] == x || r[j] in s[1..];
      }
    }
  }

  function Sort<T>(s: seq<T>, key: T -> nat): (r: seq<T>)
    ensures multiset(r) == multiset(s) && IsSorted(r, key)
  {
    if s == [] then []
    else
      assert s == [s[0]] + s[1..];
      InsertSorted(s[0], Sort(s[1..], key), key);
      Insert(s[0], Sort(s[1..], key), key)
  }

  ghost predicate TellsApart<T(!new)>(s: seq<T>, key: T -> nat) {
    forall x, y :: x in s && y in s && key(x) == key(y) ==> x == y
  }

  lemma FirstIsLeast<T>(a: seq<T>, b: seq<T>, key: T -> nat)
    requires a != [] && b != [] && IsSorted(a, key) && b[0] in a
    ensures key(a[0]) <= key(b[0])
  {
  }

  lemma TailSorted<T>(a: seq<T>, key: T -> nat)
    requires a != []
    ensures multiset(a) == multiset{a[0]} + multiset(a[1..])
    ensures IsSorted(a, key) ==> IsSorted(a[1..], key)
    ensures forall x :: x in a[1..] ==> x in a
  {
    assert a == [a[0]] + a[1..];
    if IsSorted(a, key) {
      forall i, j | 0 <= i < j < |a[1..]| ensures key(a[1..][i]) <= key(a[1..][j]) {
        assert key(a[i + 1]) <= key(a[j + 1]);
      }
    }
  }

  // A sorted arrangement is unique when equal numbers mean equal items.
  lemma {:induction false} SortedIsUnique<T(!new)>(a: seq<T>, b: seq<T>, key: T -> nat)
    requires multiset(a) == multiset(b) && IsSorted(a, key) && IsSorted(b, key) && TellsApart(a, key)
    ensures a == b
    decreases |a|, 1
  {
    assert |a| == |multiset(a)| == |multiset(b)| == |b|;
    if a != [] {
      assert a[0] in multiset(b) && b[0] in multiset(a);
      FirstIsLeast(a, b, key);
      FirstIsLeast(b, a, key);
      SortedTails(a, b, key);
    }
  }

  lemma {:induction false} SortedTails<T(!new)>(a: seq<T>, b: seq<T>, key: T -> nat)
    requires a != [] && b != [] && a[0] == b[0]
    requires multiset(a) == multiset(b) && IsSorted(a, key) && IsSorted(b, key) && TellsApart(a, key)
    ensures a == b
    decreases |a|, 0
  {
    TailSorted(a, key);
    TailSorted(b, key);
    Cancel(multiset{a[0]}, multiset(a[1..]), multiset(b[1..]));
    SortedIsUnique(a[1..], b[1..], key);
    assert a == [a[0]] + a[1..] && b == [b[0]] + b[1..];
  }

  // ---- Items that keep their places ----

  // The items free to move.
  function Free<T>(s: seq<T>, fixed: T -> bool): seq<T> {
    if s == [] then [] else FreeHead(s[0], fixed) + Free(s[1..], fixed)
  }

  function FreeHead<T>(x: T, fixed: T -> bool): seq<T> {
    if fixed(x) then [] else [x]
  }

  lemma {:induction false} FreeCounts<T>(s: seq<T>, fixed: T -> bool, x: T)
    ensures multiset(Free(s, fixed))[x] == if fixed(x) then 0 else multiset(s)[x]
  {
    if s == [] {
    } else {
      FreeCounts(s[1..], fixed, x);
      assert s == [s[0]] + s[1..];
    }
  }

  ghost predicate FixedAlike<T>(a: seq<T>, b: seq<T>, fixed: T -> bool) {
    && |a| == |b|
    && forall i :: 0 <= i < |a| ==> (fixed(a[i]) <==> fixed(b[i])) && (fixed(a[i]) ==> a[i] == b[i])
  }

  // The fixed items are the same, and the free ones are the same in some order.
  ghost predicate Alike<T>(a: seq<T>, b: seq<T>, fixed: T -> bool) {
    FixedAlike(a, b, fixed) && multiset(a) == multiset(b)
  }

  ghost predicate FreeInOrder<T>(s: seq<T>, fixed: T -> bool, key: T -> nat) {
    forall i, j :: 0 <= i < j < |s| && !fixed(s[i]) && !fixed(s[j]) ==> key(s[i]) <= key(s[j])
  }

  ghost predicate IsArranged<T(!new)>(s: seq<T>, out: seq<T>, fixed: T -> bool, key: T -> nat) {
    Alike(s, out, fixed) && FreeInOrder(out, fixed, key)
  }

  lemma FreeMember<T>(s: seq<T>, fixed: T -> bool, x: T)
    ensures x in Free(s, fixed) <==> x in s && !fixed(x)
  {
    FreeCounts(s, fixed, x);
    assert x in Free(s, fixed) <==> x in multiset(Free(s, fixed));
    assert x in s <==> x in multiset(s);
  }

  lemma {:induction false} OrderOfFree<T(!new)>(s: seq<T>, fixed: T -> bool, key: T -> nat)
    ensures FreeInOrder(s, fixed, key) <==> IsSorted(Free(s, fixed), key)
  {
    if s == [] {
    } else {
      OrderOfFree(s[1..], fixed, key);
      OrderOfTail(s, fixed, key);
      if !fixed(s[0]) { HeadSmallest(s, fixed, key); }
      SortedHead(Free(s, fixed), Free(s[1..], fixed), key);
    }
  }

  lemma OrderOfTail<T(!new)>(s: seq<T>, fixed: T -> bool, key: T -> nat)
    requires s != []
    ensures FreeInOrder(s, fixed, key) <==>
            FreeInOrder(s[1..], fixed, key)
              && (fixed(s[0]) || forall y :: y in s[1..] && !fixed(y) ==> key(s[0]) <= key(y))
  {
    if FreeInOrder(s, fixed, key) {
      forall i, j | 0 <= i < j < |s[1..]| && !fixed(s[1..][i]) && !fixed(s[1..][j])
        ensures key(s[1..][i]) <= key(s[1..][j])
      {
        assert s[i + 1] == s[1..][i] && s[j + 1] == s[1..][j];
      }
    } else {
      var i, j :| 0 <= i < j < |s| && !fixed(s[i]) && !fixed(s[j]) && key(s[i]) > key(s[j]);
      assert s[j] == s[1..][j - 1];
      if i > 0 { assert s[i] == s[1..][i - 1]; }
    }
  }

  lemma HeadSmallest<T(!new)>(s: seq<T>, fixed: T -> bool, key: T -> nat)
    requires s != []
    ensures (forall y :: y in s[1..] && !fixed(y) ==> key(s[0]) <= key(y)) <==>
            (forall y :: y in Free(s[1..], fixed) ==> key(s[0]) <= key(y))
  {
    forall y {:trigger y in s[1..]} {:trigger y in Free(s[1..], fixed)}
      ensures y in Free(s[1..], fixed) <==> y in s[1..] && !fixed(y)
    {
      FreeMember(s[1..], fixed, y);
    }
  }

  lemma SortedHead<T(!new)>(s: seq<T>, rest: seq<T>, key: T -> nat)
    requires s == rest || (s != [] && s[1..] == rest)
    ensures s == rest ==> (IsSorted(s, key) <==> IsSorted(rest, key))
    ensures s != [] && s[1..] == rest ==>
            (IsSorted(s, key) <==> IsSorted(rest, key) && forall y :: y in rest ==> key(s[0]) <= key(y))
  {
    if s != [] && s[1..] == rest {
      assert forall i :: 0 <= i < |rest| ==> rest[i] == s[i + 1];
      if IsSorted(s, key) {
        forall i, j | 0 <= i < j < |rest| ensures key(rest[i]) <= key(rest[j]) {
          assert key(s[i + 1]) <= key(s[j + 1]);
        }
      }
      if IsSorted(rest, key) && forall y :: y in rest ==> key(s[0]) <= key(y) {
        forall i, j | 0 <= i < j < |s| ensures key(s[i]) <= key(s[j]) {
          assert s[j] == rest[j - 1];
          if i > 0 { assert s[i] == rest[i - 1]; }
        }
      }
    }
  }

  lemma {:induction false} SameFree<T>(a: seq<T>, b: seq<T>, fixed: T -> bool)
    requires FixedAlike(a, b, fixed) && Free(a, fixed) == Free(b, fixed)
    ensures a == b
  {
    if a == [] {
    } else {
      var x, y := FreeHead(a[0], fixed), FreeHead(b[0], fixed);
      assert |x| == |y|;
      assert (x + Free(a[1..], fixed))[..|x|] == x && (y + Free(b[1..], fixed))[..|x|] == y;
      assert (x + Free(a[1..], fixed))[|x|..] == Free(a[1..], fixed);
      assert (y + Free(b[1..], fixed))[|x|..] == Free(b[1..], fixed);
      assert a[0] == b[0];
      SameFree(a[1..], b[1..], fixed);
      assert a == [a[0]] + a[1..] && b == [b[0]] + b[1..];
    }
  }

  lemma SameFreeItems<T(!new)>(a: seq<T>, b: seq<T>, fixed: T -> bool)
    requires multiset(a) == multiset(b)
    ensures multiset(Free(a, fixed)) == multiset(Free(b, fixed))
  {
    forall x ensures multiset(Free(a, fixed))[x] == multiset(Free(b, fixed))[x] {
      FreeCounts(a, fixed, x);
      FreeCounts(b, fixed, x);
    }
  }

  lemma FreeTellsApart<T(!new)>(s: seq<T>, a: seq<T>, fixed: T -> bool, key: T -> nat)
    requires multiset(a) == multiset(s) && TellsApart(s, key)
    ensures TellsApart(Free(a, fixed), key)
  {
    forall x | x in Free(a, fixed) ensures x in s {
      FreeMember(a, fixed, x);
      assert x in multiset(a) && x in multiset(s);
    }
  }

  // The arrangement does not depend on where the free items were.
  lemma ArrangedIsUnique<T(!new)>(s: seq<T>, t: seq<T>, a: seq<T>, b: seq<T>, fixed: T -> bool, key: T -> nat)
    requires Alike(s, t, fixed) && IsArranged(s, a, fixed, key) && IsArranged(t, b, fixed, key) && TellsApart(s, key)
    ensures a == b
  {
    assert FixedAlike(a, b, fixed) by {
      assert forall i :: 0 <= i < |a| ==> (fixed(s[i]) <==> fixed(a[i])) && (fixed(t[i]) <==> fixed(b[i]));
    }
    assert IsSorted(Free(a, fixed), key) && IsSorted(Free(b, fixed), key) by {
      OrderOfFree(a, fixed, key);
      OrderOfFree(b, fixed, key);
    }
    FreeTellsApart(s, a, fixed, key);
    SameFreeItems(a, b, fixed);
    SortedIsUnique(Free(a, fixed), Free(b, fixed), key);
    SameFree(a, b, fixed);
  }

  // Puts the given items, in order, where the free ones were.
  function Fill<T>(s: seq<T>, items: seq<T>, fixed: T -> bool): (out: seq<T>)
    requires |items| == |Free(s, fixed)|
    ensures |out| == |s|
  {
    if s == [] then []
    else if fixed(s[0]) then [s[0]] + Fill(s[1..], items, fixed)
    else [items[0]] + Fill(s[1..], items[1..], fixed)
  }

  lemma {:induction false} FillKeeps<T>(s: seq<T>, items: seq<T>, fixed: T -> bool)
    requires |items| == |Free(s, fixed)| && forall x :: x in items ==> !fixed(x)
    ensures FixedAlike(s, Fill(s, items, fixed), fixed) && Free(Fill(s, items, fixed), fixed) == items
    ensures multiset(Fill(s, items, fixed)) + multiset(Free(s, fixed)) == multiset(s) + multiset(items)
  {
    if s == [] {
    } else if fixed(s[0]) {
      FillKeeps(s[1..], items, fixed);
      FillStep(s, items, fixed, s[0], items, Fill(s[1..], items, fixed));
    } else {
      var rest := items[1..];
      assert items == [items[0]] + rest;
      FillKeeps(s[1..], rest, fixed);
      FillStep(s, items, fixed, items[0], rest, Fill(s[1..], rest, fixed));
    }
  }

  lemma FillStep<T>(s: seq<T>, items: seq<T>, fixed: T -> bool, first: T, rest: seq<T>, tail: seq<T>)
    requires s != [] && |items| == |Free(s, fixed)| && Fill(s, items, fixed) == [first] + tail
    requires if fixed(s[0]) then first == s[0] && rest == items else !fixed(first) && items == [first] + rest
    requires FixedAlike(s[1..], tail, fixed) && Free(tail, fixed) == rest
    requires multiset(tail) + multiset(Free(s[1..], fixed)) == multiset(s[1..]) + multiset(rest)
    ensures FixedAlike(s, Fill(s, items, fixed), fixed) && Free(Fill(s, items, fixed), fixed) == items
    ensures multiset(Fill(s, items, fixed)) + multiset(Free(s, fixed)) == multiset(s) + multiset(items)
  {
    var out := [first] + tail;
    assert Free(out, fixed) == items by { assert out[1..] == tail; }
    FillAlike(s, fixed, first, tail);
    FillCounts(s, items, fixed, first, rest, tail);
  }

  lemma FillAlike<T>(s: seq<T>, fixed: T -> bool, first: T, tail: seq<T>)
    requires s != [] && FixedAlike(s[1..], tail, fixed)
    requires if fixed(s[0]) then first == s[0] else !fixed(first)
    ensures FixedAlike(s, [first] + tail, fixed)
  {
    var out := [first] + tail;
    forall i | 0 <= i < |s| ensures (fixed(s[i]) <==> fixed(out[i])) && (fixed(s[i]) ==> s[i] == out[i]) {
      if i > 0 { assert s[i] == s[1..][i - 1] && out[i] == tail[i - 1]; }
    }
  }

  lemma FillCounts<T>(s: seq<T>, items: seq<T>, fixed: T -> bool, first: T, rest: seq<T>, tail: seq<T>)
    requires s != []
    requires if fixed(s[0]) then first == s[0] && rest == items else !fixed(first) && items == [first] + rest
    requires multiset(tail) + multiset(Free(s[1..], fixed)) == multiset(s[1..]) + multiset(rest)
    ensures multiset([first] + tail) + multiset(Free(s, fixed)) == multiset(s) + multiset(items)
  {
    assert s == [s[0]] + s[1..] && Free(s, fixed) == FreeHead(s[0], fixed) + Free(s[1..], fixed);
    var one, was := multiset{first}, multiset{s[0]};
    AddBoth(one, was, multiset(FreeHead(s[0], fixed)), multiset(items) - multiset(rest),
            multiset(tail), multiset(Free(s[1..], fixed)), multiset(s[1..]), multiset(rest));
  }

  lemma AddBoth<T>(a: multiset<T>, b: multiset<T>, c: multiset<T>, d: multiset<T>,
                   t: multiset<T>, f: multiset<T>, s: multiset<T>, r: multiset<T>)
    requires a + c == b + d && t + f == s + r
    ensures (a + t) + (c + f) == (b + s) + (d + r)
  {
    assert (a + t) + (c + f) == (a + c) + (t + f);
    assert (b + s) + (d + r) == (b + d) + (s + r);
  }

  function Arranged<T(!new)>(s: seq<T>, fixed: T -> bool, key: T -> nat): (out: seq<T>)
    ensures IsArranged(s, out, fixed, key)
  {
    var items := Sort(Free(s, fixed), key);
    ArrangedIs(s, items, fixed, key);
    Fill(s, items, fixed)
  }

  lemma ArrangedIs<T(!new)>(s: seq<T>, items: seq<T>, fixed: T -> bool, key: T -> nat)
    requires multiset(items) == multiset(Free(s, fixed)) && IsSorted(items, key)
    ensures |items| == |Free(s, fixed)| && IsArranged(s, Fill(s, items, fixed), fixed, key)
  {
    assert |items| == |multiset(items)| == |multiset(Free(s, fixed))|;
    ItemsAreFree(s, items, fixed);
    FillKeeps(s, items, fixed);
    FilledAlike(s, Fill(s, items, fixed), items, Free(s, fixed), fixed);
    FilledInOrder(Fill(s, items, fixed), items, fixed, key);
  }

  lemma FilledAlike<T(!new)>(s: seq<T>, out: seq<T>, items: seq<T>, free: seq<T>, fixed: T -> bool)
    requires FixedAlike(s, out, fixed) && multiset(items) == multiset(free)
    requires multiset(out) + multiset(free) == multiset(s) + multiset(items)
    ensures Alike(s, out, fixed)
  {
    assert multiset(items) + multiset(out) == multiset(out) + multiset(free);
    assert multiset(items) + multiset(s) == multiset(s) + multiset(items);
    Cancel(multiset(items), multiset(out), multiset(s));
  }

  lemma ItemsAreFree<T>(s: seq<T>, items: seq<T>, fixed: T -> bool)
    requires multiset(items) == multiset(Free(s, fixed))
    ensures forall x :: x in items ==> !fixed(x)
  {
    forall x | x in items ensures !fixed(x) {
      assert x in multiset(items);
      FreeMember(s, fixed, x);
    }
  }

  lemma FilledInOrder<T(!new)>(out: seq<T>, items: seq<T>, fixed: T -> bool, key: T -> nat)
    requires Free(out, fixed) == items && IsSorted(items, key)
    ensures FreeInOrder(out, fixed, key)
  {
    OrderOfFree(out, fixed, key);
  }

  // ---- Insertion sort in place ----

  // Sorted but for the item at c, which is not above those after it.
  ghost predicate SortedBut<T>(s: seq<T>, key: T -> nat, b: nat, c: nat) {
    && c <= b < |s|
    && (forall i, j :: 0 <= i < j <= b && i != c && j != c ==> key(s[i]) <= key(s[j]))
    && (forall j :: c < j <= b ==> key(s[c]) <= key(s[j]))
  }

  lemma SwapDown<T>(s: seq<T>, key: T -> nat, b: nat, c: nat)
    requires SortedBut(s, key, b, c) && c > 0 && key(s[c - 1]) > key(s[c])
    ensures SortedBut(s[c - 1 := s[c]][c := s[c - 1]], key, b, c - 1)
    ensures multiset(s[c - 1 := s[c]][c := s[c - 1]]) == multiset(s)
  {
  }

  lemma SortedSoFar<T>(s: seq<T>, key: T -> nat, b: nat, c: nat)
    requires SortedBut(s, key, b, c) && (c > 0 ==> key(s[c - 1]) <= key(s[c]))
    ensures IsSorted(s[..b + 1], key)
  {
    forall i, j | 0 <= i < j <= b ensures key(s[i]) <= key(s[j]) {
      if j == c && i < c - 1 { assert key(s[i]) <= key(s[c - 1]); }
    }
  }
}
