/** Sequences with the same elements, and other facts about sequences that several parts share. */
module Shuffles {

  predicate Distinct<T(==)>(s: seq<T>) {
    forall i, j :: 0 <= i < j < |s| ==> s[i] != s[j]
  }

  lemma TailDistinct<T>(a: seq<T>)
    requires a != [] && Distinct(a)
    ensures Distinct(a[1..]) && a[0] !in a[1..]
  {
    assert forall i :: 0 <= i < |a| - 1 ==> a[1..][i] == a[i + 1];
  }

  lemma AddDistinct<T>(a: seq<T>, n: T)
    requires Distinct(a) && n !in a
    ensures Distinct(a + [n]) && Distinct([n] + a)
  {
  }

  lemma {:induction false} DistinctOnce<T>(s: seq<T>, x: T)
    requires Distinct(s)
    ensures multiset(s)[x] <= 1
  {
    if s == [] {
    } else {
      TailDistinct(s);
      DistinctOnce(s[1..], x);
      assert s == [s[0]] + s[1..];
      assert x !in s[1..] ==> multiset(s[1..])[x] == 0;
    }
  }

  lemma TwiceIn<T>(s: seq<T>, i: nat, j: nat)
    requires i < j < |s| && s[i] == s[j]
    ensures multiset(s)[s[i]] >= 2
  {
    assert s == s[..j] + [s[j]] + s[j + 1..] && s[i] == s[..j][i];
    assert s[i] in multiset(s[..j]);
  }

  lemma DistinctShuffled<T>(a: seq<T>, b: seq<T>)
    requires Distinct(a) && multiset(a) == multiset(b)
    ensures Distinct(b) && forall x :: x in b <==> x in a
  {
    forall x ensures x in b <==> x in a {
      assert x in b <==> x in multiset(b);
      assert x in a <==> x in multiset(a);
    }
    forall i, j | 0 <= i < j < |b| ensures b[i] != b[j] {
      if b[i] == b[j] {
        TwiceIn(b, i, j);
        DistinctOnce(a, b[i]);
      }
    }
  }

  lemma Cancel<T>(m: multiset<T>, a: multiset<T>, b: multiset<T>)
    requires m + a == m + b
    ensures a == b
  {
    assert a == (m + a) - m && b == (m + b) - m;
  }

  lemma SplitAt<T>(b: seq<T>, j: nat)
    requires j < |b|
    ensures multiset(b) == multiset{b[j]} + multiset(b[..j] + b[j + 1..])
  {
    assert b == b[..j] + [b[j]] + b[j + 1..];
  }

  lemma FirstIn<T>(a: seq<T>, b: seq<T>) returns (j: nat)
    requires a != [] && multiset(a) == multiset(b)
    ensures j < |b| && b[j] == a[0] && multiset(a[1..]) == multiset(b[..j] + b[j + 1..])
  {
    assert a == [a[0]] + a[1..];
    assert a[0] in multiset(b);
    j :| 0 <= j < |b| && b[j] == a[0];
    SplitAt(b, j);
    assert multiset(a[1..]) == multiset(a) - multiset{a[0]};
    assert multiset(b[..j] + b[j + 1..]) == multiset(b) - multiset{b[j]};
  }

  lemma {:induction false} SubsetOfSeq<K>(keys: set<K>, list: seq<K>)
    requires forall k :: k in keys ==> k in list
    ensures |keys| <= |list|
    decreases |list|
  {
    if list == [] {
      assert keys == {};
    } else {
      SubsetOfSeq(keys - {list[0]}, list[1..]);
      assert |keys| <= |keys - {list[0]}| + 1;
    }
  }

  lemma TailOfSum<T>(a: seq<T>, b: seq<T>)
    requires a != []
    ensures (a + b)[0] == a[0] && (a + b)[1..] == a[1..] + b
  {
  }
}
