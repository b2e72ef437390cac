/** Sequence helpers for the id lists the controllers and screens manipulate:
 *  JavaScript's `Array.prototype.filter`, `filter(y => y !== x)` and MongoDB's
 *  `$addToSet`. */
module Seqs {

  /** No element occurs twice. */
  ghost predicate NoDuplicates<T>(s: seq<T>) {
    forall i, j :: 0 <= i < j < |s| ==> s[i] != s[j]
  }

  /** `idx` lists, in increasing order, the positions of `t` that `s` keeps. */
  ghost predicate Indexes<T>(s: seq<T>, t: seq<T>, idx: seq<nat>) {
    && |idx| == |s|
    && (forall k :: 0 <= k < |idx| ==> idx[k] < |t| && s[k] == t[idx[k]])
    && (forall k, m :: 0 <= k < m < |idx| ==> idx[k] < idx[m])
  }

  /** `s` is `t` with some elements dropped and the rest kept in order. */
  ghost predicate IsSubsequence<T>(s: seq<T>, t: seq<T>) {
    exists idx: seq<nat> :: Indexes(s, t, idx)
  }

  /** `s.filter(keep)`: the elements satisfying `keep`, in their original order. */
  function Filter<T(!new)>(s: seq<T>, keep: T -> bool): (r: seq<T>)
    ensures |r| <= |s|
    ensures forall x :: x in r <==> x in s && keep(x)
    ensures IsSubsequence(r, s)
  {
    if s == [] then
      assert Indexes([], s, []);
      []
    else
      var rest := Filter(s[1..], keep);
      SubsequenceOfTail(rest, s);
      if keep(s[0]) then
        SubsequenceCons(rest, s);
        [s[0]] + rest
      else rest
  }

  lemma SubsequenceOfTail<T>(r: seq<T>, s: seq<T>)
    requires s != [] && IsSubsequence(r, s[1..])
    ensures IsSubsequence(r, s)
  {
    var idx: seq<nat> :| Indexes(r, s[1..], idx);
    var idx' := seq(|idx|, k requires 0 <= k < |idx| => idx[k] + 1);
    assert Indexes(r, s, idx');
  }

  lemma SubsequenceCons<T>(r: seq<T>, s: seq<T>)
    requires s != [] && IsSubsequence(r, s[1..])
    ensures IsSubsequence([s[0]] + r, s)
  {
    var idx: seq<nat> :| Indexes(r, s[1..], idx);
    var idx' := [0] + seq(|idx|, k requires 0 <= k < |idx| => idx[k] + 1);
    assert Indexes([s[0]] + r, s, idx');
  }

  /** Filtering with a test every element passes changes nothing. */
  lemma {:induction false} FilterKeepsAll<T(!new)>(s: seq<T>, keep: T -> bool)
    requires forall i :: 0 <= i < |s| ==> keep(s[i])
    ensures Filter(s, keep) == s
  {
    if s != [] {
      FilterKeepsAll(s[1..], keep);
      assert [s[0]] + s[1..] == s;
    }
  }

  /** Filtering out a last element that fails the test leaves the elements before it. */
  lemma {:induction false} FilterDropsLast<T(!new)>(s: seq<T>, x: T, keep: T -> bool)
    requires forall i :: 0 <= i < |s| ==> keep(s[i])
    requires !keep(x)
    ensures Filter(s + [x], keep) == s
  {
    if s == [] {
      assert [] + [x] == [x];
    } else {
      assert (s + [x])[1..] == s[1..] + [x];
      FilterDropsLast(s[1..], x, keep);
      assert [s[0]] + s[1..] == s;
    }
  }

  /** `s.filter(y => y !== x)`: every occurrence of `x` removed and nothing else. */
  function Without<T(==,!new)>(s: seq<T>, x: T): (r: seq<T>)
    ensures x !in r
    ensures |r| <= |s|
    ensures multiset(r) == multiset(s)[x := 0]
    ensures forall y :: y != x ==> (y in r <==> y in s)
    ensures x !in s ==> r == s
    ensures NoDuplicates(s) ==> NoDuplicates(r)
    ensures IsSubsequence(r, s)
  {
    if s == [] then
      assert Indexes([], s, []);
      []
    else
      assert s == [s[0]] + s[1..];
      assert multiset(s) == multiset([s[0]]) + multiset(s[1..]);
      var rest := Without(s[1..], x);
      if s[0] == x then
        SubsequenceOfTail(rest, s);
        rest
      else
        ConsKeepsDistinct(s, rest);
        SubsequenceCons(rest, s);
        assert multiset([s[0]] + rest) == multiset([s[0]]) + multiset(rest);
        [s[0]] + rest
  }

  /** Putting back the head of a list without duplicates in front of a part of its tail. */
  lemma ConsKeepsDistinct<T>(s: seq<T>, rest: seq<T>)
    requires s != []
    requires forall y :: y in rest ==> y in s[1..]
    requires NoDuplicates(s[1..]) ==> NoDuplicates(rest)
    ensures NoDuplicates(s) ==> NoDuplicates([s[0]] + rest)
  {
    if NoDuplicates(s) {
      assert s[0] !in s[1..];
      assert NoDuplicates(s[1..]);
      var r := [s[0]] + rest;
      forall i, j | 0 <= i < j < |r|
        ensures r[i] != r[j]
      {
        if i == 0 {
          assert r[j] == rest[j - 1];
        } else {
          assert r[i] == rest[i - 1] && r[j] == rest[j - 1];
        }
      }
    }
  }

  /** MongoDB's `$addToSet` on an array field: append `x` unless it is already there. */
  function AddToSet<T(==,!new)>(s: seq<T>, x: T): (r: seq<T>)
    ensures x in r
    ensures forall y :: y in r <==> y in s || y == x
    ensures x in s ==> r == s
    ensures NoDuplicates(s) ==> NoDuplicates(r)
    ensures |r| <= |s| + 1
    ensures s <= r
  {
    if x in s then s else s + [x]
  }

  /** The distinct elements of `s`, each at its first occurrence. */
  function Dedup<T(==,!new)>(s: seq<T>): (r: seq<T>)
    ensures forall x :: x in r <==> x in s
    ensures NoDuplicates(r)
    ensures NoDuplicates(s) ==> r == s
    ensures |r| <= |s|
    ensures IsSubsequence(r, s)
    decreases |s|
  {
    if s == [] then
      assert Indexes([], s, []);
      []
    else
      var init := s[..|s| - 1];
      assert s == init + [s[|s| - 1]];
      assert forall x :: x in init ==> x in s;
      var d := Dedup(init);
      SubsequenceSnoc(d, init, s[|s| - 1]);
      AddToSet(d, s[|s| - 1])
  }

  /** A subsequence stays one when an element is appended to the longer list,
   *  and to both lists. */
  lemma SubsequenceSnoc<T>(r: seq<T>, s: seq<T>, x: T)
    requires IsSubsequence(r, s)
    ensures IsSubsequence(r, s + [x]) && IsSubsequence(r + [x], s + [x])
  {
    var idx: seq<nat> :| Indexes(r, s, idx);
    assert Indexes(r, s + [x], idx);
    assert Indexes(r + [x], s + [x], idx + [|s|]);
  }

  /** Filtering a list with one more element at the end. */
  lemma {:induction false} FilterSnoc<T(!new)>(s: seq<T>, x: T, keep: T -> bool)
    ensures Filter(s + [x], keep) == Filter(s, keep) + (if keep(x) then [x] else [])
  {
    if s == [] {
      assert [] + [x] == [x];
      assert [x][1..] == [];
    } else {
      assert (s + [x])[0] == s[0] && (s + [x])[1..] == s[1..] + [x];
      FilterSnoc(s[1..], x, keep);
    }
  }

  /** Filtering keeps the count of every element that passes the test. */
  lemma {:induction false} FilterKeepsCounts<T(!new)>(s: seq<T>, keep: T -> bool)
    ensures forall y :: keep(y) ==> multiset(Filter(s, keep))[y] == multiset(s)[y]
  {
    if s != [] {
      FilterKeepsCounts(s[1..], keep);
      assert s == [s[0]] + s[1..];
    }
  }

  /** Deduplicating one more element adds it unless it is already there. */
  lemma DedupSnoc<T(!new)>(s: seq<T>, x: T)
    ensures Dedup(s + [x]) == AddToSet(Dedup(s), x)
  {
    assert (s + [x])[..|s|] == s;
  }

  /** A subsequence of a subsequence is a subsequence. */
  lemma SubsequenceTransitive<T>(a: seq<T>, b: seq<T>, c: seq<T>)
    requires IsSubsequence(a, b) && IsSubsequence(b, c)
    ensures IsSubsequence(a, c)
  {
    var ab: seq<nat> :| Indexes(a, b, ab);
    var bc: seq<nat> :| Indexes(b, c, bc);
    var ac := seq(|ab|, k requires 0 <= k < |ab| => bc[ab[k]]);
    forall k | 0 <= k < |ac|
      ensures ac[k] < |c| && a[k] == c[ac[k]]
    {
      assert ab[k] < |b| && a[k] == b[ab[k]];
    }
    forall k, m | 0 <= k < m < |ac|
      ensures ac[k] < ac[m]
    {
      assert ab[k] < ab[m] && ab[m] < |b|;
    }
    assert Indexes(a, c, ac);
  }

  /** Removing an element after appending it is the same as removing it before. */
  lemma {:induction false} WithoutAppended<T(!new)>(s: seq<T>, x: T)
    ensures Without(s + [x], x) == Without(s, x)
  {
    var t := s + [x];
    if s == [] {
      assert t[1..] == [];
      assert Without(t, x) == Without(t[1..], x);
    } else {
      assert t[0] == s[0] && t[1..] == s[1..] + [x];
      WithoutAppended(s[1..], x);
      assert Without(t[1..], x) == Without(s[1..], x);
    }
  }
}
