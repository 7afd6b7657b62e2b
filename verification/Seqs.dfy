/** Ordered lists without repetition, and the ascending list of positions a deletion leaves. */
module Seqs {

  datatype Option<+T> = None | Some(value: T)

  /** Any element of a nonempty set, as Go's map iteration picks one. */
  method Pick<T>(s: set<T>) returns (x: T)
    requires s != {}
    ensures x in s
  {
    x :| x in s;
  }

  /** The elements of a set in some order, as Go ranges over a map. */
  method SomeOrder<T(==)>(s: set<T>) returns (order: seq<T>)
    ensures Distinct(order) && Elements(order) == s
  {
    order := [];
    var todo := s;
    while todo != {}
      invariant todo <= s && Distinct(order) && Elements(order) == s - todo
      decreases todo
    {
      var x :| x in todo;
      assert x !in Elements(order);
      ElementsAdd(order, x);
      order := order + [x];
      todo := todo - {x};
    }
  }

  lemma ElementsAdd<T>(s: seq<T>, x: T)
    ensures Elements(s + [x]) == Elements(s) + {x}
  {
  }

  lemma ElementsSnoc<T>(s: seq<T>, k: nat)
    requires Distinct(s) && k < |s|
    ensures Elements(s[..k + 1]) == Elements(s[..k]) + {s[k]} && s[k] !in Elements(s[..k])
  {
    assert s[..k + 1] == s[..k] + [s[k]];
  }

  predicate Distinct<T(==)>(s: seq<T>) {
    forall i, j :: 0 <= i < j < |s| ==> s[i] != s[j]
  }

  ghost function Elements<T>(s: seq<T>): set<T> {
    set x | x in s
  }

  /** First occurrences, in order. */
  function Dedup<T(==, !new)>(s: seq<T>): (r: seq<T>)
    ensures Distinct(r)
    ensures forall x :: x in r <==> x in s
    ensures Distinct(s) ==> r == s
  {
    if s == [] then [] else
      var r := Dedup(s[..|s| - 1]);
      var x := s[|s| - 1];
      assert s == s[..|s| - 1] + [x];
      if x in r then r else r + [x]
  }

  /** The elements outside `drop`, in order. */
  function Without<T(==, !new)>(s: seq<T>, drop: set<T>): (r: seq<T>)
    ensures forall x :: x in r <==> x in s && x !in drop
    ensures |r| <= |s|
    ensures Distinct(s) ==> Distinct(r)
  {
    if s == [] then [] else
      var r := Without(s[..|s| - 1], drop);
      var x := s[|s| - 1];
      assert s == s[..|s| - 1] + [x];
      if x in drop then r else r + [x]
  }

  /** What a shorter list keeps, the longer one keeps first: elements stay in the order of their first occurrence. */
  lemma {:induction false} DedupPrefix<T(!new)>(s: seq<T>, k: nat)
    requires k <= |s|
    ensures Dedup(s[..k]) <= Dedup(s)
  {
    if k == |s| {
      assert s[..k] == s;
    } else {
      DedupPrefix(s[..|s| - 1], k);
      assert s[..|s| - 1][..k] == s[..k];
    }
  }

  lemma {:induction false} WithoutPrefix<T(!new)>(s: seq<T>, k: nat, drop: set<T>)
    requires k <= |s|
    ensures Without(s[..k], drop) <= Without(s, drop)
  {
    if k == |s| {
      assert s[..k] == s;
    } else {
      WithoutPrefix(s[..|s| - 1], k, drop);
      assert s[..|s| - 1][..k] == s[..k];
    }
  }

  lemma WithoutEmpty<T(!new)>(drop: set<T>)
    ensures Without([], drop) == []
  {
  }

  lemma WithoutSnoc<T(!new)>(s: seq<T>, k: nat, drop: set<T>)
    requires k < |s|
    ensures Without(s[..k + 1], drop) == if s[k] in drop then Without(s[..k], drop) else Without(s[..k], drop) + [s[k]]
  {
    assert s[..k + 1][..k] == s[..k];
  }

  predicate Ascending(s: seq<int>) {
    forall i, j :: 0 <= i < j < |s| ==> s[i] < s[j]
  }

  predicate Within(at: seq<int>, n: int) {
    forall j :: 0 <= j < |at| ==> 0 <= at[j] < n
  }

  /** The positions below `n` outside `doomed`, in ascending order. */
  function Kept(n: nat, doomed: set<int>): (r: seq<int>)
    ensures Ascending(r) && Within(r, n) && |r| <= n
    ensures forall j :: 0 <= j < |r| ==> r[j] !in doomed
    ensures forall i :: 0 <= i < n && i !in doomed ==> i in r
  {
    if n == 0 then [] else
      var r := Kept(n - 1, doomed);
      if n - 1 in doomed then r else r + [n - 1]
  }

  ghost predicate Covers(s: seq<int>, t: seq<int>) {
    forall i :: 0 <= i < |t| ==> t[i] in s
  }

  lemma KeptSnoc(n: nat, doomed: set<int>)
    ensures Kept(n + 1, doomed) == if n in doomed then Kept(n, doomed) else Kept(n, doomed) + [n]
  {
  }

  lemma SameLast(s: seq<int>, t: seq<int>)
    requires Ascending(s) && Ascending(t) && s != [] && t != []
    requires Covers(s, t) && Covers(t, s)
    ensures s[|s| - 1] == t[|t| - 1]
  {
    assert s[|s| - 1] in t && t[|t| - 1] in s;
  }

  lemma CoversInit(s: seq<int>, t: seq<int>)
    requires Ascending(t) && s != [] && t != [] && Covers(s, t)
    requires s[|s| - 1] == t[|t| - 1]
    ensures Covers(s[..|s| - 1], t[..|t| - 1])
  {
    forall i | 0 <= i < |t| - 1 ensures t[i] in s[..|s| - 1] {
      var k :| 0 <= k < |s| && s[k] == t[i];
      assert t[i] < t[|t| - 1];
      assert s[..|s| - 1][k] == t[i];
    }
  }

  /** An ascending list is determined by its elements. */
  lemma {:induction false} AscendingUnique(s: seq<int>, t: seq<int>)
    requires Ascending(s) && Ascending(t)
    requires Covers(s, t) && Covers(t, s)
    ensures s == t
  {
    if t != [] { assert t[0] in s; }
    if s != [] { assert s[0] in t; }
    if s != [] {
      SameLast(s, t);
      CoversInit(s, t);
      CoversInit(t, s);
      AscendingUnique(s[..|s| - 1], t[..|t| - 1]);
      assert s == s[..|s| - 1] + [s[|s| - 1]];
      assert t == t[..|t| - 1] + [t[|t| - 1]];
    }
  }

  /** The elements of `s` at the listed positions. */
  function Gather<T>(s: seq<T>, at: seq<int>): (r: seq<T>)
    requires Within(at, |s|)
    ensures |r| == |at| && forall j :: 0 <= j < |at| ==> r[j] == s[at[j]]
  {
    seq(|at|, j requires 0 <= j < |at| => s[at[j]])
  }

  /** Positions in the shortened list, translated back to the original list. */
  function Original(first: seq<int>, batch: set<int>): set<int>
    requires forall j :: j in batch ==> 0 <= j < |first|
  {
    set j | j in batch :: first[j]
  }

  /** Deleting `doomed`, then the renumbered `batch`, keeps what one deletion of both keeps. */
  lemma KeptTwice(n: nat, doomed: set<int>, batch: set<int>)
    requires forall j :: j in batch ==> 0 <= j < |Kept(n, doomed)|
    ensures var first := Kept(n, doomed);
            Gather(first, Kept(|first|, batch)) == Kept(n, doomed + Original(first, batch))
  {
    var first := Kept(n, doomed);
    var second := Kept(|first|, batch);
    var both := Gather(first, second);
    var once := Kept(n, doomed + Original(first, batch));
    forall t | 0 <= t < |both| ensures both[t] in once {
      forall j | j in batch ensures first[j] != both[t] {
        assert j != second[t];
      }
    }
    forall i | 0 <= i < |once| ensures once[i] in both {
      assert once[i] in first;
      var j :| 0 <= j < |first| && first[j] == once[i];
      assert j !in batch;
      assert j in second;
      var t :| 0 <= t < |second| && second[t] == j;
      assert both[t] == once[i];
    }
    AscendingUnique(both, once);
  }

  /** Maps with the same entries are equal. */
  lemma SameMap<K(!new), V>(a: map<K, V>, b: map<K, V>)
    requires forall k :: k in a <==> k in b
    requires forall k :: k in a && k in b ==> a[k] == b[k]
    ensures a == b
  {
  }
}
