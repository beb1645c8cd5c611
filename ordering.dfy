/** Sorting as the engines use it: `Array.from(set).sort()` on day keys and
    `Array.prototype.sort` with a score comparator. */
module Ordering {

  predicate StrictlyIncreasing(s: seq<int>) {
    forall i, j :: 0 <= i < j < |s| ==> s[i] < s[j]
  }

  lemma NoElementsIsEmpty(s: set<int>)
    requires forall x :: x !in s
    ensures s == {}
  {
    assert forall x :: x in s <==> x in {};
  }

  lemma HasElement(s: set<int>)
    requires s != {}
    ensures exists x :: x in s
  {
    if forall x :: x !in s {
      NoElementsIsEmpty(s);
      assert false;
    }
  }

  /** The least element of a non-empty finite set of days. */
  ghost function Min(s: set<int>): (m: int)
    requires s != {}
    ensures m in s && forall y :: y in s ==> m <= y
    decreases s
  {
    HasElement(s);
    var x :| x in s;
    var rest := s - {x};
    assert forall y :: y in s ==> y == x || y in rest;
    if rest == {} then x
    else
      var m' := Min(rest);
      if x < m' then x else m'
  }

  /** The elements of a finite set of days in ascending order. */
  ghost function SortedSeq(s: set<int>): (r: seq<int>)
    ensures |r| == |s|
    decreases |s|
  {
    if s == {} then []
    else
      var m := Min(s);
      [m] + SortedSeq(s - {m})
  }

  /** SortedSeq lists exactly the set's elements, in strictly increasing order. */
  lemma SortedSeqFacts(s: set<int>)
    ensures StrictlyIncreasing(SortedSeq(s))
    ensures forall x :: x in SortedSeq(s) <==> x in s
  {
    SortedSeqMembers(s);
    SortedSeqIncreasing(s);
  }

  lemma {:induction false} SortedSeqMembers(s: set<int>)
    ensures forall x :: x in SortedSeq(s) <==> x in s
    decreases |s|
  {
    if s != {} {
      var m := Min(s);
      var rest := s - {m};
      SortedSeqMembers(rest);
      var r := SortedSeq(s);
      assert r == [m] + SortedSeq(rest);
      forall x ensures x in r <==> x in s {
        assert x in r <==> x == m || x in SortedSeq(rest);
        assert x in s <==> x == m || x in rest;
      }
    }
  }

  lemma {:induction false} SortedSeqIncreasing(s: set<int>)
    ensures StrictlyIncreasing(SortedSeq(s))
    decreases |s|
  {
    if s != {} {
      var m := Min(s);
      var rest := s - {m};
      SortedSeqIncreasing(rest);
      SortedSeqMembers(rest);
      var tail := SortedSeq(rest);
      var r := SortedSeq(s);
      assert r == [m] + tail;
      forall i, j | 0 <= i < j < |r| ensures r[i] < r[j] {
        assert r[j] == tail[j - 1];
        assert tail[j - 1] in rest;
        if i > 0 {
          assert r[i] == tail[i - 1];
        }
      }
    }
  }

  /** A strictly increasing sequence has no repeated element, so it has as
      many distinct elements as entries. */
  lemma {:induction false} DistinctCount(s: seq<int>)
    requires StrictlyIncreasing(s)
    ensures |set x | x in s| == |s|
  {
    if s != [] {
      var t := s[1..];
      DistinctCount(t);
      assert (set x | x in s) == {s[0]} + (set x | x in t);
      assert s[0] !in (set x | x in t);
    }
  }

  /** `Array.from(set).sort()`: the set's elements in ascending order. */
  method SortSet(s: set<int>) returns (r: seq<int>)
    ensures r == SortedSeq(s)
  {
    r := [];
    var rest := s;
    while rest != {}
      invariant r + SortedSeq(rest) == SortedSeq(s)
      decreases |rest|
    {
      HasElement(rest);
      var m :| m in rest && forall x :: x in rest ==> m <= x;
      assert m == Min(rest);
      assert SortedSeq(rest) == [m] + SortedSeq(rest - {m});
      r := r + [m];
      rest := rest - {m};
    }
    assert SortedSeq(rest) == [];
  }

  // ---------------------------------------------------------------------------
  // Sorting records by a score, highest first, with a secondary key

  /** `a` may stand before `b`: a higher primary key first, and among equal
      primary keys a lower secondary key first. */
  predicate Precedes<T>(a: T, b: T, key: T -> real, tie: T -> int) {
    key(a) > key(b) || (key(a) == key(b) && tie(a) <= tie(b))
  }

  predicate SortedBy<T>(s: seq<T>, key: T -> real, tie: T -> int) {
    forall i, j :: 0 <= i < j < |s| ==> Precedes(s[i], s[j], key, tie)
  }

  function Insert<T>(x: T, s: seq<T>, key: T -> real, tie: T -> int): (r: seq<T>)
    ensures multiset(r) == multiset(s) + multiset{x}
    ensures SortedBy(s, key, tie) ==> SortedBy(r, key, tie)
  {
    if s == [] then [x]
    else if Precedes(x, s[0], key, tie) then [x] + s
    else
      var rest := Insert(x, s[1..], key, tie);
      assert s == [s[0]] + s[1..];
      if SortedBy(s, key, tie) then
        HeadStaysFirst(s[0], s[1..], x, rest, key, tie);
        [s[0]] + rest
      else
        [s[0]] + rest
  }

  /** When x may not stand before the head h of a sorted list, h may stand
      before everything of the list's tail with x inserted. */
  lemma HeadStaysFirst<T>(h: T, t: seq<T>, x: T, rest: seq<T>, key: T -> real, tie: T -> int)
    requires SortedBy([h] + t, key, tie) && !Precedes(x, h, key, tie)
    requires multiset(rest) == multiset(t) + multiset{x} && SortedBy(rest, key, tie)
    ensures SortedBy([h] + rest, key, tie)
  {
    forall y | y in rest ensures Precedes(h, y, key, tie) {
      assert y in multiset(rest);
      if y != x {
        assert multiset(rest)[y] == multiset(t)[y] + multiset{x}[y];
        assert y in multiset(t);
        assert y in t;
        var j :| 0 <= j < |t| && t[j] == y;
        assert ([h] + t)[0] == h && ([h] + t)[j + 1] == y;
        assert Precedes(([h] + t)[0], ([h] + t)[j + 1], key, tie);
      } else {
        assert key(x) < key(h) || (key(x) == key(h) && tie(x) > tie(h));
      }
    }
    forall i, j | 0 <= i < j < |[h] + rest| ensures Precedes(([h] + rest)[i], ([h] + rest)[j], key, tie) {
      if i == 0 {
        assert ([h] + rest)[j] == rest[j - 1];
      } else {
        assert ([h] + rest)[i] == rest[i - 1] && ([h] + rest)[j] == rest[j - 1];
      }
    }
  }

  /** The comparator sort: a permutation of the input ordered by Precedes.
      The records are inserted from the last to the first, each ahead of the
      records it ties with, so records that tie on both keys keep their
      input order, as with a stable sort. */
  function SortByKeys<T>(s: seq<T>, key: T -> real, tie: T -> int): (r: seq<T>)
    ensures multiset(r) == multiset(s)
    ensures SortedBy(r, key, tie)
  {
    if s == [] then []
    else
      assert s == [s[0]] + s[1..];
      Insert(s[0], SortByKeys(s[1..], key, tie), key, tie)
  }

  /** s[i] has the highest key of s, and every record before it a lower one. */
  predicate FirstBestAt<T>(s: seq<T>, key: T -> real, i: int) {
    0 <= i < |s|
    && (forall j :: 0 <= j < |s| ==> key(s[j]) <= key(s[i]))
    && (forall j :: 0 <= j < i ==> key(s[j]) < key(s[i]))
  }

  /** Inserting x puts it first exactly when it precedes the old first record. */
  lemma InsertHead<T>(x: T, s: seq<T>, key: T -> real, tie: T -> int)
    requires s != []
    ensures Insert(x, s, key, tie)[0] == if Precedes(x, s[0], key, tie) then x else s[0]
  {
  }

  /** Adding a record in front of s moves the first best one step on, unless
      the new record beats it or ties with it. */
  lemma ConsFirstBest<T>(x: T, t: seq<T>, key: T -> real, i: int)
    requires FirstBestAt(t, key, i)
    ensures key(x) >= key(t[i]) ==> FirstBestAt([x] + t, key, 0)
    ensures key(x) < key(t[i]) ==> FirstBestAt([x] + t, key, i + 1)
  {
    var s := [x] + t;
    assert forall j :: 0 < j < |s| ==> s[j] == t[j - 1];
  }

  /** With a constant secondary key the comparator sort is stable, so its
      first record is the first record of the input with the highest key. */
  lemma {:induction false} SortHeadIsFirstBest<T>(s: seq<T>, key: T -> real, tie: T -> int)
    requires s != [] && forall x :: tie(x) == 0
    ensures exists i :: FirstBestAt(s, key, i) && SortByKeys(s, key, tie)[0] == s[i]
  {
    var t := s[1..];
    assert s == [s[0]] + t;
    if t == [] {
      assert FirstBestAt(s, key, 0);
    } else {
      SortHeadIsFirstBest(t, key, tie);
      var r := SortByKeys(t, key, tie);
      var i' :| FirstBestAt(t, key, i') && r[0] == t[i'];
      InsertHead(s[0], r, key, tie);
      ConsFirstBest(s[0], t, key, i');
      if Precedes(s[0], r[0], key, tie) {
        assert FirstBestAt(s, key, 0);
      } else {
        assert FirstBestAt(s, key, i' + 1) && s[i' + 1] == t[i'];
      }
    }
  }

  /** There is only one first best record. */
  lemma FirstBestUnique<T>(s: seq<T>, key: T -> real, i: int, i': int)
    requires FirstBestAt(s, key, i) && FirstBestAt(s, key, i')
    ensures i == i'
  {
    assert key(s[i]) == key(s[i']);
  }
}
