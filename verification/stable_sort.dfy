/** `Array.prototype.sort` with a consistent comparator (section 23.1.3.30 of
    ECMA-262): the result is a sorted permutation of the input in which elements
    that compare equal keep their relative order. The comparator is given as the
    relation `le(a, b)`, "comparefn(a, b) <= 0", which for a consistent comparator
    is a total preorder. The engine's algorithm is not visible; insertion sort is
    used here, and StableSortUnique shows that any algorithm meeting the
    standard's requirements returns the same sequence. */
module StableSort {
  import Sequences

  ghost predicate TotalPreorder<T(!new)>(le: (T, T) -> bool) {
    && (forall a, b :: le(a, b) || le(b, a))
    && (forall a, b, c :: le(a, b) && le(b, c) ==> le(a, c))
  }

  /** `a` and `b` compare equal. */
  predicate Equiv<T>(le: (T, T) -> bool, a: T, b: T) {
    le(a, b) && le(b, a)
  }

  ghost predicate Sorted<T>(s: seq<T>, le: (T, T) -> bool) {
    forall i, j :: 0 <= i < j < |s| ==> le(s[i], s[j])
  }

  /** The elements of `s` that compare equal to `k`, in their order in `s`. */
  function Class<T>(s: seq<T>, le: (T, T) -> bool, k: T): seq<T> {
    if s == [] then []
    else (if Equiv(le, s[0], k) then [s[0]] else []) + Class(s[1..], le, k)
  }

  /** Places `x` before the first element it is not after. */
  function Insert<T>(x: T, s: seq<T>, le: (T, T) -> bool): seq<T> {
    if s == [] then [x]
    else if le(x, s[0]) then [x] + s
    else [s[0]] + Insert(x, s[1..], le)
  }

  lemma {:induction false} InsertPerm<T>(x: T, s: seq<T>, le: (T, T) -> bool)
    ensures |Insert(x, s, le)| == |s| + 1
    ensures multiset(Insert(x, s, le)) == multiset(s) + multiset{x}
    decreases |s|
  {
    if s != [] && !le(x, s[0]) {
      InsertPerm(x, s[1..], le);
      assert s == [s[0]] + s[1..];
    }
  }

  /** Insertion sort: the result is a permutation of the input whatever `le` is. */
  function Sort<T>(s: seq<T>, le: (T, T) -> bool): (r: seq<T>)
    ensures |r| == |s| && multiset(r) == multiset(s)
  {
    if s == [] then []
    else
      var t := Sort(s[1..], le);
      InsertPerm(s[0], t, le);
      assert s == [s[0]] + s[1..];
      Insert(s[0], t, le)
  }

  /** For a consistent comparator the result is sorted and stable: the elements
      comparing equal to any `k` keep their input order. */
  lemma {:induction false} SortIsStable<T(!new)>(s: seq<T>, le: (T, T) -> bool)
    requires TotalPreorder(le)
    ensures Sorted(Sort(s, le), le)
    ensures forall k :: Class(Sort(s, le), le, k) == Class(s, le, k)
    decreases |s|
  {
    if s != [] {
      var t := Sort(s[1..], le);
      SortIsStable(s[1..], le);
      InsertSorted(s[0], t, le);
      SortStep(s, t, le);
    }
  }

  /** Inserting the head of `s` into a stable sort of its tail keeps every class in
      input order. */
  lemma SortStep<T(!new)>(s: seq<T>, t: seq<T>, le: (T, T) -> bool)
    requires TotalPreorder(le) && s != []
    requires forall k :: Class(t, le, k) == Class(s[1..], le, k)
    ensures forall k :: Class(Insert(s[0], t, le), le, k) == Class(s, le, k)
  {
    forall k
      ensures Class(Insert(s[0], t, le), le, k) == Class(s, le, k)
    {
      InsertClass(s[0], t, le, k);
      ClassAppend([s[0]], s[1..], le, k);
      assert s == [s[0]] + s[1..];
    }
  }

  lemma {:induction false} ClassAppend<T>(a: seq<T>, b: seq<T>, le: (T, T) -> bool, k: T)
    ensures Class(a + b, le, k) == Class(a, le, k) + Class(b, le, k)
    decreases |a|
  {
    if a == [] {
      assert a + b == b;
    } else {
      ClassAppend(a[1..], b, le, k);
      assert (a + b)[1..] == a[1..] + b;
    }
  }

  lemma {:induction false} InsertSorted<T(!new)>(x: T, s: seq<T>, le: (T, T) -> bool)
    requires TotalPreorder(le) && Sorted(s, le)
    ensures Sorted(Insert(x, s, le), le)
    decreases |s|
  {
    if s == [] {
    } else if le(x, s[0]) {
      var r := [x] + s;
      forall i, j | 0 <= i < j < |r| ensures le(r[i], r[j]) {
        if i == 0 && j > 1 {
          assert le(s[0], s[j - 1]);
        }
      }
    } else {
      var t := Insert(x, s[1..], le);
      InsertSorted(x, s[1..], le);
      InsertPerm(x, s[1..], le);
      assert le(s[0], x);
      forall j | 0 <= j < |t| ensures le(s[0], t[j]) {
        assert t[j] in multiset(t);
        if t[j] != x {
          assert t[j] in multiset(s[1..]);
          var m :| 0 <= m < |s[1..]| && s[1..][m] == t[j];
          assert le(s[0], s[m + 1]);
        }
      }
      var r := [s[0]] + t;
      forall i, j | 0 <= i < j < |r| ensures le(r[i], r[j]) {
        if i > 0 {
          assert le(t[i - 1], t[j - 1]);
        }
      }
    }
  }

  /** Inserting `x` adds it to the front of its class: every element it passes is
      strictly before it, so none of them shares its class. */
  lemma {:induction false} InsertClass<T(!new)>(x: T, s: seq<T>, le: (T, T) -> bool, k: T)
    requires TotalPreorder(le)
    ensures Class(Insert(x, s, le), le, k) == Class([x], le, k) + Class(s, le, k)
    decreases |s|
  {
    if s == [] {
      assert [x] + s == [x];
      ClassAppend([x], s, le, k);
    } else if le(x, s[0]) {
      ClassAppend([x], s, le, k);
    } else {
      var h, t := s[0], Insert(x, s[1..], le);
      InsertClass(x, s[1..], le, k);
      assert le(x, k) && le(k, h) ==> le(x, h);
      ClassAppend([h], t, le, k);
      assert s == [h] + s[1..];
      ClassAppend([h], s[1..], le, k);
      PassOver(x, h, Class(s[1..], le, k), le, k);
    }
  }

  lemma PassOver<T>(x: T, h: T, rest: seq<T>, le: (T, T) -> bool, k: T)
    requires Equiv(le, x, k) ==> !Equiv(le, h, k)
    ensures Class([h], le, k) + (Class([x], le, k) + rest) == Class([x], le, k) + (Class([h], le, k) + rest)
  {
  }

  /** Sorting a sequence that is already in order changes nothing; in particular a
      comparator that always returns 0 leaves the input as it is. */
  lemma {:induction false} SortedIsFixed<T>(s: seq<T>, le: (T, T) -> bool)
    requires Sorted(s, le)
    ensures Sort(s, le) == s
    decreases |s|
  {
    if s != [] {
      SortedIsFixed(s[1..], le);
      assert s == [s[0]] + s[1..];
    }
  }

  lemma {:induction false} ClassMembers<T>(s: seq<T>, le: (T, T) -> bool, k: T, x: T)
    ensures x in Class(s, le, k) <==> x in s && Equiv(le, x, k)
    decreases |s|
  {
    if s != [] {
      ClassMembers(s[1..], le, k, x);
      assert s == [s[0]] + s[1..];
    }
  }

  /** The requirements of section 23.1.3.30 of ECMA-262 for a consistent
      comparator (the result is sorted, and each class of elements comparing equal
      keeps its input order) leave one possible result: Sort's. */
  lemma StableSortUnique<T(!new)>(s: seq<T>, r: seq<T>, le: (T, T) -> bool)
    requires TotalPreorder(le) && Sorted(r, le)
    requires forall k :: Class(r, le, k) == Class(s, le, k)
    ensures r == Sort(s, le)
  {
    SortIsStable(s, le);
    SortedClassesDetermine(r, Sort(s, le), le);
  }

  lemma {:induction false} SortedClassesDetermine<T(!new)>(a: seq<T>, b: seq<T>, le: (T, T) -> bool)
    requires TotalPreorder(le) && Sorted(a, le) && Sorted(b, le)
    requires forall k :: Class(a, le, k) == Class(b, le, k)
    ensures a == b
    decreases |a|
  {
    forall x ensures x in a <==> x in b {
      ClassMembers(a, le, x, x);
      ClassMembers(b, le, x, x);
    }
    if a == [] {
      Sequences.NonEmptyHasMember(b);
    } else {
      assert b != [] by { assert a[0] in b; }
      var k := a[0];
      ClassMembers(a, le, k, k);
      ClassMembers(b, le, k, k);
      var i :| 0 <= i < |b| && b[i] == k;
      assert le(b[0], k) by {
        if i > 0 { assert le(b[0], b[i]); }
      }
      ClassMembers(b, le, b[0], b[0]);
      ClassMembers(a, le, b[0], b[0]);
      var j :| 0 <= j < |a| && a[j] == b[0];
      assert le(k, b[0]) by {
        if j > 0 { assert le(a[0], a[j]); }
      }
      assert Class(a, le, k) == [a[0]] + Class(a[1..], le, k);
      assert Class(b, le, k) == [b[0]] + Class(b[1..], le, k);
      assert a[0] == b[0];
      forall k' ensures Class(a[1..], le, k') == Class(b[1..], le, k') {
        var h := if Equiv(le, a[0], k') then [a[0]] else [];
        var ca, cb := Class(a, le, k'), Class(b, le, k');
        assert ca == h + Class(a[1..], le, k');
        assert cb == h + Class(b[1..], le, k');
        assert Class(a[1..], le, k') == ca[|h|..] == cb[|h|..] == Class(b[1..], le, k');
      }
      SortedClassesDetermine(a[1..], b[1..], le);
      assert a == [a[0]] + a[1..] && b == [b[0]] + b[1..];
    }
  }
}
