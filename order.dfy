/**
 * The order both `sort.SliceStable` calls impose (profile tiles before
 * dispatch, albums before the response is written): records whose date
 * parses come first, newest first; the rest follow, ordered by a string key
 * (the tile's URL or the album's title). Each record is reduced to its Rank;
 * the comparator is strict and total on ranks, so two records compare equal
 * exactly when their ranks are equal, and a stable sort keeps such records
 * in their input order.
 *
 * The sort itself is insertion sort: `StableSort` is the reference
 * definition and `SortInPlace` the array algorithm proved equal to it. Any
 * stable sort yields the same result (`SortedStableUnique`), so this stands
 * for whatever merge strategy `sort.SliceStable` uses.
 */
module StableOrder {
  import opened GoText
  import opened CzDate

  datatype Rank = Dated(date: Date) | Undated(key: string)

  /** The comparator's `less`: dated before undated, later dates first, undated keys ascending. */
  predicate Before(a: Rank, b: Rank)
  {
    match (a, b)
    case (Dated(x), Dated(y)) => Earlier(y, x)
    case (Dated(_), Undated(_)) => true
    case (Undated(_), Dated(_)) => false
    case (Undated(k), Undated(l)) => StrLess(k, l)
  }

  lemma BeforeIrreflexive(a: Rank)
    ensures !Before(a, a)
  {
    if a.Undated? {
      StrLessIrreflexive(a.key);
    }
  }

  lemma BeforeTransitive(a: Rank, b: Rank, c: Rank)
    requires Before(a, b) && Before(b, c)
    ensures Before(a, c)
  {
    if a.Undated? {
      StrLessTransitive(a.key, b.key, c.key);
    }
  }

  /** Ranks that neither precede the other are equal: the order is total. */
  lemma BeforeTotal(a: Rank, b: Rank)
    ensures a == b || Before(a, b) || Before(b, a)
  {
    if a.Undated? && b.Undated? && a != b {
      StrLessTotal(a.key, b.key);
    }
  }

  // ---------------------------------------------------------------- sortedness and stability

  /** No record is followed by one that should precede it. */
  predicate Sorted<T>(s: seq<T>, rank: T -> Rank)
  {
    forall i, j :: 0 <= i < j < |s| ==> !Before(rank(s[j]), rank(s[i]))
  }

  /** The records of `s` with rank `k`, in order. */
  function Filter<T>(s: seq<T>, rank: T -> Rank, k: Rank): (r: seq<T>)
    ensures |r| <= |s|
  {
    if s == [] then [] else (if rank(s[0]) == k then [s[0]] else []) + Filter(s[1..], rank, k)
  }

  /** `r` keeps the relative order of every group of equal-ranked records of `s`. */
  ghost predicate Stable<T>(s: seq<T>, r: seq<T>, rank: T -> Rank)
  {
    forall k :: Filter(r, rank, k) == Filter(s, rank, k)
  }

  lemma {:induction false} FilterAppend<T>(a: seq<T>, b: seq<T>, rank: T -> Rank, k: Rank)
    ensures Filter(a + b, rank, k) == Filter(a, rank, k) + Filter(b, rank, k)
  {
    if a != [] {
      var head := if rank(a[0]) == k then [a[0]] else [];
      assert (a + b)[0] == a[0] && (a + b)[1..] == a[1..] + b;
      assert Filter(a + b, rank, k) == head + Filter(a[1..] + b, rank, k);
      FilterAppend(a[1..], b, rank, k);
      assert Filter(a, rank, k) == head + Filter(a[1..], rank, k);
      var fa, fb := Filter(a[1..], rank, k), Filter(b, rank, k);
      assert head + (fa + fb) == head + fa + fb;
    } else {
      assert a + b == b;
    }
  }

  lemma FilterSingle<T>(x: T, rank: T -> Rank, k: Rank)
    ensures Filter([x], rank, k) == if rank(x) == k then [x] else []
  {
    assert [x][1..] == [];
  }

  // ---------------------------------------------------------------- the reference sort

  /** Inserts `x` after every record it does not strictly precede. */
  function Insert<T>(s: seq<T>, x: T, rank: T -> Rank): (r: seq<T>)
    ensures |r| == |s| + 1
  {
    if s == [] || !Before(rank(x), rank(s[|s| - 1])) then s + [x]
    else Insert(s[..|s| - 1], x, rank) + [s[|s| - 1]]
  }

  /** Stable insertion sort, taking the records from first to last. */
  function StableSort<T>(s: seq<T>, rank: T -> Rank): (r: seq<T>)
    ensures |r| == |s|
  {
    if s == [] then [] else Insert(StableSort(s[..|s| - 1], rank), s[|s| - 1], rank)
  }

  lemma {:induction false} InsertPermutes<T>(s: seq<T>, x: T, rank: T -> Rank)
    ensures multiset(Insert(s, x, rank)) == multiset(s) + multiset{x}
  {
    if s != [] && Before(rank(x), rank(s[|s| - 1])) {
      InsertPermutes(s[..|s| - 1], x, rank);
      assert s == s[..|s| - 1] + [s[|s| - 1]];
    }
  }

  lemma {:induction false} InsertSorted<T>(s: seq<T>, x: T, rank: T -> Rank)
    requires Sorted(s, rank)
    ensures Sorted(Insert(s, x, rank), rank)
  {
    if s == [] {
    } else if !Before(rank(x), rank(s[|s| - 1])) {
      var r := s + [x];
      forall i, j | 0 <= i < j < |r|
        ensures !Before(rank(r[j]), rank(r[i]))
      {
        if j == |s| && i < |s| - 1 && Before(rank(x), rank(s[i])) {
          BeforeTotal(rank(s[i]), rank(s[|s| - 1]));
          if rank(s[i]) != rank(s[|s| - 1]) {
            BeforeTransitive(rank(x), rank(s[i]), rank(s[|s| - 1]));
          }
        }
      }
    } else {
      var init, last := s[..|s| - 1], s[|s| - 1];
      InsertSorted(init, x, rank);
      var t := Insert(init, x, rank);
      InsertPermutes(init, x, rank);
      var r := t + [last];
      forall i, j | 0 <= i < j < |r|
        ensures !Before(rank(r[j]), rank(r[i]))
      {
        if j == |t| {
          assert r[i] in multiset(t);
          if r[i] == x {
            if Before(rank(last), rank(x)) {
              BeforeTransitive(rank(x), rank(last), rank(x));
              BeforeIrreflexive(rank(x));
            }
          } else {
            assert r[i] in multiset(init);
            var m :| 0 <= m < |init| && init[m] == r[i];
          }
        }
      }
    }
  }

  lemma {:induction false} InsertStable<T>(s: seq<T>, x: T, rank: T -> Rank, k: Rank)
    ensures Filter(Insert(s, x, rank), rank, k) == Filter(s, rank, k) + Filter([x], rank, k)
  {
    if s == [] || !Before(rank(x), rank(s[|s| - 1])) {
      FilterAppend(s, [x], rank, k);
    } else {
      var init, last := s[..|s| - 1], s[|s| - 1];
      assert s == init + [last];
      InsertStable(init, x, rank, k);
      FilterAppend(Insert(init, x, rank), [last], rank, k);
      FilterAppend(init, [last], rank, k);
      FilterSingle(x, rank, k);
      FilterSingle(last, rank, k);
      BeforeIrreflexive(rank(x));
      SwapDisjoint(Filter(init, rank, k), Filter([x], rank, k), Filter([last], rank, k));
    }
  }

  /** Two pieces of which one is empty can be appended in either order. */
  lemma SwapDisjoint<T>(a: seq<T>, b: seq<T>, c: seq<T>)
    requires b == [] || c == []
    ensures a + b + c == a + c + b
  {
    if b == [] {
      assert a + b == a && a + c + b == a + c;
    } else {
      assert a + c == a && a + b + c == a + b;
    }
  }

  /** The reference sort yields a sorted permutation of its input that keeps equal-ranked records in order. */
  lemma {:induction false} StableSortCorrect<T>(s: seq<T>, rank: T -> Rank)
    ensures multiset(StableSort(s, rank)) == multiset(s)
    ensures Sorted(StableSort(s, rank), rank)
    ensures Stable(s, StableSort(s, rank), rank)
  {
    if s != [] {
      var init, last := s[..|s| - 1], s[|s| - 1];
      StableSortCorrect(init, rank);
      InsertPermutes(StableSort(init, rank), last, rank);
      InsertSorted(StableSort(init, rank), last, rank);
      assert s == init + [last];
      forall k
        ensures Filter(StableSort(s, rank), rank, k) == Filter(s, rank, k)
      {
        InsertStable(StableSort(init, rank), last, rank, k);
        FilterAppend(init, [last], rank, k);
      }
    }
  }

  // ---------------------------------------------------------------- any stable sort gives the same result

  lemma {:induction false} FilterWitness<T>(s: seq<T>, rank: T -> Rank, k: Rank) returns (i: nat)
    requires Filter(s, rank, k) != []
    ensures i < |s| && s[i] == Filter(s, rank, k)[0] && rank(s[i]) == k
  {
    if rank(s[0]) == k {
      i := 0;
    } else {
      var i' := FilterWitness(s[1..], rank, k);
      i := i' + 1;
    }
  }

  lemma FilterHead<T>(s: seq<T>, rank: T -> Rank)
    requires s != []
    ensures Filter(s, rank, rank(s[0])) != []
  {
  }

  lemma {:induction false} FilterTail<T>(s: seq<T>, rank: T -> Rank, k: Rank)
    requires s != []
    ensures Filter(s[1..], rank, k) == if rank(s[0]) == k then Filter(s, rank, k)[1..] else Filter(s, rank, k)
  {
  }

  /**
   * Two sorted sequences that both keep the order of each rank group of the
   * same input are equal: a stable sort under this comparator has exactly one
   * possible result.
   */
  lemma {:induction false} SortedStableUnique<T>(r1: seq<T>, r2: seq<T>, rank: T -> Rank)
    requires Sorted(r1, rank) && Sorted(r2, rank)
    requires forall k :: Filter(r1, rank, k) == Filter(r2, rank, k)
    ensures r1 == r2
    decreases |r1|
  {
    if r1 == [] && r2 == [] {
    } else if r1 == [] || r2 == [] {
      if r1 == [] {
        FilterHead(r2, rank);
      } else {
        FilterHead(r1, rank);
      }
      assert false;
    } else {
      var a, b := r1[0], r2[0];
      BeforeIrreflexive(rank(a));
      BeforeIrreflexive(rank(b));
      BeforeTotal(rank(a), rank(b));
      if Before(rank(a), rank(b)) {
        assert Filter(r1, rank, rank(a)) != [];
        var j := FilterWitness(r2, rank, rank(a));
        assert false;
      } else if Before(rank(b), rank(a)) {
        assert Filter(r2, rank, rank(b)) != [];
        var j := FilterWitness(r1, rank, rank(b));
        assert false;
      } else {
        assert Filter(r1, rank, rank(a))[0] == a && Filter(r2, rank, rank(b))[0] == b;
        forall k
          ensures Filter(r1[1..], rank, k) == Filter(r2[1..], rank, k)
        {
          FilterTail(r1, rank, k);
          FilterTail(r2, rank, k);
          assert Filter(r1, rank, k) == Filter(r2, rank, k);
        }
        SortedStableUnique(r1[1..], r2[1..], rank);
        assert r1 == [a] + r1[1..] && r2 == [b] + r2[1..];
      }
    }
  }

  /** Whatever stable sort produced `r` from `s`, it is the reference sort's result. */
  lemma StableSortUnique<T>(s: seq<T>, r: seq<T>, rank: T -> Rank)
    requires Sorted(r, rank) && Stable(s, r, rank)
    ensures r == StableSort(s, rank)
  {
    StableSortCorrect(s, rank);
    SortedStableUnique(r, StableSort(s, rank), rank);
  }

  /**
   * What a sorted sequence looks like: every dated record before every undated
   * one, dates non-increasing, undated keys non-decreasing.
   */
  lemma SortedShape<T>(s: seq<T>, rank: T -> Rank, i: nat, j: nat)
    requires Sorted(s, rank) && i < j < |s|
    ensures rank(s[j]).Dated? ==> rank(s[i]).Dated?
    ensures rank(s[i]).Dated? && rank(s[j]).Dated? ==> !Earlier(rank(s[i]).date, rank(s[j]).date)
    ensures rank(s[i]).Undated? && rank(s[j]).Undated? ==> !StrLess(rank(s[j]).key, rank(s[i]).key)
  {
    assert !Before(rank(s[j]), rank(s[i]));
  }

  // ---------------------------------------------------------------- in place

  lemma StableSortStep<T>(s: seq<T>, i: nat, rank: T -> Rank)
    requires i < |s|
    ensures StableSort(s[..i + 1], rank) == Insert(StableSort(s[..i], rank), s[i], rank)
  {
    assert s[..i + 1][..i] == s[..i];
  }

  /** Moving past a larger record: inserting into a prefix is inserting into a shorter one, then that record. */
  lemma InsertShift<T>(t: seq<T>, j: nat, x: T, rank: T -> Rank)
    requires 0 < j <= |t| && Before(rank(x), rank(t[j - 1]))
    ensures Insert(t[..j], x, rank) + t[j..] == Insert(t[..j - 1], x, rank) + t[j - 1..]
  {
    assert t[..j][..j - 1] == t[..j - 1];
    assert t[j - 1..] == [t[j - 1]] + t[j..];
  }

  /** Where the insertion stops, `x` goes right after the prefix. */
  lemma InsertStop<T>(t: seq<T>, j: nat, x: T, rank: T -> Rank)
    requires j <= |t| && (j == 0 || !Before(rank(x), rank(t[j - 1])))
    ensures Insert(t[..j], x, rank) == t[..j] + [x]
  {
  }

  /** Insertion sort on an array, as `sort.SliceStable` sorts a slice in place. */
  method SortInPlace<T>(a: array<T>, rank: T -> Rank)
    modifies a
    ensures a[..] == StableSort(old(a[..]), rank)
  {
    ghost var input := a[..];
    var i := 0;
    while i < a.Length
      invariant 0 <= i <= a.Length
      invariant a[..i] == StableSort(input[..i], rank)
      invariant a[i..] == input[i..]
    {
      assert input[i] == a[i..][0];
      InsertLast(a, i, rank);
      StableSortStep(input, i, rank);
      assert a[i + 1..] == input[i + 1..];
      i := i + 1;
    }
    assert input[..a.Length] == input;
  }

  /** Moves `a[i]` left past the elements it goes before, inserting it into the run `a[..i]`. */
  method InsertLast<T>(a: array<T>, i: nat, rank: T -> Rank)
    requires i < a.Length
    modifies a
    ensures a[..i + 1] == Insert(old(a[..i]), old(a[i]), rank)
    ensures a[i + 1..] == old(a[i + 1..])
  {
    var x := a[i];
    ghost var t := a[..i];
    var j := i;
    assert t[..j] == t && t[j..] == [];
    while j > 0 && Before(rank(x), rank(a[j - 1]))
      invariant 0 <= j <= i
      invariant forall k :: 0 <= k < j ==> a[k] == t[k]
      invariant forall k :: j < k <= i ==> a[k] == t[k - 1]
      invariant forall k :: i < k < a.Length ==> a[k] == old(a[k])
      invariant Insert(t, x, rank) == Insert(t[..j], x, rank) + t[j..]
    {
      InsertShift(t, j, x, rank);
      a[j] := a[j - 1];
      j := j - 1;
    }
    InsertStop(t, j, x, rank);
    a[j] := x;
    assert a[..i + 1] == t[..j] + [x] + t[j..];
  }
}
