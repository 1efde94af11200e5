/**
 * Whole-table operations that pandas provides: boolean-mask selection
 * (`df[mask]`), `drop_duplicates(keep='first')` and a stable sort.
 */
module Seqs {

  /* ---------- boolean masks ---------- */

  /** The positions where the mask is true, in increasing order. */
  function Indices(keep: seq<bool>): (idx: seq<nat>)
    ensures forall m :: 0 <= m < |idx| ==> idx[m] < |keep| && keep[idx[m]]
    ensures forall m, n :: 0 <= m < n < |idx| ==> idx[m] < idx[n]
    ensures forall i :: 0 <= i < |keep| && keep[i] ==> i in idx
    decreases |keep|
  {
    if keep == [] then []
    else Indices(keep[..|keep| - 1]) + (if keep[|keep| - 1] then [|keep| - 1] else [])
  }

  /** `df[mask]`: the rows whose mask entry is true, in their original order. */
  function Select<T>(s: seq<T>, keep: seq<bool>): (r: seq<T>)
    requires |keep| == |s|
    ensures |r| == |Indices(keep)|
    ensures forall m :: 0 <= m < |r| ==> r[m] == s[Indices(keep)[m]]
    decreases |s|
  {
    if s == [] then []
    else Select(s[..|s| - 1], keep[..|s| - 1]) + (if keep[|s| - 1] then [s[|s| - 1]] else [])
  }

  /** A row is in the selection iff it stands at a position the mask keeps. */
  lemma SelectMember<T>(s: seq<T>, keep: seq<bool>, x: T)
    requires |keep| == |s|
    ensures x in Select(s, keep) <==> exists i :: 0 <= i < |s| && keep[i] && s[i] == x
  {
    if x in Select(s, keep) {
      SelectedKept(s, keep, x);
    }
    if exists i :: 0 <= i < |s| && keep[i] && s[i] == x {
      var i :| 0 <= i < |s| && keep[i] && s[i] == x;
      KeptSelected(s, keep, i);
    }
  }

  lemma SelectedKept<T>(s: seq<T>, keep: seq<bool>, x: T)
    requires |keep| == |s| && x in Select(s, keep)
    ensures exists i :: 0 <= i < |s| && keep[i] && s[i] == x
  {
    var r, idx := Select(s, keep), Indices(keep);
    var m :| 0 <= m < |r| && r[m] == x;
    var i := idx[m];
    assert 0 <= i < |s| && keep[i];
    assert s[i] == x;
  }

  lemma KeptSelected<T>(s: seq<T>, keep: seq<bool>, i: nat)
    requires |keep| == |s| && i < |s| && keep[i]
    ensures s[i] in Select(s, keep)
  {
    var r, idx := Select(s, keep), Indices(keep);
    assert i in idx;
    var m :| 0 <= m < |idx| && idx[m] == i;
    assert r[m] == s[i];
  }

  /** The last row joins the selection of the others exactly when it is kept. */
  lemma SelectSnoc<T>(s: seq<T>, keep: seq<bool>)
    requires |keep| == |s| && s != []
    ensures Select(s, keep) == Select(s[..|s| - 1], keep[..|s| - 1]) + (if keep[|s| - 1] then [s[|s| - 1]] else [])
  {
  }

  /** The last position joins the others' list exactly when it is kept. */
  lemma IndicesSnoc(keep: seq<bool>)
    requires keep != []
    ensures Indices(keep) == Indices(keep[..|keep| - 1]) + (if keep[|keep| - 1] then [|keep| - 1] else [])
  {
  }

  lemma RangeSnoc(r: seq<nat>, n: nat)
    requires |r| == n && forall m :: 0 <= m < n ==> r[m] == m
    ensures |r + [n]| == n + 1 && forall m :: 0 <= m <= n ==> (r + [n])[m] == m
  {
  }

  /** A mask that keeps everything lists every position. */
  lemma {:induction false} IndicesAll(keep: seq<bool>)
    requires forall i :: 0 <= i < |keep| ==> keep[i]
    ensures |Indices(keep)| == |keep|
    ensures forall m :: 0 <= m < |keep| ==> Indices(keep)[m] == m
    decreases |keep|
  {
    if keep != [] {
      var n := |keep| - 1;
      var idx' := Indices(keep[..n]);
      assert |idx'| == n && forall m :: 0 <= m < n ==> idx'[m] == m by {
        assert forall i :: 0 <= i < n ==> keep[..n][i];
        IndicesAll(keep[..n]);
      }
      IndicesSnoc(keep);
      RangeSnoc(idx', n);
    }
  }

  /** A mask that keeps everything selects the whole table. */
  lemma SelectAll<T>(s: seq<T>, keep: seq<bool>)
    requires |keep| == |s| && forall i :: 0 <= i < |s| ==> keep[i]
    ensures Select(s, keep) == s
  {
    IndicesAll(keep);
    var r := Select(s, keep);
    assert |r| == |s|;
    forall m | 0 <= m < |s| ensures r[m] == s[m] {
      assert r[m] == s[Indices(keep)[m]];
    }
  }

  lemma SingletonOf<T>(p: seq<T>, x: T)
    requires |p| == 1 && p[0] == x
    ensures p == [x]
  {
  }

  /** The last of n strictly increasing naturals is at least n - 1. */
  lemma {:induction false} IncreasingBound(idx: seq<nat>)
    requires idx != [] && forall m, n :: 0 <= m < n < |idx| ==> idx[m] < idx[n]
    ensures idx[|idx| - 1] >= |idx| - 1
    decreases |idx|
  {
    if |idx| > 1 {
      IncreasingBound(idx[..|idx| - 1]);
    }
  }

  /** A mask that keeps only the first position selects only the first row. */
  lemma SelectFirstOnly<T>(s: seq<T>, keep: seq<bool>)
    requires |keep| == |s| && s != [] && keep[0]
    requires forall i :: 0 < i < |s| ==> !keep[i]
    ensures Select(s, keep) == [s[0]]
  {
    var idx := Indices(keep);
    assert 0 in idx;
    assert forall m :: 0 <= m < |idx| ==> idx[m] == 0;
    IncreasingBound(idx);
  }

  /* ---------- duplicates ---------- */

  predicate NoDup<T(==)>(s: seq<T>)
  {
    forall i, j :: 0 <= i < j < |s| ==> s[i] != s[j]
  }

  /** The mask of `~duplicated()`: true at the first occurrence of each value. */
  function FirstOccurrences<T(==)>(s: seq<T>): (keep: seq<bool>)
    ensures |keep| == |s|
    ensures forall i :: 0 <= i < |s| ==> (keep[i] <==> s[i] !in s[..i])
  {
    seq(|s|, i requires 0 <= i < |s| => s[i] !in s[..i])
  }

  /** `drop_duplicates()`: keep the first occurrence of every value. */
  function DropDuplicates<T(==)>(s: seq<T>): seq<T>
  {
    Select(s, FirstOccurrences(s))
  }

  /** What `drop_duplicates` promises: no value twice, no value lost, none invented. */
  lemma DropDuplicatesSpec<T>(s: seq<T>)
    ensures NoDup(DropDuplicates(s))
    ensures forall x :: x in DropDuplicates(s) <==> x in s
  {
    DropDuplicatesNoDup(s);
    forall x ensures x in DropDuplicates(s) <==> x in s {
      DropDuplicatesMember(s, x);
    }
  }

  lemma DropDuplicatesNoDup<T>(s: seq<T>)
    ensures NoDup(DropDuplicates(s))
  {
    var keep := FirstOccurrences(s);
    var r, idx := DropDuplicates(s), Indices(keep);
    forall i, j | 0 <= i < j < |r| ensures r[i] != r[j] {
      assert idx[i] < idx[j] && keep[idx[j]];
      assert r[i] == s[idx[i]] && r[j] == s[idx[j]];
      assert s[idx[i]] in s[..idx[j]];
    }
  }

  lemma DropDuplicatesMember<T>(s: seq<T>, x: T)
    ensures x in DropDuplicates(s) <==> x in s
  {
    var keep := FirstOccurrences(s);
    if x in DropDuplicates(s) {
      SelectedKept(s, keep, x);
    }
    if x in s {
      var i :| 0 <= i < |s| && s[i] == x;
      FirstIndex(s, i);
      var k :| 0 <= k <= i && s[k] == s[i] && s[k] !in s[..k];
      assert keep[k];
      KeptSelected(s, keep, k);
    }
  }

  /** Every value has a first occurrence. */
  lemma {:induction false} FirstIndex<T>(s: seq<T>, i: nat)
    requires i < |s|
    ensures exists k :: 0 <= k <= i && s[k] == s[i] && s[k] !in s[..k]
    decreases i
  {
    if s[i] in s[..i] {
      var k :| 0 <= k < i && s[k] == s[i];
      FirstIndex(s, k);
    }
  }

  /* ---------- sorting ---------- */

  ghost predicate TotalPreorder<T(!new)>(le: (T, T) -> bool)
  {
    && (forall a, b :: le(a, b) || le(b, a))
    && (forall a, b, c :: le(a, b) && le(b, c) ==> le(a, c))
  }

  predicate SortedBy<T>(s: seq<T>, le: (T, T) -> bool)
  {
    forall i, j :: 0 <= i < j < |s| ==> le(s[i], s[j])
  }

  /** Put `x` after every element that is not greater than it (keeps the sort stable). */
  function Insert<T>(x: T, s: seq<T>, le: (T, T) -> bool): (r: seq<T>)
    ensures multiset(r) == multiset(s) + multiset{x}
    decreases |s|
  {
    if s == [] then [x]
    else if !le(s[0], x) then [x] + s
    else
      assert s == [s[0]] + s[1..];
      [s[0]] + Insert(x, s[1..], le)
  }

  /** Stable insertion sort (`sort_values` on several columns is stable). */
  function SortBy<T>(s: seq<T>, le: (T, T) -> bool): (r: seq<T>)
    ensures multiset(r) == multiset(s)
    decreases |s|
  {
    if s == [] then []
    else
      assert s == s[..|s| - 1] + [s[|s| - 1]];
      Insert(s[|s| - 1], SortBy(s[..|s| - 1], le), le)
  }

  lemma {:induction false} InsertSorted<T(!new)>(x: T, s: seq<T>, le: (T, T) -> bool)
    requires TotalPreorder(le) && SortedBy(s, le)
    ensures SortedBy(Insert(x, s, le), le)
    decreases |s|
  {
    if s != [] && le(s[0], x) {
      var t := Insert(x, s[1..], le);
      InsertSorted(x, s[1..], le);
      forall k | 0 <= k < |t| ensures le(s[0], t[k]) {
        assert t[k] in multiset(t);
        if t[k] != x {
          assert t[k] in multiset(s[1..]);
          var j :| 0 <= j < |s[1..]| && s[1..][j] == t[k];
          assert s[j + 1] == t[k];
        }
      }
    }
  }

  /** The result of SortBy is sorted and is a permutation of its input. */
  lemma {:induction false} SortBySorted<T(!new)>(s: seq<T>, le: (T, T) -> bool)
    requires TotalPreorder(le)
    ensures SortedBy(SortBy(s, le), le)
    ensures multiset(SortBy(s, le)) == multiset(s)
    decreases |s|
  {
    if s != [] {
      SortBySorted(s[..|s| - 1], le);
      InsertSorted(s[|s| - 1], SortBy(s[..|s| - 1], le), le);
    }
  }

  /** The elements of `s` that `le` ranks level with `c`, in their order in `s`. */
  function Ties<T>(s: seq<T>, c: T, le: (T, T) -> bool): seq<T>
    decreases |s|
  {
    if s == [] then [] else (if le(c, s[0]) && le(s[0], c) then [s[0]] else []) + Ties(s[1..], c, le)
  }

  lemma {:induction false} TiesAppend<T>(a: seq<T>, b: seq<T>, c: T, le: (T, T) -> bool)
    ensures Ties(a + b, c, le) == Ties(a, c, le) + Ties(b, c, le)
    decreases |a|
  {
    if a == [] {
      assert a + b == b;
    } else {
      assert (a + b)[0] == a[0] && (a + b)[1..] == a[1..] + b;
      TiesAppend(a[1..], b, c, le);
    }
  }

  lemma {:induction false} NoTies<T>(s: seq<T>, c: T, le: (T, T) -> bool)
    requires forall j :: 0 <= j < |s| ==> !(le(c, s[j]) && le(s[j], c))
    ensures Ties(s, c, le) == []
    decreases |s|
  {
    if s != [] {
      NoTies(s[1..], c, le);
    }
  }

  lemma ConcatAssoc<T>(a: seq<T>, b: seq<T>, c: seq<T>)
    ensures a + (b + c) == (a + b) + c
  {
  }

  /** In a sorted list that starts above `x`, nothing is level with `x`. */
  lemma AboveHasNoTies<T(!new)>(x: T, s: seq<T>, c: T, le: (T, T) -> bool)
    requires TotalPreorder(le) && SortedBy(s, le)
    requires s != [] && !le(s[0], x) && le(c, x) && le(x, c)
    ensures Ties(s, c, le) == []
  {
    forall j | 0 <= j < |s| ensures !(le(c, s[j]) && le(s[j], c)) {
      if j > 0 {
        assert le(s[0], s[j]);
      }
    }
    NoTies(s, c, le);
  }

  /** Inserting `x` into a sorted list puts it after every element level with it. */
  lemma {:induction false} InsertTies<T(!new)>(x: T, s: seq<T>, c: T, le: (T, T) -> bool)
    requires TotalPreorder(le) && SortedBy(s, le)
    ensures Ties(Insert(x, s, le), c, le) == Ties(s, c, le) + Ties([x], c, le)
    decreases |s|
  {
    if s == [] {
    } else if !le(s[0], x) {
      var hx := if le(c, x) && le(x, c) then [x] else [];
      assert Ties([x], c, le) == hx;
      assert ([x] + s)[1..] == s;
      assert Ties(Insert(x, s, le), c, le) == hx + Ties(s, c, le);
      if hx != [] {
        AboveHasNoTies(x, s, c, le);
      }
    } else {
      var rest := Insert(x, s[1..], le);
      var h := if le(c, s[0]) && le(s[0], c) then [s[0]] else [];
      assert ([s[0]] + rest)[1..] == rest;
      assert Ties(Insert(x, s, le), c, le) == h + Ties(rest, c, le);
      assert SortedBy(s[1..], le);
      InsertTies(x, s[1..], c, le);
      ConcatAssoc(h, Ties(s[1..], c, le), Ties([x], c, le));
    }
  }

  /** SortBy is stable: elements that `le` ranks level keep their relative order. */
  lemma {:induction false} SortByStable<T(!new)>(s: seq<T>, c: T, le: (T, T) -> bool)
    requires TotalPreorder(le)
    ensures Ties(SortBy(s, le), c, le) == Ties(s, c, le)
    decreases |s|
  {
    if s != [] {
      var init, last := s[..|s| - 1], s[|s| - 1];
      SortByStable(init, c, le);
      SortBySorted(init, le);
      InsertTies(last, SortBy(init, le), c, le);
      assert s == init + [last];
      TiesAppend(init, [last], c, le);
    }
  }

  /** Masking a sorted table leaves it sorted. */
  lemma SelectSorted<T>(s: seq<T>, keep: seq<bool>, le: (T, T) -> bool)
    requires |keep| == |s| && SortedBy(s, le)
    ensures SortedBy(Select(s, keep), le)
  {
    var r, idx := Select(s, keep), Indices(keep);
    forall i, j | 0 <= i < j < |r| ensures le(r[i], r[j]) {
      assert idx[i] < idx[j];
    }
  }
}
