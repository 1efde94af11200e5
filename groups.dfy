/**
 * `groupby(...)` column operations, defined for rows in any order: a row's
 * group is its key, and every operation looks only at rows with the same
 * key. The lemmas specialise them to tables whose groups are contiguous,
 * which is what sorting by the group columns first produces.
 */
module Groups {
  import opened Wrappers
  import opened Seqs

  /** How many of the first `n` rows have key `k`. */
  function Count<K(==)>(ks: seq<K>, k: K, n: nat): nat
    requires n <= |ks|
    decreases n
  {
    if n == 0 then 0 else Count(ks, k, n - 1) + (if ks[n - 1] == k then 1 else 0)
  }

  /** `cumcount()`: how many earlier rows share the row's key. */
  function Pos<K(==)>(ks: seq<K>, i: nat): nat
    requires i < |ks|
  {
    Count(ks, ks[i], i)
  }

  /** Every group occupies one run of consecutive rows. */
  ghost predicate Contiguous<K>(ks: seq<K>)
  {
    forall i, j, m :: 0 <= i < j < m < |ks| && ks[i] == ks[m] ==> ks[j] == ks[i]
  }

  /** The last row before position `n` whose key is `k`. */
  function LastIn<K(==)>(ks: seq<K>, k: K, n: nat): (r: Option<nat>)
    requires n <= |ks|
    ensures r.Some? ==> r.value < n && ks[r.value] == k && forall j :: r.value < j < n ==> ks[j] != k
    ensures r.None? ==> forall j :: 0 <= j < n ==> ks[j] != k
    decreases n
  {
    if n == 0 then None else if ks[n - 1] == k then Some(n - 1) else LastIn(ks, k, n - 1)
  }

  /** The row `diff()` subtracts from row `i`: the previous row of its group. */
  function PrevInGroup<K(==)>(ks: seq<K>, i: nat): Option<nat>
    requires i < |ks|
  {
    LastIn(ks, ks[i], i)
  }

  /** The last row before position `n` with key `k` whose value is present. */
  function LastFilled<K(==), V>(ks: seq<K>, vs: seq<Option<V>>, k: K, n: nat): (r: Option<nat>)
    requires |vs| == |ks| && n <= |ks|
    ensures r.Some? ==> r.value < n && ks[r.value] == k && vs[r.value].Some?
    ensures r.Some? ==> forall j :: r.value < j < n && ks[j] == k ==> vs[j].None?
    ensures r.None? ==> forall j :: 0 <= j < n && ks[j] == k ==> vs[j].None?
    decreases n
  {
    if n == 0 then None
    else if ks[n - 1] == k && vs[n - 1].Some? then Some(n - 1)
    else LastFilled(ks, vs, k, n - 1)
  }

  /** The first row at or after position `n` with key `k` whose value is present. */
  function FirstFilled<K(==), V>(ks: seq<K>, vs: seq<Option<V>>, k: K, n: nat): (r: Option<nat>)
    requires |vs| == |ks| && n <= |ks|
    ensures r.Some? ==> n <= r.value < |ks| && ks[r.value] == k && vs[r.value].Some?
    ensures r.Some? ==> forall j :: n <= j < r.value && ks[j] == k ==> vs[j].None?
    ensures r.None? ==> forall j :: n <= j < |ks| && ks[j] == k ==> vs[j].None?
    decreases |ks| - n
  {
    if n == |ks| then None
    else if ks[n] == k && vs[n].Some? then Some(n)
    else FirstFilled(ks, vs, k, n + 1)
  }

  /** `groupby(...).ffill()`: a missing value takes the group's last present value above it. */
  function FFill<K(==), V>(ks: seq<K>, vs: seq<Option<V>>): (r: seq<Option<V>>)
    requires |vs| == |ks|
    ensures |r| == |vs|
    ensures forall i :: 0 <= i < |vs| && vs[i].Some? ==> r[i] == vs[i]
  {
    seq(|vs|, i requires 0 <= i < |vs| =>
      match LastFilled(ks, vs, ks[i], i + 1)
      case Some(j) => vs[j]
      case None => None)
  }

  /** `groupby(...).bfill()`: a missing value takes the group's next present value below it. */
  function BFill<K(==), V>(ks: seq<K>, vs: seq<Option<V>>): (r: seq<Option<V>>)
    requires |vs| == |ks|
    ensures |r| == |vs|
    ensures forall i :: 0 <= i < |vs| && vs[i].Some? ==> r[i] == vs[i]
  {
    seq(|vs|, i requires 0 <= i < |vs| =>
      match FirstFilled(ks, vs, ks[i], i)
      case Some(j) => vs[j]
      case None => None)
  }

  /* ---------- facts about groups ---------- */

  /** A missing value followed by a present one of the same group takes that value. */
  lemma BFillNext<K, V>(ks: seq<K>, vs: seq<Option<V>>, i: nat)
    requires |vs| == |ks| && i + 1 < |ks| && ks[i + 1] == ks[i] && vs[i].None? && vs[i + 1].Some?
    ensures BFill(ks, vs)[i] == vs[i + 1]
  {
    assert FirstFilled(ks, vs, ks[i], i + 1) == Some(i + 1);
    assert FirstFilled(ks, vs, ks[i], i) == Some(i + 1);
  }

  /** The count is the multiplicity of `k` in the first `n` rows. */
  lemma {:induction false} CountMultiset<K>(ks: seq<K>, k: K, n: nat)
    requires n <= |ks|
    ensures Count(ks, k, n) == multiset(ks[..n])[k]
    decreases n
  {
    if n > 0 {
      CountMultiset(ks, k, n - 1);
      assert ks[..n][..n - 1] == ks[..n - 1];
      CountSnoc(ks[..n], k);
    }
  }

  /** The count is zero exactly when no row before `n` has key `k`. */
  lemma {:induction false} CountZero<K>(ks: seq<K>, k: K, n: nat)
    requires n <= |ks|
    ensures Count(ks, k, n) == 0 <==> forall j :: 0 <= j < n ==> ks[j] != k
    decreases n
  {
    if n > 0 {
      CountZero(ks, k, n - 1);
    }
  }

  /** A row is first in its group (`head(1)`) exactly when its cumcount is 0. */
  lemma HeadIffPosZero<K>(ks: seq<K>, i: nat)
    requires i < |ks|
    ensures PrevInGroup(ks, i).None? <==> Pos(ks, i) == 0
  {
    CountZero(ks, ks[i], i);
  }

  /** The row after a row of the same group has the next cumcount. */
  lemma PosStep<K>(ks: seq<K>, i: nat)
    requires 0 < i < |ks| && ks[i - 1] == ks[i]
    ensures Pos(ks, i) == Pos(ks, i - 1) + 1
  {
  }

  /** With contiguous groups, the previous row of a group is the row just above, if it is in the group. */
  lemma PrevIsAbove<K>(ks: seq<K>, i: nat)
    requires Contiguous(ks) && i < |ks|
    ensures PrevInGroup(ks, i) == if 0 < i && ks[i - 1] == ks[i] then Some(i - 1) else None
  {
  }

  /** With contiguous groups, a row is the last of its group iff its cumcount is one less than the group's size. */
  lemma LastOfGroup<K>(ks: seq<K>, i: nat)
    requires Contiguous(ks) && i < |ks|
    ensures (i + 1 == |ks| || ks[i + 1] != ks[i]) <==> Pos(ks, i) + 1 == multiset(ks)[ks[i]]
    ensures (i + 1 == |ks| || ks[i + 1] != ks[i]) <==> forall j :: i < j < |ks| ==> ks[j] != ks[i]
  {
    var k := ks[i];
    CountMultiset(ks, k, i);
    assert ks == ks[..i] + [k] + ks[i + 1..];
    assert multiset(ks)[k] == Pos(ks, i) + 1 + multiset(ks[i + 1..])[k];
    if i + 1 == |ks| || ks[i + 1] != k {
      assert k !in ks[i + 1..];
    } else {
      assert ks[i + 1..][0] == k;
    }
  }

  /** Counts below `i` do not look past `i`. */
  lemma {:induction false} CountPrefix<K>(ks: seq<K>, k: K, n: nat, i: nat)
    requires i <= n <= |ks|
    ensures Count(ks[..n], k, i) == Count(ks, k, i)
    decreases i
  {
    if i > 0 {
      CountPrefix(ks, k, n, i - 1);
    }
  }

  /** Positions keep the group's start when a prefix is taken. */
  lemma PosPrefix<K>(ks: seq<K>, n: nat, i: nat)
    requires i < n <= |ks|
    ensures Pos(ks[..n], i) == Pos(ks, i)
  {
    CountPrefix(ks, ks[i], n, i);
  }

  /** The count of `k` grows by one exactly when the last key is `k`. */
  lemma CountSnoc<K>(ks: seq<K>, k: K)
    requires ks != []
    ensures multiset(ks)[k] == multiset(ks[..|ks| - 1])[k] + (if ks[|ks| - 1] == k then 1 else 0)
  {
    var n := |ks| - 1;
    assert ks == ks[..n] + [ks[n]];
    assert multiset(ks) == multiset(ks[..n]) + multiset{ks[n]};
  }

  lemma CountArith(c: nat, got: nat, total: nat, hit: bool, kept: bool)
    requires total == c + (if hit then 1 else 0)
    requires got == (c + 1) / 2 + (if hit && kept then 1 else 0)
    requires hit ==> (kept <==> c % 2 == 0)
    ensures got == (total + 1) / 2
  {
  }

  /**
   * Selecting the rows at even positions of their group keeps ceil(n/2) of
   * a group of n rows.
   */
  lemma {:induction false} EvenPositionsCount<K>(ks: seq<K>, keep: seq<bool>, k: K)
    requires |keep| == |ks|
    requires forall i :: 0 <= i < |ks| ==> (keep[i] <==> Pos(ks, i) % 2 == 0)
    ensures multiset(Select(ks, keep))[k] == (multiset(ks)[k] + 1) / 2
    decreases |ks|
  {
    if ks != [] {
      var n := |ks| - 1;
      var ks', keep' := ks[..n], keep[..n];
      var c := multiset(ks')[k];
      assert multiset(Select(ks', keep'))[k] == (c + 1) / 2 by {
        forall i | 0 <= i < n ensures keep'[i] <==> Pos(ks', i) % 2 == 0 {
          PosPrefix(ks, n, i);
        }
        EvenPositionsCount(ks', keep', k);
      }
      var hit := ks[n] == k;
      assert multiset(ks)[k] == c + (if hit then 1 else 0) by {
        CountSnoc(ks, k);
      }
      assert hit ==> (keep[n] <==> c % 2 == 0) by {
        CountMultiset(ks, ks[n], n);
      }
      assert multiset(Select(ks, keep))[k] == multiset(Select(ks', keep'))[k] + (if hit && keep[n] then 1 else 0) by {
        SelectSnoc(ks, keep);
      }
      CountArith(c, multiset(Select(ks, keep))[k], multiset(ks)[k], hit, keep[n]);
    }
  }
}
