/**
 * The three summary sheets: the durations of the processed rows summed per
 * user, per group and per (role, group), each total written as "HH:MM".
 * A missing duration adds nothing to a sum, and a key whose durations are
 * all missing sums to zero.
 */
module Aggregate {
  import opened Wrappers
  import opened Text
  import opened Order
  import opened Seqs
  import opened Records

  /** The `groupby` keys of the three summary sheets. */
  datatype Grouping = ByUser | ByGroup | ByRoleAndGroup

  function GroupKey(g: Grouping, r: Record): (k: Key)
    ensures g == ByRoleAndGroup ==> |k| == 2
    ensures g != ByRoleAndGroup ==> |k| == 1
  {
    match g
    case ByUser => [r.user]
    case ByGroup => [r.grupo]
    case ByRoleAndGroup => [r.cargo, r.grupo]
  }

  /** What one row adds to a sum: its duration, or nothing when it is missing. */
  function Dur(r: Record): int
  {
    r.duration.GetOr(0)
  }

  /** The sum of the durations of the rows whose key is `k`. */
  function SumWhere(rows: seq<Record>, g: Grouping, k: Key): int
    decreases |rows|
  {
    if rows == [] then 0
    else SumWhere(rows[..|rows| - 1], g, k) + (if GroupKey(g, rows[|rows| - 1]) == k then Dur(rows[|rows| - 1]) else 0)
  }

  /** The sum of all durations of the processed sheet. */
  function TotalDuration(rows: seq<Record>): int
    decreases |rows|
  {
    if rows == [] then 0 else TotalDuration(rows[..|rows| - 1]) + Dur(rows[|rows| - 1])
  }

  function KeysOf(rows: seq<Record>, g: Grouping): (ks: seq<Key>)
    ensures |ks| == |rows|
    ensures forall i :: 0 <= i < |rows| ==> ks[i] == GroupKey(g, rows[i])
  {
    seq(|rows|, i requires 0 <= i < |rows| => GroupKey(g, rows[i]))
  }

  /** The rows of a summary sheet, in `groupby` order: the distinct keys, sorted. */
  function GroupKeys(rows: seq<Record>, g: Grouping): seq<Key>
  {
    DropDuplicates(SortBy(KeysOf(rows, g), KeyLe))
  }

  /** One row of a summary sheet: the key and its `diferenca_total`. */
  datatype SumRow = SumRow(key: Key, total: string)

  function SumTable(rows: seq<Record>, g: Grouping): (t: seq<SumRow>)
    ensures |t| == |GroupKeys(rows, g)|
    ensures forall j :: 0 <= j < |t| ==> t[j].key == GroupKeys(rows, g)[j]
  {
    var ks := GroupKeys(rows, g);
    seq(|ks|, j requires 0 <= j < |ks| => SumRow(ks[j], ClockHHMM(SumWhere(rows, g, ks[j]))))
  }

  /** The sum of the per-key sums over a list of keys. */
  function SumOver(rows: seq<Record>, g: Grouping, ks: seq<Key>): int
    decreases |ks|
  {
    if ks == [] then 0 else SumOver(rows, g, ks[..|ks| - 1]) + SumWhere(rows, g, ks[|ks| - 1])
  }

  /* ---------- the key column ---------- */

  lemma KeyLeTotalPreorder()
    ensures TotalPreorder(KeyLe)
  {
    forall a, b ensures KeyLe(a, b) || KeyLe(b, a) {
      KeyLeTotalOrder(a, b, a);
    }
    forall a, b, c | KeyLe(a, b) && KeyLe(b, c) ensures KeyLe(a, c) {
      KeyLeTotalOrder(a, b, c);
    }
  }

  /** A summary sheet lists no key twice, and its keys are in strictly increasing order. */
  lemma GroupKeysOrdered(rows: seq<Record>, g: Grouping)
    ensures NoDup(GroupKeys(rows, g))
    ensures forall j, l :: 0 <= j < l < |GroupKeys(rows, g)| ==> KeyLt(GroupKeys(rows, g)[j], GroupKeys(rows, g)[l])
  {
    var sorted := SortBy(KeysOf(rows, g), KeyLe);
    var ks := GroupKeys(rows, g);
    assert NoDup(ks) by {
      DropDuplicatesSpec(sorted);
    }
    assert forall j, l :: 0 <= j < l < |ks| ==> KeyLe(ks[j], ks[l]) by {
      KeyLeTotalPreorder();
      SortBySorted(KeysOf(rows, g), KeyLe);
      SelectSorted(sorted, FirstOccurrences(sorted), KeyLe);
    }
    forall j, l | 0 <= j < l < |ks| ensures KeyLt(ks[j], ks[l]) {
      KeyLtTrichotomy(ks[j], ks[l]);
    }
  }

  /** A summary sheet has a row for a key exactly when some processed row carries that key. */
  lemma GroupKeysCover(rows: seq<Record>, g: Grouping)
    ensures forall k :: k in GroupKeys(rows, g) <==> exists i :: 0 <= i < |rows| && GroupKey(g, rows[i]) == k
  {
    var sorted := SortBy(KeysOf(rows, g), KeyLe);
    var ks := GroupKeys(rows, g);
    assert forall k :: k in ks <==> k in multiset(sorted) by {
      DropDuplicatesSpec(sorted);
    }
    forall k ensures k in ks <==> exists i :: 0 <= i < |rows| && GroupKey(g, rows[i]) == k {
      if k in ks {
        assert k in KeysOf(rows, g);
        var i :| 0 <= i < |rows| && KeysOf(rows, g)[i] == k;
      }
    }
  }

  /* ---------- conservation of the total ---------- */

  lemma {:induction false} SumOverNoRows(g: Grouping, ks: seq<Key>)
    ensures SumOver([], g, ks) == 0
    decreases |ks|
  {
    if ks != [] {
      SumOverNoRows(g, ks[..|ks| - 1]);
    }
  }

  /**
   * One more row adds its duration to exactly one per-key sum when its key
   * is listed once, and to none when it is not listed.
   */
  lemma {:induction false} SumOverSnoc(rows: seq<Record>, r: Record, g: Grouping, ks: seq<Key>)
    requires NoDup(ks)
    ensures SumOver(rows + [r], g, ks) == SumOver(rows, g, ks) + (if GroupKey(g, r) in ks then Dur(r) else 0)
    decreases |ks|
  {
    if ks != [] {
      var ks', k := ks[..|ks| - 1], ks[|ks| - 1];
      assert ks == ks' + [k];
      SumOverSnoc(rows, r, g, ks');
      assert (rows + [r])[..|rows + [r]| - 1] == rows;
      assert SumWhere(rows + [r], g, k) == SumWhere(rows, g, k) + (if GroupKey(g, r) == k then Dur(r) else 0);
      assert GroupKey(g, r) in ks <==> GroupKey(g, r) in ks' || GroupKey(g, r) == k;
      assert GroupKey(g, r) == k ==> GroupKey(g, r) !in ks';
    }
  }

  /** Per-key sums over a duplicate-free list of every key add up to the total. */
  lemma {:induction false} SumOverCovering(rows: seq<Record>, g: Grouping, ks: seq<Key>)
    requires NoDup(ks) && forall i :: 0 <= i < |rows| ==> GroupKey(g, rows[i]) in ks
    ensures SumOver(rows, g, ks) == TotalDuration(rows)
    decreases |rows|
  {
    if rows == [] {
      SumOverNoRows(g, ks);
    } else {
      var rows', r := rows[..|rows| - 1], rows[|rows| - 1];
      assert rows == rows' + [r];
      SumOverCovering(rows', g, ks);
      SumOverSnoc(rows', r, g, ks);
    }
  }

  /** The totals of a summary sheet add up to the total of the processed sheet. */
  lemma Conservation(rows: seq<Record>, g: Grouping)
    ensures SumOver(rows, g, GroupKeys(rows, g)) == TotalDuration(rows)
  {
    GroupKeysOrdered(rows, g);
    GroupKeysCover(rows, g);
    SumOverCovering(rows, g, GroupKeys(rows, g));
  }

  /** The three summary sheets account for the same total time. */
  lemma SheetsAgree(rows: seq<Record>)
    ensures SumOver(rows, ByUser, GroupKeys(rows, ByUser)) == SumOver(rows, ByGroup, GroupKeys(rows, ByGroup))
    ensures SumOver(rows, ByGroup, GroupKeys(rows, ByGroup)) == SumOver(rows, ByRoleAndGroup, GroupKeys(rows, ByRoleAndGroup))
  {
    Conservation(rows, ByUser);
    Conservation(rows, ByGroup);
    Conservation(rows, ByRoleAndGroup);
  }

  /* ---------- the totals ---------- */

  /** A key whose durations are all missing sums to zero. */
  lemma {:induction false} SumWhereMissing(rows: seq<Record>, g: Grouping, k: Key)
    requires forall i :: 0 <= i < |rows| && GroupKey(g, rows[i]) == k ==> rows[i].duration.None?
    ensures SumWhere(rows, g, k) == 0
    decreases |rows|
  {
    if rows != [] {
      SumWhereMissing(rows[..|rows| - 1], g, k);
    }
  }

  /** Durations of zero or more give a per-key sum of zero or more. */
  lemma {:induction false} SumWhereNonNegative(rows: seq<Record>, g: Grouping, k: Key)
    requires forall i :: 0 <= i < |rows| ==> Dur(rows[i]) >= 0
    ensures SumWhere(rows, g, k) >= 0
    decreases |rows|
  {
    if rows != [] {
      SumWhereNonNegative(rows[..|rows| - 1], g, k);
    }
  }

  lemma ZeroText()
    ensures ClockHHMM(0) == "00:00"
  {
    assert Pad2(0) == "00";
  }

  /** A key whose durations are all missing is written "00:00". */
  lemma AllMissingIsZero(rows: seq<Record>, g: Grouping, j: nat)
    requires j < |SumTable(rows, g)|
    requires forall i :: 0 <= i < |rows| && GroupKey(g, rows[i]) == SumTable(rows, g)[j].key ==> rows[i].duration.None?
    ensures SumTable(rows, g)[j].total == "00:00"
  {
    SumWhereMissing(rows, g, SumTable(rows, g)[j].key);
    ZeroText();
  }

  /**
   * With durations of zero or more, every total is written with at least two
   * hour digits and two minute digits, and reads back as the key's sum in
   * whole minutes.
   */
  lemma SumTableReadsBack(rows: seq<Record>, g: Grouping, j: nat)
    requires j < |SumTable(rows, g)|
    requires forall i :: 0 <= i < |rows| ==> Dur(rows[i]) >= 0
    ensures SumTable(rows, g)[j].key == GroupKeys(rows, g)[j]
    ensures var p := Split(SumTable(rows, g)[j].total, ':');
      |p| == 2 && |p[0]| >= 2 && |p[1]| == 2
    ensures ReadHHMM(SumTable(rows, g)[j].total) == Some(SumWhere(rows, g, GroupKeys(rows, g)[j]) / 60)
  {
    var k := GroupKeys(rows, g)[j];
    SumWhereNonNegative(rows, g, k);
    ClockHHMMReadsBack(SumWhere(rows, g, k));
  }
}
