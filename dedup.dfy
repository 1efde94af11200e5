/**
 * Sorting, exact de-duplication, parsing of the time column and the
 * five-minute proximity filter (`process_excel`, between lowercasing and
 * tagging).
 */
module Dedup {
  import opened Wrappers
  import opened Text
  import opened Order
  import opened Seqs
  import opened Groups
  import opened Records

  /* ---------- the first sort, on the text columns ---------- */

  /**
   * The `['usuario', 'data_evento', 'horario_evento']` sort key. A missing
   * user has no place in it; the pipeline admits none.
   */
  function RawKey(r: RawRow): Key
  {
    [r.user.GetOr(""), r.date, r.time]
  }

  predicate RawLe(a: RawRow, b: RawRow)
  {
    KeyLe(RawKey(a), RawKey(b))
  }

  lemma RawLeTotalPreorder()
    ensures TotalPreorder(RawLe)
  {
    forall a, b ensures RawLe(a, b) || RawLe(b, a) {
      KeyLeTotalOrder(RawKey(a), RawKey(b), RawKey(a));
    }
    forall a, b, c | RawLe(a, b) && RawLe(b, c) ensures RawLe(a, c) {
      KeyLeTotalOrder(RawKey(a), RawKey(b), RawKey(c));
    }
  }

  /* ---------- parsing the time column ---------- */

  /** `pd.to_datetime(..., format='%H:%M:%S').dt.time` on one row. */
  function ParseRow(r: RawRow): (e: Option<Event>)
    requires r.user.Some?
    ensures e.Some? <==> ParseClock(r.time).Some?
    ensures e.Some? ==> e.value == Event(r.user.value, r.date, ParseClock(r.time).value, r.grupo, r.cargo, r.others)
  {
    match ParseClock(r.time)
    case Some(secs) => Some(Event(r.user.value, r.date, secs, r.grupo, r.cargo, r.others))
    case None => None
  }

  /** The column conversion fails as a whole if any single row fails. */
  function ParseTimes(rows: seq<RawRow>): (r: Option<seq<Event>>)
    requires forall i :: 0 <= i < |rows| ==> rows[i].user.Some?
    ensures r.Some? <==> forall i :: 0 <= i < |rows| ==> ParseClock(rows[i].time).Some?
    ensures r.Some? ==> |r.value| == |rows| && forall i :: 0 <= i < |rows| ==> Some(r.value[i]) == ParseRow(rows[i])
    decreases |rows|
  {
    if rows == [] then Some([])
    else
      var init, last := ParseTimes(rows[..|rows| - 1]), ParseRow(rows[|rows| - 1]);
      if init.Some? && last.Some? then Some(init.value + [last.value]) else None
  }

  /* ---------- the second sort, on the parsed timestamp ---------- */

  /** The `['usuario', 'data_evento', 'datetime_evento']` order. */
  predicate EventLe(a: Event, b: Event)
  {
    KeyLt(DayOf(a), DayOf(b)) || (DayOf(a) == DayOf(b) && a.secs <= b.secs)
  }

  lemma EventLeTotalPreorder()
    ensures TotalPreorder(EventLe)
  {
    forall a, b ensures EventLe(a, b) || EventLe(b, a) {
      KeyLtTrichotomy(DayOf(a), DayOf(b));
    }
    forall a, b, c | EventLe(a, b) && EventLe(b, c) ensures EventLe(a, c) {
      if KeyLt(DayOf(a), DayOf(b)) && KeyLt(DayOf(b), DayOf(c)) {
        KeyLtTransitive(DayOf(a), DayOf(b), DayOf(c));
      }
    }
  }

  /** In an EventLe-sorted table, events of one day are in time order. */
  lemma EventLeSameDay(a: Event, b: Event)
    requires EventLe(a, b) && DayOf(a) == DayOf(b)
    ensures a.secs <= b.secs
  {
    KeyLtIrreflexive(DayOf(a));
  }

  /** Sorting by user and date first puts every user-day in one run. */
  lemma SortedContiguous(s: seq<Event>)
    requires SortedBy(s, EventLe)
    ensures Contiguous(Days(s))
  {
    var ks := Days(s);
    forall i, j, m | 0 <= i < j < m < |ks| && ks[i] == ks[m] ensures ks[j] == ks[i] {
      assert EventLe(s[i], s[j]) && EventLe(s[j], s[m]);
      KeyLeTotalOrder(ks[i], ks[j], ks[m]);
      KeyLeTotalOrder(ks[j], ks[i], ks[m]);
    }
  }

  /* ---------- the five-minute filter ---------- */

  /** Five minutes, the smallest gap a kept event may have to its predecessor. */
  const Window: nat := 300

  /**
   * `time_diff.isna() | (time_diff >= 5)`, where `time_diff` is the gap in
   * minutes to the previous row of the same user-day, measured on the table
   * before anything is removed.
   */
  function KeepMask(s: seq<Event>): (keep: seq<bool>)
    ensures |keep| == |s|
  {
    var ks := Days(s);
    seq(|s|, i requires 0 <= i < |s| =>
      match PrevInGroup(ks, i)
      case None => true
      case Some(j) => s[i].secs - s[j].secs >= Window)
  }

  function Proximity(s: seq<Event>): seq<Event>
  {
    Select(s, KeepMask(s))
  }

  /**
   * In the sorted table a row survives iff it starts its user-day or its gap
   * to the row just above it is at least five minutes. The gap is never
   * measured to the last survivor.
   */
  lemma ProximityRule(s: seq<Event>, i: nat)
    requires SortedBy(s, EventLe) && i < |s|
    ensures KeepMask(s)[i] <==> i == 0 || DayOf(s[i - 1]) != DayOf(s[i]) || s[i].secs - s[i - 1].secs >= Window
  {
    SortedContiguous(s);
    PrevIsAbove(Days(s), i);
  }

  /** The filtered table of one sorted table: sorted, and each user-day's events at least five minutes apart. */
  ghost predicate Spaced(s: seq<Event>)
  {
    && SortedBy(s, EventLe)
    && forall i, j :: 0 <= i < j < |s| && DayOf(s[i]) == DayOf(s[j]) ==> s[i].secs + Window <= s[j].secs
  }

  /** The first event of every user-day survives. */
  lemma ProximityKeepsFirst(s: seq<Event>, i: nat)
    requires i < |s| && Pos(Days(s), i) == 0
    ensures KeepMask(s)[i] && s[i] in Proximity(s)
  {
    HeadIffPosZero(Days(s), i);
    SelectMember(s, KeepMask(s), s[i]);
  }

  /** A kept row is at least five minutes after every earlier row of its user-day. */
  lemma KeptGap(s: seq<Event>, i: nat, j: nat)
    requires SortedBy(s, EventLe)
    requires i < j < |s| && DayOf(s[i]) == DayOf(s[j]) && KeepMask(s)[j]
    ensures s[i].secs + Window <= s[j].secs
  {
    var ks := Days(s);
    var p := PrevInGroup(ks, j);
    assert ks[i] == ks[j];
    assert p.Some? && i <= p.value;
    assert s[j].secs - s[p.value].secs >= Window;
    if i < p.value {
      assert EventLe(s[i], s[p.value]);
      EventLeSameDay(s[i], s[p.value]);
    }
  }

  /** Survivors of one user-day are in strictly increasing time, at least five minutes apart. */
  lemma ProximitySpaced(s: seq<Event>)
    requires SortedBy(s, EventLe)
    ensures Spaced(Proximity(s))
  {
    var keep := KeepMask(s);
    var r, idx := Proximity(s), Indices(keep);
    SelectSorted(s, keep, EventLe);
    forall m, n | 0 <= m < n < |r| && DayOf(r[m]) == DayOf(r[n]) ensures r[m].secs + Window <= r[n].secs {
      KeptGap(s, idx[m], idx[n]);
    }
  }

  /** Every survivor is an event of the input. */
  lemma ProximitySubset(s: seq<Event>, e: Event)
    requires e in Proximity(s)
    ensures e in s
  {
    SelectMember(s, KeepMask(s), e);
  }

  /* ---------- worked cases ---------- */

  function At(secs: nat): Event
  {
    Event("ana", "10/01/2024", secs, Some("vendas"), "caixa", [])
  }

  /**
   * Three events of one user-day, each less than five minutes after the one
   * before: the third is measured against the removed second, so only the
   * first stays.
   */
  lemma ThreeClose(a: Event, b: Event, c: Event)
    requires DayOf(a) == DayOf(b) == DayOf(c)
    requires a.secs <= b.secs < a.secs + Window && b.secs <= c.secs < b.secs + Window
    ensures Proximity([a, b, c]) == [a]
  {
    var s := [a, b, c];
    var keep := KeepMask(s);
    assert SortedBy(s, EventLe);
    ProximityRule(s, 0);
    ProximityRule(s, 1);
    ProximityRule(s, 2);
    SelectFirstOnly(s, keep);
  }

  /** 08:00, 08:03, 08:06: the last gap is three minutes to 08:03, so only 08:00 stays. */
  lemma ThreeCloseEvents()
    ensures Proximity([At(28800), At(28980), At(29160)]) == [At(28800)]
  {
    ThreeClose(At(28800), At(28980), At(29160));
  }

  /** 08:00 and 08:07 are seven minutes apart: both stay. */
  lemma TwoDistantEvents()
    ensures Proximity([At(28800), At(29220)]) == [At(28800), At(29220)]
  {
    var s := [At(28800), At(29220)];
    var ks := Days(s);
    assert PrevInGroup(ks, 0) == None;
    assert PrevInGroup(ks, 1) == Some(0);
    SelectAll(s, KeepMask(s));
  }
}
