/**
 * `process_excel`: the sheet is normalised, sorted, de-duplicated, given
 * clock times, re-sorted, thinned to events five minutes apart, tagged,
 * paired, and summed three ways. Reading and writing the workbook are not
 * modelled; the method takes the sheet as a value and returns the four
 * output sheets, or None where `pd.to_datetime` would raise.
 */
module Pipeline {
  import opened Wrappers
  import opened Text
  import opened Order
  import opened Seqs
  import opened Records
  import opened Normalization
  import opened Dedup
  import opened Pairing
  import opened Aggregate

  /**
   * The workbook written at the end: the processed sheet and the three sums.
   * `columns` holds the lowered header of the input sheet (line 21 of
   * app.py). The written processed sheet's header is not this list: it
   * lacks `tipo` and `horario_evento` and gains `horario_entrada`,
   * `horario_saida` and `diferenca_horario`, the fields of `Record`.
   */
  datatype Output = Output(
    columns: seq<string>,
    processed: seq<Record>,
    byUser: seq<SumRow>,
    byGroup: seq<SumRow>,
    byRoleAndGroup: seq<SumRow>)

  /** Some row of `rows` has this user, date and clock time. */
  predicate Witnessed(rows: seq<RawRow>, user: string, date: string, secs: nat)
  {
    exists r :: r in rows && r.user == Some(user) && r.date == date && ParseClock(r.time) == Some(secs)
  }

  /**
   * What every processed row promises about the normalised rows it came
   * from: an admitted user, an entry and (when present) an exit that are
   * clock times read from rows of that user and date, a duration of five
   * minutes or more whenever both are present, and a text exactly when
   * there is a duration.
   */
  ghost predicate Sound(recs: seq<Record>, rows: seq<RawRow>)
  {
    forall m :: 0 <= m < |recs| ==>
      && Admissible(recs[m].user)
      && recs[m].entrada.Some?
      && Witnessed(rows, recs[m].user, recs[m].date, recs[m].entrada.value)
      && (recs[m].saida.Some? ==> Witnessed(rows, recs[m].user, recs[m].date, recs[m].saida.value))
      && (recs[m].duration.Some? <==> recs[m].saida.Some?)
      && (recs[m].duration.Some? ==> recs[m].duration.value >= Window)
      && (recs[m].diferenca.None? <==> recs[m].duration.None?)
  }

  /* ---------- provenance of the rows ---------- */

  /** Every normalised row has a user, and that user is admitted. */
  lemma NormalizedUsers(t: Table)
    requires forall i :: 0 <= i < |t.rows| ==> t.rows[i].user.Some?
    ensures forall r :: r in Normalize(t).rows ==> r.user.Some? && Admissible(r.user.value)
  {
    var kept := Exclude(t.rows);
    ExcludeSpec(t.rows);
    forall i | 0 <= i < |kept| ensures !Excluded(kept[i].user) && kept[i].user.Some? {
      assert kept[i] in kept;
    }
    LowerKeepsAdmitted(kept);
  }

  /** Sorting and de-duplicating keep exactly the rows that were there. */
  lemma CleanedRows(rows: seq<RawRow>)
    ensures forall r :: r in DropDuplicates(SortBy(rows, RawLe)) <==> r in rows
  {
    var sorted := SortBy(rows, RawLe);
    DropDuplicatesSpec(sorted);
    forall r ensures r in sorted <==> r in rows {
      assert r in sorted <==> r in multiset(sorted);
    }
  }

  /** The sorted, de-duplicated sheet is in (user, date, time) order and has the normalised rows, each with a user. */
  lemma {:induction false} CleanedStage(t: Table, rows: seq<RawRow>)
    requires forall i :: 0 <= i < |t.rows| ==> t.rows[i].user.Some?
    requires rows == DropDuplicates(SortBy(Normalize(t).rows, RawLe))
    ensures forall r :: r in rows <==> r in Normalize(t).rows
    ensures forall i :: 0 <= i < |rows| ==> rows[i].user.Some?
    ensures SortedBy(rows, RawLe)
  {
    var sorted := SortBy(Normalize(t).rows, RawLe);
    assert SortedBy(rows, RawLe) by {
      RawLeTotalPreorder();
      SortBySorted(Normalize(t).rows, RawLe);
      SelectSorted(sorted, FirstOccurrences(sorted), RawLe);
    }
    CleanedRows(Normalize(t).rows);
    NormalizedUsers(t);
    forall i | 0 <= i < |rows| ensures rows[i].user.Some? {
      assert rows[i] in rows;
    }
  }

  /** The time column of a sheet fails to parse exactly when some row of the same rows has a bad time. */
  lemma {:induction false} ParseStage(rows: seq<RawRow>, src: seq<RawRow>)
    requires forall i :: 0 <= i < |rows| ==> rows[i].user.Some?
    requires forall r :: r in rows <==> r in src
    ensures ParseTimes(rows).None? <==> exists r :: r in src && ParseClock(r.time).None?
  {
    if ParseTimes(rows).None? {
      var i :| 0 <= i < |rows| && ParseClock(rows[i].time).None?;
      assert rows[i] in src;
    } else {
      forall r | r in src ensures ParseClock(r.time).Some? {
        var i :| 0 <= i < |rows| && rows[i] == r;
      }
    }
  }

  lemma RowWitnesses(row: RawRow, e: Event, src: seq<RawRow>)
    requires row.user.Some? && row in src && Some(e) == ParseRow(row)
    ensures Witnessed(src, e.user, e.date, e.secs)
  {
  }

  /** Each parsed event carries the user, date and time of a row it came from. */
  lemma {:induction false} ParsedWitnessed(rows: seq<RawRow>, src: seq<RawRow>, events: seq<Event>)
    requires forall i :: 0 <= i < |rows| ==> rows[i].user.Some?
    requires forall r :: r in rows ==> r in src
    requires ParseTimes(rows) == Some(events)
    ensures forall e :: e in events ==> Witnessed(src, e.user, e.date, e.secs)
  {
    forall j | 0 <= j < |events| ensures Witnessed(src, events[j].user, events[j].date, events[j].secs) {
      assert rows[j] in rows;
      RowWitnesses(rows[j], events[j], src);
    }
  }

  /** Re-sorting and thinning keep only events that were there. */
  lemma ThinnedWitnessed(events: seq<Event>, src: seq<RawRow>)
    requires forall e :: e in events ==> Witnessed(src, e.user, e.date, e.secs)
    ensures forall e :: e in Proximity(SortBy(events, EventLe)) ==> Witnessed(src, e.user, e.date, e.secs)
  {
    var sorted := SortBy(events, EventLe);
    forall e | e in Proximity(sorted) ensures Witnessed(src, e.user, e.date, e.secs) {
      ProximitySubset(sorted, e);
      assert e in multiset(sorted);
    }
  }

  /** Pairing a thinned table from admitted, witnessed events gives sound rows. */
  lemma ProcessedSound(s: seq<Event>, src: seq<RawRow>)
    requires Spaced(s)
    requires forall r :: r in src ==> r.user.Some? && Admissible(r.user.value)
    requires forall e :: e in s ==> Witnessed(src, e.user, e.date, e.secs)
    ensures Sound(Processed(s), src)
  {
    var recs := Processed(s);
    forall m | 0 <= m < |recs|
      ensures Admissible(recs[m].user)
      ensures recs[m].entrada.Some? && Witnessed(src, recs[m].user, recs[m].date, recs[m].entrada.value)
      ensures recs[m].saida.Some? ==> Witnessed(src, recs[m].user, recs[m].date, recs[m].saida.value)
      ensures recs[m].duration.Some? <==> recs[m].saida.Some?
      ensures recs[m].duration.Some? ==> recs[m].duration.value >= Window
      ensures recs[m].diferenca.None? <==> recs[m].duration.None?
    {
      var i := EntryIndex(s, m);
      PairingEntry(s, m);
      PairingExit(s, m);
      PairingDuration(s, m);
      assert s[i] in s;
      assert Witnessed(src, s[i].user, s[i].date, s[i].secs);
      var r :| r in src && r.user == Some(s[i].user) && r.date == s[i].date && ParseClock(r.time) == Some(s[i].secs);
      if recs[m].saida.Some? {
        assert s[i + 1] in s;
      }
    }
  }

  /* ---------- the whole pipeline ---------- */

  /**
   * The events that reach the tagging stage: the normalised rows sorted,
   * de-duplicated, given clock times, re-sorted and thinned to events five
   * minutes apart. None exactly where `pd.to_datetime` would raise.
   */
  function Thinned(t: Table): (r: Option<seq<Event>>)
    requires forall i :: 0 <= i < |t.rows| ==> t.rows[i].user.Some?
    ensures r.None? <==> exists x :: x in Normalize(t).rows && ParseClock(x.time).None?
    ensures r.Some? ==> Spaced(r.value)
  {
    var rows := DropDuplicates(SortBy(Normalize(t).rows, RawLe));
    CleanedStage(t, rows);
    ParseStage(rows, Normalize(t).rows);
    var parsed := ParseTimes(rows);
    if parsed.None? then None
    else
      EventLeTotalPreorder();
      SortBySorted(parsed.value, EventLe);
      ProximitySpaced(SortBy(parsed.value, EventLe));
      Some(Proximity(SortBy(parsed.value, EventLe)))
  }

  /**
   * The pipeline run on one sheet. The result is None exactly when some
   * normalised row has a time that does not parse as `%H:%M:%S`; otherwise
   * the processed sheet is the pairing of the thinned events, every
   * processed row is sound, each summary sheet is the per-key sum of the
   * processed durations, and the three sheets account for the same total.
   */
  method ProcessExcel(t: Table) returns (out: Option<Output>)
    requires forall i :: 0 <= i < |t.rows| ==> t.rows[i].user.Some?
    ensures out.None? <==> exists r :: r in Normalize(t).rows && ParseClock(r.time).None?
    ensures out.Some? ==> out.value.columns == LowerAll(t.columns)
    ensures out.Some? ==> Thinned(t).Some? && out.value.processed == Processed(Thinned(t).value)
    ensures out.Some? ==> Sound(out.value.processed, Normalize(t).rows)
    ensures out.Some? ==>
      && out.value.byUser == SumTable(out.value.processed, ByUser)
      && out.value.byGroup == SumTable(out.value.processed, ByGroup)
      && out.value.byRoleAndGroup == SumTable(out.value.processed, ByRoleAndGroup)
    ensures out.Some? ==>
      && SumOver(out.value.processed, ByUser, GroupKeys(out.value.processed, ByUser)) == TotalDuration(out.value.processed)
      && SumOver(out.value.processed, ByGroup, GroupKeys(out.value.processed, ByGroup)) == TotalDuration(out.value.processed)
      && SumOver(out.value.processed, ByRoleAndGroup, GroupKeys(out.value.processed, ByRoleAndGroup)) == TotalDuration(out.value.processed)
  {
    // app.py:20-22, exclusion and lowercasing
    var norm := Normalize(t);
    // app.py:24-25, sort and drop_duplicates
    var rows := SortBy(norm.rows, RawLe);
    rows := DropDuplicates(rows);
    CleanedStage(t, rows);
    // app.py:26, the clock times
    var parsed := ParseTimes(rows);
    ParseStage(rows, norm.rows);
    if parsed.None? {
      return None;
    }
    // app.py:27-31, re-sort and the five-minute filter
    var sorted := SortBy(parsed.value, EventLe);
    var events := Proximity(sorted);
    assert Spaced(events) by {
      EventLeTotalPreorder();
      SortBySorted(parsed.value, EventLe);
      ProximitySpaced(sorted);
    }
    assert forall e :: e in events ==> Witnessed(norm.rows, e.user, e.date, e.secs) by {
      ParsedWitnessed(rows, norm.rows, parsed.value);
      ThinnedWitnessed(parsed.value, norm.rows);
    }
    // app.py:32-45, tagging, pairing and durations
    var processed := Processed(events);
    assert Sound(processed, norm.rows) by {
      NormalizedUsers(t);
      ProcessedSound(events, norm.rows);
    }
    // app.py:46-54, the three sums
    Conservation(processed, ByUser);
    Conservation(processed, ByGroup);
    Conservation(processed, ByRoleAndGroup);
    out := Some(Output(norm.columns, processed,
      SumTable(processed, ByUser), SumTable(processed, ByGroup), SumTable(processed, ByRoleAndGroup)));
  }
}
