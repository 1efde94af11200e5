/**
 * Pairing each "entrada" with the "saida" that follows it in the same
 * user-day: the entry and exit columns, their group-wise forward and
 * backward fill, the default group, the entry-only selection, and the
 * duration with its "HH:MM" text.
 */
module Pairing {
  import opened Wrappers
  import opened Text
  import opened Order
  import opened Seqs
  import opened Groups
  import opened Records
  import opened Dedup
  import opened Tagging

  /** `horario_entrada`: the event time on "entrada" rows, else None. */
  function EntryCol(t: seq<Tagged>): (c: seq<Option<nat>>)
    ensures |c| == |t|
  {
    seq(|t|, i requires 0 <= i < |t| => if t[i].tipo == Entrada then Some(t[i].ev.secs) else None)
  }

  /** `horario_saida`: the event time on "saida" rows, else None. */
  function ExitCol(t: seq<Tagged>): (c: seq<Option<nat>>)
    ensures |c| == |t|
  {
    seq(|t|, i requires 0 <= i < |t| => if t[i].tipo == Saida then Some(t[i].ev.secs) else None)
  }

  function TaggedDays(t: seq<Tagged>): (ks: seq<Key>)
    ensures |ks| == |t|
    ensures forall i :: 0 <= i < |t| ==> ks[i] == DayOf(t[i].ev)
  {
    seq(|t|, i requires 0 <= i < |t| => DayOf(t[i].ev))
  }

  /** The group given to rows whose `grupo` is missing. */
  const Undefined: string := "indefinido"

  /** A tagged row after the two fills and the `grupo` default. */
  datatype Filled = Filled(row: Tagged, entrada: Option<nat>, saida: Option<nat>, grupo: string)

  function Fill(t: seq<Tagged>): (f: seq<Filled>)
    ensures |f| == |t|
    ensures forall i :: 0 <= i < |t| ==> f[i].row == t[i]
    ensures forall i :: 0 <= i < |t| ==> f[i].grupo == t[i].ev.grupo.GetOr(Undefined)
  {
    var ks := TaggedDays(t);
    var entrada := FFill(ks, EntryCol(t));
    var saida := BFill(ks, ExitCol(t));
    seq(|t|, i requires 0 <= i < |t| => Filled(t[i], entrada[i], saida[i], t[i].ev.grupo.GetOr(Undefined)))
  }

  /** `df_new['tipo'] == 'entrada'`. */
  function EntryMask(f: seq<Filled>): (keep: seq<bool>)
    ensures |keep| == |f|
    ensures forall i :: 0 <= i < |f| ==> (keep[i] <==> f[i].row.tipo == Entrada)
  {
    seq(|f|, i requires 0 <= i < |f| => f[i].row.tipo == Entrada)
  }

  /** Exit minus entry, missing when either time is missing. */
  function Duration(entrada: Option<nat>, saida: Option<nat>): (d: Option<int>)
    ensures d.Some? <==> entrada.Some? && saida.Some?
    ensures d.Some? ==> d.value + entrada.value == saida.value
  {
    if entrada.Some? && saida.Some? then Some(saida.value - entrada.value) else None
  }

  /** The "HH:MM" text of a duration; a missing duration stays missing. */
  function FormatDuration(d: Option<int>): Option<string>
  {
    match d
    case Some(x) => Some(ClockHHMM(x))
    case None => None
  }

  /**
   * A missing duration has no text; a duration of zero or more is written
   * with an hour field of at least two digits, not wrapped at 24, and reads
   * back as its whole number of minutes.
   */
  lemma FormatDurationSpec(d: Option<int>)
    ensures FormatDuration(d).None? <==> d.None?
    ensures d.Some? && d.value >= 0 ==>
      var p := Split(FormatDuration(d).value, ':');
      |p| == 2 && |p[0]| >= 2 && |p[1]| == 2 && ReadHHMM(FormatDuration(d).value) == Some(d.value / 60)
  {
    if d.Some? && d.value >= 0 {
      ClockHHMMReadsBack(d.value);
    }
  }

  function ToRecord(f: Filled): Record
  {
    var d := Duration(f.entrada, f.saida);
    Record(f.row.ev.user, f.row.ev.date, f.grupo, f.row.ev.cargo, f.row.ev.others,
           f.entrada, f.saida, d, FormatDuration(d))
  }

  /** The "Registros Processados" rows built from a tagged table. */
  function Pair(t: seq<Tagged>): (r: seq<Record>)
    ensures |r| == |Indices(EntryMask(Fill(t)))|
  {
    var f := Fill(t);
    var kept := Select(f, EntryMask(f));
    seq(|kept|, m requires 0 <= m < |kept| => ToRecord(kept[m]))
  }

  /** Tagging and pairing of a filtered table. */
  function Processed(s: seq<Event>): seq<Record>
  {
    Pair(Tag(s))
  }

  /** The position in the filtered table of the event behind output row `m`. */
  function EntryIndex(s: seq<Event>, m: nat): (i: nat)
    requires m < |Processed(s)|
    ensures i < |s|
  {
    Indices(EntryMask(Fill(Tag(s))))[m]
  }

  /* ---------- proofs ---------- */

  lemma TaggedDaysOfTag(s: seq<Event>)
    ensures TaggedDays(Tag(s)) == Days(s)
  {
  }

  /** The forward fill leaves an "entrada" row its own time. */
  lemma FillEntry(s: seq<Event>, i: nat)
    requires i < |s| && Tag(s)[i].tipo == Entrada
    ensures Fill(Tag(s))[i].entrada == Some(s[i].secs)
  {
    var t := Tag(s);
    var ks, en := TaggedDays(t), EntryCol(t);
    assert en[i] == Some(s[i].secs);
    assert FFill(ks, en)[i] == en[i];
  }

  /** The backward fill gives an "entrada" row the time of the next event of its day. */
  lemma FillExitNext(s: seq<Event>, i: nat)
    requires i + 1 < |s| && DayOf(s[i + 1]) == DayOf(s[i]) && Tag(s)[i].tipo == Entrada
    ensures Fill(Tag(s))[i].saida == Some(s[i + 1].secs)
  {
    NextIsSaida(s, i);
    FillExitNextTagged(Tag(s), i);
  }

  lemma FillExitNextTagged(t: seq<Tagged>, i: nat)
    requires i + 1 < |t| && DayOf(t[i + 1].ev) == DayOf(t[i].ev)
    requires t[i].tipo == Entrada && t[i + 1].tipo == Saida
    ensures Fill(t)[i].saida == Some(t[i + 1].ev.secs)
  {
    var ks, ex := TaggedDays(t), ExitCol(t);
    assert ex[i] == None && ex[i + 1] == Some(t[i + 1].ev.secs) && ks[i + 1] == ks[i];
    BFillNext(ks, ex, i);
  }

  /** The last event of a day finds no exit below it in the same day. */
  lemma FillExitLast(s: seq<Event>, i: nat)
    requires Contiguous(Days(s)) && i < |s| && Tag(s)[i].tipo == Entrada
    requires i + 1 == |s| || DayOf(s[i + 1]) != DayOf(s[i])
    ensures Fill(Tag(s))[i].saida == None
  {
    var t := Tag(s);
    var ks, ex := TaggedDays(t), ExitCol(t);
    TaggedDaysOfTag(s);
    assert ex[i] == None;
    LastOfGroup(ks, i);
    assert FirstFilled(ks, ex, ks[i], i) == None;
  }

  /** On an "entrada" row, the fills give the row's own time and the next event's time in its day. */
  lemma FillAt(s: seq<Event>, i: nat)
    requires Contiguous(Days(s)) && i < |s| && Tag(s)[i].tipo == Entrada
    ensures Fill(Tag(s))[i].entrada == Some(s[i].secs)
    ensures Fill(Tag(s))[i].saida == if i + 1 < |s| && DayOf(s[i + 1]) == DayOf(s[i]) then Some(s[i + 1].secs) else None
  {
    FillEntry(s, i);
    if i + 1 < |s| && DayOf(s[i + 1]) == DayOf(s[i]) {
      FillExitNext(s, i);
    } else {
      FillExitLast(s, i);
    }
  }

  /** Output row `m` is the pairing of the "entrada" event at EntryIndex(s, m). */
  lemma RecordAt(s: seq<Event>, m: nat)
    requires m < |Processed(s)|
    ensures Tag(s)[EntryIndex(s, m)].tipo == Entrada
    ensures Processed(s)[m] == ToRecord(Fill(Tag(s))[EntryIndex(s, m)])
  {
    var f := Fill(Tag(s));
    assert Select(f, EntryMask(f))[m] == f[EntryIndex(s, m)];
  }

  lemma SuccOfEven(p: nat, n: nat)
    requires p % 2 == 0 && p + 1 == n
    ensures n % 2 == 1
  {
  }

  /**
   * The entry side of output row `m`, whose entry event sits at position i
   * of its user-day: i is even, and the row carries that event's user, date,
   * role, group (or the default) and time.
   */
  lemma PairingEntry(s: seq<Event>, m: nat)
    requires Spaced(s) && m < |Processed(s)|
    ensures var i, r := EntryIndex(s, m), Processed(s)[m];
      && Pos(Days(s), i) % 2 == 0
      && r.user == s[i].user && r.date == s[i].date && r.cargo == s[i].cargo
      && r.grupo == s[i].grupo.GetOr(Undefined)
      && r.entrada == Some(s[i].secs)
  {
    var i := EntryIndex(s, m);
    var f := Fill(Tag(s))[i];
    assert Processed(s)[m] == ToRecord(f) && Tag(s)[i].tipo == Entrada by {
      RecordAt(s, m);
    }
    assert Pos(Days(s), i) % 2 == 0 by {
      TagAlternates(s, i);
    }
    assert f.entrada == Some(s[i].secs) by {
      FillEntry(s, i);
    }
  }

  /**
   * The exit side of output row `m`: the exit is the time of the next event
   * of the same user-day, and it is missing exactly when the entry event is
   * the last of its day, which then has an odd number of events.
   */
  lemma PairingExit(s: seq<Event>, m: nat)
    requires Spaced(s) && m < |Processed(s)|
    ensures var i, r := EntryIndex(s, m), Processed(s)[m];
      && r.saida == (if i + 1 < |s| && DayOf(s[i + 1]) == DayOf(s[i]) then Some(s[i + 1].secs) else None)
      && (r.saida.None? <==> Pos(Days(s), i) + 1 == multiset(Days(s))[DayOf(s[i])])
      && (r.saida.None? ==> multiset(Days(s))[DayOf(s[i])] % 2 == 1)
  {
    var i, ks := EntryIndex(s, m), Days(s);
    var next := i + 1 < |s| && DayOf(s[i + 1]) == DayOf(s[i]);
    var f := Fill(Tag(s))[i];
    assert Contiguous(ks) by {
      SortedContiguous(s);
    }
    assert Processed(s)[m] == ToRecord(f) && Tag(s)[i].tipo == Entrada by {
      RecordAt(s, m);
    }
    assert Pos(ks, i) % 2 == 0 by {
      TagAlternates(s, i);
    }
    assert f.saida == (if next then Some(s[i + 1].secs) else None) by {
      FillAt(s, i);
    }
    var count := multiset(ks)[DayOf(s[i])];
    assert !next <==> Pos(ks, i) + 1 == count by {
      LastOfGroup(ks, i);
    }
    if !next {
      SuccOfEven(Pos(ks, i), count);
    }
  }

  /**
   * The duration of output row `m`: present exactly when the exit is, then
   * five minutes or more, and written as text exactly when present.
   */
  lemma PairingDuration(s: seq<Event>, m: nat)
    requires Spaced(s) && m < |Processed(s)|
    ensures var r := Processed(s)[m];
      && (r.duration.Some? <==> r.saida.Some?)
      && (r.duration.Some? ==> r.duration.value >= Window)
      && (r.diferenca.None? <==> r.duration.None?)
  {
    var i := EntryIndex(s, m);
    var next := i + 1 < |s| && DayOf(s[i + 1]) == DayOf(s[i]);
    var exit := if next then Some(s[i + 1].secs) else None;
    var f := Fill(Tag(s))[i];
    assert Processed(s)[m] == ToRecord(f) && Tag(s)[i].tipo == Entrada by {
      RecordAt(s, m);
    }
    assert f.entrada == Some(s[i].secs) && f.saida == exit by {
      SortedContiguous(s);
      FillAt(s, i);
    }
    assert next ==> s[i].secs + Window <= s[i + 1].secs;
    RecordFields(f, s[i], exit);
  }

  /** The output row built from a filled "entrada" row, given its entry and exit. */
  lemma RecordFields(f: Filled, e: Event, exit: Option<nat>)
    requires f.row.ev == e && f.entrada == Some(e.secs) && f.saida == exit
    requires exit.Some? ==> e.secs + Window <= exit.value
    ensures var r := ToRecord(f);
      && r.user == e.user && r.date == e.date && r.cargo == e.cargo
      && r.grupo == f.grupo
      && r.entrada == Some(e.secs) && r.saida == exit
      && (r.duration.Some? <==> exit.Some?)
      && (r.duration.Some? ==> r.duration.value >= Window)
      && (r.diferenca.None? <==> r.duration.None?)
  {
    FormatDurationSpec(ToRecord(f).duration);
  }

  /** Every "entrada" event of the table has its output row. */
  lemma EveryEntryPaired(s: seq<Event>, i: nat)
    requires i < |s| && Pos(Days(s), i) % 2 == 0
    ensures exists m :: 0 <= m < |Processed(s)| && EntryIndex(s, m) == i
  {
    var keep := EntryMask(Fill(Tag(s)));
    var idx := Indices(keep);
    assert keep[i] by {
      TagAlternates(s, i);
    }
    assert i in idx;
    var m :| 0 <= m < |idx| && idx[m] == i;
    assert EntryIndex(s, m) == i;
  }

  function RecordDays(rs: seq<Record>): (ks: seq<Key>)
    ensures |ks| == |rs|
  {
    seq(|rs|, m requires 0 <= m < |rs| => [rs[m].user, rs[m].date])
  }

  /** A user-day of n events gives ceil(n/2) output rows. */
  lemma RowsPerDay(s: seq<Event>, k: Key)
    ensures multiset(RecordDays(Processed(s)))[k] == (multiset(Days(s))[k] + 1) / 2
  {
    var f := Fill(Tag(s));
    var keep := EntryMask(f);
    var ks := Days(s);
    forall i | 0 <= i < |s| ensures keep[i] <==> Pos(ks, i) % 2 == 0 {
      TagAlternates(s, i);
    }
    forall m | 0 <= m < |Processed(s)| ensures RecordDays(Processed(s))[m] == Select(ks, keep)[m] {
      RecordAt(s, m);
    }
    assert RecordDays(Processed(s)) == Select(ks, keep);
    EvenPositionsCount(ks, keep, k);
  }

  /* ---------- worked case ---------- */

  function Clerk(secs: nat): Event
  {
    Event("alice", "10/01/2024", secs, Some("sales"), "clerk", [])
  }

  /**
   * Two events of one user-day, five minutes or more apart, give one row:
   * entry at the first, exit at the second, and their difference.
   */
  lemma OneShift(a: Event, b: Event)
    requires DayOf(a) == DayOf(b) && a.secs + Window <= b.secs
    ensures Processed([a, b]) ==
      [Record(a.user, a.date, a.grupo.GetOr(Undefined), a.cargo, a.others,
              Some(a.secs), Some(b.secs), Some(b.secs - a.secs), Some(ClockHHMM(b.secs - a.secs)))]
  {
    var s := [a, b];
    var want := Record(a.user, a.date, a.grupo.GetOr(Undefined), a.cargo, a.others,
                       Some(a.secs), Some(b.secs), Some(b.secs - a.secs), Some(ClockHHMM(b.secs - a.secs)));
    var f := Fill(Tag(s))[0];
    TwoRowsOneRecord(s);
    TwoRowsFill(s);
    ClosedRecord(f, a, b.secs);
    SingletonOf(Processed(s), want);
  }

  /** Two events of one user-day give the one output row of the first. */
  lemma TwoRowsOneRecord(s: seq<Event>)
    requires |s| == 2 && DayOf(s[0]) == DayOf(s[1])
    ensures |Processed(s)| == 1 && Processed(s)[0] == ToRecord(Fill(Tag(s))[0])
  {
    WorkDayMask(s);
    RecordAt(s, 0);
  }

  /** Two sorted events of one user-day: the first is filled with both times. */
  lemma TwoRowsFill(s: seq<Event>)
    requires |s| == 2 && DayOf(s[0]) == DayOf(s[1]) && s[0].secs <= s[1].secs
    ensures var f := Fill(Tag(s))[0];
      f.row.ev == s[0] && f.grupo == s[0].grupo.GetOr(Undefined)
      && f.entrada == Some(s[0].secs) && f.saida == Some(s[1].secs)
  {
    assert SortedBy(s, EventLe);
    TagAlternates(s, 0);
    assert Pos(Days(s), 0) == 0;
    FillAt(s, 0);
  }

  /** The output row of an "entrada" row that has both its times. */
  lemma ClosedRecord(f: Filled, e: Event, exit: nat)
    requires f.row.ev == e && f.entrada == Some(e.secs) && f.saida == Some(exit) && e.secs <= exit
    ensures ToRecord(f) ==
      Record(e.user, e.date, f.grupo, e.cargo, e.others,
             Some(e.secs), Some(exit), Some(exit - e.secs), Some(ClockHHMM(exit - e.secs)))
  {
  }

  /** 08:00:00 and 17:00:00 on one day: one row, 08:00 to 17:00, "09:00". */
  lemma WorkDay()
    ensures Processed([Clerk(28800), Clerk(61200)]) ==
      [Record("alice", "10/01/2024", "sales", "clerk", [], Some(28800), Some(61200), Some(32400), Some("09:00"))]
  {
    OneShift(Clerk(28800), Clerk(61200));
    NineHours();
  }

  lemma NineHours()
    ensures ClockHHMM(32400) == "09:00"
  {
    assert Pad2(9) == "09" && Pad2(0) == "00";
  }

  /** Of two events of one day only the first is an "entrada". */
  lemma WorkDayMask(s: seq<Event>)
    requires |s| == 2 && DayOf(s[0]) == DayOf(s[1])
    ensures Indices(EntryMask(Fill(Tag(s)))) == [0]
  {
    var ks := Days(s);
    assert ks[..1] == [ks[0]];
    assert Pos(ks, 0) == 0 && Pos(ks, 1) == 1;
    TagAlternates(s, 0);
    TagAlternates(s, 1);
    var keep := EntryMask(Fill(Tag(s)));
    assert keep == [true, false];
    assert keep[..1] == [true] && keep[..1][..0] == [];
    assert Indices(keep[..1][..0]) == [];
    assert Indices(keep[..1]) == [0];
    assert Indices(keep) == Indices(keep[..1]);
  }
}
