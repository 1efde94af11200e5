/**
 * The first stage of `process_excel`: dropping rows of unknown or refused
 * badges, then lowercasing the column names and every text cell.
 */
module Normalization {
  import opened Wrappers
  import opened Text
  import opened Seqs
  import opened Records

  /** The exclusion patterns of the `str.contains` regex, both already lower case. */
  const Unknown: string := "desconhecido"
  const Denied: string := "acesso negado"

  /** The user contains neither pattern, in any case. */
  predicate Admissible(u: string)
  {
    !Contains(Lower(u), Unknown) && !Contains(Lower(u), Denied)
  }

  /** `str.contains(..., case=False, na=False)`: a missing user never matches. */
  predicate Excluded(user: Option<string>)
  {
    user.Some? && !Admissible(user.value)
  }

  function ExclusionMask(rows: seq<RawRow>): (keep: seq<bool>)
    ensures |keep| == |rows|
    ensures forall i :: 0 <= i < |rows| ==> (keep[i] <==> !Excluded(rows[i].user))
  {
    seq(|rows|, i requires 0 <= i < |rows| => !Excluded(rows[i].user))
  }

  function Exclude(rows: seq<RawRow>): seq<RawRow>
  {
    Select(rows, ExclusionMask(rows))
  }

  /** A row survives exactly when its user is missing or matches neither pattern. */
  lemma ExcludeSpec(rows: seq<RawRow>)
    ensures forall r :: r in Exclude(rows) <==> r in rows && !Excluded(r.user)
    ensures forall r :: r in rows && r.user.None? ==> r in Exclude(rows)
  {
    forall r ensures r in Exclude(rows) <==> r in rows && !Excluded(r.user) {
      SelectMember(rows, ExclusionMask(rows), r);
    }
  }

  /** An admissible user contains no spelling of either pattern, whatever its case. */
  lemma AdmissibleNoVariant(u: string, q: string)
    requires Admissible(u)
    requires Lower(q) == Unknown || Lower(q) == Denied
    ensures !Contains(u, q)
  {
    if Contains(u, q) {
      ContainsLower(u, q);
    }
  }

  /** Lowering a user keeps it admissible. */
  lemma AdmissibleLower(u: string)
    requires Admissible(u)
    ensures Admissible(Lower(u))
  {
    LowerIdempotent(u);
  }

  /* ---------- lowercasing ---------- */

  /** `s.lower() if type(s) == str else s`: text stays text, and is then already lower case. */
  function LowerCell(c: Cell): (d: Cell)
    ensures !c.Text? ==> d == c
    ensures c.Text? ==> d == Text(Lower(c.text))
    ensures d.Text? <==> c.Text?
    ensures d.Text? ==> Lower(d.text) == d.text
  {
    match c
    case Text(s) =>
      LowerIdempotent(s);
      Text(Lower(s))
    case _ => c
  }

  function LowerOpt(o: Option<string>): Option<string>
  {
    match o
    case Some(s) => Some(Lower(s))
    case None => None
  }

  /**
   * `applymap` over one row. The date field stands for the "dd/mm/YYYY"
   * text that the next statement writes into the column, so it is not
   * lowered here.
   */
  function LowerRow(r: RawRow): RawRow
  {
    RawRow(LowerOpt(r.user), r.date, Lower(r.time), LowerOpt(r.grupo), Lower(r.cargo),
           seq(|r.others|, i requires 0 <= i < |r.others| => LowerCell(r.others[i])))
  }

  function LowerAll(names: seq<string>): (r: seq<string>)
    ensures |r| == |names|
  {
    seq(|names|, i requires 0 <= i < |names| => Lower(names[i]))
  }

  function LowerRows(rows: seq<RawRow>): (r: seq<RawRow>)
    ensures |r| == |rows|
  {
    seq(|rows|, i requires 0 <= i < |rows| => LowerRow(rows[i]))
  }

  /** The normalised sheet: exclusion on the original spelling, then lowercasing. */
  function Normalize(t: Table): Table
  {
    Table(LowerAll(t.columns), LowerRows(Exclude(t.rows)))
  }

  lemma LowerOptIdempotent(o: Option<string>)
    ensures LowerOpt(LowerOpt(o)) == LowerOpt(o)
  {
    if o.Some? {
      LowerIdempotent(o.value);
    }
  }

  lemma LowerRowIdempotent(r: RawRow)
    ensures LowerRow(LowerRow(r)) == LowerRow(r)
  {
    LowerOptIdempotent(r.user);
    LowerOptIdempotent(r.grupo);
    LowerIdempotent(r.time);
    LowerIdempotent(r.cargo);
    var o := LowerRow(r).others;
    forall i | 0 <= i < |o| ensures LowerCell(o[i]) == o[i] {
      if r.others[i].Text? {
        LowerIdempotent(r.others[i].text);
      }
    }
  }

  /** Lowercasing an already lowercased sheet changes nothing. */
  lemma {:induction false} LowerTableIdempotent(t: Table)
    ensures var u := Table(LowerAll(t.columns), LowerRows(t.rows));
            Table(LowerAll(u.columns), LowerRows(u.rows)) == u
  {
    forall i | 0 <= i < |t.columns| ensures Lower(Lower(t.columns[i])) == Lower(t.columns[i]) {
      LowerIdempotent(t.columns[i]);
    }
    forall i | 0 <= i < |t.rows| ensures LowerRow(LowerRow(t.rows[i])) == LowerRow(t.rows[i]) {
      LowerRowIdempotent(t.rows[i]);
    }
  }

  /** Lowercasing keeps every surviving row out of the exclusion. */
  lemma LowerKeepsAdmitted(rows: seq<RawRow>)
    requires forall i :: 0 <= i < |rows| ==> !Excluded(rows[i].user)
    ensures forall i :: 0 <= i < |rows| ==> !Excluded(LowerRows(rows)[i].user)
  {
    forall i | 0 <= i < |rows| ensures !Excluded(LowerRows(rows)[i].user) {
      if rows[i].user.Some? {
        AdmissibleLower(rows[i].user.value);
      }
    }
  }

  /** Normalising twice is normalising once: the lowered users are still admissible. */
  lemma NormalizeIdempotent(t: Table)
    ensures Normalize(Normalize(t)) == Normalize(t)
  {
    var kept := Exclude(t.rows);
    ExcludeSpec(t.rows);
    assert forall i :: 0 <= i < |kept| ==> kept[i] in kept;
    var rows := LowerRows(kept);
    LowerKeepsAdmitted(kept);
    SelectAll(rows, ExclusionMask(rows));
    LowerTableIdempotent(Table(t.columns, kept));
  }
}
