/**
 * The rows of the attendance table at each stage of the pipeline. Columns
 * the pipeline reads are named fields; every other column of the sheet is
 * carried along, in order, in `others`.
 */
module Records {
  import opened Wrappers
  import opened Order

  /** A cell of a pass-through column: text, a number, or empty (NaN). */
  datatype Cell = Text(text: string) | Number(n: int) | Blank

  /**
   * A row as read from the sheet: `usuario` may be missing; `data_evento` is
   * the "dd/mm/YYYY" text the date column is turned into; `horario_evento`
   * is still text; `grupo` may be missing.
   */
  datatype RawRow = RawRow(
    user: Option<string>,
    date: string,
    time: string,
    grupo: Option<string>,
    cargo: string,
    others: seq<Cell>)

  /** The whole sheet: column headers and rows. */
  datatype Table = Table(columns: seq<string>, rows: seq<RawRow>)

  /** A badge event once its time of day has been parsed (seconds since midnight). */
  datatype Event = Event(
    user: string,
    date: string,
    secs: nat,
    grupo: Option<string>,
    cargo: string,
    others: seq<Cell>)

  /** The user-day an event belongs to: the `['usuario', 'data_evento']` group key. */
  function DayOf(e: Event): Key
  {
    [e.user, e.date]
  }

  function Days(s: seq<Event>): (ks: seq<Key>)
    ensures |ks| == |s|
    ensures forall i :: 0 <= i < |s| ==> ks[i] == DayOf(s[i])
  {
    seq(|s|, i requires 0 <= i < |s| => DayOf(s[i]))
  }

  /** The `tipo` column. */
  datatype Tipo = Entrada | Saida

  datatype Tagged = Tagged(ev: Event, tipo: Tipo)

  /**
   * A row of the "Registros Processados" sheet: one entry with the time of
   * the exit that follows it, the duration in seconds (the internal
   * `diferenca_horario_minutos` column) and its "HH:MM" text.
   */
  datatype Record = Record(
    user: string,
    date: string,
    grupo: string,
    cargo: string,
    others: seq<Cell>,
    entrada: Option<nat>,
    saida: Option<nat>,
    duration: Option<int>,
    diferenca: Option<string>)
}
