/**
 * The `tipo` column: each user-day's events alternate "entrada", "saida",
 * ... by their position in the day, and the first event of every day is
 * then set to "entrada" once more.
 */
module Tagging {
  import opened Wrappers
  import opened Seqs
  import opened Groups
  import opened Order
  import opened Records

  function Parity(k: nat): Tipo
  {
    if k % 2 == 0 then Entrada else Saida
  }

  lemma ParityFlips(k: nat)
    ensures Parity(k + 1) != Parity(k)
    ensures Parity(k + 1) == Saida ==> Parity(k) == Entrada
  {
  }

  /** `cumcount().apply(lambda x: 'entrada' if x % 2 == 0 else 'saida')`. */
  function CumParity(ks: seq<Key>): (tipo: seq<Tipo>)
    ensures |tipo| == |ks|
  {
    seq(|ks|, i requires 0 <= i < |ks| => Parity(Pos(ks, i)))
  }

  /** `.loc[groupby(...).head(1).index, 'tipo'] = 'entrada'`. */
  function HeadOverride(ks: seq<Key>, tipo: seq<Tipo>): (r: seq<Tipo>)
    requires |tipo| == |ks|
    ensures |r| == |ks|
  {
    seq(|ks|, i requires 0 <= i < |ks| => if PrevInGroup(ks, i).None? then Entrada else tipo[i])
  }

  function Tag(s: seq<Event>): (t: seq<Tagged>)
    ensures |t| == |s|
    ensures forall i :: 0 <= i < |s| ==> t[i].ev == s[i]
  {
    var tipo := Tipos(Days(s));
    seq(|s|, i requires 0 <= i < |s| => Tagged(s[i], tipo[i]))
  }

  /** The tag column on the day keys alone: the parity of the position, the override changing nothing. */
  function Tipos(ks: seq<Key>): (tipo: seq<Tipo>)
    ensures |tipo| == |ks|
  {
    HeadOverride(ks, CumParity(ks))
  }

  lemma TiposAlternate(ks: seq<Key>, i: nat)
    requires i < |ks|
    ensures Tipos(ks)[i] == Parity(Pos(ks, i))
  {
    HeadIffPosZero(ks, i);
  }

  lemma TiposSwitch(ks: seq<Key>, i: nat)
    requires 0 < i < |ks| && ks[i - 1] == ks[i]
    ensures Tipos(ks)[i] != Tipos(ks)[i - 1]
    ensures Tipos(ks)[i] == Saida ==> Tipos(ks)[i - 1] == Entrada
  {
    var k := Pos(ks, i - 1);
    assert Pos(ks, i) == k + 1 by {
      PosStep(ks, i);
    }
    TiposAlternate(ks, i);
    TiposAlternate(ks, i - 1);
    ParityFlips(k);
  }

  /**
   * An event is tagged "entrada" iff its position in its user-day is even;
   * the first of the day is always "entrada", so the override changes no tag.
   */
  lemma TagAlternates(s: seq<Event>, i: nat)
    requires i < |s|
    ensures Tag(s)[i].tipo == Parity(Pos(Days(s), i))
    ensures Tag(s)[i].tipo == Entrada <==> Pos(Days(s), i) % 2 == 0
    ensures Pos(Days(s), i) == 0 ==> Tag(s)[i].tipo == Entrada
  {
    var ks := Days(s);
    assert Tag(s)[i].tipo == Tipos(ks)[i];
    TiposAlternate(ks, i);
  }

  /** Two consecutive events of one user-day carry opposite tags. */
  lemma TagSwitches(s: seq<Event>, i: nat)
    requires 0 < i < |s| && DayOf(s[i - 1]) == DayOf(s[i])
    ensures Tag(s)[i].tipo != Tag(s)[i - 1].tipo
    ensures Tag(s)[i].tipo == Saida ==> Tag(s)[i - 1].tipo == Entrada
  {
    var ks := Days(s);
    assert Tag(s)[i].tipo == Tipos(ks)[i] && Tag(s)[i - 1].tipo == Tipos(ks)[i - 1];
    TiposSwitch(ks, i);
  }

  /** The event after an "entrada" in the same user-day is a "saida". */
  lemma NextIsSaida(s: seq<Event>, i: nat)
    requires i + 1 < |s| && DayOf(s[i + 1]) == DayOf(s[i])
    ensures Tag(s)[i].tipo == Entrada ==> Tag(s)[i + 1].tipo == Saida
  {
    TagSwitches(s, i + 1);
  }
}
