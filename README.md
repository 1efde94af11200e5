# Attendance sheet processing, modelled in Dafny

The system reads a spreadsheet of badge events. Each row holds a user (`usuario`), a date (`data_evento`), a time of day (`horario_evento`), a group (`grupo`), a role (`cargo`) and any other columns. From it the system writes four sheets:

- "Registros Processados": one row per entry, with the exit that follows it, the time between them and that time as "HH:MM" text.
- Three summary sheets: the total time per user, per group and per (role, group).

This project models `process_excel` (app.py:20-55) as Dafny datatypes, functions and lemmas, with one method, `Pipeline.ProcessExcel`, that threads the sheet through the stages in the order the source rebinds `df_new`.

The stages, one module each:

- **Normalization** (app.py:20-22):
  - rows whose user contains "desconhecido" or "acesso negado", in any case, are dropped;
  - a missing user is kept;
  - column names and every text cell are lowercased.
- **Dedup** (app.py:24-31):
  - a stable sort on (user, date, time text);
  - `drop_duplicates` keeps the first copy of every identical row;
  - the time column is parsed with `%H:%M:%S` into seconds since midnight, and the conversion fails as a whole if one row fails;
  - a second sort on (user, date, time);
  - the five-minute filter: a row stays when it is the first of its user-day, or when it is at least five minutes after the row just above it in the sorted sheet, whether or not that row itself stays.
- **Tagging** (app.py:32-33): the `cumcount` parity tags a user-day's events "entrada", "saida", "entrada", and so on. Then the first event of each day is set to "entrada" again.
- **Pairing** (app.py:34-45):
  - each "entrada" row keeps its own time;
  - a group-wise backward fill gives it the time of the next "saida" of its user-day;
  - a missing `grupo` becomes "indefinido";
  - only "entrada" rows are kept;
  - the duration is exit minus entry, written as `f"{h:02d}:{m:02d}"`.
- **Aggregate** (app.py:46-54): durations are summed per key, in sorted key order, and each total is written as "HH:MM".

Supporting modules:

- **Groups** defines the pandas `groupby` column operations (`cumcount`, the `diff` predecessor, `ffill`, `bfill`) for rows in any order. Its lemmas specialise them to sorted tables, where every user-day is one run of rows.
- **Seqs** holds boolean-mask selection, `drop_duplicates` and the stable sort.
- **Order** holds Python's string order and its extension to multi-column keys.
- **Text** holds ASCII case mapping, substring search, `:02d` padding and the two clock formats.

Times are whole seconds, so durations are exact integers. The source's float minutes `x` give `int(x//60)` hours and `int(x%60)` minutes. For a duration of `secs` seconds that is `secs / 3600` and `secs % 3600 / 60`, which is what `Text.ClockHHMM` computes.

Constants fixed in the code:

- The exclusion words are "desconhecido" and "acesso negado" (app.py:20).
- A missing group becomes "indefinido" (app.py:38).
- The sheet and column names are the Portuguese ones the code writes.

## Model

| member | source | states |
|---|---|---|
| Text.Lower | app.py:22 | lowercasing keeps the length and maps each character through the ASCII case map |
| Text.LowerIdempotent | app.py:22 | lowering a lowered string changes nothing |
| Text.ContainsLower | app.py:20 | a case-sensitive occurrence is still one after both strings are lowered (what makes `case=False` matching sound) |
| Text.Pad2 | app.py:43 | `:02d` of a natural number is all digits, at least two of them, exactly two below 100 |
| Text.Pad2Value | app.py:43 | the padded digits read back as the number |
| Text.IntPad2 | app.py:43 | `:02d` of a non-negative integer is the zero-padded form and never contains ':' |
| Text.ParseClock | app.py:26 | a parsed `%H:%M:%S` time is under 86400 seconds |
| Text.ClockRoundTrip | app.py:26 | the "HH:MM:SS" text of any time of day parses back to that time |
| Text.ClockHHMMReadsBack | app.py:43 | a non-negative duration's text has two ':'-separated fields: hours with at least two digits, never wrapped at 24, and two-digit minutes. It reads back as the whole minutes of the duration |
| Text.ClockHHMM | app.py:43 | definition of `f"{int(x//60):02d}:{int(x%60):02d}"` on whole seconds; what the text says is stated by Text.ClockHHMMReadsBack |
| Order.KeyLtIrreflexive | app.py:24 | no key sorts before itself |
| Order.KeyLtTransitive | app.py:24 | the multi-column key order is transitive |
| Order.KeyLtTrichotomy | app.py:24 | two keys are equal or one sorts before the other |
| Order.KeyLeTotalOrder | app.py:24 | `<=` on keys is total, transitive and antisymmetric |
| Seqs.Indices | app.py:20 | the positions a mask keeps, strictly increasing, each kept, none missed |
| Seqs.Select | app.py:20 | `df[mask]` has one row per kept position, in the original order |
| Seqs.SelectMember | app.py:20 | a row is in the selection iff it stands at a kept position |
| Seqs.SelectAll | app.py:20 | a mask that keeps everything selects the whole table |
| Seqs.SelectFirstOnly | app.py:30 | a mask that keeps only the first position selects only the first row |
| Seqs.DropDuplicatesSpec | app.py:25 | the result has no value twice and holds exactly the values of its input |
| Seqs.FirstIndex | app.py:25 | every value has a first occurrence, which `keep='first'` keeps |
| Seqs.Insert | app.py:24 | inserting adds exactly that one element |
| Seqs.SortBy | app.py:24 | the sort is a permutation of its input |
| Seqs.SortBySorted | app.py:24-28 | under a total preorder the sort's result is sorted and a permutation of its input |
| Seqs.SortByStable | app.py:24-28 | the sort is stable: the elements the order ranks level with any given one keep their relative order |
| Seqs.SelectSorted | app.py:25-30 | a masked sorted table is still sorted |
| Groups.LastIn | app.py:29 | the previous row of a key is before `n`, has the key, and no row between has it (None: no earlier row has it) |
| Groups.LastFilled | app.py:36 | the last earlier row of the group with a value, with no value between |
| Groups.FirstFilled | app.py:37 | the first later row of the group with a value, with no value between |
| Groups.FFill | app.py:36 | the forward fill keeps every present value |
| Groups.BFill | app.py:37 | the backward fill keeps every present value |
| Groups.BFillNext | app.py:37 | a missing value followed by a present one of the same group takes that value |
| Groups.CountMultiset | app.py:32 | `cumcount` counts the earlier rows with the same key |
| Groups.HeadIffPosZero | app.py:33 | a row is its group's `head(1)` iff its `cumcount` is 0 |
| Groups.PosStep | app.py:32 | the row after a row of the same group has the next `cumcount` |
| Groups.PrevIsAbove | app.py:29 | with contiguous groups, `diff` compares a row with the row just above it when that row is in its group, and with nothing otherwise |
| Groups.LastOfGroup | app.py:37 | with contiguous groups, a row is the last of its group iff its `cumcount` is the group size minus one iff no later row shares its key |
| Groups.PosPrefix | app.py:32 | `cumcount` does not look at later rows |
| Groups.EvenPositionsCount | app.py:32-39 | keeping the rows at even `cumcount` keeps ceil(n/2) rows of a group of n |
| Normalization.ExcludeSpec | app.py:20 | the kept rows are exactly the input rows whose user is not excluded; every row with a missing user is kept |
| Normalization.AdmissibleNoVariant | app.py:20 | a kept user contains no spelling of either word, in any mix of cases |
| Normalization.AdmissibleLower | app.py:20-22 | lowering a kept user leaves it kept |
| Normalization.Exclude | app.py:20 | definition of `df[~usuario.str.contains(..., case=False, na=False)]` as a mask selection; characterised by Normalization.ExcludeSpec and Normalization.AdmissibleNoVariant |
| Normalization.LowerCell | app.py:22 | text cells stay text and come out already lower case (lowering them again changes nothing); numbers and empty cells are untouched |
| Normalization.LowerTableIdempotent | app.py:21-22 | lowering an already lowered sheet changes nothing |
| Normalization.LowerKeepsAdmitted | app.py:20-22 | rows that passed the exclusion still pass it once lowered |
| Normalization.Normalize | app.py:20-22 | definition of the first three statements: exclusion on the original spelling, then lowercased column names and cells; characterised by Normalization.ExcludeSpec, Normalization.LowerTableIdempotent and Normalization.NormalizeIdempotent |
| Normalization.NormalizeIdempotent | app.py:20-22 | exclusion and lowercasing applied twice equal them applied once |
| Dedup.RawLeTotalPreorder | app.py:24 | the (user, date, time text) order is a total preorder |
| Dedup.ParseTimes | app.py:26 | the column parses iff every row's time parses, and then has one event per row in the same order |
| Dedup.EventLeTotalPreorder | app.py:28 | the (user, date, time) order is a total preorder |
| Dedup.EventLeSameDay | app.py:28 | events of one user-day in that order are in time order |
| Dedup.SortedContiguous | app.py:28 | after the sort every user-day is one run of rows |
| Dedup.KeepMask | app.py:29-30 | definition of the mask `time_diff.isna()` or `time_diff >= 5`, with `diff` taken within the user-day; characterised by Dedup.ProximityRule |
| Dedup.Proximity | app.py:29-30 | definition of the five-minute filter as a mask selection; characterised by Dedup.ProximityRule, Dedup.ProximitySpaced and Dedup.ProximitySubset |
| Dedup.ProximityRule | app.py:29-30 | in the sorted sheet a row stays iff it starts its user-day or is at least five minutes after the row just above it |
| Dedup.ProximityKeepsFirst | app.py:29-30 | the first event of every user-day stays |
| Dedup.KeptGap | app.py:29-30 | a kept row is at least five minutes after every earlier row of its user-day |
| Dedup.ProximitySpaced | app.py:28-30 | the filtered sheet is sorted, and any two events of one user-day are at least five minutes apart, in increasing time |
| Dedup.ProximitySubset | app.py:30 | every event that stays was an event of the input |
| Dedup.ThreeClose | app.py:29-30 | three events of a day, each under five minutes after the previous one, leave only the first |
| Dedup.ThreeCloseEvents | app.py:29-30 | 08:00, 08:03, 08:06 leaves only 08:00 |
| Dedup.TwoDistantEvents | app.py:29-30 | 08:00 and 08:07 both stay |
| Tagging.TiposAlternate | app.py:32-33 | after the head override, a tag is still the parity of the `cumcount` |
| Tagging.TiposSwitch | app.py:32-33 | consecutive rows of one group carry opposite tags |
| Tagging.TagAlternates | app.py:32-33 | an event is "entrada" iff its position in its user-day is even; position 0 is always "entrada" |
| Tagging.TagSwitches | app.py:32-33 | two consecutive events of a user-day carry opposite tags; a "saida" follows an "entrada" |
| Tagging.NextIsSaida | app.py:32-33 | the event after an "entrada" in the same user-day is a "saida" |
| Tagging.CumParity | app.py:32 | definition of `cumcount` mapped to "entrada" on even counts and "saida" on odd ones; characterised by Tagging.TiposAlternate |
| Tagging.HeadOverride | app.py:33 | definition of setting `head(1)` of every user-day to "entrada"; Tagging.TiposAlternate shows it changes nothing after Tagging.CumParity |
| Tagging.Tipos | app.py:32-33 | definition of the `tipo` column on the day keys; characterised by Tagging.TiposAlternate and Tagging.TiposSwitch |
| Tagging.Tag | app.py:32-33 | each event keeps its fields and gains the tag of Tagging.Tipos; characterised by Tagging.TagAlternates and Tagging.TagSwitches |
| Pairing.FormatDurationSpec | app.py:43 | a missing duration has no text. A non-negative one has a zero-padded "HH:MM" text, not wrapped at 24, that reads back as its whole minutes |
| Pairing.FillEntry | app.py:34-36 | the forward fill leaves an "entrada" row its own time |
| Pairing.FillExitNext | app.py:35-37 | the backward fill gives an "entrada" row the time of the next event of its user-day |
| Pairing.FillExitNextTagged | app.py:35-37 | an "entrada" row followed by a "saida" of its day takes that row's time |
| Pairing.FillExitLast | app.py:37 | the last event of a user-day gets no exit time |
| Pairing.FillAt | app.py:34-37 | on an "entrada" row the group-wise fills give its own time and the next event's time in its day, or no exit |
| Pairing.RecordAt | app.py:39-40 | output row m is built from the m-th "entrada" row |
| Pairing.RecordFields | app.py:40-43 | an output row carries its event's user, date and role, its entry and exit, and a duration present iff the exit is; the duration is at least five minutes and has a text iff present |
| Pairing.ClosedRecord | app.py:40-43 | the output row of an entry with an exit holds both times, their difference and its "HH:MM" text |
| Pairing.PairingEntry | app.py:34-40 | output row m comes from an event at an even position of its user-day, whose user, date, role, group (or "indefinido") and time it carries as the entry |
| Pairing.PairingExit | app.py:35-37 | the exit is the time of the next event of the same user-day; it is missing iff the entry is the last of its day, which then has an odd number of events |
| Pairing.PairingDuration | app.py:41-45 | the duration is present iff the exit is, then at least five minutes, and has a text iff present |
| Pairing.EveryEntryPaired | app.py:32-39 | every event at an even position of its user-day has its output row |
| Pairing.RowsPerDay | app.py:32-39 | a user-day of n events gives ceil(n/2) output rows |
| Pairing.TwoRowsOneRecord | app.py:32-40 | two events of a day give one output row, from the first |
| Pairing.TwoRowsFill | app.py:34-38 | two ordered events of a day fill the first with both times |
| Pairing.OneShift | app.py:32-43 | two events of one user-day, five minutes or more apart, give one row: entry at the first, exit at the second, their difference and its text |
| Pairing.WorkDay | app.py:32-43 | events at 08:00:00 and 17:00:00 give one row with duration "09:00" |
| Pairing.NineHours | app.py:43 | nine hours are written "09:00" |
| Pairing.WorkDayMask | app.py:39 | of two events of one day only the first is kept |
| Pairing.EntryCol | app.py:34 | definition of `horario_entrada` before the fill: the event time on "entrada" rows, else missing; characterised through Pairing.FillEntry |
| Pairing.ExitCol | app.py:35 | definition of `horario_saida` before the fill: the event time on "saida" rows, else missing; characterised through Pairing.FillExitNext and Pairing.FillExitLast |
| Pairing.FormatDuration | app.py:43 | definition of `diferenca_horario`: the "HH:MM" text of a present duration, missing otherwise; characterised by Pairing.FormatDurationSpec |
| Pairing.ToRecord | app.py:40-45 | definition of one output row from a filled "entrada" row; characterised by Pairing.RecordFields and Pairing.ClosedRecord |
| Pairing.Pair | app.py:36-45 | the output has one row per "entrada" row; its rows are characterised by Pairing.RecordAt |
| Pairing.Processed | app.py:32-45 | definition of tagging then pairing; characterised by Pairing.PairingEntry, Pairing.PairingExit, Pairing.PairingDuration, Pairing.EveryEntryPaired and Pairing.RowsPerDay |
| Aggregate.KeyLeTotalPreorder | app.py:46 | the key order of `groupby` is a total preorder |
| Aggregate.GroupKeysOrdered | app.py:46-52 | a summary sheet lists no key twice, in strictly increasing key order |
| Aggregate.GroupKeysCover | app.py:46-52 | a summary sheet has a row for a key iff some processed row carries it |
| Aggregate.SumOverNoRows | app.py:46 | with no rows every per-key sum is 0 |
| Aggregate.SumOverSnoc | app.py:46 | one more row adds its duration to exactly one listed key's sum |
| Aggregate.SumOverCovering | app.py:46 | per-key sums over a duplicate-free list of all keys add up to the total duration |
| Aggregate.Conservation | app.py:46-52 | each summary sheet's totals add up to the total of the processed sheet |
| Aggregate.SheetsAgree | app.py:38-52 | the user, group and (role, group) sheets account for the same total time |
| Aggregate.SumWhereMissing | app.py:46 | a key whose durations are all missing sums to 0, not to a missing value |
| Aggregate.SumWhereNonNegative | app.py:46 | non-negative durations give a non-negative sum |
| Aggregate.SumWhere | app.py:46-52 | definition of one `groupby(key).sum()` cell, the key being `usuario`, `grupo` or (`cargo`, `grupo`) as in Aggregate.GroupKey, a missing duration adding nothing; characterised by Aggregate.SumOverSnoc, Aggregate.SumWhereMissing and Aggregate.Conservation |
| Aggregate.GroupKeys | app.py:46-52 | definition of the `groupby(sort=True)` row keys; characterised by Aggregate.GroupKeysOrdered and Aggregate.GroupKeysCover |
| Aggregate.ZeroText | app.py:47 | 0 is written "00:00" |
| Aggregate.AllMissingIsZero | app.py:46-47 | a key whose durations are all missing shows "00:00" |
| Aggregate.SumTableReadsBack | app.py:46-53 | summary row j is the j-th listed key with its total, which has hours with at least two digits and two-digit minutes and reads back as the key's sum in whole minutes |
| Pipeline.NormalizedUsers | app.py:20-22 | after normalisation every row has a user, and that user is admitted |
| Pipeline.CleanedRows | app.py:24-25 | sorting and de-duplicating keep exactly the rows there were |
| Pipeline.CleanedStage | app.py:24-25 | the cleaned sheet is in (user, date, time text) order, holds exactly the normalised rows, and every row has a user |
| Pipeline.ParseStage | app.py:26 | the time column fails to parse iff some normalised row has a bad time |
| Pipeline.ParsedWitnessed | app.py:26 | every parsed event has the user, date and time of some sheet row |
| Pipeline.ThinnedWitnessed | app.py:28-30 | re-sorting and filtering keep only events that were there |
| Pipeline.ProcessedSound | app.py:32-45 | every output row has an admitted user and an entry. The entry, and the exit when present, are times read from rows of that user and date. The duration is present iff the exit is, is then at least five minutes, and has a text iff present |
| Pipeline.Thinned | app.py:24-31 | the events that reach the tagging stage: none iff some normalised time fails `%H:%M:%S`, and otherwise sorted with the events of every user-day at least five minutes apart |
| Pipeline.ProcessExcel | app.py:20-55 | no result iff some normalised time fails `%H:%M:%S`. Otherwise: the column names are lowered; the processed sheet is the tagging and pairing of the thinned events of Pipeline.Thinned, so Pairing.RowsPerDay, Pairing.PairingExit and Pairing.EveryEntryPaired hold of it; every output row is sound; each summary sheet is the per-key sum of the output durations; and each summary sheet's totals add up to the total duration |

## Left out

- The Flask routes, upload and download handlers, folder creation, `read_excel` and the `ExcelWriter` output (app.py:1-16, 18, 57-90). These are web and file I/O. `Pipeline.ProcessExcel` takes the sheet as a value and returns the four sheets.
- The date parse at app.py:23 and the timestamp built at app.py:27. The date is the "dd/mm/YYYY" text line 23 produces, assumed valid. It is compared as text, as both sorts do. A date that pandas coerces to NaT is not modelled.
- Pipeline.ProcessExcel: requires every user to be present. pandas' `groupby` silently drops rows whose `usuario` is NaN in `cumcount`, `ffill`, `bfill` and the sums. That is library behaviour the code never states. The exclusion filter itself (`Normalization.ExcludeSpec`) does keep rows with a missing user. A missing `cargo` is not modelled: the role is always text.
- Text.Lower: maps only ASCII letters. Python's `str.lower()` also lowers other Unicode letters.
- Text.ParseClock: rejects a seconds field of 60 or 61, because the datetime pandas builds from a `%H:%M:%S` match refuses them. It does not model whitespace or other leniencies of the parser, or cells that are already times or numbers rather than text.
- Dedup.ParseTimes: a parse failure is modelled as no result. pandas raises an exception, which would abort the whole request.
- Durations are exact integer seconds. The source's float minutes and float sums (app.py:41-47) are not modelled. The five-minute test at app.py:30 compares whole seconds against 300, which agrees with `>= 5` minutes for times given to the second.
- Pairing.ToRecord: the output row keeps the internal duration column (`diferenca_horario_minutos`, in seconds) that app.py:55 drops before writing. The summary sheets need it, and it drops the `tipo` and `horario_evento` columns as app.py:40 does.
- The pass-through columns are kept in `others` as text, integer or empty cells. Float cells and cells of other types are not distinguished.
- Sorting is modelled as a stable insertion sort (`Seqs.SortByStable`). pandas sorts on several columns with a stable algorithm, so both give the same order, ties included.
