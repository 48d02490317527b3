# Shift closing for a gas-station app, in Dafny

This project models the core of a mobile app that gas-station attendants
("frentistas") use to close their shift. It covers two things:

- picking the current shift window (`turno`) from the clock;
- submitting a closing. An attendant's declared money (debit, credit, note, PIX, cash)
  is written as one *operator line* (`FechamentoFrentista`). The line goes into the
  *envelope* (`Fechamento`) of that date, shift and station. The envelope's totals are
  then recomputed from all of its lines.

The code comes in two versions, and both are modelled. `services/` holds the current
one; `lib/api.ts` holds an older one. Where the two behave differently, a lemma says
how.

Modules, in dependency order:

- `Wrappers`: `Option`, `Result`, and JavaScript's `x || 0` / `x || y` on numbers.
- `Query`: a table is a `seq` of rows. `Where` is a filter. `Single` is Supabase's
  `.single()`, which answers a row only when exactly one matches.
- `Records`: the rows (`Usuario`, `Frentista`, `Envelope`, `Line`, `Note`), the
  lookups by e-mail, by user id and by operator id, the error steps, and the outcomes
  of a submission.
- `Turno`: `turnoService.getCurrentTurno` of `services/turno.ts`, with the "HH:MM"
  clock string and the window test.
- `Fechamento`: `services/fechamento.ts` as functions of the tables (`Db`). It covers
  `getOrCreate`, `updateTotals`, the line service's `create`/`update`/`getExisting`/
  `exists`, and `submitMobileClosing`. The lemmas state what a submission writes,
  keeps and refuses.
- `FechamentoStore`: a class `Store` whose fields are the three tables. Each method
  runs the steps of one service call in place. Its `ensures` equates the new tables
  and the answer with the `Fechamento` function of the old tables.
- `Historico`: the row map of `fechamentoFrentistaService.getHistorico`, both as
  written and as intended (see Findings).
- `LegacyApi` and `LegacyStore`: the same for `lib/api.ts`. Its shift selection has
  no active filter and no "diário" fallback. Its envelope search is keyed by (date,
  shift). Its `updateTotals` overwrites the totals with one submission's.

Modelling conventions:

- Money is an `int` number of cents.
- A row's id is its 1-based position in its table. Nothing in the core deletes a row;
  `WellFormed` keeps this invariant.
- Nullable columns are `Option<int>`.
- Each remote write can fail, and so can the two reads in `updateTotals` (the
  envelope's lines and its stored `total_vendas`). These answers are a `Faults`
  parameter. The clock, the signed-in identity (`session`) and
  the creation timestamp (`criadoEm`) are parameters too.

Points where the code does something one might not expect, modelled as the code does it:

- The declared total of a submission is debit + credit + note + PIX + cash
  (services/fechamento.ts:410-415). Coins are stored in the line but not counted,
  although the closing screen counts them in the total it shows
  (app/(tabs)/registro.tsx:229).
- The current submission never answers "not authenticated". Without a signed-in
  identity it attributes the envelope to an admin or the first profile, and it fails
  only when it cannot identify the operator.
- The envelope is created before the duplicate check. A duplicate still writes
  nothing: a duplicate can only be found in an envelope that already existed, and a
  new envelope has no lines (`Fechamento.SubmitRejectsWithoutWriting`).

## Model

| member | source | states |
|---|---|---|
| Records.ProfileByEmail | services/usuario.ts:15-28 | a profile is found exactly when one profile has the e-mail, and it has that e-mail |
| Records.ProfileByEmailFinds | services/usuario.ts:15-28 | the one profile with the e-mail is the one found |
| Records.ActiveByUserId | lib/api.ts:75-89 | an operator is found exactly when one active operator is linked to the identity, and it is active and linked; with none, null |
| Records.ActiveByUserIdFinds | lib/api.ts:75-89 | the one active operator linked to the identity is the one found |
| Records.FrentistaById | services/fechamento.ts:389-393 | an operator is found exactly when one operator has the id, and it has that id |
| Records.FrentistaByIdFinds | services/fechamento.ts:389-393 | the one operator with the id is the one found, active or not |
| Records.FirstAdmin | services/fechamento.ts:356-364 | an ADMIN profile is found exactly when the table holds one |
| Turno.SearchList | services/turno.ts:53-55 | the search list holds only active windows when any exist, and holds all of them; with none active, it is the whole list |
| Turno.SelectTurno | services/turno.ts:45-83 | null exactly when there are no windows; the answer is one of the windows; when a window contains the time, the answer contains it |
| Turno.SelectTurnoFirstMatch | services/turno.ts:60-76 | the first window of the search list that contains the time is the one returned |
| Turno.SearchListIsFilter | services/turno.ts:53-55 | with an active window present, the search list is the filter of the loaded list, in its order |
| Turno.SelectTurnoFirstActiveMatch | services/turno.ts:53-76 | an active window containing the time, with no earlier active window containing it in the loaded list, is returned |
| Turno.SelectTurnoFallback | services/turno.ts:78-83 | with no match, the first window named "diário" in any letter case is returned, else the first window of the search list |
| Turno.EmptyWindowNeverMatches | services/turno.ts:65-75 | a window whose start equals its end contains no time |
| Turno.Pad2 | services/turno.ts:51 | `padStart(2, '0')` gives two digits whose value is the number |
| Turno.ClockTimeIsHHMM | services/turno.ts:50-51 | the formatted clock is a well-formed "HH:MM" whose minute count is hour * 60 + minute |
| Turno.StrLtIsMinutesOrder | services/turno.ts:65-75 | on "HH:MM" strings the string order the code compares with is the order of the times |
| Turno.ContainsByMinutes | services/turno.ts:65-75 | a window contains the time when start <= now < end, or, overnight, when now >= start or now < end |
| Turno.CurrentTurno | services/turno.ts:41-84 | null exactly when the station has no windows; otherwise one of its windows |
| Fechamento.GetOrCreateEnvelope | services/fechamento.ts:82-128 | the envelope returned has the date and shift asked for (and the station, when one is given); a failure changes nothing; at most one envelope is added |
| Fechamento.GetOrCreateCases | services/fechamento.ts:91-127 | exactly one match is returned unchanged; otherwise a new FECHADO envelope is appended under the next id, with the seed totals and difference = received - sales |
| Fechamento.GetOrCreateKeepsKeysUnique | services/fechamento.ts:91-127 | with a station named, at most one envelope per (date, shift, station) is kept, and the one returned is the only one with the key |
| Fechamento.NoStationDuplicatesKey | services/fechamento.ts:97-99 | without a station the search ignores the station column, so a second envelope with the same key can appear |
| Fechamento.ReceivedSumConcat | services/fechamento.ts:148-155 | the received sum over two batches of lines is the sum of the two sums |
| Fechamento.ReceivedSumPermutation | services/fechamento.ts:139-155 | the received total does not depend on the order in which the store returns the lines |
| Fechamento.AppendLineReceived | services/fechamento.ts:139-155 | appending a line adds its money to its own envelope's received total and to no other |
| Fechamento.UpdateTotalsOf | services/fechamento.ts:133-182 | it fails exactly when the lines read or the update fails, with that step; on success there are as many envelopes as before |
| Fechamento.UpdateTotalsEffect | services/fechamento.ts:133-182 | received = the sum over all of the envelope's lines; sales = the manual value if non-zero, else the stored one (0 if null or unreadable); difference = received - sales; status FECHADO; key kept; other envelopes unchanged |
| Fechamento.UpdateTotalsKeepsInvariants | services/fechamento.ts:168-177 | updateTotals keeps the numbering and the at-most-one-envelope-per-key invariant |
| Fechamento.LineExistsIffAny | services/fechamento.ts:251-269 | with at most one line per key, `exists` is true exactly when some line has the (envelope, operator) key |
| Fechamento.InsertLineKeepsUnique | services/fechamento.ts:192-219 | inserting a line whose key is free keeps at most one line per key, and the key then exists |
| Fechamento.UpdateLineEffect | services/fechamento.ts:224-249 | update succeeds exactly when the store answers and the id names a line; then only that line is patched and it is returned with its id, envelope and operator; otherwise nothing changes |
| Fechamento.UpdateLineKeepsWellFormed | services/fechamento.ts:224-249 | update keeps both numberings and at most one line per (envelope, operator) |
| Fechamento.Attribution | services/fechamento.ts:337-384 | the attribution is the id of some profile, and it is null exactly when there are no profiles |
| Fechamento.AttributionOrder | services/fechamento.ts:339-376 | the signed-in user's own profile id when it is non-zero; else the first ADMIN profile's; else the first profile's |
| Fechamento.ResolveFrentista | services/fechamento.ts:386-407 | an explicit operator id must name an existing operator, else "not found"; without one, the signed-in identity's active operator, else "not identified" |
| Fechamento.ResolveFrentistaCases | services/fechamento.ts:386-407 | an explicit id resolves exactly when one operator has it; without one, the identity resolves exactly when one active operator is linked to it |
| Fechamento.ResolveExplicitFinds | services/fechamento.ts:388-397 | the one operator with the explicit id is the one resolved, active or not |
| Fechamento.ResolveSignedInFinds | services/fechamento.ts:398-400 | without an explicit id, the one active operator linked to the identity is the one resolved |
| Fechamento.RecordLine | services/fechamento.ts:434-483 | "already closed" exactly when the operator has a line in the envelope; the notes change only on success; the line table gains at most the operator's line |
| Fechamento.GetOrCreateKeepsNumbering | services/fechamento.ts:82-128 | getOrCreate keeps every existing envelope and the numbering, and the envelope returned sits at id - 1 |
| Fechamento.SubmitKeepsWellFormed | services/fechamento.ts:328-492 | a submission keeps both tables numbered and every line pointing at an envelope, with one line per (envelope, operator); with a station named it keeps one envelope per key |
| Fechamento.SubmitClosingResolved | services/fechamento.ts:386-432 | a submission succeeds only for a resolved operator, and then submits for that operator with the attributed profile |
| Fechamento.SubmitRejectsWithoutWriting | services/fechamento.ts:386-438 | an unknown explicit operator, an unidentified operator, a duplicate line or a failed envelope insert leaves every table unchanged |
| Fechamento.SubmitSuccessWrites | services/fechamento.ts:422-483 | a success appends exactly the operator's line (card column 0, checked value = declared total, meter reading and shortfall as sent), changes no other envelope, and adds the deferred-sale rows unless their insert fails |
| Fechamento.RecordLineSucceeds | services/fechamento.ts:434-483 | an operator without a line in the envelope is recorded when the line insert, the lines read and the update answer |
| Fechamento.SubmitForSucceeds | services/fechamento.ts:422-483 | an operator who has no line yet in an envelope of this date, shift and station (earlier closings elsewhere allowed) gets the closing submitted when the store answers every write |
| Fechamento.SubmitSucceeds | services/fechamento.ts:386-483 | a submission whose operator resolves and has no line yet in an envelope of this date, shift and station succeeds when the store answers every write |
| Fechamento.RecordLineTotalsFail | services/fechamento.ts:441-459 | a failed totals update after the line insert keeps the line and reports the failing step |
| Fechamento.RecordLineTotals | services/fechamento.ts:441-459 | after recording, the envelope's totals are recomputed and its received total grew by this declared total |
| Fechamento.SubmitSuccessTotals | services/fechamento.ts:409-483 | after a success the envelope answered is the one the search finds, its totals are recomputed from all its lines, and its received total grew by exactly this declared total |
| Fechamento.SubmitForHoldsLine | services/fechamento.ts:422-483 | after a success the operator holds a line in the envelope answered |
| Fechamento.ResubmitIsRejected | services/fechamento.ts:434-438 | once the operator holds a line in the only envelope with the key, submitting again is refused and writes nothing |
| Fechamento.SubmitTwiceIsRejected | services/fechamento.ts:422-438 | the same closing submitted twice (station named) is refused the second time and leaves the tables as the first left them |
| Fechamento.NotesFailureKeepsSuccess | services/fechamento.ts:473-480 | a failed deferred-sale insert changes neither the answer nor the envelopes and lines; only the notes are missing |
| Fechamento.TwoSubmissionsAccumulate | services/fechamento.ts:458-459 | two operators closing into the same envelope leave its received total = the earlier total + both declared totals, recomputed |
| FechamentoStore.Store.GetOrCreate | services/fechamento.ts:82-128 | the new envelope table and the answer are those of getOrCreate, and the numbering and key invariants are kept |
| FechamentoStore.Store.UpdateTotals | services/fechamento.ts:133-182 | the envelopes become those of updateTotals, or stay unchanged with the failing step |
| FechamentoStore.Store.Create | services/fechamento.ts:192-219 | the row is stored under the next id, or nothing changes on failure; numbering and line-key uniqueness are kept |
| FechamentoStore.Store.Update | services/fechamento.ts:224-249 | the line table and the answer are those of update, and the store stays well formed |
| FechamentoStore.Store.GetExisting | services/fechamento.ts:251-261 | an id is answered exactly when the key exists, and it is the id of a line with that key |
| FechamentoStore.Store.Exists | services/fechamento.ts:266-269 | true exactly when the key exists; with unique keys, exactly when some line has it |
| FechamentoStore.Store.Attribute | services/fechamento.ts:337-384 | the attributed profile id is `Attribution`'s |
| FechamentoStore.Store.Resolve | services/fechamento.ts:386-407 | the operator or the error is `ResolveFrentista`'s |
| FechamentoStore.Store.Record | services/fechamento.ts:434-483 | the tables and the answer are those of `RecordLine` |
| FechamentoStore.Store.Insert | services/fechamento.ts:441-483 | for an operator without a line: the tables and the answer are those of `RecordLine` |
| FechamentoStore.Store.Close | services/fechamento.ts:458-483 | once the line is in: the tables and the answer are those of `RecordLine` on the tables before the insert |
| FechamentoStore.Store.SubmitMobileClosing | services/fechamento.ts:328-492 | the tables and the answer are those of `SubmitClosing`, and the store stays well formed |
| Historico.StrOr | services/fechamento.ts:313-314 | `x \|\| fallback` keeps a non-empty string and falls back on null or "" |
| Historico.HistoryRowOf | services/fechamento.ts:303-321 | as written: the status is "ok" exactly when the difference is 0, and the labels are always "" and "N/A" |
| Historico.HistoryRow | services/fechamento.ts:303-321 | id and meter reading as stored; "ok" exactly when the difference is 0; the stored difference when non-zero, else meter reading - total shown |
| Historico.HistoryTotalShown | services/fechamento.ts:304-307 | the total shown takes the card amount from the legacy column when non-zero, else debit + credit, plus note, PIX and cash |
| Historico.HistoryLabelsShown | services/fechamento.ts:313-314 | the embedded date and shift name are shown when present and non-empty, else "" and "N/A" |
| Historico.LabelsLostAsWritten | services/fechamento.ts:286-314 | as written, an embedded date and shift name are never shown |
| Historico.HistoryVersionsAgree | services/fechamento.ts:303-321 | both row maps agree apart from the labels when the line carries its own difference or its card money is in the legacy column |
| Historico.ClosingLineShown | services/fechamento.ts:303-321 | a mobile closing without a shortfall is shown with difference = meter reading - declared total, and "ok" exactly when they are equal |
| Historico.ClosingLineShownAsWritten | services/fechamento.ts:309 | as written, the same line's difference also counts its debit and credit as missing |
| Historico.CardClosingShownDivergent | services/fechamento.ts:309 | a balanced closing paid by card is "divergente" as written and "ok" as intended |
| LegacyApi.LegacySelectTurno | lib/api.ts:133-156 | null exactly when there are no windows; the answer is a window; a matching window is preferred |
| LegacyApi.LegacyCurrentTurno | lib/api.ts:133-156 | null exactly when there are no windows |
| LegacyApi.LegacyFirstMatch | lib/api.ts:139-153 | the first window in list order that contains the time is returned |
| LegacyApi.LegacyFallback | lib/api.ts:155 | with no match, the first window is returned |
| LegacyApi.LegacyAgreesOnMatch | lib/api.ts:133-156 | with every window active and one matching, both versions choose the same window |
| LegacyApi.DiarioFallbackDiffers | lib/api.ts:139-155 | with no match and "diário" second, the current version picks "diário" and the older one the first window |
| LegacyApi.InactiveMatchDiffers | lib/api.ts:139-153 | an inactive first window that matches is picked by the older version and never by the current one |
| LegacyApi.LegacyGetOrCreate | lib/api.ts:166-205 | the envelope returned has the date and shift; a failure changes nothing; at most one envelope is added |
| LegacyApi.LegacyGetOrCreateKeepsKeysUnique | lib/api.ts:166-205 | at most one envelope per (date, shift) is kept, the one returned is the only one with the key, and a new one carries the seed totals |
| LegacyApi.LegacyUpdateTotals | lib/api.ts:210-232 | fails exactly when the update fails; otherwise the table keeps its length |
| LegacyApi.LegacyUpdateTotalsKeepsInvariants | lib/api.ts:210-232 | overwriting one envelope's totals keeps ids equal to positions and keeps at most one envelope per (data, turno) |
| LegacyApi.LegacyRecord | lib/api.ts:336-369 | "already closed" exactly when the operator has a line in the envelope; no notes are written |
| LegacyApi.LegacyResolve | lib/api.ts:288-316 | fails exactly without a session, without a profile for its e-mail, or without an active operator; "profile not found" exactly when the e-mail finds no profile, "operator not found" exactly when the profile is found and no single active operator is linked; on success the profile is one of the table with the session's e-mail and the operator one of the table, active and linked to the session |
| LegacyApi.LegacyResolveFinds | lib/api.ts:299-307 | the only profile with the session's e-mail and the only active operator linked to the identity are the pair resolved |
| LegacyApi.LegacySubmitResolved | lib/api.ts:288-334 | a failed resolution is answered with nothing written; otherwise the submission is for the resolved profile and operator |
| LegacyApi.LegacyRejectsWithoutWriting | lib/api.ts:283-347 | no session, no profile, no active operator, a duplicate line or a failed envelope insert leaves the tables unchanged |
| LegacyApi.LegacySuccessWrites | lib/api.ts:327-369 | a success appends the operator's line and overwrites the envelope's totals with this submission's alone |
| LegacyApi.LegacyKeepsWellFormed | lib/api.ts:283-384 | the older submission keeps the store well formed and at most one envelope per (date, shift) |
| LegacyApi.LegacySecondOverwritesFirst | lib/api.ts:361-369 | after two operators close into the same envelope, it holds the second total alone; the first operator's money is lost unless it was 0 |
| LegacyStore.Store.GetOrCreate | lib/api.ts:166-205 | the envelopes and the answer are those of `LegacyGetOrCreate`, and numbering and (date, shift) uniqueness are kept |
| LegacyStore.Store.UpdateTotals | lib/api.ts:210-232 | the envelopes become those of `LegacyUpdateTotals`, or stay unchanged with the failing step |
| LegacyStore.Store.Create | lib/api.ts:242-263 | the row is stored under the next id, or nothing changes on failure |
| LegacyStore.Store.Exists | lib/api.ts:268-277 | true exactly when the key exists; with unique keys, exactly when some line has it |
| LegacyStore.Store.Resolve | lib/api.ts:288-316 | the profile and operator, or the error, are `LegacyResolve`'s |
| LegacyStore.Store.Record | lib/api.ts:336-369 | the tables and the answer are those of `LegacyRecord` |
| LegacyStore.Store.SubmitMobileClosing | lib/api.ts:283-384 | the tables and the answer are those of `LegacySubmit`, and the store stays well formed |

## Left out

- The query part of `getHistorico` (services/fechamento.ts:284-301) is not modelled: the filter by operator and station, the ordering, the limit, and an error read as an empty history. Only the row map of lines 303-321 is modelled.
- Read errors are not modelled: the model assumes every read answers. This covers the envelope search in `getOrCreate` (services/fechamento.ts:91-101, lib/api.ts:166-205), the line lookup in `getExisting`/`exists` (services/fechamento.ts:251-269, lib/api.ts:268-277), `getByEmail`, the ADMIN and any-profile lookups, the operator lookup by id, and `getByUserId`. When such a read fails while a row does match, the code acts as if none matched. A failed envelope search then inserts a second envelope with the same key, and a failed line lookup lets `create` run again. So `Fechamento.GetOrCreateKeepsKeysUnique`, `Fechamento.SubmitKeepsWellFormed`, `Fechamento.ResubmitIsRejected`, `Fechamento.SubmitTwiceIsRejected`, `LegacyApi.LegacyGetOrCreateKeepsKeysUnique` and `LegacyApi.LegacyKeepsWellFormed` hold only when those reads answer.
- Concurrency is left out. Two simultaneous submissions are not interleaved; the unique (envelope, operator) key that the database enforces is modelled by the duplicate check alone.
- JavaScript numbers are modelled as integer cents, so floating-point rounding is left out.
- The messages returned with `success: false` and the console logging are left out; the model keeps the reason (`Reason`) instead of the text.
- `closingData.posto_id` undefined is modelled as station 0, which is falsy as the code tests it. `Fechamento.NewEnvelope`, `Fechamento.NewLine` and `Fechamento.NewNotes` then store 0 in the `posto_id` column, where the code stores null (services/fechamento.ts:468 for the `NotaPrazo` rows).
- The wall clock (`new Date()`) is a parameter: the hour and minute for the shift, `criadoEm` for the notes.
- `Fechamento.GetOrCreateKeepsKeysUnique`: uniqueness of the envelope key is proved only when a station is given, because the search ignores the station column otherwise (`Fechamento.NoStationDuplicatesKey`).
- `Fechamento.SubmitKeepsWellFormed`: the one-envelope-per-key part holds only when a station is given, for the same reason.
- `Fechamento.ResubmitIsRejected` and `Fechamento.SubmitTwiceIsRejected` require a station for the same reason. Without one, two envelopes may share (date, shift). The search then finds two, a new envelope is inserted, and a second identical submission stores a second line for the same operator.
- `LegacyApi.LegacyResolve`: an error from `supabase.auth.getUser()` is modelled as no session, and a user without an e-mail as "profile not found".
- `fechamentoFrentistaService.create` does not check for duplicates; only the submission does, so `Create` has no uniqueness precondition and keeps uniqueness only for a free key.
- The `for ... of` loop and the `find` calls over the shift windows are modelled as a first-match search function (`Query.First`), since they return the first match and change nothing.
- The rest of the repository (screens, notifications, the other services) is not part of this model.

## Findings

| source | as written | input that shows it | evidently intended | confidence | as-written member | corrected member |
|---|---|---|---|---|---|---|
| services/fechamento.ts:309 | the fallback difference subtracts a total without debit and credit, while the total shown (lines 306-307) includes them | a line with debit 100, no other money, meter reading 100, no stored difference: shown as difference 100, "divergente" | difference = meter reading - total shown, so 0 and "ok" | not executed | Historico.CardClosingShownDivergent | Historico.HistoryRow |
| services/fechamento.ts:313-314 | the map reads `item.Fechamento` and `Fechamento.Turno`, but the query (lines 287-290) aliases the embeds as `fechamento` and `turno` | any row whose envelope has a date and a named shift: shown with date "" and shift "N/A" | the embedded date and shift name are shown | not executed | Historico.LabelsLostAsWritten | Historico.HistoryLabelsShown |
