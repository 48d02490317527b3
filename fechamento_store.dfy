/** The remote tables of services/fechamento.ts as one object. Each method runs the
    steps of one service call in place, and its postcondition ties the new tables and
    its answer to the function of `Fechamento` that specifies it; the lemmas proved
    about those functions are what the methods keep. */
module FechamentoStore {
  import opened Wrappers
  import opened Query
  import opened Records
  import opened Fechamento

  class Store {
    var envelopes: seq<Envelope>
    var lines: seq<Line>
    var notes: seq<Note>
    const usuarios: seq<Usuario>
    const frentistas: seq<Frentista>

    function Snapshot(): Db
      reads this
    {
      Db(envelopes, lines, notes)
    }

    function Dir(): Directory
    {
      Directory(usuarios, frentistas)
    }

    constructor (db: Db, dir: Directory)
      ensures Snapshot() == db && Dir() == dir
    {
      envelopes, lines, notes := db.envelopes, db.lines, db.notes;
      usuarios, frentistas := dir.usuarios, dir.frentistas;
    }

    /** `fechamentoService.getOrCreate` (lines 82-128). */
    method GetOrCreate(data: string, turnoId: int, usuarioId: Option<int>, totalRecebido: int,
                       totalVendas: int, postoId: int, insertFails: bool) returns (r: Result<Envelope, Step>)
      modifies this`envelopes
      ensures (envelopes, r) == GetOrCreateEnvelope(old(envelopes), data, turnoId, usuarioId,
                                                    totalRecebido, totalVendas, postoId, insertFails)
      ensures IdsArePositions(old(envelopes)) ==> IdsArePositions(envelopes)
      ensures UniqueEnvelopeKeys(old(envelopes)) && IdsArePositions(old(envelopes)) && postoId != 0 ==>
                UniqueEnvelopeKeys(envelopes)
    {
      ghost var before := envelopes;
      var found := Where(envelopes, EnvelopeSearch(data, turnoId, postoId));
      if |found| == 1 {
        r := Success(found[0]);
      } else if insertFails {
        r := Failure(EnvelopeInsert);
      } else {
        var created := NewEnvelope(|envelopes| + 1, data, turnoId, usuarioId, totalRecebido, totalVendas, postoId);
        envelopes := envelopes + [created];
        r := Success(created);
      }
      if IdsArePositions(before) {
        GetOrCreateKeepsNumbering(before, data, turnoId, usuarioId, totalRecebido, totalVendas, postoId, insertFails);
        if UniqueEnvelopeKeys(before) && postoId != 0 {
          GetOrCreateKeepsKeysUnique(before, data, turnoId, usuarioId, totalRecebido, totalVendas, postoId, insertFails);
        }
      }
    }

    /** `fechamentoService.updateTotals` (lines 133-182); `None` when it returns, the
        failing step when it throws. */
    method UpdateTotals(fechamentoId: int, totalVendasManual: int, observacoes: Option<string>, faults: Faults)
      returns (err: Option<Step>)
      modifies this`envelopes
      ensures match UpdateTotalsOf(old(envelopes), lines, fechamentoId, totalVendasManual, observacoes, faults)
              case Success(updated) => err.None? && envelopes == updated
              case Failure(step) => err == Some(step) && envelopes == old(envelopes)
    {
      if faults.linesRead {
        return Some(LinesRead);
      }
      var totalRecebido := ReceivedSum(Where(lines, LineOf(fechamentoId)));
      var totalVendas := SalesTotal(envelopes, fechamentoId, totalVendasManual, faults.envelopeRead);
      if faults.envelopeUpdate {
        return Some(EnvelopeUpdate);
      }
      envelopes := SetTotals(envelopes, fechamentoId, totalRecebido, totalVendas, observacoes);
      err := None;
    }

    /** `fechamentoFrentistaService.create` (lines 192-219): the row is stored under the
        next id. There is no duplicate check here; `SubmitMobileClosing` asks `Exists` first. */
    method Create(row: Line, fails: bool) returns (r: Result<Line, Step>)
      modifies this`lines
      ensures fails ==> r == Failure(LineInsert) && lines == old(lines)
      ensures !fails ==> r == Success(row.(id := |old(lines)| + 1)) && lines == old(lines) + [r.value]
      ensures LineIdsArePositions(old(lines)) ==> LineIdsArePositions(lines)
      ensures !fails && UniqueLines(old(lines)) && !LineExists(old(lines), row.fechamentoId, row.frentistaId) ==>
                UniqueLines(lines) && LineExists(lines, row.fechamentoId, row.frentistaId)
    {
      if fails {
        return Failure(LineInsert);
      }
      var created := row.(id := |lines| + 1);
      if UniqueLines(lines) && !LineExists(lines, row.fechamentoId, row.frentistaId) {
        InsertLineKeepsUnique(lines, created);
      }
      lines := lines + [created];
      r := Success(created);
    }

    /** `fechamentoFrentistaService.update` (lines 224-249). */
    method Update(id: int, patch: LinePatch, fails: bool) returns (r: Result<Line, Step>)
      modifies this`lines
      ensures (lines, r) == UpdateLine(old(lines), id, patch, fails)
      ensures WellFormed(old(Snapshot())) ==> WellFormed(Snapshot())
    {
      if fails {
        return Failure(LineUpdate);
      }
      ghost var db := Snapshot();
      lines := PatchWhere(lines, id, patch);
      var updated := Single(Where(lines, LineIdIs(id)));
      if updated.Some? {
        r := Success(updated.value);
      } else {
        r := Failure(LineUpdate);
      }
      if WellFormed(db) {
        UpdateLineKeepsWellFormed(db, id, patch, fails);
      }
    }

    /** `fechamentoFrentistaService.getExisting` (lines 251-261): the id of the operator's
        line in the envelope, when exactly one row has that key. */
    method GetExisting(fechamentoId: int, frentistaId: int) returns (r: Option<nat>)
      ensures r.Some? <==> LineExists(lines, fechamentoId, frentistaId)
      ensures r.Some? ==> exists i :: 0 <= i < |lines| && lines[i].id == r.value &&
                                      lines[i].fechamentoId == fechamentoId && lines[i].frentistaId == frentistaId
    {
      var found := Single(Where(lines, LineKeyIs(fechamentoId, frentistaId)));
      if found.Some? {
        r := Some(found.value.id);
      } else {
        r := None;
      }
    }

    /** `fechamentoFrentistaService.exists` (lines 266-269). */
    method Exists(fechamentoId: int, frentistaId: int) returns (b: bool)
      ensures b <==> LineExists(lines, fechamentoId, frentistaId)
      ensures UniqueLines(lines) ==>
                (b <==> exists i :: 0 <= i < |lines| && lines[i].fechamentoId == fechamentoId &&
                                    lines[i].frentistaId == frentistaId)
    {
      var existing := GetExisting(fechamentoId, frentistaId);
      b := existing != None;
      if UniqueLines(lines) {
        LineExistsIffAny(lines, fechamentoId, frentistaId);
      }
    }

    /** Lines 337-384: the profile id stamped on a new envelope, kept in a local that
        each fallback reassigns. */
    method Attribute(session: Option<AuthUser>) returns (usuarioId: Option<int>)
      ensures usuarioId == Attribution(usuarios, session)
    {
      usuarioId := None;
      if session.Some? && session.value.email.Some? && session.value.email.value != "" {
        var profile := ProfileByEmail(usuarios, session.value.email.value);
        if profile.Some? {
          usuarioId := Some(profile.value.id);
        }
      }
      if usuarioId.None? || usuarioId.value == 0 {
        var admin := FirstAdmin(usuarios);
        if admin.Some? {
          usuarioId := Some(admin.value.id);
        } else if |usuarios| > 0 {
          usuarioId := Some(usuarios[0].id);
        }
      }
    }

    /** Lines 386-407: the operator the line is written for. */
    method Resolve(session: Option<AuthUser>, frentistaId: Option<int>) returns (r: Result<Frentista, Reason>)
      ensures r == ResolveFrentista(frentistas, session, frentistaId)
    {
      var frentista: Option<Frentista> := None;
      if frentistaId.Some? && frentistaId.value != 0 {
        frentista := FrentistaById(frentistas, frentistaId.value);
        if frentista.None? {
          return Failure(FrentistaNotFound);
        }
      } else if session.Some? {
        frentista := ActiveByUserId(frentistas, session.value.id);
      }
      if frentista.None? {
        return Failure(FrentistaNotIdentified);
      }
      r := Success(frentista.value);
    }

    /** Lines 434-483, once the envelope `id` is known: refuse a second line for the
        operator, insert the line, recompute the totals, add the deferred-sale rows. */
    method Record(id: nat, frentistaId: int, input: ClosingInput, criadoEm: string, faults: Faults)
      returns (o: Outcome)
      modifies this`lines, this`envelopes, this`notes
      ensures (Snapshot(), o) == RecordLine(old(Snapshot()), id, frentistaId, input, criadoEm, faults)
    {
      // Lines 434-438: one line per operator and envelope.
      var already := Exists(id, frentistaId);
      if already {
        return Rejected(AlreadyClosed);
      }
      o := Insert(id, frentistaId, input, criadoEm, faults);
    }

    /** Lines 441-483, for an operator without a line in envelope `id`. */
    method Insert(id: nat, frentistaId: int, input: ClosingInput, criadoEm: string, faults: Faults)
      returns (o: Outcome)
      requires !LineExists(lines, id, frentistaId)
      modifies this`lines, this`envelopes, this`notes
      ensures (Snapshot(), o) == RecordLine(old(Snapshot()), id, frentistaId, input, criadoEm, faults)
    {
      ghost var db := Snapshot();
      // Lines 441-456: the operator's line.
      var created := Create(NewLine(0, input, id, frentistaId), faults.lineInsert);
      if created.Failure? {
        return Rejected(Remote(LineInsert));
      }
      o := Close(db, id, frentistaId, input, criadoEm, faults);
    }

    /** Lines 459-483, once the operator's line is in: recompute the envelope's totals,
        then add the deferred-sale rows, whose failed insert is only logged. */
    method Close(ghost db: Db, id: nat, frentistaId: int, input: ClosingInput, criadoEm: string, faults: Faults)
      returns (o: Outcome)
      requires !LineExists(db.lines, id, frentistaId) && !faults.lineInsert
      requires Snapshot() == db.(lines := db.lines + [NewLine(|db.lines| + 1, input, id, frentistaId)])
      modifies this`envelopes, this`notes
      ensures (Snapshot(), o) == RecordLine(db, id, frentistaId, input, criadoEm, faults)
    {
      var err := UpdateTotals(id, 0, Some(input.observacoes), faults);
      if err.Some? {
        RecordLineTotalsFail(db, id, frentistaId, input, criadoEm, faults, err.value);
        return Rejected(Remote(err.value));
      }
      RecordLineTotalsDone(db, id, frentistaId, input, criadoEm, faults, envelopes);
      if |input.notas| > 0 && !faults.notesInsert {
        notes := notes + NewNotes(input, id, frentistaId, criadoEm);
      } else {
        assert notes == db.notes + [];
      }
      o := Submitted(id);
    }

    /** `submitMobileClosing` (lines 328-492). `session` is the signed-in identity, if any;
        `criadoEm` is the clock's timestamp; `faults` are the store's answers. */
    method SubmitMobileClosing(session: Option<AuthUser>, input: ClosingInput, criadoEm: string, faults: Faults)
      returns (o: Outcome)
      modifies this
      ensures (Snapshot(), o) == SubmitClosing(old(Snapshot()), Dir(), session, input, criadoEm, faults)
      ensures WellFormed(old(Snapshot())) ==> WellFormed(Snapshot())
    {
      ghost var db := Snapshot();
      SubmitClosingResolved(db, Dir(), session, input, criadoEm, faults);
      if WellFormed(db) {
        SubmitKeepsWellFormed(db, Dir(), session, input, criadoEm, faults);
      }

      var usuarioId := Attribute(session);
      var frentista := Resolve(session, input.frentistaId);
      if frentista.Failure? {
        return Rejected(frentista.error);
      }
      var f := frentista.value;

      // Lines 409-431: the envelope, seeded with this operator's totals.
      var got := GetOrCreate(input.data, input.turnoId, usuarioId, Informed(input), input.encerrante,
                             input.postoId, faults.envelopeInsert);
      if got.Failure? {
        return Rejected(Remote(got.error));
      }
      assert Snapshot() == db.(envelopes := envelopes);
      o := Record(got.value.id, f.id, input, criadoEm, faults);
    }
  }
}
