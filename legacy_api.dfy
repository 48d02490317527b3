/** The older client of lib/api.ts: its shift resolution and its closing submission, as
    functions of the same tables. `LegacyStore.Store` runs the submission in place and
    is proved equal to these functions. Where the two versions behave differently, a
    lemma here says how. */
module LegacyApi {
  import opened Wrappers
  import opened Query
  import opened Records
  import opened Turno
  import opened Fechamento

  // ---- turnoService.getCurrentTurno (lines 133-156) ----

  /** Lines 139-155 over the windows in `horario_inicio` order: the first window that
      contains `now`, else the first window, else null. No active filter, no "diário". */
  function LegacySelectTurno(turnos: seq<Turno>, now: string): (r: Option<Turno>)
    ensures r.None? <==> |turnos| == 0
    ensures r.Some? ==> r.value in turnos
    ensures (exists i :: 0 <= i < |turnos| && Contains(turnos[i], now)) ==> r.Some? && Contains(r.value, now)
  {
    match First(turnos, ContainsNow(now))
    case Some(t) => Some(t)
    case None => if |turnos| > 0 then Some(turnos[0]) else None
  }

  /** `getCurrentTurno` with the clock's hour and minute formatted as on line 136. */
  function LegacyCurrentTurno(turnos: seq<Turno>, hour: nat, minute: nat): (r: Option<Turno>)
    requires hour < 24 && minute < 60
    ensures r.None? <==> |turnos| == 0
  {
    LegacySelectTurno(turnos, ClockTime(hour, minute))
  }

  /** The first window in list order that contains `now` is the one chosen. */
  lemma LegacyFirstMatch(turnos: seq<Turno>, now: string, k: nat)
    requires k < |turnos| && Contains(turnos[k], now)
    requires forall j :: 0 <= j < k ==> !Contains(turnos[j], now)
    ensures LegacySelectTurno(turnos, now) == Some(turnos[k])
  {
    var r := First(turnos, ContainsNow(now));
    var k' :| 0 <= k' < |turnos| && turnos[k'] == r.value && Contains(turnos[k'], now) &&
              forall j :: 0 <= j < k' ==> !Contains(turnos[j], now);
    assert !(k' < k) && !(k < k');
  }

  /** With no window containing `now`, the first window is chosen. */
  lemma LegacyFallback(turnos: seq<Turno>, now: string)
    requires |turnos| > 0
    requires forall j :: 0 <= j < |turnos| ==> !Contains(turnos[j], now)
    ensures LegacySelectTurno(turnos, now) == Some(turnos[0])
  {
  }

  /** When every window is active and one contains `now`, both versions choose the same. */
  lemma LegacyAgreesOnMatch(turnos: seq<Turno>, now: string)
    requires forall i :: 0 <= i < |turnos| ==> turnos[i].ativo != Some(false)
    requires exists i :: 0 <= i < |turnos| && Contains(turnos[i], now)
    ensures SelectTurno(turnos, now) == LegacySelectTurno(turnos, now)
  {
    WhereAll(turnos, IsActive());
    assert SearchList(turnos) == turnos;
  }

  /** The versions differ when nothing matches and the second window is the "diário" one:
      the current version falls back to it, the older one to the first window. */
  lemma DiarioFallbackDiffers(turnos: seq<Turno>, now: string)
    requires |turnos| >= 2
    requires forall i :: 0 <= i < |turnos| ==> turnos[i].ativo != Some(false)
    requires forall i :: 0 <= i < |turnos| ==> !Contains(turnos[i], now)
    requires ToLower(turnos[0].nome) != Diario && ToLower(turnos[1].nome) == Diario
    ensures SelectTurno(turnos, now) == Some(turnos[1])
    ensures LegacySelectTurno(turnos, now) == Some(turnos[0])
  {
    WhereAll(turnos, IsActive());
    assert SearchList(turnos) == turnos;
    SelectTurnoFallback(turnos, now);
    var r := SelectTurno(turnos, now).value;
    var k :| 0 <= k < |turnos| && turnos[k] == r &&
             forall j :: 0 <= j < k ==> ToLower(turnos[j].nome) != Diario;
    assert !(k < 1) && !(1 < k);
  }

  /** The versions differ when the first window is inactive but contains `now` and an
      active window exists: the older one picks the inactive window, the current one
      never does. */
  lemma InactiveMatchDiffers(turnos: seq<Turno>, now: string)
    requires |turnos| >= 2 && turnos[0].ativo == Some(false) && Contains(turnos[0], now)
    requires turnos[1].ativo != Some(false)
    ensures LegacySelectTurno(turnos, now) == Some(turnos[0])
    ensures SelectTurno(turnos, now).Some? && SelectTurno(turnos, now).value.ativo != Some(false)
    ensures SelectTurno(turnos, now) != LegacySelectTurno(turnos, now)
  {
    LegacyFirstMatch(turnos, now, 0);
    var search := SearchList(turnos);
    assert search[0] in search;
  }

  // ---- The closing submission (lines 166-384) ----

  /** The older `SubmitClosingData`: one card amount, no station, no operator choice. */
  datatype LegacyInput = LegacyInput(
    data: string,
    turnoId: int,
    cartao: int,
    nota: int,
    pix: int,
    dinheiro: int,
    faltaCaixa: int,
    observacoes: string)

  /** Lines 319-323: the declared total. */
  function LegacyTotal(input: LegacyInput): int
  {
    input.cartao + input.nota + input.pix + input.dinheiro
  }

  /** At most one envelope per (data, turno_id), the key of the older search. */
  ghost predicate UniqueDateTurno(envelopes: seq<Envelope>)
  {
    forall d, t :: |Where(envelopes, DateTurnoIs(d, t))| <= 1
  }

  /** `fechamentoService.getOrCreate` (lines 166-205): keyed by date and shift only; the
      new envelope has no station. */
  function LegacyGetOrCreate(envelopes: seq<Envelope>, data: string, turnoId: int, usuarioId: int,
                             totalRecebido: int, totalVendas: int, insertFails: bool)
    : (r: (seq<Envelope>, Result<Envelope, Step>))
    ensures r.1.Success? ==> r.1.value in r.0 && r.1.value.data == data && r.1.value.turnoId == turnoId
    ensures r.1.Failure? ==> r.0 == envelopes && r.1.error == EnvelopeInsert
    ensures r.0 == envelopes || (r.1.Success? && r.0 == envelopes + [r.1.value])
  {
    var found := Where(envelopes, DateTurnoIs(data, turnoId));
    if |found| == 1 then (envelopes, Success(found[0]))
    else if insertFails then (envelopes, Failure(EnvelopeInsert))
    else
      var created := Envelope(|envelopes| + 1, data, turnoId, None, Some(usuarioId), Fechado,
                              Some(totalRecebido), Some(totalVendas), Some(totalRecebido - totalVendas), None);
      (envelopes + [created], Success(created))
  }

  /** getOrCreate keeps the numbering and at most one envelope per (data, turno_id), and
      afterwards the caller's key has exactly the envelope returned; a new envelope is
      numbered next, has status FECHADO and difference received minus sales. */
  lemma LegacyGetOrCreateKeepsKeysUnique(envelopes: seq<Envelope>, data: string, turnoId: int, usuarioId: int,
                                         totalRecebido: int, totalVendas: int, insertFails: bool)
    requires IdsArePositions(envelopes) && UniqueDateTurno(envelopes)
    ensures var r := LegacyGetOrCreate(envelopes, data, turnoId, usuarioId, totalRecebido, totalVendas, insertFails);
            && IdsArePositions(r.0) && UniqueDateTurno(r.0)
            && (r.1.Success? ==> Where(r.0, DateTurnoIs(data, turnoId)) == [r.1.value])
            && (r.0 != envelopes ==>
                  var e := r.1.value;
                  e.id == |envelopes| + 1 && e.status == Fechado && e.usuarioId == Some(usuarioId) &&
                  e.totalRecebido == Some(totalRecebido) && e.totalVendas == Some(totalVendas) &&
                  e.diferenca == Some(totalRecebido - totalVendas))
  {
    var r := LegacyGetOrCreate(envelopes, data, turnoId, usuarioId, totalRecebido, totalVendas, insertFails);
    var key := DateTurnoIs(data, turnoId);
    if r.0 != envelopes {
      var e := r.1.value;
      assert |Where(envelopes, key)| == 0;
      forall d, t ensures |Where(r.0, DateTurnoIs(d, t))| <= 1 {
        WhereAppend(envelopes, e, DateTurnoIs(d, t));
      }
      WhereAppend(envelopes, e, key);
    } else if r.1.Success? {
      assert |Where(envelopes, key)| == 1;
    }
  }

  /** `fechamentoService.updateTotals` (lines 210-232): overwrites the totals with the values
      given, sets the difference and status FECHADO. */
  function LegacyUpdateTotals(envelopes: seq<Envelope>, fechamentoId: int, totalRecebido: int,
                              totalVendas: int, observacoes: Option<string>, fails: bool)
    : (r: Result<seq<Envelope>, Step>)
    ensures r.Failure? <==> fails
    ensures r.Success? ==> |r.value| == |envelopes|
  {
    if fails then Failure(EnvelopeUpdate)
    else Success(SetTotals(envelopes, fechamentoId, totalRecebido, totalVendas, observacoes))
  }

  /** Lines 349-359: the operator's line. The checked value is the declared total minus the
      shortfall; an empty note is left out. */
  function LegacyLine(id: nat, input: LegacyInput, fechamentoId: nat, frentistaId: int): Line
  {
    Line(id, fechamentoId, frentistaId, Some(input.cartao), None, None, Some(input.nota), Some(input.pix),
         Some(input.dinheiro), None, Some(LegacyTotal(input) - input.faltaCaixa), None, None,
         if input.observacoes != "" then Some(input.observacoes) else None, None)
  }

  /** Lines 336-369, once the envelope is known: refuse a second line for the operator,
      insert the line, overwrite the envelope's totals with this submission's. */
  function LegacyRecord(db: Db, fechamentoId: nat, frentistaId: int, input: LegacyInput, faults: Faults)
    : (r: (Db, Outcome))
    ensures r.1 == Rejected(AlreadyClosed) <==> LineExists(db.lines, fechamentoId, frentistaId)
    ensures r.0.notes == db.notes
  {
    if LineExists(db.lines, fechamentoId, frentistaId) then (db, Rejected(AlreadyClosed))
    else if faults.lineInsert then (db, Rejected(Remote(LineInsert)))
    else
      var lines := db.lines + [LegacyLine(|db.lines| + 1, input, fechamentoId, frentistaId)];
      match LegacyUpdateTotals(db.envelopes, fechamentoId, LegacyTotal(input), 0, Some(input.observacoes),
                               faults.envelopeUpdate)
      case Failure(step) => (db.(lines := lines), Rejected(Remote(step)))
      case Success(envelopes) => (db.(envelopes := envelopes, lines := lines), Submitted(fechamentoId))
  }

  /** Lines 328-334: find or open the envelope, seeded with received = sales = the total. */
  function LegacySubmitFor(db: Db, usuarioId: int, frentistaId: int, input: LegacyInput, faults: Faults)
    : (r: (Db, Outcome))
  {
    var got := LegacyGetOrCreate(db.envelopes, input.data, input.turnoId, usuarioId,
                                 LegacyTotal(input), LegacyTotal(input), faults.envelopeInsert);
    match got.1
    case Failure(step) => (db.(envelopes := got.0), Rejected(Remote(step)))
    case Success(env) => LegacyRecord(db.(envelopes := got.0), env.id, frentistaId, input, faults)
  }

  /** The profile and the operator of the signed-in identity (lines 288-316): both must
      exist, and the operator must be active. */
  function LegacyResolve(dir: Directory, session: Option<AuthUser>): (r: Result<(Usuario, Frentista), Reason>)
    ensures r.Failure? <==> session.None? ||
                            (session.value.email.Some? ==> ProfileByEmail(dir.usuarios, session.value.email.value).None?) ||
                            ActiveByUserId(dir.frentistas, session.value.id).None?
    ensures session.None? ==> r == Failure(NotAuthenticated)
    ensures r == Failure(ProfileNotFound) <==>
              session.Some? && (session.value.email.Some? ==> ProfileByEmail(dir.usuarios, session.value.email.value).None?)
    ensures r == Failure(FrentistaNotFound) <==>
              && session.Some? && session.value.email.Some?
              && ProfileByEmail(dir.usuarios, session.value.email.value).Some?
              && ActiveByUserId(dir.frentistas, session.value.id).None?
    ensures r.Success? ==> && r.value.0 in dir.usuarios && Some(r.value.0.email) == session.value.email
                           && r.value.1 in dir.frentistas
                           && r.value.1.ativo && r.value.1.userId == Some(session.value.id)
  {
    if session.None? then Failure(NotAuthenticated)
    else
      var email := session.value.email;
      var usuario := if email.Some? then ProfileByEmail(dir.usuarios, email.value) else None;
      if usuario.None? then Failure(ProfileNotFound)
      else
        match ActiveByUserId(dir.frentistas, session.value.id)
        case None => Failure(FrentistaNotFound)
        case Some(f) => Success((usuario.value, f))
  }

  /** When one profile has the session's e-mail and one active operator is linked to the
      identity, those two are the pair resolved. */
  lemma LegacyResolveFinds(dir: Directory, user: AuthUser, i: nat, j: nat)
    requires user.email.Some? && i < |dir.usuarios| && dir.usuarios[i].email == user.email.value
    requires forall k :: 0 <= k < |dir.usuarios| && k != i ==> dir.usuarios[k].email != user.email.value
    requires j < |dir.frentistas| && dir.frentistas[j].ativo && dir.frentistas[j].userId == Some(user.id)
    requires forall k :: 0 <= k < |dir.frentistas| && k != j ==>
               !(dir.frentistas[k].ativo && dir.frentistas[k].userId == Some(user.id))
    ensures LegacyResolve(dir, Some(user)) == Success((dir.usuarios[i], dir.frentistas[j]))
  {
    ProfileByEmailFinds(dir.usuarios, user.email.value, i);
    ActiveByUserIdFinds(dir.frentistas, user.id, j);
  }

  /** The older `submitMobileClosing` (lines 283-384). */
  function LegacySubmit(db: Db, dir: Directory, session: Option<AuthUser>, input: LegacyInput, faults: Faults)
    : (r: (Db, Outcome))
  {
    match LegacyResolve(dir, session)
    case Failure(reason) => (db, Rejected(reason))
    case Success(found) => LegacySubmitFor(db, found.0.id, found.1.id, input, faults)
  }

  // ---- What the older submission keeps and does ----

  /** The answers given before anything is written. */
  predicate LegacyEarlyRejection(o: Outcome)
  {
    || o == Rejected(NotAuthenticated) || o == Rejected(ProfileNotFound) || o == Rejected(FrentistaNotFound)
    || o == Rejected(AlreadyClosed) || o == Rejected(Remote(EnvelopeInsert))
  }

  predicate LegacyUnchangedOnEarlyRejection(r: (Db, Outcome), db: Db)
  {
    LegacyEarlyRejection(r.1) ==> r.0 == db
  }

  lemma LegacySubmitResolved(db: Db, dir: Directory, session: Option<AuthUser>, input: LegacyInput, faults: Faults)
    ensures var rs := LegacyResolve(dir, session);
            && (rs.Failure? ==> LegacySubmit(db, dir, session, input, faults) == (db, Rejected(rs.error)))
            && (rs.Success? ==>
                  LegacySubmit(db, dir, session, input, faults)
                  == LegacySubmitFor(db, rs.value.0.id, rs.value.1.id, input, faults))
  {
  }

  lemma LegacyRecordRejects(db: Db, id: nat, frentistaId: int, input: LegacyInput, faults: Faults)
    ensures var r := LegacyRecord(db, id, frentistaId, input, faults);
            && LegacyUnchangedOnEarlyRejection(r, db)
            && (LegacyEarlyRejection(r.1) ==> LineExists(db.lines, id, frentistaId))
  {
  }

  lemma LegacySubmitForRejects(db: Db, usuarioId: int, frentistaId: int, input: LegacyInput, faults: Faults)
    requires WellFormed(db)
    ensures LegacyUnchangedOnEarlyRejection(LegacySubmitFor(db, usuarioId, frentistaId, input, faults), db)
  {
    var got := LegacyGetOrCreate(db.envelopes, input.data, input.turnoId, usuarioId,
                                 LegacyTotal(input), LegacyTotal(input), faults.envelopeInsert);
    var db1 := db.(envelopes := got.0);
    if got.0 == db.envelopes {
      assert db1 == db;
      if got.1.Success? {
        LegacyRecordRejects(db, got.1.value.id, frentistaId, input, faults);
      }
    } else {
      // A new envelope has an id no line refers to yet.
      var id := got.1.value.id;
      assert id == |db.envelopes| + 1;
      NewEnvelopeHasNoLines(db, id);
      LineExistsIffAny(db.lines, id, frentistaId);
      LegacyRecordRejects(db1, id, frentistaId, input, faults);
    }
  }

  /** No signed-in identity, no profile for its e-mail, no active operator for it, a
      duplicate line or a failed envelope insert: the answer comes before any write. */
  lemma LegacyRejectsWithoutWriting(db: Db, dir: Directory, session: Option<AuthUser>, input: LegacyInput,
                                    faults: Faults)
    requires WellFormed(db)
    ensures LegacyUnchangedOnEarlyRejection(LegacySubmit(db, dir, session, input, faults), db)
    ensures session.None? ==> LegacySubmit(db, dir, session, input, faults) == (db, Rejected(NotAuthenticated))
  {
    LegacySubmitResolved(db, dir, session, input, faults);
    var rs := LegacyResolve(dir, session);
    if rs.Success? {
      LegacySubmitForRejects(db, rs.value.0.id, rs.value.1.id, input, faults);
    }
  }

  /** What a successful older submission writes into envelope `id`: the operator's line
      (card, note, PIX and cash as sent, checked value = total - shortfall), for an
      operator without a line there; the envelope, found by date and shift, is overwritten
      with received = this total, sales = 0, difference = this total, status FECHADO,
      whatever the other operators' lines hold; no other envelope changes. */
  ghost predicate LegacyWrote(before: Db, after: Db, id: nat, frentistaId: int, input: LegacyInput)
  {
    && 1 <= id <= |after.envelopes|
    && |before.envelopes| <= |after.envelopes| <= |before.envelopes| + 1
    && !LineExists(before.lines, id, frentistaId)
    && after.lines == before.lines + [LegacyLine(|before.lines| + 1, input, id, frentistaId)]
    && after.notes == before.notes
    && (forall i :: 0 <= i < |before.envelopes| && i != id - 1 ==> after.envelopes[i] == before.envelopes[i])
    && LegacyOverwritten(after.envelopes[id - 1], id, input)
  }

  /** Envelope `id` holds this submission's totals only. */
  predicate LegacyOverwritten(e: Envelope, id: nat, input: LegacyInput)
  {
    && e.id == id && e.data == input.data && e.turnoId == input.turnoId
    && e.totalRecebido == Some(LegacyTotal(input)) && e.totalVendas == Some(0)
    && e.diferenca == Some(LegacyTotal(input)) && e.status == Fechado
    && e.observacoes == Some(input.observacoes)
  }

  lemma LegacyRecordWrites(db: Db, id: nat, frentistaId: int, input: LegacyInput, faults: Faults)
    requires IdsArePositions(db.envelopes) && 1 <= id <= |db.envelopes|
    requires db.envelopes[id - 1].data == input.data && db.envelopes[id - 1].turnoId == input.turnoId
    requires LegacyRecord(db, id, frentistaId, input, faults).1.Submitted?
    ensures LegacyWrote(db, LegacyRecord(db, id, frentistaId, input, faults).0, id, frentistaId, input)
  {
    var r := LegacyRecord(db, id, frentistaId, input, faults).0;
    assert r.envelopes[id - 1] == Totalled(db.envelopes[id - 1], LegacyTotal(input), 0, Some(input.observacoes));
  }

  lemma LegacySubmitForWrites(db: Db, usuarioId: int, frentistaId: int, input: LegacyInput, faults: Faults)
    requires IdsArePositions(db.envelopes)
    requires LegacySubmitFor(db, usuarioId, frentistaId, input, faults).1.Submitted?
    ensures var r := LegacySubmitFor(db, usuarioId, frentistaId, input, faults);
            LegacyWrote(db, r.0, r.1.fechamentoId, frentistaId, input)
  {
    var got := LegacyGetOrCreate(db.envelopes, input.data, input.turnoId, usuarioId,
                                 LegacyTotal(input), LegacyTotal(input), faults.envelopeInsert);
    assert got.1.Success?;
    var e := got.1.value;
    var i :| 0 <= i < |got.0| && got.0[i] == e;
    assert IdsArePositions(got.0);
    var db1 := db.(envelopes := got.0);
    assert LegacySubmitFor(db, usuarioId, frentistaId, input, faults)
        == LegacyRecord(db1, e.id, frentistaId, input, faults);
    LegacyRecordWrites(db1, e.id, frentistaId, input, faults);
  }

  /** A successful older submission writes the operator's line and overwrites its
      envelope's totals with this submission's alone. */
  lemma LegacySuccessWrites(db: Db, dir: Directory, session: Option<AuthUser>, input: LegacyInput, faults: Faults)
    requires IdsArePositions(db.envelopes)
    requires LegacySubmit(db, dir, session, input, faults).1.Submitted?
    ensures var r := LegacySubmit(db, dir, session, input, faults);
            var rs := LegacyResolve(dir, session);
            && rs.Success?
            && LegacyWrote(db, r.0, r.1.fechamentoId, rs.value.1.id, input)
  {
    LegacySubmitResolved(db, dir, session, input, faults);
    var rs := LegacyResolve(dir, session);
    LegacySubmitForWrites(db, rs.value.0.id, rs.value.1.id, input, faults);
  }

  /** The older submission keeps the store well formed and keeps at most one envelope per
      (data, turno_id). */
  lemma LegacyKeepsWellFormed(db: Db, dir: Directory, session: Option<AuthUser>, input: LegacyInput, faults: Faults)
    requires WellFormed(db)
    ensures var r := LegacySubmit(db, dir, session, input, faults).0;
            && WellFormed(r)
            && (UniqueDateTurno(db.envelopes) ==> UniqueDateTurno(r.envelopes))
  {
    LegacySubmitResolved(db, dir, session, input, faults);
    var rs := LegacyResolve(dir, session);
    if rs.Success? {
      var got := LegacyGetOrCreate(db.envelopes, input.data, input.turnoId, rs.value.0.id,
                                   LegacyTotal(input), LegacyTotal(input), faults.envelopeInsert);
      var db1 := db.(envelopes := got.0);
      assert IdsArePositions(got.0) by {
        if got.0 != db.envelopes {
          assert got.1.value.id == |db.envelopes| + 1;
        }
      }
      if UniqueDateTurno(db.envelopes) {
        LegacyGetOrCreateKeepsKeysUnique(db.envelopes, input.data, input.turnoId, rs.value.0.id,
                                         LegacyTotal(input), LegacyTotal(input), faults.envelopeInsert);
      }
      ReplaceEnvelopesKeepsWellFormed(db, got.0);
      if got.1.Success? {
        LegacyRecordKeepsWellFormed(db1, got.1.value.id, rs.value.1.id, input, faults);
      }
    }
  }

  lemma LegacyRecordKeepsWellFormed(db: Db, id: nat, frentistaId: int, input: LegacyInput, faults: Faults)
    requires WellFormed(db)
    requires exists i :: 0 <= i < |db.envelopes| && db.envelopes[i].id == id
    ensures var r := LegacyRecord(db, id, frentistaId, input, faults).0;
            && WellFormed(r)
            && (UniqueDateTurno(db.envelopes) ==> UniqueDateTurno(r.envelopes))
  {
    var r := LegacyRecord(db, id, frentistaId, input, faults).0;
    var db2 := db.(lines := r.lines);
    if r.lines != db.lines {
      AppendLineKeepsWellFormed(db, LegacyLine(|db.lines| + 1, input, id, frentistaId));
    }
    assert WellFormed(db2);
    if r.envelopes != db.envelopes {
      LegacyUpdateTotalsKeepsInvariants(db.envelopes, id, LegacyTotal(input), 0, Some(input.observacoes),
                                        faults.envelopeUpdate);
      ReplaceEnvelopesKeepsWellFormed(db2, r.envelopes);
    }
    assert r == Db(r.envelopes, db2.lines, r.notes);
  }

  /** Overwriting one envelope's totals keeps ids as positions and keeps at most one
      envelope per (data, turno). */
  lemma LegacyUpdateTotalsKeepsInvariants(envelopes: seq<Envelope>, fechamentoId: int, totalRecebido: int,
                                          totalVendas: int, observacoes: Option<string>, fails: bool)
    requires LegacyUpdateTotals(envelopes, fechamentoId, totalRecebido, totalVendas, observacoes, fails).Success?
    ensures var r := LegacyUpdateTotals(envelopes, fechamentoId, totalRecebido, totalVendas, observacoes, fails).value;
            && (IdsArePositions(envelopes) ==> IdsArePositions(r))
            && (UniqueDateTurno(envelopes) ==> UniqueDateTurno(r))
  {
    var r := LegacyUpdateTotals(envelopes, fechamentoId, totalRecebido, totalVendas, observacoes, fails).value;
    if UniqueDateTurno(envelopes) {
      forall d, t ensures |Where(r, DateTurnoIs(d, t))| <= 1 {
        WhereSameCount(envelopes, r, DateTurnoIs(d, t));
      }
    }
  }

  /** Two operators closing the same envelope one after the other: the envelope ends with
      the second operator's total alone, so unless the first declared nothing, the first
      operator's money is no longer in the received total. The current version keeps the
      sum (`Fechamento.TwoSubmissionsAccumulate`). */
  lemma LegacySecondOverwritesFirst(db: Db, dir: Directory, session1: Option<AuthUser>, input1: LegacyInput,
                                    session2: Option<AuthUser>, input2: LegacyInput, faults: Faults)
    requires WellFormed(db)
    requires LegacySubmit(db, dir, session1, input1, faults).1.Submitted?
    requires LegacySubmit(LegacySubmit(db, dir, session1, input1, faults).0, dir, session2, input2, faults).1
             == LegacySubmit(db, dir, session1, input1, faults).1
    ensures var r1 := LegacySubmit(db, dir, session1, input1, faults);
            var r2 := LegacySubmit(r1.0, dir, session2, input2, faults);
            var id := r1.1.fechamentoId;
            && LegacyOverwritten(r2.0.envelopes[id - 1], id, input2)
            && (LegacyTotal(input1) != 0 ==>
                  r2.0.envelopes[id - 1].totalRecebido != Some(LegacyTotal(input1) + LegacyTotal(input2)))
  {
    var r1 := LegacySubmit(db, dir, session1, input1, faults);
    LegacyKeepsWellFormed(db, dir, session1, input1, faults);
    LegacySuccessWrites(r1.0, dir, session2, input2, faults);
  }
}
