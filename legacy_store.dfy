/** The tables as the older client of lib/api.ts changes them: envelopes and operator
    lines (this version writes no deferred-sale rows). Each method runs the steps of one
    call in place and is proved equal to the function of `LegacyApi` that specifies it. */
module LegacyStore {
  import opened Wrappers
  import opened Query
  import opened Records
  import opened Fechamento
  import opened LegacyApi

  class Store {
    var envelopes: seq<Envelope>
    var lines: seq<Line>
    const usuarios: seq<Usuario>
    const frentistas: seq<Frentista>

    function Snapshot(): Db
      reads this
    {
      Db(envelopes, lines, [])
    }

    function Dir(): Directory
    {
      Directory(usuarios, frentistas)
    }

    constructor (envelopes: seq<Envelope>, lines: seq<Line>, dir: Directory)
      ensures Snapshot() == Db(envelopes, lines, []) && Dir() == dir
    {
      this.envelopes, this.lines := envelopes, lines;
      usuarios, frentistas := dir.usuarios, dir.frentistas;
    }

    /** `fechamentoService.getOrCreate` (lines 166-205). */
    method GetOrCreate(data: string, turnoId: int, usuarioId: int, totalRecebido: int, totalVendas: int,
                       insertFails: bool) returns (r: Result<Envelope, Step>)
      modifies this`envelopes
      ensures (envelopes, r) == LegacyGetOrCreate(old(envelopes), data, turnoId, usuarioId,
                                                  totalRecebido, totalVendas, insertFails)
      ensures IdsArePositions(old(envelopes)) && UniqueDateTurno(old(envelopes)) ==>
                IdsArePositions(envelopes) && UniqueDateTurno(envelopes)
    {
      ghost var before := envelopes;
      var existing := Single(Where(envelopes, DateTurnoIs(data, turnoId)));
      if existing.Some? {
        r := Success(existing.value);
      } else if insertFails {
        r := Failure(EnvelopeInsert);
      } else {
        var created := Envelope(|envelopes| + 1, data, turnoId, None, Some(usuarioId), Fechado,
                                Some(totalRecebido), Some(totalVendas), Some(totalRecebido - totalVendas), None);
        envelopes := envelopes + [created];
        r := Success(created);
      }
      if IdsArePositions(before) && UniqueDateTurno(before) {
        LegacyGetOrCreateKeepsKeysUnique(before, data, turnoId, usuarioId, totalRecebido, totalVendas, insertFails);
      }
    }

    /** `fechamentoService.updateTotals` (lines 210-232): `None` when it returns, the
        failing step when it throws. */
    method UpdateTotals(fechamentoId: int, totalRecebido: int, totalVendas: int, observacoes: Option<string>,
                        fails: bool) returns (err: Option<Step>)
      modifies this`envelopes
      ensures match LegacyUpdateTotals(old(envelopes), fechamentoId, totalRecebido, totalVendas, observacoes, fails)
              case Success(updated) => err.None? && envelopes == updated
              case Failure(step) => err == Some(step) && envelopes == old(envelopes)
    {
      if fails {
        return Some(EnvelopeUpdate);
      }
      envelopes := SetTotals(envelopes, fechamentoId, totalRecebido, totalVendas, observacoes);
      err := None;
    }

    /** `fechamentoFrentistaService.create` (lines 242-263): the row is stored under the
        next id. */
    method Create(row: Line, fails: bool) returns (r: Result<Line, Step>)
      modifies this`lines
      ensures fails ==> r == Failure(LineInsert) && lines == old(lines)
      ensures !fails ==> r == Success(row.(id := |old(lines)| + 1)) && lines == old(lines) + [r.value]
    {
      if fails {
        return Failure(LineInsert);
      }
      var created := row.(id := |lines| + 1);
      lines := lines + [created];
      r := Success(created);
    }

    /** `fechamentoFrentistaService.exists` (lines 268-277): true when exactly one line has
        the key. */
    method Exists(fechamentoId: int, frentistaId: int) returns (b: bool)
      ensures b <==> LineExists(lines, fechamentoId, frentistaId)
      ensures UniqueLines(lines) ==>
                (b <==> exists i :: 0 <= i < |lines| && lines[i].fechamentoId == fechamentoId &&
                                    lines[i].frentistaId == frentistaId)
    {
      var found := Single(Where(lines, LineKeyIs(fechamentoId, frentistaId)));
      b := found.Some?;
      if UniqueLines(lines) {
        LineExistsIffAny(lines, fechamentoId, frentistaId);
      }
    }

    /** Lines 288-316: the signed-in identity, its profile and its active operator. */
    method Resolve(session: Option<AuthUser>) returns (r: Result<(Usuario, Frentista), Reason>)
      ensures r == LegacyResolve(Dir(), session)
    {
      if session.None? {
        return Failure(NotAuthenticated);
      }
      var user := session.value;
      var usuario: Option<Usuario> := None;
      if user.email.Some? {
        usuario := ProfileByEmail(usuarios, user.email.value);
      }
      if usuario.None? {
        return Failure(ProfileNotFound);
      }
      var frentista := ActiveByUserId(frentistas, user.id);
      if frentista.None? {
        return Failure(FrentistaNotFound);
      }
      r := Success((usuario.value, frentista.value));
    }

    /** Lines 336-369, once the envelope `id` is known. */
    method Record(id: nat, frentistaId: int, input: LegacyInput, faults: Faults) returns (o: Outcome)
      modifies this`lines, this`envelopes
      ensures (Snapshot(), o) == LegacyRecord(old(Snapshot()), id, frentistaId, input, faults)
    {
      // Lines 336-347: one line per operator and envelope.
      var already := Exists(id, frentistaId);
      if already {
        return Rejected(AlreadyClosed);
      }
      ghost var db := Snapshot();

      // Lines 349-359: the operator's line.
      var created := Create(LegacyLine(0, input, id, frentistaId), faults.lineInsert);
      if created.Failure? {
        return Rejected(Remote(LineInsert));
      }
      assert lines == db.lines + [LegacyLine(|db.lines| + 1, input, id, frentistaId)];

      // Lines 361-369: the envelope's totals are overwritten with this submission's.
      var err := UpdateTotals(id, LegacyTotal(input), 0, Some(input.observacoes), faults.envelopeUpdate);
      if err.Some? {
        return Rejected(Remote(err.value));
      }
      o := Submitted(id);
    }

    /** The older `submitMobileClosing` (lines 283-384). */
    method SubmitMobileClosing(session: Option<AuthUser>, input: LegacyInput, faults: Faults) returns (o: Outcome)
      modifies this
      ensures (Snapshot(), o) == LegacySubmit(old(Snapshot()), Dir(), session, input, faults)
      ensures WellFormed(old(Snapshot())) ==> WellFormed(Snapshot())
    {
      ghost var db := Snapshot();
      LegacySubmitResolved(db, Dir(), session, input, faults);
      if WellFormed(db) {
        LegacyKeepsWellFormed(db, Dir(), session, input, faults);
      }

      var found := Resolve(session);
      if found.Failure? {
        return Rejected(found.error);
      }
      var (usuario, frentista) := found.value;

      // Lines 318-334: the envelope, seeded with received = sales = the declared total.
      var total := LegacyTotal(input);
      var got := GetOrCreate(input.data, input.turnoId, usuario.id, total, total, faults.envelopeInsert);
      if got.Failure? {
        return Rejected(Remote(got.error));
      }
      assert Snapshot() == db.(envelopes := envelopes);
      o := Record(got.value.id, frentista.id, input, faults);
    }
  }
}
