/** The closing-submission protocol of services/fechamento.ts as functions of the
    tables it writes. `FechamentoStore.Store` runs the same steps in place and is
    proved equal to these functions; the lemmas here state what the protocol keeps
    and what one submission does. */
module Fechamento {
  import opened Wrappers
  import opened Query
  import opened Records

  /** The tables the protocol writes: `Fechamento`, `FechamentoFrentista`, `NotaPrazo`. */
  datatype Db = Db(envelopes: seq<Envelope>, lines: seq<Line>, notes: seq<Note>)

  /** A deferred-sale item of a submission. */
  datatype NotaInput = NotaInput(clienteId: int, valor: int)

  /** `SubmitClosingData`: what the closing form sends. Amounts are in cents. */
  datatype ClosingInput = ClosingInput(
    data: string,
    turnoId: int,
    debito: int,
    credito: int,
    nota: int,
    pix: int,
    dinheiro: int,
    moedas: int,
    encerrante: int,
    faltaCaixa: int,
    observacoes: string,
    postoId: int,
    frentistaId: Option<int>,
    notas: seq<NotaInput>)

  // ---- Keys and invariants ----

  /** Rows are numbered 1, 2, ... in insertion order (the core never deletes). */
  ghost predicate IdsArePositions(envelopes: seq<Envelope>)
  {
    forall i :: 0 <= i < |envelopes| ==> envelopes[i].id == i + 1
  }

  ghost predicate LineIdsArePositions(lines: seq<Line>)
  {
    forall i :: 0 <= i < |lines| ==> lines[i].id == i + 1
  }

  function EnvelopeKeyIs(data: string, turnoId: int, postoId: Option<int>): Envelope -> bool
  {
    (e: Envelope) => e.data == data && e.turnoId == turnoId && e.postoId == postoId
  }

  function DateTurnoIs(data: string, turnoId: int): Envelope -> bool
  {
    (e: Envelope) => e.data == data && e.turnoId == turnoId
  }

  function IdIs(id: int): Envelope -> bool
  {
    (e: Envelope) => e.id == id
  }

  function LineOf(fechamentoId: int): Line -> bool
  {
    (l: Line) => l.fechamentoId == fechamentoId
  }

  function LineKeyIs(fechamentoId: int, frentistaId: int): Line -> bool
  {
    (l: Line) => l.fechamentoId == fechamentoId && l.frentistaId == frentistaId
  }

  /** At most one envelope per (data, turno_id, posto_id). */
  ghost predicate UniqueEnvelopeKeys(envelopes: seq<Envelope>)
  {
    forall d, t, p :: |Where(envelopes, EnvelopeKeyIs(d, t, p))| <= 1
  }

  /** At most one line per (envelope, operator). */
  ghost predicate UniqueLines(lines: seq<Line>)
  {
    forall e, f :: |Where(lines, LineKeyIs(e, f))| <= 1
  }

  ghost predicate WellFormed(db: Db)
  {
    && IdsArePositions(db.envelopes)
    && LineIdsArePositions(db.lines)
    && (forall i :: 0 <= i < |db.lines| ==> 1 <= db.lines[i].fechamentoId <= |db.envelopes|)
    && UniqueLines(db.lines)
  }

  /** Under numbering by position, the lookup by id finds the row at `id - 1`. */
  lemma {:induction false} LookupById(envelopes: seq<Envelope>, id: int)
    requires IdsArePositions(envelopes)
    ensures Where(envelopes, IdIs(id)) == if 1 <= id <= |envelopes| then [envelopes[id - 1]] else []
  {
    if envelopes != [] {
      var n := |envelopes|;
      var init, last := envelopes[..n - 1], envelopes[n - 1];
      assert IdsArePositions(init);
      LookupById(init, id);
      assert envelopes == init + [last];
      WhereAppend(init, last, IdIs(id));
      assert last.id == n;
      if id == n {
        assert Where(envelopes, IdIs(id)) == [last];
      } else if 1 <= id < n {
        assert envelopes[id - 1] == init[id - 1];
        assert Where(envelopes, IdIs(id)) == [init[id - 1]];
      } else {
        assert Where(envelopes, IdIs(id)) == [];
      }
    }
  }

  // ---- getOrCreate (lines 82-128) ----

  /** Lines 91-99: the search filters on the station only when `postoId` is truthy. */
  function EnvelopeSearch(data: string, turnoId: int, postoId: int): Envelope -> bool
  {
    if postoId != 0 then EnvelopeKeyIs(data, turnoId, Some(postoId)) else DateTurnoIs(data, turnoId)
  }

  /** Lines 110-119: the row inserted when the search does not find exactly one. */
  function NewEnvelope(id: nat, data: string, turnoId: int, usuarioId: Option<int>,
                       totalRecebido: int, totalVendas: int, postoId: int): Envelope
  {
    Envelope(id, data, turnoId, Some(postoId), usuarioId, Fechado,
             Some(totalRecebido), Some(totalVendas), Some(totalRecebido - totalVendas), None)
  }

  /** `fechamentoService.getOrCreate`: the envelope table afterwards and the envelope
      returned (or the insert's error). */
  function GetOrCreateEnvelope(envelopes: seq<Envelope>, data: string, turnoId: int,
                               usuarioId: Option<int>, totalRecebido: int, totalVendas: int,
                               postoId: int, insertFails: bool): (r: (seq<Envelope>, Result<Envelope, Step>))
    ensures r.1.Success? ==> r.1.value in r.0 && r.1.value.data == data && r.1.value.turnoId == turnoId
    ensures r.1.Success? && postoId != 0 ==> r.1.value.postoId == Some(postoId)
    ensures r.1.Failure? ==> r.0 == envelopes && r.1.error == EnvelopeInsert
    ensures r.0 == envelopes || (r.1.Success? && r.0 == envelopes + [r.1.value])
  {
    var found := Where(envelopes, EnvelopeSearch(data, turnoId, postoId));
    if |found| == 1 then (envelopes, Success(found[0]))
    else if insertFails then (envelopes, Failure(EnvelopeInsert))
    else
      var created := NewEnvelope(|envelopes| + 1, data, turnoId, usuarioId, totalRecebido, totalVendas, postoId);
      (envelopes + [created], Success(created))
  }

  /** When exactly one envelope matches the search, it is returned and nothing changes;
      otherwise (and the insert succeeds) one new envelope is appended: status FECHADO,
      the seed totals, and `diferenca = totalRecebido - totalVendas`. */
  lemma GetOrCreateCases(envelopes: seq<Envelope>, data: string, turnoId: int,
                         usuarioId: Option<int>, totalRecebido: int, totalVendas: int,
                         postoId: int, insertFails: bool)
    requires IdsArePositions(envelopes)
    ensures var r := GetOrCreateEnvelope(envelopes, data, turnoId, usuarioId, totalRecebido, totalVendas, postoId, insertFails);
            var found := Where(envelopes, EnvelopeSearch(data, turnoId, postoId));
            if |found| == 1 then r == (envelopes, Success(found[0])) && found[0] in envelopes
            else if insertFails then r == (envelopes, Failure(EnvelopeInsert))
            else var e := r.1.value;
                 r.0 == envelopes + [e] && e.id == |envelopes| + 1 &&
                 (forall i :: 0 <= i < |envelopes| ==> envelopes[i].id != e.id) &&
                 e.status == Fechado && e.usuarioId == usuarioId &&
                 e.totalRecebido == Some(totalRecebido) && e.totalVendas == Some(totalVendas) &&
                 e.diferenca == Some(totalRecebido - totalVendas)
  {
  }

  /** getOrCreate keeps the numbering, and, when the caller names a station, keeps at
      most one envelope per key and leaves exactly one envelope with the caller's key. */
  lemma GetOrCreateKeepsKeysUnique(envelopes: seq<Envelope>, data: string, turnoId: int,
                                   usuarioId: Option<int>, totalRecebido: int, totalVendas: int,
                                   postoId: int, insertFails: bool)
    requires IdsArePositions(envelopes) && UniqueEnvelopeKeys(envelopes) && postoId != 0
    ensures var r := GetOrCreateEnvelope(envelopes, data, turnoId, usuarioId, totalRecebido, totalVendas, postoId, insertFails);
            && IdsArePositions(r.0) && UniqueEnvelopeKeys(r.0)
            && (r.1.Success? ==> Where(r.0, EnvelopeKeyIs(data, turnoId, Some(postoId))) == [r.1.value])
  {
    var r := GetOrCreateEnvelope(envelopes, data, turnoId, usuarioId, totalRecebido, totalVendas, postoId, insertFails);
    var key := EnvelopeKeyIs(data, turnoId, Some(postoId));
    assert EnvelopeSearch(data, turnoId, postoId) == key;
    if r.0 != envelopes {
      var e := r.1.value;
      assert |Where(envelopes, key)| == 0;
      forall d, t, p ensures |Where(r.0, EnvelopeKeyIs(d, t, p))| <= 1 {
        WhereAppend(envelopes, e, EnvelopeKeyIs(d, t, p));
      }
      WhereAppend(envelopes, e, key);
    } else if r.1.Success? {
      assert |Where(envelopes, key)| == 1;
    }
  }

  /** Without a station the search ignores `posto_id`: when two envelopes of other
      stations share the date and shift, a second envelope with station 0 appears. */
  lemma NoStationDuplicatesKey()
    ensures var e1 := NewEnvelope(1, "2024-05-01", 1, None, 0, 0, 5);
            var e2 := NewEnvelope(2, "2024-05-01", 1, None, 0, 0, 0);
            var r := GetOrCreateEnvelope([e1, e2], "2024-05-01", 1, None, 0, 0, 0, false);
            |Where([e1, e2], EnvelopeKeyIs("2024-05-01", 1, Some(0)))| == 1 &&
            |Where(r.0, EnvelopeKeyIs("2024-05-01", 1, Some(0)))| == 2
  {
    var e1 := NewEnvelope(1, "2024-05-01", 1, None, 0, 0, 5);
    var e2 := NewEnvelope(2, "2024-05-01", 1, None, 0, 0, 0);
    var key := EnvelopeKeyIs("2024-05-01", 1, Some(0));
    assert [e1, e2] == [e1] + [e2];
    WhereAppend([e1], e2, key);
    WhereAppend([e1], e2, DateTurnoIs("2024-05-01", 1));
    assert [e1] == [] + [e1];
    WhereAppend([], e1, key);
    WhereAppend([], e1, DateTurnoIs("2024-05-01", 1));
    var r := GetOrCreateEnvelope([e1, e2], "2024-05-01", 1, None, 0, 0, 0, false);
    assert r.0 == [e1, e2] + [r.1.value];
    WhereAppend([e1, e2], r.1.value, key);
  }

  // ---- updateTotals (lines 133-182) ----

  /** Lines 148-155: one line's contribution to the received total: debit, credit,
      note, PIX and cash, a null column counting 0. Coins are not counted. */
  function Received(l: Line): int
  {
    OrZero(l.debito) + OrZero(l.credito) + OrZero(l.nota) + OrZero(l.pix) + OrZero(l.dinheiro)
  }

  /** The `reduce` over the fetched lines, from 0, left to right. */
  function ReceivedSum(rows: seq<Line>): int
  {
    if rows == [] then 0 else ReceivedSum(rows[..|rows| - 1]) + Received(rows[|rows| - 1])
  }

  /** The received total of an envelope: the sum over all of its lines. */
  function EnvelopeReceived(lines: seq<Line>, fechamentoId: int): int
  {
    ReceivedSum(Where(lines, LineOf(fechamentoId)))
  }

  lemma {:induction false} ReceivedSumConcat(a: seq<Line>, b: seq<Line>)
    ensures ReceivedSum(a + b) == ReceivedSum(a) + ReceivedSum(b)
  {
    if b == [] {
      assert a + b == a;
    } else {
      var b' := b[..|b| - 1];
      assert (a + b)[..|a + b| - 1] == a + b';
      ReceivedSumConcat(a, b');
    }
  }

  /** Taking the line at `k` out of `b` takes its contribution out of the sum. */
  lemma ReceivedSumRemove(b: seq<Line>, k: nat)
    requires k < |b|
    ensures ReceivedSum(b) == ReceivedSum(b[..k] + b[k + 1..]) + Received(b[k])
  {
    assert b == b[..k] + [b[k]] + b[k + 1..];
    ReceivedSumConcat(b[..k] + [b[k]], b[k + 1..]);
    ReceivedSumConcat(b[..k], [b[k]]);
    ReceivedSumConcat(b[..k], b[k + 1..]);
    assert ReceivedSum([b[k]]) == Received(b[k]) by {
      assert [b[k]][..0] == [];
    }
  }

  /** Removing the same line from two permutations of each other leaves permutations. */
  lemma MultisetRemove<T>(a: seq<T>, x: T, b: seq<T>, k: nat)
    requires k < |b| && b[k] == x && multiset(a + [x]) == multiset(b)
    ensures multiset(a) == multiset(b[..k] + b[k + 1..])
  {
    var b' := b[..k] + b[k + 1..];
    assert b == b[..k] + [x] + b[k + 1..];
    assert multiset(a + [x]) == multiset(a) + multiset([x]);
    assert multiset(b) == multiset(b[..k]) + multiset([x]) + multiset(b[k + 1..]);
    assert multiset(b') == multiset(b[..k]) + multiset(b[k + 1..]);
    forall y ensures multiset(a)[y] == multiset(b')[y] {
      assert multiset(a + [x])[y] == multiset(b)[y];
    }
  }

  /** The sum does not depend on the order in which the store returns the lines. */
  lemma {:induction false} ReceivedSumPermutation(a: seq<Line>, b: seq<Line>)
    requires multiset(a) == multiset(b)
    ensures ReceivedSum(a) == ReceivedSum(b)
  {
    if a == [] {
      assert |b| == |multiset(b)| == 0;
    } else {
      var x := a[|a| - 1];
      var a' := a[..|a| - 1];
      assert a == a' + [x];
      assert x in multiset(b);
      var k :| 0 <= k < |b| && b[k] == x;
      MultisetRemove(a', x, b, k);
      ReceivedSumPermutation(a', b[..k] + b[k + 1..]);
      ReceivedSumRemove(b, k);
    }
  }

  /** Appending a line adds its contribution to its own envelope and to no other. */
  lemma AppendLineReceived(lines: seq<Line>, l: Line, fechamentoId: int)
    ensures EnvelopeReceived(lines + [l], fechamentoId) ==
            EnvelopeReceived(lines, fechamentoId) + (if l.fechamentoId == fechamentoId then Received(l) else 0)
  {
    WhereAppend(lines, l, LineOf(fechamentoId));
    var w := Where(lines, LineOf(fechamentoId));
    if l.fechamentoId == fechamentoId {
      assert (w + [l])[..|w + [l]| - 1] == w;
    } else {
      assert w + [] == w;
    }
  }

  /** Line 176 leaves `observacoes` alone when it is undefined. */
  function Totalled(e: Envelope, totalRecebido: int, totalVendas: int, observacoes: Option<string>): Envelope
  {
    e.(totalRecebido := Some(totalRecebido), totalVendas := Some(totalVendas),
       diferenca := Some(totalRecebido - totalVendas), status := Fechado,
       observacoes := if observacoes.Some? then observacoes else e.observacoes)
  }

  /** Lines 168-177: `update ... where id = fechamentoId`. */
  function SetTotals(envelopes: seq<Envelope>, fechamentoId: int, totalRecebido: int, totalVendas: int,
                     observacoes: Option<string>): (r: seq<Envelope>)
    ensures |r| == |envelopes|
    ensures forall i :: 0 <= i < |envelopes| ==>
              r[i] == if envelopes[i].id == fechamentoId
                      then Totalled(envelopes[i], totalRecebido, totalVendas, observacoes)
                      else envelopes[i]
  {
    seq(|envelopes|, i requires 0 <= i < |envelopes| =>
      if envelopes[i].id == fechamentoId
      then Totalled(envelopes[i], totalRecebido, totalVendas, observacoes)
      else envelopes[i])
  }

  /** Lines 159-165: `totalVendasManual || currentShift?.total_vendas || 0`; a failed read
      of the stored row leaves only the manual value or 0. */
  function SalesTotal(envelopes: seq<Envelope>, fechamentoId: int, totalVendasManual: int, readFails: bool): int
  {
    var current := if readFails then None else Single(Where(envelopes, IdIs(fechamentoId)));
    OrElse(totalVendasManual, if current.Some? then OrZero(current.value.totalVendas) else 0)
  }

  /** `fechamentoService.updateTotals`: the envelope table afterwards, or the error thrown. */
  function UpdateTotalsOf(envelopes: seq<Envelope>, lines: seq<Line>, fechamentoId: int,
                          totalVendasManual: int, observacoes: Option<string>, faults: Faults)
    : (r: Result<seq<Envelope>, Step>)
    ensures r.Failure? ==> r.error == LinesRead || r.error == EnvelopeUpdate
    ensures r.Failure? <==> faults.linesRead || faults.envelopeUpdate
    ensures r.Success? ==> |r.value| == |envelopes|
  {
    if faults.linesRead then Failure(LinesRead)
    else
      var totalRecebido := EnvelopeReceived(lines, fechamentoId);
      var totalVendas := SalesTotal(envelopes, fechamentoId, totalVendasManual, faults.envelopeRead);
      if faults.envelopeUpdate then Failure(EnvelopeUpdate)
      else Success(SetTotals(envelopes, fechamentoId, totalRecebido, totalVendas, observacoes))
  }

  /** After updateTotals the envelope's received total is the sum over all of its lines;
      its sales total is the manual value when non-zero, else the stored one (0 when null
      or unreadable); its difference is received minus sales; its status is FECHADO; and
      no other envelope changes. */
  lemma UpdateTotalsEffect(envelopes: seq<Envelope>, lines: seq<Line>, fechamentoId: int,
                           totalVendasManual: int, observacoes: Option<string>, faults: Faults)
    requires IdsArePositions(envelopes) && 1 <= fechamentoId <= |envelopes|
    requires UpdateTotalsOf(envelopes, lines, fechamentoId, totalVendasManual, observacoes, faults).Success?
    ensures var r := UpdateTotalsOf(envelopes, lines, fechamentoId, totalVendasManual, observacoes, faults).value;
            var old_ := envelopes[fechamentoId - 1];
            var e := r[fechamentoId - 1];
            var vendas := if totalVendasManual != 0 then totalVendasManual
                          else if faults.envelopeRead then 0 else OrZero(old_.totalVendas);
            && e.totalRecebido == Some(EnvelopeReceived(lines, fechamentoId))
            && e.totalVendas == Some(vendas)
            && e.diferenca == Some(EnvelopeReceived(lines, fechamentoId) - vendas)
            && e.diferenca == Some(EnvelopeReceived(lines, fechamentoId) - OrZero(e.totalVendas))
            && e.status == Fechado
            && e.id == old_.id && e.data == old_.data && e.turnoId == old_.turnoId
            && e.postoId == old_.postoId && e.usuarioId == old_.usuarioId
            && (forall i :: 0 <= i < |envelopes| && i != fechamentoId - 1 ==> r[i] == envelopes[i])
  {
    LookupById(envelopes, fechamentoId);
  }

  /** updateTotals keeps the numbering and the key of every envelope. */
  lemma UpdateTotalsKeepsInvariants(envelopes: seq<Envelope>, lines: seq<Line>, fechamentoId: int,
                                    totalVendasManual: int, observacoes: Option<string>, faults: Faults)
    requires UpdateTotalsOf(envelopes, lines, fechamentoId, totalVendasManual, observacoes, faults).Success?
    ensures var r := UpdateTotalsOf(envelopes, lines, fechamentoId, totalVendasManual, observacoes, faults).value;
            && (IdsArePositions(envelopes) ==> IdsArePositions(r))
            && (UniqueEnvelopeKeys(envelopes) ==> UniqueEnvelopeKeys(r))
  {
    var r := UpdateTotalsOf(envelopes, lines, fechamentoId, totalVendasManual, observacoes, faults).value;
    if UniqueEnvelopeKeys(envelopes) {
      forall d, t, p ensures |Where(r, EnvelopeKeyIs(d, t, p))| <= 1 {
        WhereSameCount(envelopes, r, EnvelopeKeyIs(d, t, p));
      }
    }
  }

  // ---- fechamentoFrentistaService (lines 188-269) ----

  /** `getExisting`/`exists`: a line exists when exactly one row has the key. */
  predicate LineExists(lines: seq<Line>, fechamentoId: int, frentistaId: int)
  {
    |Where(lines, LineKeyIs(fechamentoId, frentistaId))| == 1
  }

  /** With at most one line per key, `exists` answers whether any line has the key. */
  lemma LineExistsIffAny(lines: seq<Line>, fechamentoId: int, frentistaId: int)
    requires UniqueLines(lines)
    ensures LineExists(lines, fechamentoId, frentistaId) <==>
            exists i :: 0 <= i < |lines| && lines[i].fechamentoId == fechamentoId && lines[i].frentistaId == frentistaId
  {
    var key := LineKeyIs(fechamentoId, frentistaId);
    assert |Where(lines, key)| <= 1;
    WhereEmpty(lines, key);
  }

  /** Inserting a line whose key is not taken keeps at most one line per key. */
  lemma InsertLineKeepsUnique(lines: seq<Line>, l: Line)
    requires UniqueLines(lines) && !LineExists(lines, l.fechamentoId, l.frentistaId)
    ensures UniqueLines(lines + [l]) && LineExists(lines + [l], l.fechamentoId, l.frentistaId)
  {
    assert |Where(lines, LineKeyIs(l.fechamentoId, l.frentistaId))| == 0;
    forall e, f ensures |Where(lines + [l], LineKeyIs(e, f))| <= 1 {
      WhereAppend(lines, l, LineKeyIs(e, f));
    }
    WhereAppend(lines, l, LineKeyIs(l.fechamentoId, l.frentistaId));
  }

  /** The columns `fechamentoFrentistaService.update` writes; an optional one left `None`
      is omitted from the update and keeps its value. */
  datatype LinePatch = LinePatch(
    valorCartao: int,
    debito: int,
    credito: int,
    nota: int,
    pix: int,
    dinheiro: int,
    moedas: int,
    valorConferido: int,
    encerrante: Option<int>,
    diferencaCalculada: Option<int>,
    observacoes: Option<string>)

  function Patched(l: Line, p: LinePatch): Line
  {
    l.(valorCartao := Some(p.valorCartao), debito := Some(p.debito), credito := Some(p.credito),
       nota := Some(p.nota), pix := Some(p.pix), dinheiro := Some(p.dinheiro), moedas := Some(p.moedas),
       valorConferido := Some(p.valorConferido),
       encerrante := if p.encerrante.Some? then p.encerrante else l.encerrante,
       diferencaCalculada := if p.diferencaCalculada.Some? then p.diferencaCalculada else l.diferencaCalculada,
       observacoes := if p.observacoes.Some? then p.observacoes else l.observacoes)
  }

  function LineIdIs(id: int): Line -> bool
  {
    (l: Line) => l.id == id
  }

  /** `update ... where id = X`: every row with that id is patched. */
  function PatchWhere(lines: seq<Line>, id: int, p: LinePatch): (r: seq<Line>)
    ensures |r| == |lines|
    ensures forall i :: 0 <= i < |lines| ==>
              r[i] == if lines[i].id == id then Patched(lines[i], p) else lines[i]
  {
    seq(|lines|, i requires 0 <= i < |lines| =>
      if lines[i].id == id then Patched(lines[i], p) else lines[i])
  }

  /** `fechamentoFrentistaService.update` (lines 224-249): the line table afterwards and the
      updated row; an update error, or `.single()` finding other than one updated row, is
      the error thrown. */
  function UpdateLine(lines: seq<Line>, id: int, p: LinePatch, fails: bool): (r: (seq<Line>, Result<Line, Step>))
  {
    if fails then (lines, Failure(LineUpdate))
    else
      var patched := PatchWhere(lines, id, p);
      match Single(Where(patched, LineIdIs(id)))
      case Some(l) => (patched, Success(l))
      case None => (patched, Failure(LineUpdate))
  }

  /** Under numbering by position, the lookup of a line by id finds the row at `id - 1`. */
  lemma {:induction false} LookupLineById(lines: seq<Line>, id: int)
    requires LineIdsArePositions(lines)
    ensures Where(lines, LineIdIs(id)) == if 1 <= id <= |lines| then [lines[id - 1]] else []
  {
    if lines != [] {
      var init := lines[..|lines| - 1];
      assert LineIdsArePositions(init);
      LookupLineById(init, id);
    }
  }

  /** update succeeds exactly when the store answers and the id names a line; it then
      patches that line alone and returns it, keeping its id, envelope and operator;
      otherwise nothing changes. */
  lemma UpdateLineEffect(lines: seq<Line>, id: int, p: LinePatch, fails: bool)
    requires LineIdsArePositions(lines)
    ensures var r := UpdateLine(lines, id, p, fails);
            && (r.1.Success? <==> !fails && 1 <= id <= |lines|)
            && (r.1.Success? ==>
                  && r.0 == lines[id - 1 := Patched(lines[id - 1], p)]
                  && r.1.value == r.0[id - 1]
                  && r.1.value.id == id
                  && r.1.value.fechamentoId == lines[id - 1].fechamentoId
                  && r.1.value.frentistaId == lines[id - 1].frentistaId)
            && (r.1.Failure? ==> r.0 == lines && r.1.error == LineUpdate)
  {
    if !fails {
      PatchWhereAt(lines, id, p);
      LookupLineById(PatchWhere(lines, id, p), id);
    }
  }

  /** Under numbering by position, patching by id rewrites the row at `id - 1` alone and
      keeps the numbering. */
  lemma PatchWhereAt(lines: seq<Line>, id: int, p: LinePatch)
    requires LineIdsArePositions(lines)
    ensures LineIdsArePositions(PatchWhere(lines, id, p))
    ensures PatchWhere(lines, id, p) == if 1 <= id <= |lines| then lines[id - 1 := Patched(lines[id - 1], p)]
                                        else lines
  {
  }

  /** update keeps the store well formed: it changes no line's id, envelope or operator. */
  lemma UpdateLineKeepsWellFormed(db: Db, id: int, p: LinePatch, fails: bool)
    requires WellFormed(db)
    ensures WellFormed(db.(lines := UpdateLine(db.lines, id, p, fails).0))
  {
    var r := UpdateLine(db.lines, id, p, fails).0;
    UpdateLineEffect(db.lines, id, p, fails);
    assert |r| == |db.lines|;
    assert forall i :: 0 <= i < |r| ==>
             r[i].id == db.lines[i].id && r[i].fechamentoId == db.lines[i].fechamentoId &&
             r[i].frentistaId == db.lines[i].frentistaId;
    forall e, f ensures |Where(r, LineKeyIs(e, f))| <= 1 {
      WhereSameCount(db.lines, r, LineKeyIs(e, f));
    }
  }

  // ---- submitMobileClosing (lines 328-492) ----

  /** Lines 337-384: the profile id stamped on a new envelope. The signed-in user's
      profile when its id is non-zero; else the first ADMIN profile; else the first
      profile; else whatever the first step found (null, or 0). It never fails. */
  function Attribution(usuarios: seq<Usuario>, session: Option<AuthUser>): (r: Option<int>)
    ensures r.Some? ==> exists i :: 0 <= i < |usuarios| && usuarios[i].id == r.value
    ensures r.None? <==> |usuarios| == 0
  {
    var fromProfile :=
      if session.Some? && session.value.email.Some? && session.value.email.value != "" then
        match ProfileByEmail(usuarios, session.value.email.value)
        case Some(u) => Some(u.id)
        case None => None
      else None;
    if fromProfile.Some? && fromProfile.value != 0 then fromProfile
    else
      match FirstAdmin(usuarios)
      case Some(a) => Some(a.id)
      case None => if |usuarios| > 0 then Some(usuarios[0].id) else fromProfile
  }

  /** Lines 386-407: the operator the line is written for. An explicit (truthy) id must
      name an existing operator, active or not; otherwise the signed-in identity's
      active operator is used. */
  function ResolveFrentista(frentistas: seq<Frentista>, session: Option<AuthUser>, frentistaId: Option<int>)
    : (r: Result<Frentista, Reason>)
    ensures r.Success? ==> r.value in frentistas
    ensures frentistaId.Some? && frentistaId.value != 0 ==>
              (r.Success? ==> r.value.id == frentistaId.value) && (r.Failure? ==> r.error == FrentistaNotFound)
    ensures !(frentistaId.Some? && frentistaId.value != 0) ==>
              (r.Success? ==> session.Some? && r.value.ativo && r.value.userId == Some(session.value.id)) &&
              (r.Failure? ==> r.error == FrentistaNotIdentified)
  {
    if frentistaId.Some? && frentistaId.value != 0 then
      match FrentistaById(frentistas, frentistaId.value)
      case Some(f) => Success(f)
      case None => Failure(FrentistaNotFound)
    else if session.Some? then
      match ActiveByUserId(frentistas, session.value.id)
      case Some(f) => Success(f)
      case None => Failure(FrentistaNotIdentified)
    else Failure(FrentistaNotIdentified)
  }

  /** The order of preference of lines 339-376: the signed-in user's own profile when its
      id is non-zero; else the first ADMIN profile; else the first profile. */
  lemma AttributionOrder(usuarios: seq<Usuario>, session: Option<AuthUser>)
    ensures var own := if session.Some? && session.value.email.Some? && session.value.email.value != ""
                       then ProfileByEmail(usuarios, session.value.email.value) else None;
            var ownUsed := own.Some? && own.value.id != 0;
            var r := Attribution(usuarios, session);
            && (ownUsed ==> r == Some(own.value.id))
            && (!ownUsed && FirstAdmin(usuarios).Some? ==> r == Some(FirstAdmin(usuarios).value.id))
            && (!ownUsed && FirstAdmin(usuarios).None? && |usuarios| > 0 ==> r == Some(usuarios[0].id))
  {
  }

  /** Operator resolution in both directions: an explicit id resolves exactly when one
      operator has it; without one, the signed-in identity resolves exactly when one
      active operator is linked to it. */
  lemma ResolveFrentistaCases(frentistas: seq<Frentista>, session: Option<AuthUser>, frentistaId: Option<int>)
    ensures var r := ResolveFrentista(frentistas, session, frentistaId);
            && (frentistaId.Some? && frentistaId.value != 0 ==>
                  (r.Success? <==> |Where(frentistas, FrentistaIdIs(frentistaId.value))| == 1))
            && (!(frentistaId.Some? && frentistaId.value != 0) ==>
                  (r.Success? <==> session.Some? && |Where(frentistas, ActiveWithUser(session.value.id))| == 1))
  {
  }

  /** The one operator with the explicit id is the one resolved, active or not. */
  lemma ResolveExplicitFinds(frentistas: seq<Frentista>, session: Option<AuthUser>, frentistaId: int, i: nat)
    requires frentistaId != 0 && i < |frentistas| && frentistas[i].id == frentistaId
    requires forall j :: 0 <= j < |frentistas| && j != i ==> frentistas[j].id != frentistaId
    ensures ResolveFrentista(frentistas, session, Some(frentistaId)) == Success(frentistas[i])
  {
    FrentistaByIdFinds(frentistas, frentistaId, i);
  }

  /** Without an explicit id, the one active operator linked to the signed-in identity is
      the one resolved. */
  lemma ResolveSignedInFinds(frentistas: seq<Frentista>, user: AuthUser, frentistaId: Option<int>, i: nat)
    requires !(frentistaId.Some? && frentistaId.value != 0)
    requires i < |frentistas| && frentistas[i].ativo && frentistas[i].userId == Some(user.id)
    requires forall j :: 0 <= j < |frentistas| && j != i ==>
               !(frentistas[j].ativo && frentistas[j].userId == Some(user.id))
    ensures ResolveFrentista(frentistas, Some(user), frentistaId) == Success(frentistas[i])
  {
    ActiveByUserIdFinds(frentistas, user.id, i);
  }

  /** Lines 410-415: the declared total. Coins are not part of it. */
  function Informed(input: ClosingInput): int
  {
    input.debito + input.credito + input.nota + input.pix + input.dinheiro
  }

  /** Lines 441-456: the operator's line. */
  function NewLine(id: nat, input: ClosingInput, fechamentoId: nat, frentistaId: int): Line
  {
    Line(id, fechamentoId, frentistaId, Some(0), Some(input.debito), Some(input.credito), Some(input.nota),
         Some(input.pix), Some(input.dinheiro), Some(input.moedas), Some(Informed(input)),
         Some(input.encerrante), Some(input.faltaCaixa), Some(input.observacoes), Some(input.postoId))
  }

  /** Lines 463-471: one `NotaPrazo` row per deferred-sale item. */
  function NewNotes(input: ClosingInput, fechamentoId: nat, frentistaId: int, criadoEm: string): (r: seq<Note>)
    ensures |r| == |input.notas|
    ensures forall i :: 0 <= i < |r| ==>
              r[i] == Note(input.notas[i].clienteId, frentistaId, input.data, input.notas[i].valor,
                           input.postoId, fechamentoId, criadoEm)
  {
    seq(|input.notas|, i requires 0 <= i < |input.notas| =>
      Note(input.notas[i].clienteId, frentistaId, input.data, input.notas[i].valor,
           input.postoId, fechamentoId, criadoEm))
  }

  /** Lines 421-489, once the envelope is known: refuse a second line for the operator,
      insert the line, recompute the envelope's totals, then add the deferred-sale rows
      (whose failure is only logged). */
  function RecordLine(db: Db, fechamentoId: nat, frentistaId: int, input: ClosingInput,
                      criadoEm: string, faults: Faults): (r: (Db, Outcome))
    ensures r.1 == Rejected(AlreadyClosed) <==> LineExists(db.lines, fechamentoId, frentistaId)
    ensures LineExists(db.lines, fechamentoId, frentistaId) || faults.lineInsert ==> r.0 == db
    ensures r.0.lines == db.lines || r.0.lines == db.lines + [NewLine(|db.lines| + 1, input, fechamentoId, frentistaId)]
    ensures r.0.envelopes == db.envelopes ||
            UpdateTotalsOf(db.envelopes, db.lines + [NewLine(|db.lines| + 1, input, fechamentoId, frentistaId)],
                           fechamentoId, 0, Some(input.observacoes), faults) == Success(r.0.envelopes)
    ensures r.1.Submitted? ==>
              && r.1.fechamentoId == fechamentoId
              && r.0.lines == db.lines + [NewLine(|db.lines| + 1, input, fechamentoId, frentistaId)]
              && r.0.notes == db.notes + (if |input.notas| > 0 && !faults.notesInsert
                                          then NewNotes(input, fechamentoId, frentistaId, criadoEm) else [])
    ensures r.1.Rejected? ==> r.0.notes == db.notes
    ensures r.1 != Rejected(Remote(EnvelopeInsert))
  {
    if LineExists(db.lines, fechamentoId, frentistaId) then (db, Rejected(AlreadyClosed))
    else if faults.lineInsert then (db, Rejected(Remote(LineInsert)))
    else
      var lines := db.lines + [NewLine(|db.lines| + 1, input, fechamentoId, frentistaId)];
      match UpdateTotalsOf(db.envelopes, lines, fechamentoId, 0, Some(input.observacoes), faults)
      case Failure(step) => (db.(lines := lines), Rejected(Remote(step)))
      case Success(envelopes) =>
        var notes := if |input.notas| > 0 && !faults.notesInsert
                     then db.notes + NewNotes(input, fechamentoId, frentistaId, criadoEm)
                     else db.notes + [];
        (Db(envelopes, lines, notes), Submitted(fechamentoId))
  }

  /** Lines 409-419: find or open the envelope, seeded with the operator's own totals. */
  function SubmitFor(db: Db, usuarioId: Option<int>, frentistaId: int, input: ClosingInput,
                     criadoEm: string, faults: Faults): (r: (Db, Outcome))
  {
    var got := GetOrCreateEnvelope(db.envelopes, input.data, input.turnoId, usuarioId,
                                   Informed(input), input.encerrante, input.postoId, faults.envelopeInsert);
    match got.1
    case Failure(step) => (db.(envelopes := got.0), Rejected(Remote(step)))
    case Success(env) => RecordLine(db.(envelopes := got.0), env.id, frentistaId, input, criadoEm, faults)
  }

  /** `submitMobileClosing`: the tables afterwards and the answer. `criadoEm` is the clock's
      timestamp; `faults` are the store's answers. */
  function SubmitClosing(db: Db, dir: Directory, session: Option<AuthUser>, input: ClosingInput,
                         criadoEm: string, faults: Faults): (r: (Db, Outcome))
  {
    match ResolveFrentista(dir.frentistas, session, input.frentistaId)
    case Failure(reason) => (db, Rejected(reason))
    case Success(f) => SubmitFor(db, Attribution(dir.usuarios, session), f.id, input, criadoEm, faults)
  }

  // ---- What a submission keeps and does ----

  /** getOrCreate keeps the numbering, and the envelope it returns sits at `id - 1`. */
  lemma GetOrCreateKeepsNumbering(envelopes: seq<Envelope>, data: string, turnoId: int,
                                  usuarioId: Option<int>, totalRecebido: int, totalVendas: int,
                                  postoId: int, insertFails: bool)
    requires IdsArePositions(envelopes)
    ensures var r := GetOrCreateEnvelope(envelopes, data, turnoId, usuarioId, totalRecebido, totalVendas, postoId, insertFails);
            && IdsArePositions(r.0) && |envelopes| <= |r.0| <= |envelopes| + 1
            && (forall i :: 0 <= i < |envelopes| ==> r.0[i] == envelopes[i])
            && (r.1.Success? ==> 1 <= r.1.value.id <= |r.0| && r.0[r.1.value.id - 1] == r.1.value)
            && (r.0 != envelopes ==> r.1.Success? && r.1.value.id == |envelopes| + 1)
  {
    var r := GetOrCreateEnvelope(envelopes, data, turnoId, usuarioId, totalRecebido, totalVendas, postoId, insertFails);
    if r.1.Success? {
      var e := r.1.value;
      var i :| 0 <= i < |r.0| && r.0[i] == e;
    }
  }

  /** A fresh envelope has no lines, so its received total is 0. */
  lemma NewEnvelopeHasNoLines(db: Db, id: int)
    requires WellFormed(db) && id > |db.envelopes|
    ensures !exists i :: 0 <= i < |db.lines| && db.lines[i].fechamentoId == id
    ensures EnvelopeReceived(db.lines, id) == 0
  {
    WhereEmpty(db.lines, LineOf(id));
  }

  /** Appending a line numbered next, for an existing envelope and an operator without a
      line there, keeps the store well formed. */
  lemma AppendLineKeepsWellFormed(db: Db, l: Line)
    requires WellFormed(db) && l.id == |db.lines| + 1 && 1 <= l.fechamentoId <= |db.envelopes|
    requires !LineExists(db.lines, l.fechamentoId, l.frentistaId)
    ensures WellFormed(db.(lines := db.lines + [l]))
  {
    InsertLineKeepsUnique(db.lines, l);
  }

  /** Replacing the envelope table by a longer or equal one with the same numbering keeps
      the store well formed. */
  lemma ReplaceEnvelopesKeepsWellFormed(db: Db, envelopes: seq<Envelope>)
    requires WellFormed(db) && IdsArePositions(envelopes) && |db.envelopes| <= |envelopes|
    ensures WellFormed(db.(envelopes := envelopes))
  {
  }

  /** The envelope is one the getOrCreate search for (data, turno, posto) finds. */
  predicate FoundBy(e: Envelope, data: string, turnoId: int, postoId: int)
  {
    e.data == data && e.turnoId == turnoId && (postoId != 0 ==> e.postoId == Some(postoId))
  }

  /** Two versions of an envelope with the same id and key. */
  predicate SameKey(a: Envelope, b: Envelope)
  {
    a.id == b.id && a.data == b.data && a.turnoId == b.turnoId && a.postoId == b.postoId
  }

  /** Envelope `id` carries the totals updateTotals computes from the lines: received is
      the sum over its lines, difference is received minus sales, status is FECHADO. */
  ghost predicate Recomputed(db: Db, id: nat)
  {
    && 1 <= id <= |db.envelopes|
    && db.envelopes[id - 1].totalRecebido == Some(EnvelopeReceived(db.lines, id))
    && db.envelopes[id - 1].diferenca ==
         Some(EnvelopeReceived(db.lines, id) - OrZero(db.envelopes[id - 1].totalVendas))
    && db.envelopes[id - 1].status == Fechado
  }

  /** Recomputing the totals right after inserting a line of the envelope keeps the
      envelope's key and leaves it recomputed from the lines that now include the new one. */
  lemma TotalsAfterInsert(envelopes: seq<Envelope>, lines: seq<Line>, l: Line, id: nat,
                          observacoes: Option<string>, faults: Faults, after: Db)
    requires IdsArePositions(envelopes) && 1 <= id <= |envelopes|
    requires UpdateTotalsOf(envelopes, lines + [l], id, 0, observacoes, faults).Success?
    requires after.envelopes == UpdateTotalsOf(envelopes, lines + [l], id, 0, observacoes, faults).value
    requires after.lines == lines + [l]
    ensures |after.envelopes| == |envelopes| && SameKey(after.envelopes[id - 1], envelopes[id - 1])
    ensures Recomputed(after, id)
  {
    UpdateTotalsEffect(envelopes, lines + [l], id, 0, observacoes, faults);
  }

  /** Recording a line into an existing envelope keeps the store well formed, and keeps
      at most one envelope per key. */
  lemma RecordLineKeepsWellFormed(db: Db, fechamentoId: nat, frentistaId: int, input: ClosingInput,
                                  criadoEm: string, faults: Faults)
    requires WellFormed(db) && 1 <= fechamentoId <= |db.envelopes|
    ensures var r := RecordLine(db, fechamentoId, frentistaId, input, criadoEm, faults).0;
            WellFormed(r) && |r.envelopes| == |db.envelopes|
            && (UniqueEnvelopeKeys(db.envelopes) ==> UniqueEnvelopeKeys(r.envelopes))
  {
    var r := RecordLine(db, fechamentoId, frentistaId, input, criadoEm, faults).0;
    var db2 := db.(lines := r.lines);
    if r.lines != db.lines {
      AppendLineKeepsWellFormed(db, NewLine(|db.lines| + 1, input, fechamentoId, frentistaId));
    }
    assert WellFormed(db2);
    if r.envelopes != db.envelopes {
      UpdateTotalsKeepsInvariants(db.envelopes, r.lines, fechamentoId, 0, Some(input.observacoes), faults);
      ReplaceEnvelopesKeepsWellFormed(db2, r.envelopes);
    }
    assert r == Db(r.envelopes, db2.lines, r.notes);
  }

  /** A submission keeps the numbering of both tables, keeps every line pointing at an
      envelope, and keeps at most one line per (envelope, operator); when a station is
      named, it also keeps at most one envelope per key. */
  lemma SubmitKeepsWellFormed(db: Db, dir: Directory, session: Option<AuthUser>, input: ClosingInput,
                              criadoEm: string, faults: Faults)
    requires WellFormed(db)
    ensures var r := SubmitClosing(db, dir, session, input, criadoEm, faults).0;
            && WellFormed(r)
            && (UniqueEnvelopeKeys(db.envelopes) && input.postoId != 0 ==> UniqueEnvelopeKeys(r.envelopes))
  {
    var rf := ResolveFrentista(dir.frentistas, session, input.frentistaId);
    if rf.Success? {
      var usuarioId := Attribution(dir.usuarios, session);
      var got := GetOrCreateEnvelope(db.envelopes, input.data, input.turnoId, usuarioId,
                                     Informed(input), input.encerrante, input.postoId, faults.envelopeInsert);
      GetOrCreateKeepsNumbering(db.envelopes, input.data, input.turnoId, usuarioId,
                                Informed(input), input.encerrante, input.postoId, faults.envelopeInsert);
      if UniqueEnvelopeKeys(db.envelopes) && input.postoId != 0 {
        GetOrCreateKeepsKeysUnique(db.envelopes, input.data, input.turnoId, usuarioId,
                                   Informed(input), input.encerrante, input.postoId, faults.envelopeInsert);
      }
      var db1 := db.(envelopes := got.0);
      ReplaceEnvelopesKeepsWellFormed(db, got.0);
      if got.1.Success? {
        RecordLineKeepsWellFormed(db1, got.1.value.id, rf.value.id, input, criadoEm, faults);
      }
    }
  }

  // ---- One layer at a time ----

  /** `SubmitClosing` once the operator is resolved: it submits for that operator. */
  lemma SubmitClosingResolved(db: Db, dir: Directory, session: Option<AuthUser>, input: ClosingInput,
                              criadoEm: string, faults: Faults)
    ensures var rf := ResolveFrentista(dir.frentistas, session, input.frentistaId);
            && (SubmitClosing(db, dir, session, input, criadoEm, faults).1.Submitted? ==> rf.Success?)
            && (rf.Success? ==>
                  SubmitClosing(db, dir, session, input, criadoEm, faults)
                  == SubmitFor(db, Attribution(dir.usuarios, session), rf.value.id, input, criadoEm, faults))
  {
  }

  /** `SubmitFor` once the envelope is found or opened: it records the line in it. */
  lemma SubmitForFound(db: Db, usuarioId: Option<int>, frentistaId: int, input: ClosingInput,
                       criadoEm: string, faults: Faults)
    requires IdsArePositions(db.envelopes)
    requires SubmitFor(db, usuarioId, frentistaId, input, criadoEm, faults).1.Submitted?
    ensures var got := GetOrCreateEnvelope(db.envelopes, input.data, input.turnoId, usuarioId,
                                           Informed(input), input.encerrante, input.postoId, faults.envelopeInsert);
            && got.1.Success?
            && 1 <= got.1.value.id <= |got.0| && got.0[got.1.value.id - 1] == got.1.value
            && SubmitFor(db, usuarioId, frentistaId, input, criadoEm, faults)
               == RecordLine(db.(envelopes := got.0), got.1.value.id, frentistaId, input, criadoEm, faults)
  {
    var got := GetOrCreateEnvelope(db.envelopes, input.data, input.turnoId, usuarioId,
                                   Informed(input), input.encerrante, input.postoId, faults.envelopeInsert);
    GetOrCreateKeepsNumbering(db.envelopes, input.data, input.turnoId, usuarioId,
                              Informed(input), input.encerrante, input.postoId, faults.envelopeInsert);
    assert got.1.Success?;
  }

  // ---- Rejections ----

  /** The answers given before anything is written: an unknown explicit operator, an
      unidentified operator, a duplicate line, a failed envelope insert. */
  predicate EarlyRejection(o: Outcome)
  {
    || o == Rejected(FrentistaNotFound) || o == Rejected(FrentistaNotIdentified)
    || o == Rejected(AlreadyClosed) || o == Rejected(Remote(EnvelopeInsert))
  }

  predicate UnchangedOnEarlyRejection(r: (Db, Outcome), db: Db)
  {
    EarlyRejection(r.1) ==> r.0 == db
  }

  /** Recording a line answers early only with a duplicate, and then writes nothing. */
  lemma RecordLineRejects(db: Db, id: nat, frentistaId: int, input: ClosingInput,
                          criadoEm: string, faults: Faults)
    ensures var r := RecordLine(db, id, frentistaId, input, criadoEm, faults);
            && UnchangedOnEarlyRejection(r, db)
            && (EarlyRejection(r.1) ==> LineExists(db.lines, id, frentistaId))
  {
  }

  lemma SubmitForRejectsWithoutWriting(db: Db, usuarioId: Option<int>, frentistaId: int, input: ClosingInput,
                                       criadoEm: string, faults: Faults)
    requires WellFormed(db)
    ensures UnchangedOnEarlyRejection(SubmitFor(db, usuarioId, frentistaId, input, criadoEm, faults), db)
  {
    var got := GetOrCreateEnvelope(db.envelopes, input.data, input.turnoId, usuarioId,
                                   Informed(input), input.encerrante, input.postoId, faults.envelopeInsert);
    GetOrCreateKeepsNumbering(db.envelopes, input.data, input.turnoId, usuarioId,
                              Informed(input), input.encerrante, input.postoId, faults.envelopeInsert);
    var db1 := db.(envelopes := got.0);
    if got.0 == db.envelopes {
      assert db1 == db;
      if got.1.Success? {
        RecordLineRejects(db, got.1.value.id, frentistaId, input, criadoEm, faults);
      }
    } else {
      // A new envelope has an id no line refers to yet.
      var id := got.1.value.id;
      NewEnvelopeHasNoLines(db, id);
      LineExistsIffAny(db.lines, id, frentistaId);
      RecordLineRejects(db1, id, frentistaId, input, criadoEm, faults);
    }
  }

  /** An unknown explicit operator, an unidentified operator, a duplicate line or a failed
      envelope insert is answered before anything is written. */
  lemma SubmitRejectsWithoutWriting(db: Db, dir: Directory, session: Option<AuthUser>, input: ClosingInput,
                                    criadoEm: string, faults: Faults)
    requires WellFormed(db)
    ensures UnchangedOnEarlyRejection(SubmitClosing(db, dir, session, input, criadoEm, faults), db)
  {
    SubmitClosingResolved(db, dir, session, input, criadoEm, faults);
    var rf := ResolveFrentista(dir.frentistas, session, input.frentistaId);
    if rf.Success? {
      SubmitForRejectsWithoutWriting(db, Attribution(dir.usuarios, session), rf.value.id, input, criadoEm, faults);
    }
  }

  // ---- What a successful submission writes ----

  /** What a successful submission writes for operator `frentistaId` into envelope `id`:
      exactly the operator's line (card column 0, checked value = debit + credit + note +
      PIX + cash, meter reading and shortfall as sent), for an operator who had no line in
      that envelope; no other envelope changes, and at most the one envelope is added;
      and the deferred-sale rows unless their insert fails. */
  ghost predicate WroteLine(before: Db, after: Db, id: nat, frentistaId: int, input: ClosingInput,
                            criadoEm: string, faults: Faults)
  {
    && 1 <= id <= |after.envelopes|
    && |before.envelopes| <= |after.envelopes| <= |before.envelopes| + 1
    && !LineExists(before.lines, id, frentistaId)
    && after.lines == before.lines + [NewLine(|before.lines| + 1, input, id, frentistaId)]
    && (forall i :: 0 <= i < |before.envelopes| && i != id - 1 ==> after.envelopes[i] == before.envelopes[i])
    && after.notes == before.notes + (if |input.notas| > 0 && !faults.notesInsert
                                      then NewNotes(input, id, frentistaId, criadoEm) else [])
  }

  lemma RecordLineWrites(db: Db, id: nat, frentistaId: int, input: ClosingInput,
                         criadoEm: string, faults: Faults)
    requires IdsArePositions(db.envelopes) && 1 <= id <= |db.envelopes|
    requires RecordLine(db, id, frentistaId, input, criadoEm, faults).1.Submitted?
    ensures WroteLine(db, RecordLine(db, id, frentistaId, input, criadoEm, faults).0, id, frentistaId,
                      input, criadoEm, faults)
  {
    var l := NewLine(|db.lines| + 1, input, id, frentistaId);
    UpdateTotalsEffect(db.envelopes, db.lines + [l], id, 0, Some(input.observacoes), faults);
  }

  lemma SubmitForWrites(db: Db, usuarioId: Option<int>, frentistaId: int, input: ClosingInput,
                        criadoEm: string, faults: Faults)
    requires IdsArePositions(db.envelopes)
    requires SubmitFor(db, usuarioId, frentistaId, input, criadoEm, faults).1.Submitted?
    ensures var r := SubmitFor(db, usuarioId, frentistaId, input, criadoEm, faults);
            WroteLine(db, r.0, r.1.fechamentoId, frentistaId, input, criadoEm, faults)
  {
    SubmitForFound(db, usuarioId, frentistaId, input, criadoEm, faults);
    var got := GetOrCreateEnvelope(db.envelopes, input.data, input.turnoId, usuarioId,
                                   Informed(input), input.encerrante, input.postoId, faults.envelopeInsert);
    GetOrCreateKeepsNumbering(db.envelopes, input.data, input.turnoId, usuarioId,
                              Informed(input), input.encerrante, input.postoId, faults.envelopeInsert);
    var db1 := db.(envelopes := got.0);
    var id := got.1.value.id;
    RecordLineWrites(db1, id, frentistaId, input, criadoEm, faults);
    if got.0 != db.envelopes {
      // A new envelope has an id no line refers to yet.
      assert db1.lines == db.lines;
    }
  }

  /** A successful submission writes the resolved operator's line and nothing else but the
      one envelope's totals and the deferred-sale rows. */
  lemma SubmitSuccessWrites(db: Db, dir: Directory, session: Option<AuthUser>, input: ClosingInput,
                            criadoEm: string, faults: Faults)
    requires IdsArePositions(db.envelopes)
    requires SubmitClosing(db, dir, session, input, criadoEm, faults).1.Submitted?
    ensures var r := SubmitClosing(db, dir, session, input, criadoEm, faults);
            var rf := ResolveFrentista(dir.frentistas, session, input.frentistaId);
            && rf.Success?
            && WroteLine(db, r.0, r.1.fechamentoId, rf.value.id, input, criadoEm, faults)
  {
    SubmitClosingResolved(db, dir, session, input, criadoEm, faults);
    var f := ResolveFrentista(dir.frentistas, session, input.frentistaId).value;
    SubmitForWrites(db, Attribution(dir.usuarios, session), f.id, input, criadoEm, faults);
  }

  /** An operator without a line in the envelope is recorded there when the line insert,
      the lines read and the totals update all answer. */
  lemma RecordLineSucceeds(db: Db, id: nat, frentistaId: int, input: ClosingInput,
                           criadoEm: string, faults: Faults)
    requires !LineExists(db.lines, id, frentistaId)
    requires !faults.lineInsert && !faults.linesRead && !faults.envelopeUpdate
    ensures RecordLine(db, id, frentistaId, input, criadoEm, faults).1 == Submitted(id)
  {
  }

  /** The operator holds no line in an envelope the getOrCreate search for this closing's
      date, shift and station would find. */
  ghost predicate NoLineUnderSearch(db: Db, frentistaId: int, input: ClosingInput)
    requires WellFormed(db)
  {
    forall i :: 0 <= i < |db.lines| && db.lines[i].frentistaId == frentistaId ==>
      !EnvelopeSearch(input.data, input.turnoId, input.postoId)(db.envelopes[db.lines[i].fechamentoId - 1])
  }

  /** An operator who has no line yet in an envelope of this date, shift and station gets
      the closing submitted when the store answers every write (the deferred-sale insert
      may still fail). */
  lemma SubmitForSucceeds(db: Db, usuarioId: Option<int>, frentistaId: int, input: ClosingInput,
                          criadoEm: string, faults: Faults)
    requires WellFormed(db) && NoLineUnderSearch(db, frentistaId, input)
    requires !faults.envelopeInsert && !faults.lineInsert && !faults.linesRead && !faults.envelopeUpdate
    ensures SubmitFor(db, usuarioId, frentistaId, input, criadoEm, faults).1.Submitted?
  {
    var p := EnvelopeSearch(input.data, input.turnoId, input.postoId);
    var got := GetOrCreateEnvelope(db.envelopes, input.data, input.turnoId, usuarioId,
                                   Informed(input), input.encerrante, input.postoId, faults.envelopeInsert);
    GetOrCreateKeepsNumbering(db.envelopes, input.data, input.turnoId, usuarioId,
                              Informed(input), input.encerrante, input.postoId, faults.envelopeInsert);
    GetOrCreateCases(db.envelopes, input.data, input.turnoId, usuarioId,
                     Informed(input), input.encerrante, input.postoId, faults.envelopeInsert);
    assert got.1.Success?;
    var env := got.1.value;
    var found := Where(db.envelopes, p);
    forall i | 0 <= i < |db.lines| ensures !LineKeyIs(env.id, frentistaId)(db.lines[i]) {
      if |found| == 1 && db.lines[i].frentistaId == frentistaId {
        assert p(env);
        assert db.envelopes[env.id - 1] == env;
      }
    }
    WhereEmpty(db.lines, LineKeyIs(env.id, frentistaId));
    RecordLineSucceeds(db.(envelopes := got.0), env.id, frentistaId, input, criadoEm, faults);
  }

  /** A submission whose operator resolves, and who has no line yet in an envelope of this
      date, shift and station, succeeds when the store answers every write. */
  lemma SubmitSucceeds(db: Db, dir: Directory, session: Option<AuthUser>, input: ClosingInput,
                       criadoEm: string, faults: Faults)
    requires ResolveFrentista(dir.frentistas, session, input.frentistaId).Success?
    requires WellFormed(db)
    requires NoLineUnderSearch(db, ResolveFrentista(dir.frentistas, session, input.frentistaId).value.id, input)
    requires !faults.envelopeInsert && !faults.lineInsert && !faults.linesRead && !faults.envelopeUpdate
    ensures SubmitClosing(db, dir, session, input, criadoEm, faults).1.Submitted?
  {
    SubmitClosingResolved(db, dir, session, input, criadoEm, faults);
    var f := ResolveFrentista(dir.frentistas, session, input.frentistaId).value;
    SubmitForSucceeds(db, Attribution(dir.usuarios, session), f.id, input, criadoEm, faults);
  }

  /** For an operator without a line whose insert succeeds, a failed totals update
      keeps the inserted line and writes nothing else. */
  lemma RecordLineTotalsFail(db: Db, id: nat, frentistaId: int, input: ClosingInput,
                             criadoEm: string, faults: Faults, step: Step)
    requires !LineExists(db.lines, id, frentistaId) && !faults.lineInsert
    requires UpdateTotalsOf(db.envelopes, db.lines + [NewLine(|db.lines| + 1, input, id, frentistaId)],
                            id, 0, Some(input.observacoes), faults) == Failure(step)
    ensures RecordLine(db, id, frentistaId, input, criadoEm, faults)
            == (db.(lines := db.lines + [NewLine(|db.lines| + 1, input, id, frentistaId)]), Rejected(Remote(step)))
  {
  }

  /** ... and a successful one submits with the recomputed envelopes and the deferred-sale
      rows, unless their insert fails. */
  lemma RecordLineTotalsDone(db: Db, id: nat, frentistaId: int, input: ClosingInput,
                             criadoEm: string, faults: Faults, updated: seq<Envelope>)
    requires !LineExists(db.lines, id, frentistaId) && !faults.lineInsert
    requires UpdateTotalsOf(db.envelopes, db.lines + [NewLine(|db.lines| + 1, input, id, frentistaId)],
                            id, 0, Some(input.observacoes), faults) == Success(updated)
    ensures RecordLine(db, id, frentistaId, input, criadoEm, faults)
            == (Db(updated, db.lines + [NewLine(|db.lines| + 1, input, id, frentistaId)],
                   db.notes + (if |input.notas| > 0 && !faults.notesInsert
                               then NewNotes(input, id, frentistaId, criadoEm) else [])),
                Submitted(id))
  {
  }

  // ---- The closed envelope's totals ----

  /** The new line adds its declared total to its envelope's received total. */
  lemma ReceivedAfterInsert(lines: seq<Line>, input: ClosingInput, id: nat, frentistaId: int)
    ensures EnvelopeReceived(lines + [NewLine(|lines| + 1, input, id, frentistaId)], id) ==
            EnvelopeReceived(lines, id) + Informed(input)
  {
    var l := NewLine(|lines| + 1, input, id, frentistaId);
    AppendLineReceived(lines, l, id);
    assert Received(l) == Informed(input);
  }

  /** A line that was recorded leaves the store with that line appended and the envelopes
      as the recomputation returned them. */
  lemma RecordLineSubmitted(db: Db, id: nat, frentistaId: int, input: ClosingInput,
                            criadoEm: string, faults: Faults)
    requires RecordLine(db, id, frentistaId, input, criadoEm, faults).1.Submitted?
    ensures var lines := db.lines + [NewLine(|db.lines| + 1, input, id, frentistaId)];
            var u := UpdateTotalsOf(db.envelopes, lines, id, 0, Some(input.observacoes), faults);
            var r := RecordLine(db, id, frentistaId, input, criadoEm, faults).0;
            u.Success? && r.envelopes == u.value && r.lines == lines
  {
  }

  /** Recording a line into envelope `id`, one the search finds, leaves it closed into:
      recomputed, with the earlier received total plus this declared total. */
  lemma RecordLineTotals(db: Db, id: nat, frentistaId: int, input: ClosingInput,
                         criadoEm: string, faults: Faults)
    requires IdsArePositions(db.envelopes) && 1 <= id <= |db.envelopes|
    requires FoundBy(db.envelopes[id - 1], input.data, input.turnoId, input.postoId)
    requires RecordLine(db, id, frentistaId, input, criadoEm, faults).1.Submitted?
    ensures var r := RecordLine(db, id, frentistaId, input, criadoEm, faults);
            r.1.fechamentoId == id && ClosedInto(db.lines, r.0, id, input)
  {
    var l := NewLine(|db.lines| + 1, input, id, frentistaId);
    RecordLineSubmitted(db, id, frentistaId, input, criadoEm, faults);
    var r := RecordLine(db, id, frentistaId, input, criadoEm, faults).0;
    TotalsAfterInsert(db.envelopes, db.lines, l, id, Some(input.observacoes), faults, r);
    ReceivedAfterInsert(db.lines, input, id, frentistaId);
    assert SameKey(r.envelopes[id - 1], db.envelopes[id - 1]);
  }

  /** What a successful submission leaves in envelope `id`: it is the envelope the search
      for the date, shift and station sent finds, its totals are recomputed from its lines,
      and its received total grew by the declared total. */
  ghost predicate ClosedInto(linesBefore: seq<Line>, after: Db, id: nat, input: ClosingInput)
  {
    && Recomputed(after, id)
    && after.envelopes[id - 1].id == id
    && FoundBy(after.envelopes[id - 1], input.data, input.turnoId, input.postoId)
    && EnvelopeReceived(after.lines, id) == EnvelopeReceived(linesBefore, id) + Informed(input)
  }

  lemma SubmitForTotals(db: Db, usuarioId: Option<int>, frentistaId: int, input: ClosingInput,
                        criadoEm: string, faults: Faults)
    requires IdsArePositions(db.envelopes)
    requires SubmitFor(db, usuarioId, frentistaId, input, criadoEm, faults).1.Submitted?
    ensures var r := SubmitFor(db, usuarioId, frentistaId, input, criadoEm, faults);
            ClosedInto(db.lines, r.0, r.1.fechamentoId, input)
  {
    SubmitForFound(db, usuarioId, frentistaId, input, criadoEm, faults);
    var got := GetOrCreateEnvelope(db.envelopes, input.data, input.turnoId, usuarioId,
                                   Informed(input), input.encerrante, input.postoId, faults.envelopeInsert);
    var env := got.1.value;
    assert FoundBy(env, input.data, input.turnoId, input.postoId);
    GetOrCreateKeepsNumbering(db.envelopes, input.data, input.turnoId, usuarioId,
                              Informed(input), input.encerrante, input.postoId, faults.envelopeInsert);
    RecordLineTotals(db.(envelopes := got.0), env.id, frentistaId, input, criadoEm, faults);
  }

  /** After a successful submission the closed envelope is the one for the date and shift
      sent (and the station, when one is named); its received total is the sum over all
      of its lines, which is the earlier sum plus this declared total; its difference is
      received minus sales; its status is FECHADO. */
  lemma SubmitSuccessTotals(db: Db, dir: Directory, session: Option<AuthUser>, input: ClosingInput,
                            criadoEm: string, faults: Faults)
    requires IdsArePositions(db.envelopes)
    requires SubmitClosing(db, dir, session, input, criadoEm, faults).1.Submitted?
    ensures var r := SubmitClosing(db, dir, session, input, criadoEm, faults);
            ClosedInto(db.lines, r.0, r.1.fechamentoId, input)
  {
    SubmitClosingResolved(db, dir, session, input, criadoEm, faults);
    var f := ResolveFrentista(dir.frentistas, session, input.frentistaId).value;
    SubmitForTotals(db, Attribution(dir.usuarios, session), f.id, input, criadoEm, faults);
  }

  // ---- Submitting twice ----

  /** Envelope `id` is one the search for the closing's date, shift and station finds,
      and the operator has a line in it. */
  ghost predicate HoldsLine(db: Db, id: nat, frentistaId: int, input: ClosingInput)
  {
    && 1 <= id <= |db.envelopes|
    && FoundBy(db.envelopes[id - 1], input.data, input.turnoId, input.postoId)
    && LineExists(db.lines, id, frentistaId)
  }

  /** After a successful `SubmitFor` the operator holds a line in the envelope returned. */
  lemma SubmitForHoldsLine(db: Db, usuarioId: Option<int>, frentistaId: int, input: ClosingInput,
                           criadoEm: string, faults: Faults)
    requires IdsArePositions(db.envelopes) && UniqueLines(db.lines)
    requires SubmitFor(db, usuarioId, frentistaId, input, criadoEm, faults).1.Submitted?
    ensures var r := SubmitFor(db, usuarioId, frentistaId, input, criadoEm, faults);
            HoldsLine(r.0, r.1.fechamentoId, frentistaId, input)
  {
    var r := SubmitFor(db, usuarioId, frentistaId, input, criadoEm, faults);
    SubmitForTotals(db, usuarioId, frentistaId, input, criadoEm, faults);
    SubmitForWrites(db, usuarioId, frentistaId, input, criadoEm, faults);
    InsertLineKeepsUnique(db.lines, NewLine(|db.lines| + 1, input, r.1.fechamentoId, frentistaId));
  }

  /** Once the operator's line is in the only envelope with the key, submitting for that
      operator again is refused as a duplicate and writes nothing. */
  lemma ResubmitIsRejected(db: Db, usuarioId: Option<int>, frentistaId: int, input: ClosingInput,
                           criadoEm: string, faults: Faults, id: nat)
    requires IdsArePositions(db.envelopes) && UniqueEnvelopeKeys(db.envelopes) && input.postoId != 0
    requires HoldsLine(db, id, frentistaId, input)
    ensures SubmitFor(db, usuarioId, frentistaId, input, criadoEm, faults) == (db, Rejected(AlreadyClosed))
  {
    var key := EnvelopeKeyIs(input.data, input.turnoId, Some(input.postoId));
    assert EnvelopeSearch(input.data, input.turnoId, input.postoId) == key;
    assert |Where(db.envelopes, EnvelopeKeyIs(input.data, input.turnoId, Some(input.postoId)))| <= 1;
    WhereSingleton(db.envelopes, id - 1, key);
    var got := GetOrCreateEnvelope(db.envelopes, input.data, input.turnoId, usuarioId,
                                   Informed(input), input.encerrante, input.postoId, faults.envelopeInsert);
    assert got == (db.envelopes, Success(db.envelopes[id - 1]));
    assert got.1.value.id == id;
    assert db.(envelopes := got.0) == db;
    assert SubmitFor(db, usuarioId, frentistaId, input, criadoEm, faults)
        == RecordLine(db, id, frentistaId, input, criadoEm, faults);
  }

  /** Submitting the same closing again (a station named, the store well formed) is
      refused as a duplicate and leaves the store as the first submission left it,
      whatever the store answers the second time. */
  lemma SubmitTwiceIsRejected(db: Db, dir: Directory, session: Option<AuthUser>, input: ClosingInput,
                              criadoEm: string, faults: Faults, criadoEm2: string, faults2: Faults)
    requires WellFormed(db) && UniqueEnvelopeKeys(db.envelopes) && input.postoId != 0
    requires SubmitClosing(db, dir, session, input, criadoEm, faults).1.Submitted?
    ensures var db1 := SubmitClosing(db, dir, session, input, criadoEm, faults).0;
            SubmitClosing(db1, dir, session, input, criadoEm2, faults2) == (db1, Rejected(AlreadyClosed))
  {
    var r := SubmitClosing(db, dir, session, input, criadoEm, faults);
    SubmitClosingResolved(db, dir, session, input, criadoEm, faults);
    var f := ResolveFrentista(dir.frentistas, session, input.frentistaId).value;
    var usuarioId := Attribution(dir.usuarios, session);
    SubmitForHoldsLine(db, usuarioId, f.id, input, criadoEm, faults);
    SubmitKeepsWellFormed(db, dir, session, input, criadoEm, faults);
    SubmitClosingResolved(r.0, dir, session, input, criadoEm2, faults2);
    ResubmitIsRejected(r.0, usuarioId, f.id, input, criadoEm2, faults2, r.1.fechamentoId);
  }

  /** The answer and the tables after a submission whose deferred-sale insert failed,
      compared with the same submission where it succeeded: only the notes differ. */
  predicate NotesOnlyLost(ok: (Db, Outcome), failed: (Db, Outcome), notes: seq<Note>)
  {
    failed.1 == ok.1 && failed.0 == ok.0.(notes := notes)
  }

  lemma RecordLineNotesFailure(db: Db, id: nat, frentistaId: int, input: ClosingInput,
                               criadoEm: string, faults: Faults)
    ensures NotesOnlyLost(RecordLine(db, id, frentistaId, input, criadoEm, faults.(notesInsert := false)),
                          RecordLine(db, id, frentistaId, input, criadoEm, faults.(notesInsert := true)),
                          db.notes)
  {
  }

  lemma SubmitForNotesFailure(db: Db, usuarioId: Option<int>, frentistaId: int, input: ClosingInput,
                              criadoEm: string, faults: Faults)
    ensures NotesOnlyLost(SubmitFor(db, usuarioId, frentistaId, input, criadoEm, faults.(notesInsert := false)),
                          SubmitFor(db, usuarioId, frentistaId, input, criadoEm, faults.(notesInsert := true)),
                          db.notes)
  {
    var got := GetOrCreateEnvelope(db.envelopes, input.data, input.turnoId, usuarioId,
                                   Informed(input), input.encerrante, input.postoId, faults.envelopeInsert);
    if got.1.Success? {
      RecordLineNotesFailure(db.(envelopes := got.0), got.1.value.id, frentistaId, input, criadoEm, faults);
    }
  }

  /** A failed deferred-sale insert changes neither the answer nor the other tables. */
  lemma NotesFailureKeepsSuccess(db: Db, dir: Directory, session: Option<AuthUser>, input: ClosingInput,
                                 criadoEm: string, faults: Faults)
    ensures NotesOnlyLost(SubmitClosing(db, dir, session, input, criadoEm, faults.(notesInsert := false)),
                          SubmitClosing(db, dir, session, input, criadoEm, faults.(notesInsert := true)),
                          db.notes)
  {
    SubmitClosingResolved(db, dir, session, input, criadoEm, faults.(notesInsert := false));
    SubmitClosingResolved(db, dir, session, input, criadoEm, faults.(notesInsert := true));
    var rf := ResolveFrentista(dir.frentistas, session, input.frentistaId);
    if rf.Success? {
      SubmitForNotesFailure(db, Attribution(dir.usuarios, session), rf.value.id, input, criadoEm, faults);
    } else {
      assert db.(notes := db.notes) == db;
    }
  }

  /** Two operators closing one after the other into the same envelope leave its totals
      recomputed, with the earlier received total plus both declared totals. */
  lemma TwoSubmissionsAccumulate(db: Db, dir: Directory, session1: Option<AuthUser>, input1: ClosingInput,
                                 session2: Option<AuthUser>, input2: ClosingInput,
                                 criadoEm: string, faults: Faults)
    requires WellFormed(db)
    requires SubmitClosing(db, dir, session1, input1, criadoEm, faults).1.Submitted?
    requires SubmitClosing(SubmitClosing(db, dir, session1, input1, criadoEm, faults).0,
                           dir, session2, input2, criadoEm, faults).1
             == SubmitClosing(db, dir, session1, input1, criadoEm, faults).1
    ensures var r1 := SubmitClosing(db, dir, session1, input1, criadoEm, faults);
            var r2 := SubmitClosing(r1.0, dir, session2, input2, criadoEm, faults);
            var id := r1.1.fechamentoId;
            && Recomputed(r2.0, id)
            && EnvelopeReceived(r2.0.lines, id) == EnvelopeReceived(db.lines, id) + Informed(input1) + Informed(input2)
  {
    var r1 := SubmitClosing(db, dir, session1, input1, criadoEm, faults);
    var r2 := SubmitClosing(r1.0, dir, session2, input2, criadoEm, faults);
    SubmitSuccessTotals(db, dir, session1, input1, criadoEm, faults);
    SubmitKeepsWellFormed(db, dir, session1, input1, criadoEm, faults);
    SubmitSuccessTotals(r1.0, dir, session2, input2, criadoEm, faults);
    assert ClosedInto(r1.0.lines, r2.0, r1.1.fechamentoId, input2);
  }
}
