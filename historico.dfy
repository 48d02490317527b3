/** One row of an operator's closing history (`fechamentoFrentistaService.getHistorico`,
    services/fechamento.ts lines 303-321): the display values derived from a stored
    `FechamentoFrentista` line and the envelope and shift embedded by the query.

    Two things in the row map do not do what its surroundings say, so both versions are
    here: `HistoryRowOf` as written, and `HistoryRow` as evidently intended, which is
    the one the properties are stated for. */
module Historico {
  import opened Wrappers
  import opened Records
  import opened Fechamento

  /** The shift embedded in the envelope: `turno:turno_id (nome)`. */
  datatype TurnoEmbed = TurnoEmbed(nome: Option<string>)

  /** The envelope embedded in the line: `fechamento:fechamento_id (data, turno:...)`. */
  datatype FechamentoEmbed = FechamentoEmbed(data: Option<string>, turno: Option<TurnoEmbed>)

  /** A row the query returns: the line's own columns, plus the embedded envelope under
      the property named by its alias. */
  datatype HistoryItem = HistoryItem(line: Line, fechamento: Option<FechamentoEmbed>)

  datatype Status = Ok | Divergente

  /** What the history screen shows for one closing. */
  datatype HistoryEntry = HistoryEntry(
    id: nat,
    data: string,
    turno: string,
    totalInformado: int,
    encerrante: int,
    diferenca: int,
    status: Status,
    observacoes: Option<string>)

  /** The aliases the query gives the embeds, and the property names the map reads. */
  const FechamentoAlias := "fechamento"
  const TurnoAlias := "turno"
  const FechamentoRead := "Fechamento"
  const TurnoRead := "Turno"

  /** Reading a property of a row by name: only the alias holds the embed; any other name
      (property names are case-sensitive) reads `undefined`. */
  function FechamentoProperty(item: HistoryItem, name: string): (r: Option<FechamentoEmbed>)
    ensures name != FechamentoAlias ==> r.None?
  {
    if name == FechamentoAlias then item.fechamento else None
  }

  function TurnoProperty(e: FechamentoEmbed, name: string): (r: Option<TurnoEmbed>)
    ensures name != TurnoAlias ==> r.None?
  {
    if name == TurnoAlias then e.turno else None
  }

  /** `x || fallback` on a nullable string: null, undefined and "" fall through. */
  function StrOr(x: Option<string>, fallback: string): (r: string)
    ensures x.Some? && x.value != "" ==> r == x.value
    ensures x.None? || x.value == "" ==> r == fallback
  {
    if x.Some? && x.value != "" then x.value else fallback
  }

  /** Lines 313-314 with the property names given: the envelope's date, else "", and its
      shift's name, else "N/A". */
  function Labels(item: HistoryItem, fechamentoName: string, turnoName: string): (string, string)
  {
    match FechamentoProperty(item, fechamentoName)
    case None => ("", "N/A")
    case Some(e) =>
      (StrOr(e.data, ""),
       match TurnoProperty(e, turnoName)
       case None => "N/A"
       case Some(t) => StrOr(t.nome, "N/A"))
  }

  /** Line 304: the declared total from the legacy card column, note, PIX and cash. */
  function LegacyTotal(l: Line): int
  {
    OrZero(l.valorCartao) + OrZero(l.nota) + OrZero(l.pix) + OrZero(l.dinheiro)
  }

  /** Lines 306-307: the same with the card column replaced by debit + credit when it is 0. */
  function CardTotal(l: Line): int
  {
    OrElse(OrZero(l.valorCartao), OrZero(l.debito) + OrZero(l.credito))
  }

  function CorrectedTotal(l: Line): int
  {
    CardTotal(l) + OrZero(l.nota) + OrZero(l.pix) + OrZero(l.dinheiro)
  }

  /** Line 319: `observacoes || undefined`. */
  function Notes(l: Line): Option<string>
  {
    if l.observacoes.Some? && l.observacoes.value != "" then l.observacoes else None
  }

  /** The row as assembled on lines 311-320 from a difference and the two labels. */
  function Entry(l: Line, labels: (string, string), diferenca: int): (r: HistoryEntry)
    ensures r.status == Ok <==> r.diferenca == 0
  {
    HistoryEntry(l.id, labels.0, labels.1, CorrectedTotal(l), OrZero(l.encerrante), diferenca,
                 if diferenca == 0 then Ok else Divergente, Notes(l))
  }

  /** The row map as written: the fallback difference subtracts the total without debit and
      credit, and the embeds are read as `Fechamento` and `Turno`. */
  function HistoryRowOf(item: HistoryItem): (r: HistoryEntry)
    ensures r.status == Ok <==> r.diferenca == 0
    ensures r.data == "" && r.turno == "N/A"
  {
    var l := item.line;
    Entry(l, Labels(item, FechamentoRead, TurnoRead),
          OrElse(OrZero(l.diferencaCalculada), OrZero(l.encerrante) - LegacyTotal(l)))
  }

  /** The row map as evidently intended: the fallback difference is the meter reading
      shown minus the total shown, and the embeds are read under their aliases. */
  function HistoryRow(item: HistoryItem): (r: HistoryEntry)
    ensures r.id == item.line.id && r.encerrante == OrZero(item.line.encerrante)
    ensures r.status == Ok <==> r.diferenca == 0
    ensures OrZero(item.line.diferencaCalculada) != 0 ==> r.diferenca == OrZero(item.line.diferencaCalculada)
    ensures OrZero(item.line.diferencaCalculada) == 0 ==> r.diferenca == r.encerrante - r.totalInformado
  {
    var l := item.line;
    Entry(l, Labels(item, FechamentoAlias, TurnoAlias),
          OrElse(OrZero(l.diferencaCalculada), OrZero(l.encerrante) - CorrectedTotal(l)))
  }

  /** The total shown takes the card amount from the legacy card column when it is non-zero,
      else from debit + credit; note, PIX and cash always count; null reads as 0. */
  lemma HistoryTotalShown(item: HistoryItem)
    ensures var l := item.line;
            var card := if OrZero(l.valorCartao) != 0 then OrZero(l.valorCartao)
                        else OrZero(l.debito) + OrZero(l.credito);
            && HistoryRow(item).totalInformado == card + OrZero(l.nota) + OrZero(l.pix) + OrZero(l.dinheiro)
            && HistoryRowOf(item).totalInformado == HistoryRow(item).totalInformado
  {
  }

  /** The embedded date and shift name are shown when present and non-empty, and "" and
      "N/A" otherwise. */
  lemma HistoryLabelsShown(item: HistoryItem)
    ensures item.fechamento.None? ==> HistoryRow(item).data == "" && HistoryRow(item).turno == "N/A"
    ensures item.fechamento.Some? ==>
              && HistoryRow(item).data == StrOr(item.fechamento.value.data, "")
              && (item.fechamento.value.turno.None? ==> HistoryRow(item).turno == "N/A")
              && (item.fechamento.value.turno.Some? ==>
                    HistoryRow(item).turno == StrOr(item.fechamento.value.turno.value.nome, "N/A"))
  {
  }

  /** As written, a row whose envelope is embedded with a date and a named shift still
      shows "" and "N/A": the embed sits under `fechamento`, the map reads `Fechamento`. */
  lemma LabelsLostAsWritten(item: HistoryItem, data: string, nome: string)
    requires item.fechamento == Some(FechamentoEmbed(Some(data), Some(TurnoEmbed(Some(nome)))))
    requires data != "" && nome != "" && nome != "N/A"
    ensures HistoryRow(item).data == data && HistoryRow(item).turno == nome
    ensures HistoryRowOf(item).data != HistoryRow(item).data
    ensures HistoryRowOf(item).turno != HistoryRow(item).turno
  {
    HistoryLabelsShown(item);
  }

  /** Both versions agree on everything but the labels whenever the line carries a
      difference of its own or its card money sits in the legacy card column. */
  lemma HistoryVersionsAgree(item: HistoryItem)
    requires OrZero(item.line.diferencaCalculada) != 0 || CardTotal(item.line) == OrZero(item.line.valorCartao)
    ensures HistoryRowOf(item) == HistoryRow(item).(data := "", turno := "N/A")
  {
  }

  /** The line a mobile closing writes, shown in the history. A closing with no declared
      shortfall is shown with difference "meter reading minus everything declared", and
      it is "ok" exactly when the declared money covers the meter reading. */
  lemma ClosingLineShown(input: ClosingInput, id: nat, fechamentoId: nat, frentistaId: int,
                         fechamento: Option<FechamentoEmbed>)
    requires input.faltaCaixa == 0
    ensures var r := HistoryRow(HistoryItem(NewLine(id, input, fechamentoId, frentistaId), fechamento));
            && r.totalInformado == Informed(input)
            && r.diferenca == input.encerrante - Informed(input)
            && (r.status == Ok <==> input.encerrante == Informed(input))
  {
  }

  /** As written, the same line is shown with its debit and credit left out of the
      difference: a balanced closing paid by card is shown as divergent. */
  lemma ClosingLineShownAsWritten(input: ClosingInput, id: nat, fechamentoId: nat, frentistaId: int,
                                  fechamento: Option<FechamentoEmbed>)
    requires input.faltaCaixa == 0
    ensures var r := HistoryRowOf(HistoryItem(NewLine(id, input, fechamentoId, frentistaId), fechamento));
            r.diferenca == input.encerrante - Informed(input) + input.debito + input.credito
  {
  }

  /** The discrepancy on concrete closings: an amount paid entirely by card (say 100 by
      debit card), a meter reading of the same amount and no shortfall. As written the
      history shows a difference of that amount and "divergente"; as intended, 0 and "ok". */
  lemma CardClosingShownDivergent(input: ClosingInput, id: nat, fechamentoId: nat, frentistaId: int,
                                  fechamento: Option<FechamentoEmbed>)
    requires input.debito + input.credito > 0 && input.nota == input.pix == input.dinheiro == 0
    requires input.encerrante == input.debito + input.credito && input.faltaCaixa == 0
    ensures var item := HistoryItem(NewLine(id, input, fechamentoId, frentistaId), fechamento);
            && HistoryRowOf(item).diferenca == input.encerrante && HistoryRowOf(item).status == Divergente
            && HistoryRow(item).diferenca == 0 && HistoryRow(item).status == Ok
  {
    ClosingLineShown(input, id, fechamentoId, frentistaId, fechamento);
    ClosingLineShownAsWritten(input, id, fechamentoId, frentistaId, fechamento);
  }
}
