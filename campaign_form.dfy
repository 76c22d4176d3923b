/** The form a streamer uses to create or edit a campaign: the prefill from
    a stored campaign, the amount mask, the checks on submit and the row
    that is saved. Dates are instants, written as integer timestamps. */
module CampaignForm {
  import opened Text
  import opened JsNumbers
  import opened Currency
  import opened Db

  /** A stored campaign; its value is in centavos. */
  datatype Campaign = Campaign(
    id: Option<string>, streamerId: string, nome: string, descricao: Option<string>,
    dataInicio: int, dataFim: int, valor: int)

  /** The row handed to insert or update. */
  datatype CampaignRow = CampaignRow(
    streamerId: string, nome: string, descricao: Option<string>,
    dataInicio: int, dataFim: int, valor: JsNumber)

  const MissingFields := "Preencha todos os campos obrigatórios"
  const EndNotAfterStart := "A data de fim deve ser posterior à data de início"
  const ValueNotPositive := "O valor deve ser maior que zero"

  datatype SubmitResult = Rejected(message: string) | Save(write: Write<CampaignRow>)

  /** The initial value of the amount field: a stored non-zero value written
      in pt-BR with two decimals, otherwise "". */
  function PrefillValor(campaign: Option<Campaign>): string {
    if campaign.Some? && campaign.value.valor != 0 then FormatMoney(campaign.value.valor) else ""
  }

  /** handleSubmit's checks, in order, then the row and the request: an
      update of the campaign's id when it has one, else an insert. */
  function Submit(streamerId: string, campaignId: Option<string>, nome: string, descricao: string,
                  dataInicio: Option<int>, dataFim: Option<int>, valor: string): SubmitResult
  {
    if nome == "" || dataInicio.None? || dataFim.None? || valor == "" then Rejected(MissingFields)
    else if dataFim.value <= dataInicio.value then Rejected(EndNotAfterStart)
    else
      var valorNum := ParseMoney(valor);
      if !IsPositive(valorNum) then Rejected(ValueNotPositive)
      else
        var row := CampaignRow(streamerId, nome, NullIfEmpty(descricao), dataInicio.value, dataFim.value, valorNum);
        Save(WriteFor(campaignId, row))
  }

  /** A submit saves exactly when every required field is present, the end
      is after the start and the amount parses to a positive number; what it
      saves belongs to the form's streamer, ends after it starts, carries
      that positive amount, has null for an empty description, and updates
      the campaign's own id when there is one. */
  lemma SubmitSaves(streamerId: string, campaignId: Option<string>, nome: string, descricao: string,
                    dataInicio: Option<int>, dataFim: Option<int>, valor: string)
    ensures var r := Submit(streamerId, campaignId, nome, descricao, dataInicio, dataFim, valor);
      (r.Save? <==>
        nome != "" && dataInicio.Some? && dataFim.Some? && valor != ""
        && dataFim.value > dataInicio.value && IsPositive(ParseMoney(valor)))
      && (r.Save? ==>
        var row := r.write.row;
        row.streamerId == streamerId && row.nome == nome
        && row.dataInicio == dataInicio.value && row.dataFim == dataFim.value
        && row.dataInicio < row.dataFim
        && row.valor == ParseMoney(valor) && IsPositive(row.valor)
        && (row.descricao.None? <==> descricao == "")
        && (r.write.Update? <==> campaignId.Some? && campaignId.value != "")
        && (r.write.Update? ==> r.write.id == campaignId.value))
  {
  }

  /** Every rejection message names the first check that failed. */
  lemma SubmitRejects(streamerId: string, campaignId: Option<string>, nome: string, descricao: string,
                      dataInicio: Option<int>, dataFim: Option<int>, valor: string)
    ensures var r := Submit(streamerId, campaignId, nome, descricao, dataInicio, dataFim, valor);
      (r == Rejected(MissingFields) <==> nome == "" || dataInicio.None? || dataFim.None? || valor == "")
      && (r == Rejected(EndNotAfterStart) <==>
            nome != "" && dataInicio.Some? && dataFim.Some? && valor != "" && dataFim.value <= dataInicio.value)
  {
  }

  /** The amount field of an edited campaign reads back as the stored value. */
  lemma PrefillValorReadsBack(c: Campaign)
    requires c.valor != 0
    ensures ParseMoney(PrefillValor(Some(c))) == Finite(Decimal(c.valor, -2))
  {
    ParseFormatMoney(c.valor);
  }

  /** Submitting an edited campaign without touching the form updates it
      with the same values, the description "" becoming null. */
  lemma ResubmitUnchanged(c: Campaign)
    requires c.id.Some? && c.id.value != ""
    requires c.nome != "" && c.dataInicio < c.dataFim && c.valor > 0
    ensures Submit(c.streamerId, c.id, c.nome, EmptyIfNull(c.descricao), Some(c.dataInicio), Some(c.dataFim),
                   PrefillValor(Some(c)))
      == Save(Update(c.id.value, CampaignRow(c.streamerId, c.nome,
                NullIfEmpty(EmptyIfNull(c.descricao)), c.dataInicio, c.dataFim, Finite(Decimal(c.valor, -2)))))
  {
    PrefillValorReadsBack(c);
    assert PrefillValor(Some(c)) != "" by {
      assert FormatMoney(c.valor) != "";
    }
  }

  /** The form's state. */
  class Form {
    const streamerId: string
    const campaignId: Option<string>
    var nome: string
    var descricao: string
    var dataInicio: Option<int>
    var dataFim: Option<int>
    var valor: string
    var isSubmitting: bool

    /** The state a form opens with, empty or filled from the campaign. */
    constructor (streamerId: string, campaign: Option<Campaign>)
      ensures this.streamerId == streamerId
      ensures campaignId == (if campaign.Some? then campaign.value.id else None)
      ensures nome == (if campaign.Some? then campaign.value.nome else "")
      ensures descricao == (if campaign.Some? then EmptyIfNull(campaign.value.descricao) else "")
      ensures dataInicio == (if campaign.Some? then Some(campaign.value.dataInicio) else None)
      ensures dataFim == (if campaign.Some? then Some(campaign.value.dataFim) else None)
      ensures valor == PrefillValor(campaign)
      ensures !isSubmitting
    {
      this.streamerId := streamerId;
      campaignId := if campaign.Some? then campaign.value.id else None;
      nome := if campaign.Some? then campaign.value.nome else "";
      descricao := if campaign.Some? then EmptyIfNull(campaign.value.descricao) else "";
      dataInicio := if campaign.Some? then Some(campaign.value.dataInicio) else None;
      dataFim := if campaign.Some? then Some(campaign.value.dataFim) else None;
      valor := PrefillValor(campaign);
      isSubmitting := false;
    }

    /** handleValorChange: the amount field shows the masked text. */
    method HandleValorChange(typed: string)
      modifies this
      ensures valor == FormatCurrency(typed)
      ensures nome == old(nome) && descricao == old(descricao) && dataInicio == old(dataInicio)
      ensures dataFim == old(dataFim) && isSubmitting == old(isSubmitting)
    {
      valor := FormatCurrency(typed);
    }

    /** The synchronous part of handleSubmit: the checks, then, when they
        pass, the busy flag is raised and the request is returned. */
    method BeginSubmit() returns (r: SubmitResult)
      modifies this
      ensures r == Submit(streamerId, campaignId, old(nome), old(descricao), old(dataInicio), old(dataFim), old(valor))
      ensures isSubmitting == (old(isSubmitting) || r.Save?)
      ensures nome == old(nome) && descricao == old(descricao) && dataInicio == old(dataInicio)
      ensures dataFim == old(dataFim) && valor == old(valor)
    {
      r := Submit(streamerId, campaignId, nome, descricao, dataInicio, dataFim, valor);
      if r.Save? {
        isSubmitting := true;
      }
    }

    /** The `finally` block, whatever the request's outcome. */
    method EndSubmit()
      modifies this
      ensures !isSubmitting
      ensures nome == old(nome) && descricao == old(descricao) && dataInicio == old(dataInicio)
      ensures dataFim == old(dataFim) && valor == old(valor)
    {
      isSubmitting := false;
    }
  }
}
