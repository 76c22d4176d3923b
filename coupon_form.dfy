/** The form a streamer uses to create or edit a discount coupon: a coupon
    takes either a fixed value or a percentage, never both. */
module CouponForm {
  import opened Text
  import opened JsNumbers
  import opened Db

  /** A stored coupon; dates are ISO 8601 timestamps as the database
      returns them. */
  datatype Coupon = Coupon(
    id: Option<string>, streamerId: string, nome: string, codigo: string,
    dataInicio: string, dataFim: string, valor: Option<Decimal>, porcentagem: Option<Decimal>)

  /** The row handed to insert or update. */
  datatype CouponRow = CouponRow(
    streamerId: string, nome: string, codigo: string, dataInicio: string, dataFim: string,
    valor: Option<JsNumber>, porcentagem: Option<JsNumber>)

  const MissingFields := "Preencha todos os campos obrigatórios"
  const NeitherAmount := "Preencha o valor ou a porcentagem"
  const BothAmounts := "Preencha apenas o valor OU a porcentagem, não ambos"
  /** The message the failed save shows when a date cannot be read: the
      RangeError of toISOString, after the form's own prefix. */
  const InvalidDate := "Erro ao salvar cupom: Invalid time value"

  /** Rejected: refused by a check before anything is sent. Failed: the
      save threw before reaching the database. */
  datatype SubmitResult = Rejected(message: string) | Failed(message: string) | Save(write: Write<CouponRow>)

  /** The value a date input holds: "YYYY-MM-DD". */
  predicate DateShape(s: string) {
    |s| == 10 && s[4] == '-' && s[7] == '-'
    && AllDigits(s[..4]) && AllDigits(s[5..7]) && AllDigits(s[8..])
  }

  /** new Date(s).toISOString(): a date-only ISO string is read as UTC
      midnight; anything else is an invalid date. */
  function DateToIso(s: string): Option<string> {
    if DateShape(s) then Some(s + "T00:00:00.000Z") else None
  }

  /** The date part of a stored timestamp: `iso?.split('T')[0] || ""`. */
  function DatePart(iso: string): string {
    Split(iso, 'T')[0]
  }

  /** `x?.toString() || ""` on a nullable number. */
  function NumberText(x: Option<Decimal>): string {
    if x.Some? then DecimalToString(x.value) else ""
  }

  /** `x ? parseFloat(x) : null`. */
  function ParseIfFilled(s: string): (r: Option<JsNumber>)
    ensures r.Some? <==> s != ""
  {
    if s != "" then Some(ParseFloat(s)) else None
  }

  /** handleSubmit: the three checks in order, then the row; an unreadable
      date makes the save throw. */
  function Submit(streamerId: string, couponId: Option<string>, nome: string, codigo: string,
                  dataInicio: string, dataFim: string, valor: string, porcentagem: string): SubmitResult
  {
    if nome == "" || codigo == "" || dataInicio == "" || dataFim == "" then Rejected(MissingFields)
    else if valor == "" && porcentagem == "" then Rejected(NeitherAmount)
    else if valor != "" && porcentagem != "" then Rejected(BothAmounts)
    else
      var inicio := DateToIso(dataInicio);
      var fim := DateToIso(dataFim);
      if inicio.None? || fim.None? then Failed(InvalidDate)
      else
        var row := CouponRow(streamerId, nome, codigo, inicio.value, fim.value,
                             ParseIfFilled(valor), ParseIfFilled(porcentagem));
        Save(WriteFor(couponId, row))
  }

  /** A submit saves exactly when the required fields are filled, exactly
      one of value and percentage is, and both dates are readable; the saved
      coupon then has exactly one of the two amounts, belongs to the form's
      streamer and updates the coupon's own id when there is one. */
  lemma SubmitSaves(streamerId: string, couponId: Option<string>, nome: string, codigo: string,
                    dataInicio: string, dataFim: string, valor: string, porcentagem: string)
    ensures var r := Submit(streamerId, couponId, nome, codigo, dataInicio, dataFim, valor, porcentagem);
      (r.Save? <==>
        nome != "" && codigo != "" && DateShape(dataInicio) && DateShape(dataFim)
        && (valor == "" <==> porcentagem != ""))
      && (r.Save? ==>
        var row := r.write.row;
        row.valor.Some? != row.porcentagem.Some?
        && (row.valor.Some? ==> row.valor.value == ParseFloat(valor))
        && (row.porcentagem.Some? ==> row.porcentagem.value == ParseFloat(porcentagem))
        && row.streamerId == streamerId && row.nome == nome && row.codigo == codigo
        && row.dataInicio == dataInicio + "T00:00:00.000Z" && row.dataFim == dataFim + "T00:00:00.000Z"
        && (r.write.Update? <==> couponId.Some? && couponId.value != "")
        && (r.write.Update? ==> r.write.id == couponId.value))
  {
    if DateShape(dataInicio) {
      assert dataInicio != "";
    }
    if DateShape(dataFim) {
      assert dataFim != "";
    }
  }

  /** Both amounts empty and both filled are refused with their own
      messages, once the required fields are present. */
  lemma SubmitRejectsAmounts(streamerId: string, couponId: Option<string>, nome: string, codigo: string,
                             dataInicio: string, dataFim: string, valor: string, porcentagem: string)
    requires nome != "" && codigo != "" && dataInicio != "" && dataFim != ""
    ensures var r := Submit(streamerId, couponId, nome, codigo, dataInicio, dataFim, valor, porcentagem);
      (r == Rejected(NeitherAmount) <==> valor == "" && porcentagem == "")
      && (r == Rejected(BothAmounts) <==> valor != "" && porcentagem != "")
  {
  }

  lemma DateShapeHasNoT(s: string)
    requires DateShape(s)
    ensures 'T' !in s
  {
    forall i | 0 <= i < |s|
      ensures s[i] != 'T'
    {
      if i < 4 {
        assert s[..4][i] == s[i];
      } else if 4 < i < 7 {
        assert s[5..7][i - 5] == s[i];
      } else if 7 < i {
        assert s[8..][i - 8] == s[i];
      }
    }
  }

  /** A date saved from the form shows up unchanged when the coupon is
      opened for editing. */
  lemma DatePartOfSaved(s: string)
    requires DateShape(s)
    ensures DatePart(DateToIso(s).value) == s
  {
    var iso := s + "T00:00:00.000Z";
    DateShapeHasNoT(s);
    SplitHeadTail(iso, 'T');
    IndexOfAfter(s, "T00:00:00.000Z", 'T');
    assert iso[..|s|] == s;
  }

  lemma {:induction false} IndexOfAfter(a: string, b: string, c: char)
    requires c !in a && b != [] && b[0] == c
    ensures IndexOf(a + b, c) == |a|
  {
    if a != [] {
      assert (a + b)[1..] == a[1..] + b;
      IndexOfAfter(a[1..], b, c);
    }
  }

  /** The value field of an edited coupon reads back as the stored value. */
  lemma NumberTextReadsBack(x: Decimal)
    ensures NumberText(Some(x)) != ""
    ensures ParseFloat(NumberText(Some(x))).Finite?
    ensures SameValue(ParseFloat(NumberText(Some(x))).value, x)
  {
    DecimalToStringRoundTrip(x);
  }

  /** The two linked amount fields of the form. */
  class Amounts {
    var valor: string
    var porcentagem: string

    /** The fields as they open: from the stored coupon, or empty. */
    constructor (coupon: Option<Coupon>)
      ensures valor == (if coupon.Some? then NumberText(coupon.value.valor) else "")
      ensures porcentagem == (if coupon.Some? then NumberText(coupon.value.porcentagem) else "")
    {
      valor := if coupon.Some? then NumberText(coupon.value.valor) else "";
      porcentagem := if coupon.Some? then NumberText(coupon.value.porcentagem) else "";
    }

    /** handleValorChange: a non-empty value clears the percentage; after it
        at most one of the two is filled. */
    method HandleValorChange(value: string)
      modifies this
      ensures valor == value
      ensures porcentagem == (if value != "" then "" else old(porcentagem))
      ensures valor == "" || porcentagem == ""
    {
      valor := value;
      if value != "" {
        porcentagem := "";
      }
    }

    /** handlePorcentagemChange: a non-empty percentage clears the value. */
    method HandlePorcentagemChange(value: string)
      modifies this
      ensures porcentagem == value
      ensures valor == (if value != "" then "" else old(valor))
      ensures valor == "" || porcentagem == ""
    {
      porcentagem := value;
      if value != "" {
        valor := "";
      }
    }
  }
}
