/** The create-pix-payment edge function: the payment request it builds
    for Mercado Pago from the donation form's fields, the QR data it returns,
    and the donation row it stores. The gateway's reply and the database
    outcome reach the model as parameters. */
module CreatePixPayment {
  import opened Text
  import opened JsNumbers
  import opened Db

  const DefaultDescription := "Doação Setor 7 Hardcore PVE"
  const MissingToken := "Mercado Pago Access Token não configurado"
  const GatewayFailed := "Erro ao criar pagamento PIX"

  /** A field of the JSON body that is a text, null, or not there at all. */
  datatype JsonText = Missing | Null | Text(text: string)

  /** The JSON body of the request. A phone or description that is null or
      not there is None: the handler treats both alike. The Steam ID keeps
      the difference, which its template shows. */
  datatype Request = Request(name: string, email: string, phone: Option<string>, steamId: JsonText,
                             amount: string, description: Option<string>)

  /** `x || ''` on an optional text. */
  function OrEmpty(x: Option<string>): string {
    if x.Some? then x.value else ""
  }

  /** `x || ''` on a JSON field. */
  function TextOrEmpty(x: JsonText): string {
    if x.Text? then x.text else ""
  }

  /** `${x}` in a template: a missing field prints as "undefined", a null
      one as "null". */
  function Interpolated(x: JsonText): string {
    match x
    case Missing => "undefined"
    case Null => "null"
    case Text(s) => s
  }

  /** The item's description, naming the donor and the Steam ID. */
  function ItemDescription(name: string, steamId: JsonText): string {
    "Doação de " + name + " - Steam ID: " + Interpolated(steamId)
  }

  /** The column a JSON field fills in the row: null unless it is a text. */
  function Column(x: JsonText): Option<string> {
    if x.Text? then Some(x.text) else None
  }

  /** `description || 'Doação Setor 7 Hardcore PVE'`. */
  function Description(d: Option<string>): (r: string)
    ensures r != ""
    ensures d.Some? && d.value != "" ==> r == d.value
    ensures (d.None? || d.value == "") ==> r == DefaultDescription
  {
    if d.Some? && d.value != "" then d.value else DefaultDescription
  }

  /** `name.split(' ')[0]`. */
  function FirstName(name: string): string {
    Split(name, ' ')[0]
  }

  /** `name.split(' ').slice(1).join(' ') || name.split(' ')[0]`. */
  function LastName(name: string): string {
    var rest := Join(Split(name, ' ')[1..], " ");
    if rest != "" then rest else FirstName(name)
  }

  /** The first name is the text before the first space. */
  lemma FirstNameBeforeSpace(name: string)
    ensures FirstName(name) == name[..IndexOf(name, ' ')]
  {
    SplitHead(name, ' ');
  }

  /** The last name is the text after the first space, or the first name
      again when nothing follows it. */
  lemma LastNameAfterSpace(name: string)
    ensures var i := IndexOf(name, ' ');
      LastName(name) == (if i + 1 < |name| then name[i + 1..] else FirstName(name))
  {
    SplitTail(name, ' ');
  }

  /** When something follows the first space, first name, a space and last
      name give the name back. */
  lemma NameRejoined(name: string)
    requires IndexOf(name, ' ') + 1 < |name|
    ensures FirstName(name) + " " + LastName(name) == name
  {
    var i := IndexOf(name, ' ');
    FirstNameBeforeSpace(name);
    LastNameAfterSpace(name);
    Rejoin(name, i, FirstName(name), LastName(name));
  }

  lemma Rejoin(s: string, i: nat, a: string, b: string)
    requires i + 1 < |s| && s[i] == ' ' && a == s[..i] && b == s[i + 1..]
    ensures a + " " + b == s
  {
    assert s == s[..i] + [s[i]] + s[i + 1..];
  }

  /** A name without spaces is both the first and the last name. */
  lemma SingleName(name: string)
    requires ' ' !in name
    ensures FirstName(name) == name && LastName(name) == name
  {
    FirstNameBeforeSpace(name);
    LastNameAfterSpace(name);
    assert name[..|name|] == name;
  }

  /** `phone ? phone.replace(/\D/g, '').substring(0, 2) : ''`. */
  function AreaCode(phone: Option<string>): string {
    if phone.Some? && phone.value != "" then
      var d := Digits(phone.value);
      d[..if |d| < 2 then |d| else 2]
    else ""
  }

  /** `phone ? phone.replace(/\D/g, '').substring(2) : ''`. */
  function PhoneNumber(phone: Option<string>): string {
    if phone.Some? && phone.value != "" then
      var d := Digits(phone.value);
      d[if |d| < 2 then |d| else 2..]
    else ""
  }

  /** The area code is at most two digits, and area code then number are
      the phone's digits; both are empty without a phone. */
  lemma PhoneSplit(phone: Option<string>)
    ensures |AreaCode(phone)| <= 2
    ensures phone.Some? && phone.value != "" ==> AreaCode(phone) + PhoneNumber(phone) == Digits(phone.value)
    ensures phone.Some? && phone.value != "" && |Digits(phone.value)| >= 2 ==> |AreaCode(phone)| == 2
    ensures (phone.None? || phone.value == "") ==> AreaCode(phone) == "" && PhoneNumber(phone) == ""
  {
    if phone.Some? && phone.value != "" {
      var d := Digits(phone.value);
      var k := if |d| < 2 then |d| else 2;
      assert d[..k] + d[k..] == d;
    }
  }

  /** The item's description shows the Steam ID as the template prints
      it: its text, "null" for a JSON null, "undefined" when it is missing. */
  lemma SteamIdShown(name: string, steamId: JsonText)
    ensures steamId.Text? ==> ItemDescription(name, steamId) == "Doação de " + name + " - Steam ID: " + steamId.text
    ensures steamId.Null? ==> ItemDescription(name, steamId) == "Doação de " + name + " - Steam ID: null"
    ensures steamId.Missing? ==> ItemDescription(name, steamId) == "Doação de " + name + " - Steam ID: undefined"
  {
  }

  /** The payment's item description is that text, and the payer's
      identification and the metadata hold the Steam ID, or "" when it is
      null or missing. */
  lemma SteamIdInPayment(r: Request)
    ensures PaymentOf(r).itemDescription == ItemDescription(r.name, r.steamId)
    ensures r.steamId.Text? ==> PaymentOf(r).identification == r.steamId.text && PaymentOf(r).metadataSteamId == r.steamId.text
    ensures !r.steamId.Text? ==> PaymentOf(r).identification == "" && PaymentOf(r).metadataSteamId == ""
  {
  }

  /** The payment sent to Mercado Pago, with the fields the model keeps. */
  datatype Payment = Payment(
    transactionAmount: JsNumber, description: string, payerEmail: string,
    firstName: string, lastName: string, identification: string,
    areaCode: string, phoneNumber: string,
    itemTitle: string, itemDescription: string, unitPrice: JsNumber,
    metadataSteamId: string, metadataPhone: string)

  function PaymentOf(r: Request): Payment {
    var amount := ParseFloat(r.amount);
    Payment(amount, Description(r.description), r.email,
            FirstName(r.name), LastName(r.name), TextOrEmpty(r.steamId),
            AreaCode(r.phone), PhoneNumber(r.phone),
            Description(r.description), ItemDescription(r.name, r.steamId), amount,
            TextOrEmpty(r.steamId), OrEmpty(r.phone))
  }

  /** What the gateway answered: whether the HTTP status was ok, its error
      message, and the payment it created. */
  datatype GatewayReply = GatewayReply(ok: bool, message: Option<string>, id: nat, status: string,
                                       qrCode: Option<string>, qrCodeBase64: Option<string>, ticketUrl: Option<string>)

  /** The body of the 200 response. */
  datatype PixData = PixData(qrCode: string, qrCodeBase64: string, ticketUrl: string, paymentId: nat, status: string)

  /** The row inserted into the donations table. */
  datatype DonationRow = DonationRow(
    paymentId: string, name: string, email: string, phone: Option<string>, steamId: Option<string>,
    amount: JsNumber, description: string, status: string,
    qrCode: string, qrCodeBase64: string, ticketUrl: string)

  datatype Response = Ok(pix: PixData) | ServerError(error: string, details: string)

  /** The handler's result: its response, the payment it sent (None when it
      stopped before the gateway), the donation row it tried to insert, and
      whether the row was stored. */
  datatype Outcome = Outcome(response: Response, payment: Option<Payment>, insert: Option<DonationRow>, stored: bool)

  function Failure(message: string): Response {
    ServerError(message, "Error: " + message)
  }

  /** The handler, given the access token, the gateway's reply and whether
      the insert succeeded. */
  function Handle(r: Request, token: Option<string>, reply: GatewayReply, dbSaved: bool): Outcome {
    if token.None? || token.value == "" then Outcome(Failure(MissingToken), None, None, false)
    else
      var payment := PaymentOf(r);
      if !reply.ok then
        Outcome(Failure(if reply.message.Some? && reply.message.value != "" then reply.message.value else GatewayFailed),
                Some(payment), None, false)
      else
        var pix := PixData(OrEmpty(reply.qrCode), OrEmpty(reply.qrCodeBase64), OrEmpty(reply.ticketUrl),
                           reply.id, reply.status);
        var row := DonationRow(NatToString(reply.id), r.name, r.email, r.phone, Column(r.steamId),
                               ParseFloat(r.amount), Description(r.description), reply.status,
                               pix.qrCode, pix.qrCodeBase64, pix.ticketUrl);
        Outcome(Ok(pix), Some(payment), Some(row), dbSaved)
  }

  /** Without a token nothing is sent or stored; after a failed payment no
      donation is stored. A donation row is attempted exactly when there is
      a token and the gateway succeeded, and only then is the response 200. */
  lemma HandleBranches(r: Request, token: Option<string>, reply: GatewayReply, dbSaved: bool)
    ensures var o := Handle(r, token, reply, dbSaved);
      (o.payment.None? <==> token.None? || token.value == "")
      && (o.insert.Some? <==> o.payment.Some? && reply.ok)
      && (o.response.Ok? <==> o.insert.Some?)
      && (o.stored ==> o.insert.Some?)
      && ((token.None? || token.value == "") ==> o.response == Failure(MissingToken))
  {
  }

  /** The database outcome never changes the response. */
  lemma ResponseIgnoresDb(r: Request, token: Option<string>, reply: GatewayReply)
    ensures Handle(r, token, reply, true).response == Handle(r, token, reply, false).response
    ensures Handle(r, token, reply, true).insert == Handle(r, token, reply, false).insert
  {
  }

  /** The amount charged, the item's price and the stored amount are the
      same number; so are the three descriptions; the stored row carries the
      gateway's id, as text that reads back as that id, and its status. */
  lemma SuccessAgrees(r: Request, token: Option<string>, reply: GatewayReply, dbSaved: bool)
    requires token.Some? && token.value != "" && reply.ok
    ensures var o := Handle(r, token, reply, dbSaved);
      o.payment.Some? && o.insert.Some? && o.response.Ok?
      && o.payment.value.transactionAmount == o.payment.value.unitPrice == o.insert.value.amount
      && o.payment.value.description == o.payment.value.itemTitle == o.insert.value.description
      && AllDigits(o.insert.value.paymentId) && DigitsValue(o.insert.value.paymentId) == reply.id
      && o.insert.value.status == reply.status == o.response.pix.status
      && o.response.pix.paymentId == reply.id
      && o.insert.value.qrCode == o.response.pix.qrCode
      && (reply.qrCode.None? ==> o.response.pix.qrCode == "")
      && (reply.qrCodeBase64.None? ==> o.response.pix.qrCodeBase64 == "")
      && (reply.ticketUrl.None? ==> o.response.pix.ticketUrl == "")
  {
  }

  /** A failed payment reports the gateway's message, or the default when it
      gives none. */
  lemma GatewayFailure(r: Request, token: Option<string>, reply: GatewayReply, dbSaved: bool)
    requires token.Some? && token.value != "" && !reply.ok
    ensures var o := Handle(r, token, reply, dbSaved);
      o.insert.None? && !o.stored
      && (reply.message.Some? && reply.message.value != "" ==> o.response == Failure(reply.message.value))
      && ((reply.message.None? || reply.message.value == "") ==> o.response == Failure(GatewayFailed))
  {
  }
}
