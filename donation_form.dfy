/** The public donation form: the amount and phone input masks, the
    per-keystroke update of the form state and the checks run on submit. */
module DonationForm {
  import opened Text
  import opened JsNumbers
  import opened Currency

  /** numbers.replace(/(\d{2})(\d{k})(\d{0,4})/, "($1) $2-$3") on a digit
      string long enough for the pattern to match at its start: the third
      group takes up to four digits and whatever follows it is kept. */
  function PhoneMask(n: string, k: nat): string
    requires |n| >= 2 + k
  {
    var rest := n[2 + k..];
    var m := if |rest| < 4 then |rest| else 4;
    "(" + n[..2] + ") " + n[2..2 + k] + "-" + rest[..m] + rest[m..]
  }

  /** The same replace on any digit string: without six (or seven) digits
      the pattern does not match and the text comes back unchanged. */
  function PhoneReplace(n: string, k: nat): string {
    if |n| >= 2 + k then PhoneMask(n, k) else n
  }

  /** formatPhone: up to ten digits use a four-digit middle group, more
      digits a five-digit one; the result is trimmed. */
  function FormatPhone(s: string): string {
    PhoneOfDigits(Digits(s))
  }

  function PhoneOfDigits(n: string): string {
    if |n| <= 10 then Trim(PhoneReplace(n, 4)) else Trim(PhoneReplace(n, 5))
  }

  lemma PhoneMaskText(n: string, k: nat)
    requires |n| >= 2 + k
    ensures PhoneMask(n, k) == PhoneText(n[..2], n[2..2 + k], n[2 + k..])
  {
    var rest := n[2 + k..];
    var m := if |rest| < 4 then |rest| else 4;
    assert rest[..m] + rest[m..] == rest;
  }

  /** The masked text starts with "(" and ends with a digit or "-", so trim
      never changes it. */
  lemma PhoneMaskTrimmed(n: string, k: nat)
    requires AllDigits(n) && |n| >= 2 + k
    ensures Trim(PhoneMask(n, k)) == PhoneMask(n, k)
  {
    PhoneMaskText(n, k);
    var r := PhoneMask(n, k);
    assert r[0] == '(';
    if |n| == 2 + k {
      assert r[|r| - 1] == '-';
    } else {
      assert r[|r| - 1] == n[|n| - 1];
    }
    TrimNoOp(r);
  }

  lemma DigitsTrimmed(n: string)
    requires AllDigits(n)
    ensures Trim(n) == n
  {
    TrimNoOp(n);
  }

  /** The three shapes formatPhone produces, by the number of digits. */
  lemma FormatPhoneShape(s: string)
    ensures var n := Digits(s); var r := FormatPhone(s);
      (|n| < 6 ==> r == n)
      && (6 <= |n| <= 10 ==> r == PhoneText(n[..2], n[2..6], n[6..]))
      && (|n| >= 11 ==> r == PhoneText(n[..2], n[2..7], n[7..11]) + n[11..])
  {
    var n := Digits(s);
    if |n| < 6 {
      ShortPhone(n);
    } else if |n| <= 10 {
      LandlinePhone(n);
    } else {
      MobilePhone(n);
    }
  }

  lemma ShortPhone(n: string)
    requires AllDigits(n) && |n| < 6
    ensures PhoneOfDigits(n) == n
  {
    DigitsTrimmed(n);
  }

  lemma LandlinePhone(n: string)
    requires AllDigits(n) && 6 <= |n| <= 10
    ensures PhoneOfDigits(n) == PhoneText(n[..2], n[2..6], n[6..])
  {
    PhoneMaskTrimmed(n, 4);
    PhoneMaskText(n, 4);
  }

  lemma MobilePhone(n: string)
    requires AllDigits(n) && |n| >= 11
    ensures PhoneOfDigits(n) == PhoneText(n[..2], n[2..7], n[7..11]) + n[11..]
  {
    PhoneMaskTrimmed(n, 5);
    LongPhoneText(n);
  }

  /** "(a) b-c". */
  function PhoneText(a: string, b: string, c: string): string {
    "(" + a + ") " + b + "-" + c
  }

  lemma LongPhoneText(n: string)
    requires |n| >= 11
    ensures PhoneMask(n, 5) == PhoneText(n[..2], n[2..7], n[7..11]) + n[11..]
  {
    PhoneMaskText(n, 5);
    assert n[7..] == n[7..11] + n[11..];
  }

  lemma PhoneTextDigits(a: string, b: string, c: string)
    requires AllDigits(a) && AllDigits(b) && AllDigits(c)
    ensures Digits(PhoneText(a, b, c)) == a + b + c
  {
    var t1 := "(" + a;
    AppendDigits("(", a);
    var t2 := t1 + ") ";
    AppendNonDigits(t1, ") ");
    var t3 := t2 + b;
    AppendDigits(t2, b);
    var t4 := t3 + "-";
    AppendNonDigits(t3, "-");
    AppendDigits(t4, c);
    assert PhoneText(a, b, c) == t4 + c;
  }

  lemma AppendDigits(x: string, y: string)
    requires AllDigits(y)
    ensures Digits(x + y) == Digits(x) + y
  {
    DigitsConcat(x, y);
    DigitsOfDigits(y);
  }

  lemma AppendNonDigits(x: string, y: string)
    requires forall i :: 0 <= i < |y| ==> !IsDigit(y[i])
    ensures Digits(x + y) == Digits(x)
  {
    DigitsConcat(x, y);
    DigitsOfNonDigits(y);
  }

  lemma DigitsSlice(n: string, i: nat, j: nat)
    requires AllDigits(n) && i <= j <= |n|
    ensures AllDigits(n[i..j])
  {
    assert forall x :: 0 <= x < j - i ==> n[i..j][x] == n[i + x];
  }

  lemma MaskDigits(n: string, k: nat)
    requires AllDigits(n) && |n| >= 2 + k
    ensures Digits(PhoneMask(n, k)) == n
  {
    PhoneMaskText(n, k);
    DigitsSlice(n, 0, 2);
    DigitsSlice(n, 2, 2 + k);
    DigitsSlice(n, 2 + k, |n|);
    assert n[2 + k..] == n[2 + k..|n|];
    PhoneTextDigits(n[..2], n[2..2 + k], n[2 + k..]);
    assert n[..2] + n[2..2 + k] + n[2 + k..] == n;
  }

  /** formatPhone keeps exactly the digits of its input, in order. */
  lemma FormatPhoneDigits(s: string)
    ensures Digits(FormatPhone(s)) == Digits(s)
  {
    var n := Digits(s);
    if |n| < 6 {
      DigitsTrimmed(n);
      DigitsOfDigits(n);
    } else if |n| <= 10 {
      PhoneMaskTrimmed(n, 4);
      MaskDigits(n, 4);
    } else {
      PhoneMaskTrimmed(n, 5);
      MaskDigits(n, 5);
    }
  }

  /** Masking an already masked phone changes nothing. */
  lemma FormatPhoneIdempotent(s: string)
    ensures FormatPhone(FormatPhone(s)) == FormatPhone(s)
  {
    FormatPhoneDigits(s);
  }

  /** The form's state record. */
  datatype FormData = FormData(name: string, email: string, phone: string, steamId: string, amount: string)

  /** The `name` attribute of the input that fired a change event. */
  datatype Field = Name | Email | Phone | SteamId | Amount

  /** formData after a change event on `field`: only that field changes;
      amount and phone are masked, the others are stored as typed. */
  function Changed(d: FormData, field: Field, value: string): FormData {
    match field
    case Amount => d.(amount := FormatCurrency(value))
    case Phone => d.(phone := FormatPhone(value))
    case Name => d.(name := value)
    case Email => d.(email := value)
    case SteamId => d.(steamId := value)
  }

  /** The amount and phone stored in the state are always masked texts. */
  predicate Masked(d: FormData) {
    FormatCurrency(d.amount) == d.amount && FormatPhone(d.phone) == d.phone
  }

  /** A change event keeps the stored amount and phone masked. */
  lemma ChangedMasked(d: FormData, field: Field, value: string)
    requires Masked(d)
    ensures Masked(Changed(d, field, value))
  {
    if field == Amount {
      FormatCurrencyIdempotent(value);
    } else if field == Phone {
      FormatPhoneIdempotent(value);
    }
  }

  /** The test /\S+@\S+\.\S+/: somewhere in s a non-space, "@", at least one
      non-space, ".", and a non-space follow each other with no space in
      between. */
  predicate LooseEmail(s: string) {
    exists a, c :: 0 < a && a + 1 < c && c + 1 < |s| && s[a] == '@' && s[c] == '.' && NoSpace(s[a - 1..c + 2])
  }

  /** The outcome of a submit check: accepted, or rejected with the message
      the toast shows. */
  datatype Verdict = Accepted | Rejected(message: string)

  const MissingFields := "Preencha todos os campos obrigatórios!"
  const InvalidEmail := "E-mail inválido!"
  const AmountNotPositive := "Valor deve ser maior que zero!"

  /** validateForm: the first check that fails decides the message. */
  function ValidateForm(d: FormData): Verdict {
    if d.name == "" || d.email == "" || d.phone == "" || d.steamId == "" || d.amount == "" then
      Rejected(MissingFields)
    else if !LooseEmail(d.email) then Rejected(InvalidEmail)
    else if !IsPositive(ParseMoney(d.amount)) then Rejected(AmountNotPositive)
    else Accepted
  }

  /** The form is accepted exactly when every field is filled, the email has
      the loose shape and the amount parses to a positive number; an empty
      field is reported before anything else. */
  lemma ValidateFormAccepts(d: FormData)
    ensures ValidateForm(d) == Accepted <==>
      (d.name != "" && d.email != "" && d.phone != "" && d.steamId != "" && d.amount != ""
       && LooseEmail(d.email) && IsPositive(ParseMoney(d.amount)))
    ensures ValidateForm(d) == Rejected(MissingFields) <==>
      (d.name == "" || d.email == "" || d.phone == "" || d.steamId == "" || d.amount == "")
  {
  }

  /** For a masked amount the check "parses to more than zero" means "at
      least one centavo was typed": "0,00" is refused. */
  lemma MaskedAmountPositive(typed: string)
    requires Digits(typed) != []
    ensures IsPositive(ParseMoney(FormatCurrency(typed))) <==> TypedCentavos(typed) >= 1
  {
    ParseFormatMoney(TypedCentavos(typed));
  }

  /** The form component: its state record and whether the QR code is
      shown. */
  class Form {
    var data: FormData
    var showQrCode: bool

    predicate Valid()
      reads this
    {
      Masked(data)
    }

    constructor ()
      ensures data == FormData("", "", "", "", "") && !showQrCode
      ensures Valid()
    {
      data := FormData("", "", "", "", "");
      showQrCode := false;
      assert Trim("") == "";
    }

    /** handleChange: one field of the record is replaced. */
    method HandleChange(field: Field, value: string)
      requires Valid()
      modifies this
      ensures data == Changed(old(data), field, value)
      ensures showQrCode == old(showQrCode)
      ensures Valid()
    {
      ChangedMasked(data, field, value);
      data := Changed(data, field, value);
    }

    /** handleSubmit: the QR code is shown when the form is accepted; a
        rejected form leaves the state as it was. */
    method HandleSubmit() returns (v: Verdict)
      modifies this
      ensures v == ValidateForm(data) && data == old(data)
      ensures showQrCode == (old(showQrCode) || v == Accepted)
    {
      v := ValidateForm(data);
      if v == Accepted {
        showQrCode := true;
      }
    }
  }
}
