/** The admin form for a streamer: required-field and email rules, the row
    saved from the form values, and the values the form is filled with when
    a stored streamer is edited. */
module StreamerForm {
  import opened Text
  import opened Db
  import DonationForm

  /** The form values; every field is a text input. */
  datatype FormValues = FormValues(
    nome: string, email: string, telefone: string, steamId: string,
    youtube: string, instagram: string, facebook: string)

  /** The row written to the streamers table. */
  datatype StreamerRow = StreamerRow(
    nome: string, email: string, telefone: Option<string>, steamId: Option<string>,
    youtube: Option<string>, instagram: Option<string>, facebook: Option<string>)

  /** A stored streamer: its id and its row. */
  datatype Streamer = Streamer(id: string, row: StreamerRow)

  const Empty := FormValues("", "", "", "", "", "", "")

  /** streamerData: nome and email as typed, every empty optional field
      null. */
  function ToRow(f: FormValues): StreamerRow {
    StreamerRow(f.nome, f.email, NullIfEmpty(f.telefone), NullIfEmpty(f.steamId),
                NullIfEmpty(f.youtube), NullIfEmpty(f.instagram), NullIfEmpty(f.facebook))
  }

  /** The values the form is reset to: the streamer's, null shown as "", or
      all empty when there is no streamer. */
  function Prefill(s: Option<Streamer>): FormValues {
    if s.None? then Empty
    else
      var r := s.value.row;
      FormValues(r.nome, r.email, EmptyIfNull(r.telefone), EmptyIfNull(r.steamId),
                 EmptyIfNull(r.youtube), EmptyIfNull(r.instagram), EmptyIfNull(r.facebook))
  }

  /** Saving a form and opening the saved streamer for editing shows the
      same values again, whatever they were. */
  lemma PrefillOfSaved(id: string, f: FormValues)
    ensures Prefill(Some(Streamer(id, ToRow(f)))) == f
  {
  }

  /** A stored row is saved back unchanged by an untouched form exactly when
      none of its optional fields holds the empty text. */
  lemma SavedOfPrefill(s: Streamer)
    ensures ToRow(Prefill(Some(s))) == s.row <==>
      (s.row.telefone != Some("") && s.row.steamId != Some("") && s.row.youtube != Some("")
       && s.row.instagram != Some("") && s.row.facebook != Some(""))
  {
    var f := Prefill(Some(s));
    if s.row.telefone == Some("") {
      assert ToRow(f).telefone == None;
    }
    if s.row.steamId == Some("") {
      assert ToRow(f).steamId == None;
    }
    if s.row.youtube == Some("") {
      assert ToRow(f).youtube == None;
    }
    if s.row.instagram == Some("") {
      assert ToRow(f).instagram == None;
    }
    if s.row.facebook == Some("") {
      assert ToRow(f).facebook == None;
    }
  }

  /** [A-Z0-9._%+-] under the i flag. */
  predicate LocalChar(c: char) {
    'A' <= c <= 'Z' || 'a' <= c <= 'z' || '0' <= c <= '9' || c == '.' || c == '_' || c == '%' || c == '+' || c == '-'
  }

  /** [A-Z0-9.-] under the i flag. */
  predicate DomainChar(c: char) {
    'A' <= c <= 'Z' || 'a' <= c <= 'z' || '0' <= c <= '9' || c == '.' || c == '-'
  }

  predicate Letter(c: char) {
    'A' <= c <= 'Z' || 'a' <= c <= 'z'
  }

  /** /^[A-Z0-9._%+-]+@[A-Z0-9.-]+\.[A-Z]{2,}$/i: the whole text is a
      non-empty local part, "@", a non-empty domain, "." and at least two
      letters. */
  predicate StrictEmail(s: string) {
    exists a, c :: 0 < a && a + 1 < c && c + 2 < |s| && s[a] == '@' && s[c] == '.'
      && (forall i :: 0 <= i < a ==> LocalChar(s[i]))
      && (forall i :: a < i < c ==> DomainChar(s[i]))
      && (forall i :: c < i < |s| ==> Letter(s[i]))
  }

  /** The "@" of a strict address is its only one, and the "." before the
      top-level domain is its last ".". */
  lemma StrictEmailSplit(s: string, a: nat, c: nat, a': nat, c': nat)
    requires 0 < a && a + 1 < c && c + 2 < |s| && s[a] == '@' && s[c] == '.'
    requires forall i :: 0 <= i < a ==> LocalChar(s[i])
    requires forall i :: a < i < c ==> DomainChar(s[i])
    requires forall i :: c < i < |s| ==> Letter(s[i])
    requires 0 < a' && a' + 1 < c' && c' + 2 < |s| && s[a'] == '@' && s[c'] == '.'
    requires forall i :: 0 <= i < a' ==> LocalChar(s[i])
    requires forall i :: a' < i < c' ==> DomainChar(s[i])
    requires forall i :: c' < i < |s| ==> Letter(s[i])
    ensures a == a' && c == c'
  {
  }

  /** An address the streamer form accepts also passes the donation form's
      looser test. */
  lemma StrictIsLoose(s: string)
    requires StrictEmail(s)
    ensures DonationForm.LooseEmail(s)
  {
    var a, c :| 0 < a && a + 1 < c && c + 2 < |s| && s[a] == '@' && s[c] == '.'
      && (forall i :: 0 <= i < a ==> LocalChar(s[i]))
      && (forall i :: a < i < c ==> DomainChar(s[i]))
      && (forall i :: c < i < |s| ==> Letter(s[i]));
    StrictNoSpace(s, a, c);
    NoSpaceSlice(s, a - 1, c + 2);
  }

  /** No character a strict address may hold is a space. */
  lemma StrictNoSpace(s: string, a: nat, c: nat)
    requires a < c < |s| && s[a] == '@' && s[c] == '.'
    requires forall i :: 0 <= i < a ==> LocalChar(s[i])
    requires forall i :: a < i < c ==> DomainChar(s[i])
    requires forall i :: c < i < |s| ==> Letter(s[i])
    ensures NoSpace(s)
  {
    forall i | 0 <= i < |s|
      ensures !IsSpace(s[i])
    {
      if i < a {
        assert LocalChar(s[i]);
      } else if a < i < c {
        assert DomainChar(s[i]);
      } else if c < i {
        assert Letter(s[i]);
      }
    }
  }

  lemma NoSpaceSlice(s: string, i: nat, j: nat)
    requires NoSpace(s) && i <= j <= |s|
    ensures NoSpace(s[i..j])
  {
    assert forall x :: 0 <= x < j - i ==> s[i..j][x] == s[i + x];
  }

  /** The converse fails: "a@b.c" passes the loose test, but its top-level
      domain has one letter. */
  lemma LooseIsNotStrict()
    ensures DonationForm.LooseEmail("a@b.c") && !StrictEmail("a@b.c")
  {
    var s := "a@b.c";
    assert s[1] == '@' && s[3] == '.';
    assert NoSpace(s[0..5]);
  }

  /** The field errors react-hook-form reports; the form is sent only when
      there are none. The pattern is not tried on an empty value. */
  datatype Errors = Errors(nome: Option<string>, email: Option<string>)

  function Validate(f: FormValues): (e: Errors)
    ensures e.nome.None? <==> f.nome != ""
    ensures e.email.None? <==> f.email != "" && StrictEmail(f.email)
  {
    Errors(
      if f.nome == "" then Some("Nome é obrigatório") else None,
      if f.email == "" then Some("Email é obrigatório")
      else if !StrictEmail(f.email) then Some("Email inválido")
      else None)
  }

  /** onSubmit's request: an update of the edited streamer's id, or an
      insert. */
  function SaveRequest(editing: Option<Streamer>, f: FormValues): Write<StreamerRow> {
    if editing.Some? then Update(editing.value.id, ToRow(f)) else Insert(ToRow(f))
  }

  /** The whole submit: no request when a field rule fails; otherwise the
      request, and after it the values the form shows: reset() returns to
      the last values given to reset (the prefill) on success, and the
      typed values stay after a failure. */
  datatype SubmitOutcome = Invalid(errors: Errors) | Sent(request: Write<StreamerRow>, after: FormValues)

  function Submit(editing: Option<Streamer>, f: FormValues, saved: bool): SubmitOutcome {
    var e := Validate(f);
    if e.nome.Some? || e.email.Some? then Invalid(e)
    else Sent(SaveRequest(editing, f), if saved then Prefill(editing) else f)
  }

  /** A request is sent exactly when nome is filled and email is a strict
      address; it writes the form's row, under the edited streamer's id when
      there is one; after a successful save a new form is empty again and an
      edited one shows the streamer it edits. */
  lemma SubmitSends(editing: Option<Streamer>, f: FormValues, saved: bool)
    ensures var o := Submit(editing, f, saved);
      (o.Sent? <==> f.nome != "" && StrictEmail(f.email))
      && (o.Sent? ==>
        o.request.row == ToRow(f)
        && (o.request.Update? <==> editing.Some?)
        && (o.request.Update? ==> o.request.id == editing.value.id)
        && (saved && editing.None? ==> o.after == Empty)
        && (saved && editing.Some? ==> o.after == Prefill(editing))
        && (!saved ==> o.after == f))
  {
  }
}
