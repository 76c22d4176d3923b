# Setor 7 donations: a verified model of the forms, the dashboard and the PIX function

This project models, in Dafny, the logic of the Setor 7 Hardcore PVE donation site. The parts it covers are:

- the public donation form: the amount and phone masks, the per-keystroke state update and the submit checks;
- the streamer campaign, coupon and streamer forms of the admin area: their checks, the rows they save and the values they are prefilled with;
- the server form with its editable MOD list;
- the secrets manager;
- the financial dashboard and the "update all statuses" loop of the admin page;
- the `create-pix-payment` edge function.

Money is exact. A typed amount is a whole number of centavos. Every number that `parseFloat` reads is an exact decimal `mantissa * 10^exponent` (`JsNumbers.Decimal`), or NaN or an infinity. The JavaScript built-ins the code relies on are written out as functions:

- `\d` and `\s`: `Text.IsDigit`, `Text.IsSpace`;
- `replace(/\D/g, "")`, `replace(/\./g, "")` and `replace(",", ".")`;
- `trim`, `split` and `join`;
- `parseFloat`: `JsNumbers.ParseFloat`;
- `Number#toString` of a finite number, always written without exponent: `JsNumbers.DecimalToString`;
- `toLocaleString("pt-BR")` with two decimals: `Currency.FormatMoney`.

The two forms of state in the source are modelled as follows:

- A component whose handlers update state field by field is a `class`: `DonationForm.Form`, `CampaignForm.Form`, `CouponForm.Amounts`, `ServerForm.Form` and `SecretsManager.Manager`. Each method's `ensures` states its whole new state.
- Expression code is a function plus lemmas: masks, validators, row mappings and dashboard sums.

The loop of `handleUpdateAllStatuses` is a `while` loop, proved against `AdminDashboard.CountChanged`.

Database calls, gateway calls and the clock never run in the model. They enter as parameters:

- the id the database returned, or whether an insert or update succeeded;
- the gateway's reply, or one reply per queried donation;
- the current instant;
- the access token.

Modules, one per file: `Text`, `JsNumbers`, `Currency`, `Db` (`Option`, `x || null`, `x || ""`, insert-or-update), `DonationForm`, `CampaignForm`, `CouponForm`, `StreamerForm`, `ServerForm`, `SecretsManager`, `AdminDashboard` and `CreatePixPayment`.

Where the prose description of the system and the code differ, the model follows the code:

- `ServerForm.handleSubmit` always inserts a new server. It has no update path, even when the admin page opens it to edit a server (src/pages/Admin.tsx:1565).
- When the MOD insert fails, the server row stays inserted, and the form keeps its values (`ServerForm.Form.HandleSubmit`).
- The access token of `create-pix-payment` comes from the environment variable `MERCADO_PAGO_ACCESS_TOKEN`.
- `get-mercadopago-order` writes nothing back. So the counter of `handleUpdateAllStatuses` counts gateway statuses that differ from the stored one, not rows that were updated.
- After a successful save, `StreamerForm` calls `reset()` without arguments. This returns the form to the values last given to `reset`: the edited streamer's values, or all empty fields.

## Model

| member | source | states |
|---|---|---|
| Text.Digits | src/components/DonationForm.tsx:21 | `replace(/\D/g, "")` keeps only ASCII digits and never lengthens the text |
| Text.DigitsConcat | src/components/DonationForm.tsx:35 | the digit filter distributes over concatenation |
| Text.RemoveChar | src/components/DonationForm.tsx:68 | `replace(/\./g, "")` leaves no "." and adds no character |
| Text.RemoveCharConcat | src/components/DonationForm.tsx:68 | removing a character distributes over concatenation |
| Text.ReplaceFirst | src/components/DonationForm.tsx:68 | `replace(",", ".")` keeps the length |
| Text.ReplaceFirstSkips | src/components/DonationForm.tsx:68 | only the first occurrence is replaced: a prefix free of the pattern is untouched |
| Text.TrimStart | src/components/ServerForm.tsx:65 | the result is a suffix of the input that starts with a non-space, and every character dropped before it is white space |
| Text.TrimEnd | src/components/ServerForm.tsx:65 | the result is a prefix of the input that ends with a non-space, and every character dropped after it is white space |
| Text.Trim | src/components/ServerForm.tsx:65 | `trim()` drops the white space at both ends; its properties are those of Text.TrimStart, Text.TrimEnd and the two lemmas below |
| Text.TrimEmptyIffAllSpace | src/components/ServerForm.tsx:65 | `trim()` gives "" exactly when every character is white space |
| Text.TrimNoOp | src/components/DonationForm.tsx:38 | a text that begins and ends with a non-space is left unchanged by trim |
| Text.IndexOf | supabase/functions/create-pix-payment/index.ts:33 | the first position of the separator, or the length when it is absent |
| Text.Split | supabase/functions/create-pix-payment/index.ts:33-34 | `split(c)` gives at least one piece, even for ""; Text.SplitHeadTail and Text.JoinSplit state what the pieces are |
| Text.Join | supabase/functions/create-pix-payment/index.ts:34 | `join(c)` puts c between consecutive pieces; Text.JoinSplit makes it the inverse of Text.Split |
| Text.SplitHeadTail | supabase/functions/create-pix-payment/index.ts:33-34 | `split(c)[0]` is the text before the first c; joining the remaining pieces with c gives the text after it |
| Text.JoinSplit | supabase/functions/create-pix-payment/index.ts:33-34 | joining the pieces of `split(c)` with c gives the text back |
| JsNumbers.ParseFloat | src/components/DonationForm.tsx:68 | `parseFloat` skips leading white space, takes an optional sign, and reads "Infinity" or the longest decimal prefix, NaN when there is none; specified by JsNumbers.ParseDigits, ParseDigitsPointDigits, ParseNegative and the round trips below |
| JsNumbers.NatToString | supabase/functions/create-pix-payment/index.ts:110 | `id.toString()` of a natural number is a digit string with no leading zero that reads back as the number |
| JsNumbers.PadDigits | src/components/DonationForm.tsx:28-31 | the fixed-width digit group reads back as its value |
| JsNumbers.DigitsValueConcat | src/components/DonationForm.tsx:24 | the value of concatenated digit strings is the first times a power of ten plus the second |
| JsNumbers.ParseDigitsPointDigits | src/components/DonationForm.tsx:68 | `parseFloat` of "digits.digits" reads exactly that decimal |
| JsNumbers.ParseDigits | src/components/DonationForm.tsx:24 | `parseFloat` of a digit string reads its integer value |
| JsNumbers.ParseNegative | src/components/DonationForm.tsx:68 | a leading "-" negates what `parseFloat` reads |
| JsNumbers.DecimalToString | src/components/StreamerCouponForm.tsx:31 | `Number#toString` of a finite number, without exponent; JsNumbers.DecimalToStringRoundTrip makes JsNumbers.ParseFloat its inverse |
| JsNumbers.DecimalToStringRoundTrip | src/components/StreamerCouponForm.tsx:31 | `parseFloat(x.toString())` is the same number as x, for every finite x |
| JsNumbers.UnsignedRoundTrip | src/components/StreamerCouponForm.tsx:31 | the same round trip for a non-negative number |
| JsNumbers.StripTrailingZerosValue | src/components/StreamerCouponForm.tsx:31 | dropping trailing fraction zeros divides the digits' value by a power of ten |
| Currency.Grouped | src/components/DonationForm.tsx:28-31 | the pt-BR integer part starts and ends with a digit and holds only digits and "." |
| Currency.GroupedPoints | src/components/DonationForm.tsx:28-31 | in the pt-BR integer part a "." stands exactly at every fourth position from the right, so the digits come in groups of three |
| Currency.GroupStep | src/components/DonationForm.tsx:28-31 | appending "." and a three-digit group keeps the points at every fourth position from the right |
| Currency.GroupedValue | src/components/DonationForm.tsx:28-31 | the digits of the grouped integer part read back as the integer |
| Currency.FormatCurrency | src/components/DonationForm.tsx:19-32 | the mask yields "" exactly when no digit was typed |
| Currency.MoneyDigits | src/components/DonationForm.tsx:24-31 | the digits of the formatted amount read back as the centavos, and there are at least three of them |
| Currency.FormatMoney | src/components/DonationForm.tsx:28-31 | `toLocaleString("pt-BR")` with two decimals of an amount in centavos; Currency.MoneyDigits and Currency.ParseFormatMoney give its meaning |
| Currency.ParseMoney | src/components/DonationForm.tsx:68 | drops the "." separators, turns the "," into "." and calls `parseFloat`; Currency.ParseFormatMoney makes it the inverse of Currency.FormatMoney |
| Currency.UnsignedMoneyText | src/components/DonationForm.tsx:68 | cleaning "1.234,56" gives the integer digits, ".", and the two centavo digits |
| Currency.ParseFormatMoney | src/components/DonationForm.tsx:24-31 | the forms' parse reads the text of any amount of c centavos back as exactly c / 100, negatives included |
| Currency.FormatCurrencyIdempotent | src/components/DonationForm.tsx:46-48 | masking a masked amount changes nothing |
| Currency.MaskedCentavos | src/components/DonationForm.tsx:21-24 | the masked text keeps the typed centavo value |
| Currency.TypeDigit | src/components/DonationForm.tsx:46-48 | typing a digit after a masked amount shifts the centavos one place and adds the digit |
| Currency.DeleteDigit | src/components/DonationForm.tsx:46-48 | deleting the last character of a masked amount drops its last centavo digit |
| Db.NullIfEmpty | src/components/StreamerForm.tsx:83-87 | `x or null` gives null exactly for "" and keeps any other text |
| Db.EmptyIfNull | src/components/StreamerForm.tsx:57-61 | `x or ""` gives "" for null and keeps any text |
| Db.WriteFor | src/components/StreamerCampaignForm.tsx:103-118 | the same row is written, as an update of the id when the id is non-empty, else as an insert |
| DonationForm.FormatPhone | src/components/DonationForm.tsx:34-41 | the phone mask; its shape, digits and idempotence are the three lemmas below |
| DonationForm.FormatPhoneShape | src/components/DonationForm.tsx:34-41 | fewer than six digits come back bare, six to ten become "(dd) dddd-rest", eleven or more "(dd) ddddd-dddd" and the rest |
| DonationForm.PhoneMaskTrimmed | src/components/DonationForm.tsx:38-40 | the trim after the replace never changes the masked phone |
| DonationForm.FormatPhoneDigits | src/components/DonationForm.tsx:34-41 | formatPhone keeps exactly the input's digits, in order |
| DonationForm.FormatPhoneIdempotent | src/components/DonationForm.tsx:34-41 | masking a masked phone changes nothing |
| DonationForm.Changed | src/components/DonationForm.tsx:43-55 | the form data after a change event: the named field takes the typed value, masked for amount and phone |
| DonationForm.ChangedMasked | src/components/DonationForm.tsx:43-55 | a change event keeps the stored amount and phone masked |
| DonationForm.LooseEmail | src/components/DonationForm.tsx:63 | the `\S+@\S+\.\S+` test; StreamerForm.StrictIsLoose and StreamerForm.LooseIsNotStrict compare it with the streamer form's pattern |
| DonationForm.ValidateForm | src/components/DonationForm.tsx:57-75 | the submit checks in their order; DonationForm.ValidateFormAccepts states when each verdict is given |
| DonationForm.ValidateFormAccepts | src/components/DonationForm.tsx:57-75 | accepted exactly when every field is filled, the email has the loose shape and the amount is positive; a missing field is reported first |
| DonationForm.MaskedAmountPositive | src/components/DonationForm.tsx:68-72 | a masked amount passes the positive check exactly when at least one centavo was typed ("0,00" is refused) |
| DonationForm.Form.HandleChange | src/components/DonationForm.tsx:43-55 | only the field of the event changes, amount and phone masked, and the masked invariant is kept |
| DonationForm.Form.HandleSubmit | src/components/DonationForm.tsx:77-85 | the QR view opens exactly when the form is accepted, and the data is unchanged |
| CampaignForm.SubmitSaves | src/components/StreamerCampaignForm.tsx:72-118 | saves exactly when the required fields are present, the end is after the start and the amount is positive; the row has the form's streamer, a positive amount, null for an empty description, and updates the campaign's own id |
| CampaignForm.SubmitRejects | src/components/StreamerCampaignForm.tsx:75-83 | each rejection message names the first check that failed |
| CampaignForm.PrefillValor | src/components/StreamerCampaignForm.tsx:45-53 | the amount field of an edited campaign: its stored value in the pt-BR money format, or "" for a new one |
| CampaignForm.Submit | src/components/StreamerCampaignForm.tsx:72-118 | the checks of handleSubmit in order and the row written; stated by CampaignForm.SubmitSaves and CampaignForm.SubmitRejects |
| CampaignForm.PrefillValorReadsBack | src/components/StreamerCampaignForm.tsx:45-53 | the prefilled amount of an edited campaign reads back as the stored value |
| CampaignForm.ResubmitUnchanged | src/components/StreamerCampaignForm.tsx:31-118 | submitting an untouched edit form updates the campaign with its own values |
| CampaignForm.Form.constructor | src/components/StreamerCampaignForm.tsx:31-54 | the initial state: empty, or filled from the campaign |
| CampaignForm.Form.HandleValorChange | src/components/StreamerCampaignForm.tsx:67-70 | the amount field holds the masked text; nothing else changes |
| CampaignForm.Form.BeginSubmit | src/components/StreamerCampaignForm.tsx:72-91 | returns the submit decision and raises the busy flag only when something is sent |
| CampaignForm.Form.EndSubmit | src/components/StreamerCampaignForm.tsx:124-126 | the busy flag is lowered whatever the outcome |
| CouponForm.ParseIfFilled | src/components/StreamerCouponForm.tsx:62-63 | an amount is sent exactly when its field is non-empty |
| CouponForm.Submit | src/components/StreamerCouponForm.tsx:35-81 | the checks of handleSubmit in order and the row written; stated by CouponForm.SubmitSaves and CouponForm.SubmitRejectsAmounts |
| CouponForm.SubmitSaves | src/components/StreamerCouponForm.tsx:35-81 | saves exactly when the required fields are filled, exactly one of value and percentage is, and both dates can be read; the saved coupon has exactly one amount, and updates the coupon's own id |
| CouponForm.SubmitRejectsAmounts | src/components/StreamerCouponForm.tsx:43-51 | neither amount and both amounts are refused, each with its own message |
| CouponForm.DateToIso | src/components/StreamerCouponForm.tsx:60-61 | `new Date(d).toISOString()` of a "YYYY-MM-DD" date: midnight UTC of that day, or no value for another shape |
| CouponForm.DatePart | src/components/StreamerCouponForm.tsx:29-30 | the text before the first "T" of a stored date |
| CouponForm.DatePartOfSaved | src/components/StreamerCouponForm.tsx:29-30 | a date saved from the form shows unchanged when the coupon is edited |
| CouponForm.NumberText | src/components/StreamerCouponForm.tsx:31-32 | `x?.toString() || ""`: the number's text, or "" when there is none |
| CouponForm.NumberTextReadsBack | src/components/StreamerCouponForm.tsx:31-32 | an edited coupon's amount field is non-empty and reads back as the stored amount |
| CouponForm.Amounts.constructor | src/components/StreamerCouponForm.tsx:31-32 | the amount fields open with the stored amounts' text, or empty |
| CouponForm.Amounts.HandleValorChange | src/components/StreamerCouponForm.tsx:92-97 | a non-empty value clears the percentage; afterwards at most one of the two is filled |
| CouponForm.Amounts.HandlePorcentagemChange | src/components/StreamerCouponForm.tsx:99-104 | a non-empty percentage clears the value; afterwards at most one of the two is filled |
| StreamerForm.ToRow | src/components/StreamerForm.tsx:80-88 | the row saved from the form: empty optional fields become null |
| StreamerForm.Prefill | src/components/StreamerForm.tsx:52-73 | the form values for an edited streamer, null fields as "", or all empty for a new one |
| StreamerForm.PrefillOfSaved | src/components/StreamerForm.tsx:52-88 | saving a form and opening the saved streamer shows the same values, whatever they were |
| StreamerForm.SavedOfPrefill | src/components/StreamerForm.tsx:52-88 | an untouched edit form saves the stored row back exactly when no optional field holds "" |
| StreamerForm.StrictEmail | src/components/StreamerForm.tsx:148 | the address pattern of the streamer form; its shape is stated by the two lemmas below |
| StreamerForm.StrictEmailSplit | src/components/StreamerForm.tsx:148 | the "@" and the last "." of an address the pattern accepts are unique |
| StreamerForm.StrictIsLoose | src/components/StreamerForm.tsx:148 | every address the streamer form accepts passes the donation form's looser test |
| StreamerForm.LooseIsNotStrict | src/components/StreamerForm.tsx:148 | the converse fails: "a@b.c" passes the loose test and not the pattern |
| StreamerForm.Validate | src/components/StreamerForm.tsx:132-151 | nome has no error exactly when it is filled; email has none exactly when it is filled and matches the pattern |
| StreamerForm.SaveRequest | src/components/StreamerForm.tsx:90-111 | an update of the edited streamer's id, or an insert, of the form's row |
| StreamerForm.Submit | src/components/StreamerForm.tsx:76-114 | the field rules, the request and the form after saving; stated by StreamerForm.SubmitSends |
| StreamerForm.SubmitSends | src/components/StreamerForm.tsx:76-114 | a request is sent exactly when the field rules pass; it writes the form's row, as an update of the edited streamer's id or as an insert; a new form is empty after success, and a failed save keeps the typed values |
| ServerForm.WithField | src/components/ServerForm.tsx:39-43 | the MOD with one field set to the typed value |
| ServerForm.Without | src/components/ServerForm.tsx:35-37 | the MOD list without position index; stated by ServerForm.WithoutSplice |
| ServerForm.WithoutSplice | src/components/ServerForm.tsx:35-37 | the filter drops exactly position index and keeps the rest in order; an index out of range removes nothing |
| ServerForm.Filter | src/components/ServerForm.tsx:64-65 | a filter keeps only accepted elements and never lengthens the list |
| ServerForm.FilterConcat | src/components/ServerForm.tsx:64-65 | filtering distributes over concatenation |
| ServerForm.Named | src/components/ServerForm.tsx:65 | a MOD is kept when its trimmed name is not "" |
| ServerForm.Kept | src/components/ServerForm.tsx:64-65 | every kept MOD has a non-blank name |
| ServerForm.ModRowOf | src/components/ServerForm.tsx:66-72 | the row of one MOD: the new server's id, its fields, null for empty links and the parsed monthly value |
| ServerForm.ServerRowOf | src/components/ServerForm.tsx:53-57 | the server row: name, host and the parsed monthly value |
| ServerForm.Rows | src/components/ServerForm.tsx:66-72 | one row per kept MOD, position by position, each with the new server's id, null for empty links and the parsed monthly value |
| ServerForm.ModsToInsert | src/components/ServerForm.tsx:64-72 | no more rows than MODs, each tagged with the new server's id |
| ServerForm.ModsToInsertConcat | src/components/ServerForm.tsx:64-72 | the rows of a list are the rows of its parts, in order |
| ServerForm.ModsToInsertSingle | src/components/ServerForm.tsx:64-72 | a MOD gives its row exactly when its name has a non-space character, and gives none otherwise |
| ServerForm.AddedModSavesNothing | src/components/ServerForm.tsx:31-33 | an added empty MOD adds no row |
| ServerForm.ModRequest | src/components/ServerForm.tsx:74-80 | a MOD insert is issued exactly when the server insert succeeded and some MOD is named, and it holds exactly those rows |
| ServerForm.Form.constructor | src/components/ServerForm.tsx:22-28 | a new form has empty fields and one empty MOD |
| ServerForm.Form.AddMod | src/components/ServerForm.tsx:31-33 | exactly one empty MOD is appended; the earlier MODs are unchanged |
| ServerForm.Form.RemoveMod | src/components/ServerForm.tsx:35-37 | position index is removed and the others keep their order; with more than one MOD, as the remove button requires (line 168), the list stays non-empty |
| ServerForm.Form.UpdateMod | src/components/ServerForm.tsx:39-43 | only the given field of MOD index changes |
| ServerForm.Form.HandleSubmit | src/components/ServerForm.tsx:45-102 | sends the server row and the MOD rows; the save succeeds exactly when the server insert does and the MOD insert, if one was sent, does too; success resets the form, failure keeps it |
| SecretsManager.Repeat | src/components/SecretsManager.tsx:102 | `c.repeat(n)` has length n and only the character c |
| SecretsManager.MaskValue | src/components/SecretsManager.tsx:101-103 | the mask is twelve bullets |
| SecretsManager.MaskHidesValue | src/components/SecretsManager.tsx:101-103 | the mask is the same for every value |
| SecretsManager.Toggled | src/components/SecretsManager.tsx:89-99 | the id's membership flips and no other id changes |
| SecretsManager.ToggledTwice | src/components/SecretsManager.tsx:89-99 | toggling twice restores the set |
| SecretsManager.DisplayValue | src/components/SecretsManager.tsx:142 | the value cell: the value when the secret is revealed, the mask otherwise; stated by SecretsManager.DisplayValueShows |
| SecretsManager.DisplayValueShows | src/components/SecretsManager.tsx:142 | the real value shows exactly when the secret is revealed (for a value other than the mask); a hidden one shows twelve characters |
| SecretsManager.DescriptionCell | src/components/SecretsManager.tsx:140 | the description cell is never empty, and it shows a non-empty description |
| SecretsManager.Updated | src/components/SecretsManager.tsx:64-67 | the rows with the id get the new value; ids, keys, descriptions and other rows are unchanged |
| SecretsManager.Manager.constructor | src/components/SecretsManager.tsx:20-26 | the initial state: nothing revealed, nothing edited |
| SecretsManager.Manager.ToggleVisibility | src/components/SecretsManager.tsx:89-99 | the visible set becomes the toggled set; nothing else changes |
| SecretsManager.Manager.HandleEdit | src/components/SecretsManager.tsx:53-57 | the dialog opens on the secret, prefilled with its current value |
| SecretsManager.Manager.ChangeValue | src/components/SecretsManager.tsx:188 | only the typed value changes |
| SecretsManager.Manager.HandleSave | src/components/SecretsManager.tsx:59-87 | without an edited secret nothing is sent; otherwise that id is updated to the typed value, success closes the dialog and shows the new value, and failure leaves the table as it was |
| AdminDashboard.CountIn | src/pages/Admin.tsx:1079-1114 | a period count never exceeds the number of donations |
| AdminDashboard.ApprovedPlusPendingAtMostTotal | src/pages/Admin.tsx:1079-1114 | approved plus pending in the period is at most the period's total |
| AdminDashboard.SumIn | src/pages/Admin.tsx:1128-1147 | the sum of the amounts of the period's donations with a status; stated by the three lemmas below |
| AdminDashboard.SumInConcat | src/pages/Admin.tsx:1128-1147 | the period sums distribute over concatenation |
| AdminDashboard.SumInAppend | src/pages/Admin.tsx:1128-1147 | a donation adds its amount exactly when it is in the period with the status |
| AdminDashboard.SumInNonNegative | src/pages/Admin.tsx:1128-1147 | with non-negative amounts the received and pending sums are non-negative |
| AdminDashboard.ServerCost | src/pages/Admin.tsx:1160 | "Custo Mensal Servidores": every server's monthly cost plus every MOD's |
| AdminDashboard.ModsOf | src/pages/Admin.tsx:1653 | the MODs of a server all name it |
| AdminDashboard.ServerTotal | src/pages/Admin.tsx:1653-1655 | a server's monthly cost plus that of its MODs; AdminDashboard.ServerTotalsAddUp relates it to the cost card |
| AdminDashboard.SumModsSplit | src/pages/Admin.tsx:1653-1655 | the MOD total is the total of one server's MODs plus the others' |
| AdminDashboard.ServerTotalsPlusUnlisted | src/pages/Admin.tsx:1653-1692 | with distinct server ids, the per-server totals plus the MODs of unlisted servers equal the cost card |
| AdminDashboard.ServerTotalsAddUp | src/pages/Admin.tsx:1653-1692 | the per-server totals add up to the cost card when every MOD names a listed server |
| AdminDashboard.CampaignTotal | src/pages/Admin.tsx:1174-1177 | "Total em Campanhas": the value of the campaigns starting in the period |
| AdminDashboard.TotalGeral | src/pages/Admin.tsx:1709-1716 | "Total Geral": the cost card plus the period's campaigns |
| AdminDashboard.Saldo | src/pages/Admin.tsx:1263-1291 | received minus server costs minus campaigns; AdminDashboard.SaldoIsReceivedMinusTotal states it as received minus "Total Geral" |
| AdminDashboard.SaldoColor | src/pages/Admin.tsx:1276 | green for a balance of zero or more, red below |
| AdminDashboard.SaldoIsReceivedMinusTotal | src/pages/Admin.tsx:1263-1291 | the balance is received minus "Total Geral", and it is green exactly when received covers that total |
| AdminDashboard.Active | src/pages/Admin.tsx:1191-1196 | a campaign is active when now lies between its start and its end, both included |
| AdminDashboard.StatusLabel | src/pages/Admin.tsx:1227-1241 | "Ativa" for an active campaign, "Finalizada" otherwise |
| AdminDashboard.ActiveCount | src/pages/Admin.tsx:1191-1196 | the active count never exceeds the number of campaigns |
| AdminDashboard.NoneActiveOutside | src/pages/Admin.tsx:1191-1196 | before every start or after every end no campaign is active |
| AdminDashboard.NoActiveCountAllFinished | src/pages/Admin.tsx:1191-1241 | the active card shows 0 exactly when every campaign is labelled "Finalizada" |
| AdminDashboard.StatusColor | src/pages/Admin.tsx:588-593 | green exactly for approved donations |
| AdminDashboard.NotApproved | src/pages/Admin.tsx:595 | the queried donations are exactly the non-approved ones: each is not approved, every non-approved donation is among them, and there are no more than donations |
| AdminDashboard.NotApprovedConcat | src/pages/Admin.tsx:595 | the query of two lists is the query of the first followed by that of the second, so the list order is kept |
| AdminDashboard.CountChanged | src/pages/Admin.tsx:604-619 | the counter never exceeds the number of replies counted |
| AdminDashboard.CountChangedAll | src/pages/Admin.tsx:604-619 | the count is the number of queried donations exactly when every reply changed its donation, and zero when every call failed |
| AdminDashboard.UpdateAllStatuses | src/pages/Admin.tsx:594-638 | queries exactly the non-approved donations in order, returns before any call when there are none, and otherwise counts the replies with a new status, from 0 up to the number queried |
| CreatePixPayment.Description | supabase/functions/create-pix-payment/index.ts:29 | an empty or absent description becomes the default; any other is kept |
| CreatePixPayment.FirstName | supabase/functions/create-pix-payment/index.ts:33 | `name.split(" ")[0]`; stated by CreatePixPayment.FirstNameBeforeSpace |
| CreatePixPayment.LastName | supabase/functions/create-pix-payment/index.ts:34 | the rest of the name after the first space, or the first name; stated by CreatePixPayment.LastNameAfterSpace |
| CreatePixPayment.FirstNameBeforeSpace | supabase/functions/create-pix-payment/index.ts:33 | first_name is the text before the first space |
| CreatePixPayment.LastNameAfterSpace | supabase/functions/create-pix-payment/index.ts:34 | last_name is the text after the first space, or first_name when nothing follows it |
| CreatePixPayment.NameRejoined | supabase/functions/create-pix-payment/index.ts:33-34 | when something follows the first space, first name, space and last name give the name back |
| CreatePixPayment.SingleName | supabase/functions/create-pix-payment/index.ts:33-34 | a name without spaces is both first and last name |
| CreatePixPayment.AreaCode | supabase/functions/create-pix-payment/index.ts:45 | the first two digits of the phone, or "" |
| CreatePixPayment.PhoneNumber | supabase/functions/create-pix-payment/index.ts:46 | the digits of the phone after the first two, or "" |
| CreatePixPayment.PhoneSplit | supabase/functions/create-pix-payment/index.ts:45-46 | area code then number are the phone's digits, the area code has at most two, exactly two when there are two; both are "" without a phone |
| CreatePixPayment.PaymentOf | supabase/functions/create-pix-payment/index.ts:27-64 | the payment body sent to Mercado Pago; stated by CreatePixPayment.SteamIdInPayment, CreatePixPayment.PhoneSplit and CreatePixPayment.SuccessAgrees |
| CreatePixPayment.ItemDescription | supabase/functions/create-pix-payment/index.ts:54 | the item's description template, "Doação de <name> - Steam ID: <steamId>" |
| CreatePixPayment.SteamIdShown | supabase/functions/create-pix-payment/index.ts:54 | the description shows the Steam ID's text, "null" for a JSON null and "undefined" when it is missing |
| CreatePixPayment.SteamIdInPayment | supabase/functions/create-pix-payment/index.ts:37-61 | the payment carries that description; the payer's identification and the metadata hold the Steam ID, or "" when it is null or missing |
| CreatePixPayment.Handle | supabase/functions/create-pix-payment/index.ts:15-156 | the handler from the token and the gateway and database outcomes; stated by the lemmas below |
| CreatePixPayment.HandleBranches | supabase/functions/create-pix-payment/index.ts:20-24 | without a token nothing is sent; a row is attempted exactly when the gateway succeeded, and only then is the response 200 |
| CreatePixPayment.ResponseIgnoresDb | supabase/functions/create-pix-payment/index.ts:107-138 | the database outcome changes neither the response nor the row |
| CreatePixPayment.SuccessAgrees | supabase/functions/create-pix-payment/index.ts:27-138 | charged amount, item price and stored amount agree, so do the descriptions; the stored payment id reads back as the gateway id; status and QR data agree; missing QR fields become "" |
| CreatePixPayment.GatewayFailure | supabase/functions/create-pix-payment/index.ts:85-88 | a failed payment stores nothing and reports the gateway's message, or the default when it gives none |

## Left out

- Floating point. `parseFloat` reads an exact decimal, and sums are exact integers. The model does not capture rounding of huge or long inputs, or of `parseFloat(numbers) / 100` in the mask.
- JsNumbers.DecimalToString, CouponForm.NumberText: `Number#toString` writes numbers of 1e21 or more, and non-zero ones below 1e-6, with an exponent ("1e+21", "1e-7"); the model always writes such numbers out in full, so the field text differs for them, though it still reads back as the same number.
- Currency.FormatMoney: `toLocaleString` rounding to two decimals of a stored value with more decimals is not modelled, because stored campaign values are taken to be whole centavos.
- Locale data beyond the pt-BR "." grouping and "," decimal mark, and the `Intl` date formats of the dashboard tables.
- Dates. Campaign instants are integers, and a donation's or campaign's month and year are given as integers; `new Date`, `getMonth`, `getFullYear`, `toISOString` and time zones are outside the model. `CouponForm.DateToIso` checks the shape "YYYY-MM-DD" but not that the month and day exist on the calendar.
- StreamerForm.Validate: the browser's own `type="email"` check runs before react-hook-form and is not modelled.
- ServerForm.Form.UpdateMod: `newMods[index][field] = value` writes into the MOD object that the old state shares. The model's values have no identity, so this aliasing is not captured.
- I/O: every Supabase query, insert, update and delete, the calls to Mercado Pago and the refetches after saving. Their outcomes enter as parameters, and a refetch is taken to return what was written.
- Toasts, navigation, auth handling, JSX rendering and the console logs.
- The mocked PIX code and QR view of the donation form. `handleCopyPixCode` touches only the clipboard.
- The two-minute status poller of the admin page, and any overlap between concurrent runs of the update loop.
- The idempotency key, the `registration_date` of the payment (a clock reading), and a `req.json()` that fails or lacks `name`; all of these are nondeterministic or raise before the modelled code runs.
- A Steam ID that is null and one that is missing from the request both leave the donation row's column null: the model takes the column's default to be null.
- `JSON.stringify` of a NaN amount: the gateway's reply enters as a parameter.
- `get-mercadopago-order`, `cancel-mercadopago-order` and `resend-donation-email`, the Index page and the VIP form are not part of this model. They are thin proxies, a template or static content.
- Coupon or discount resolution in the payment: the function reads no coupon.
