/** The admin table of application secrets: which values are revealed, the
    mask shown for the others, and the edit dialog that updates one value. */
module SecretsManager {
  import opened Db

  datatype Secret = Secret(id: string, key: string, value: string, description: Option<string>)

  /** `'•'.repeat(n)`. */
  function Repeat(c: char, n: nat): (r: string)
    ensures |r| == n
    ensures forall i :: 0 <= i < n ==> r[i] == c
  {
    if n == 0 then "" else [c] + Repeat(c, n - 1)
  }

  /** maskValue: twelve bullets, whatever the value, so the mask does not
      reveal the length of the secret. */
  function MaskValue(value: string): (r: string)
    ensures |r| == 12
    ensures forall i :: 0 <= i < |r| ==> r[i] == '•'
  {
    Repeat('•', 12)
  }

  lemma MaskHidesValue(a: string, b: string)
    ensures MaskValue(a) == MaskValue(b)
  {
  }

  /** The set after toggleVisibility(id): id is added when absent and
      deleted when present. */
  function Toggled(visible: set<string>, id: string): (r: set<string>)
    ensures id in r <==> id !in visible
    ensures forall x :: x != id ==> (x in r <==> x in visible)
  {
    if id in visible then visible - {id} else visible + {id}
  }

  /** Toggling the same secret twice restores the set. */
  lemma ToggledTwice(visible: set<string>, id: string)
    ensures Toggled(Toggled(visible, id), id) == visible
  {
  }

  /** The value cell of a secret. */
  function DisplayValue(visible: set<string>, s: Secret): string {
    if s.id in visible then s.value else MaskValue(s.value)
  }

  /** The real value is shown exactly when the secret is revealed, unless
      the value happens to read like the mask itself; a hidden secret always
      shows twelve bullets. */
  lemma DisplayValueShows(visible: set<string>, s: Secret)
    requires s.value != MaskValue(s.value)
    ensures DisplayValue(visible, s) == s.value <==> s.id in visible
    ensures s.id !in visible ==> |DisplayValue(visible, s)| == 12
  {
  }

  /** The description cell: `secret.description || '-'`. */
  function DescriptionCell(s: Secret): (r: string)
    ensures r != ""
    ensures s.description.Some? && s.description.value != "" ==> r == s.description.value
  {
    if s.description.Some? && s.description.value != "" then s.description.value else "-"
  }

  /** `.update({ value: v }).eq('id', id)` on the table: the rows with that
      id get the new value; nothing else changes. */
  function Updated(secrets: seq<Secret>, id: string, v: string): (r: seq<Secret>)
    ensures |r| == |secrets|
    ensures forall k :: 0 <= k < |r| ==>
      r[k].id == secrets[k].id && r[k].key == secrets[k].key && r[k].description == secrets[k].description
      && r[k].value == (if secrets[k].id == id then v else secrets[k].value)
  {
    if secrets == [] then []
    else
      var s := secrets[0];
      [if s.id == id then s.(value := v) else s] + Updated(secrets[1..], id, v)
  }

  /** The request handleSave sends. */
  datatype ValueUpdate = ValueUpdate(id: string, value: string)

  /** The secrets page's state. */
  class Manager {
    var secrets: seq<Secret>
    var visible: set<string>
    var editing: Option<Secret>
    var newValue: string
    var showEditDialog: bool
    var saving: bool

    constructor (secrets: seq<Secret>)
      ensures this.secrets == secrets && visible == {} && editing.None? && newValue == ""
      ensures !showEditDialog && !saving
    {
      this.secrets := secrets;
      visible := {};
      editing := None;
      newValue := "";
      showEditDialog := false;
      saving := false;
    }

    /** toggleVisibility: only the membership of id changes. */
    method ToggleVisibility(id: string)
      modifies this
      ensures visible == Toggled(old(visible), id)
      ensures secrets == old(secrets) && editing == old(editing) && newValue == old(newValue)
      ensures showEditDialog == old(showEditDialog) && saving == old(saving)
    {
      var next := visible;
      if id in next {
        next := next - {id};
      } else {
        next := next + {id};
      }
      visible := next;
    }

    /** handleEdit: the dialog opens on the secret, prefilled with its
        current value. */
    method HandleEdit(s: Secret)
      modifies this
      ensures editing == Some(s) && newValue == s.value && showEditDialog
      ensures secrets == old(secrets) && visible == old(visible) && saving == old(saving)
    {
      editing := Some(s);
      newValue := s.value;
      showEditDialog := true;
    }

    /** The Valor input of the dialog. */
    method ChangeValue(v: string)
      modifies this
      ensures newValue == v
      ensures secrets == old(secrets) && visible == old(visible) && editing == old(editing)
      ensures showEditDialog == old(showEditDialog) && saving == old(saving)
    {
      newValue := v;
    }

    /** handleSave, given whether the update succeeded. Without a secret
        being edited it sends nothing and changes nothing. Otherwise it
        updates that id to the typed value; after success the dialog closes
        and the refetched table holds the new value, after a failure the
        dialog stays open and the table is as it was. */
    method HandleSave(updated: bool) returns (request: Option<ValueUpdate>)
      modifies this
      ensures old(editing).None? ==> request.None? && secrets == old(secrets) && showEditDialog == old(showEditDialog)
      ensures old(editing).Some? ==> request == Some(ValueUpdate(old(editing).value.id, old(newValue)))
      ensures old(editing).Some? && updated ==> secrets == Updated(old(secrets), old(editing).value.id, old(newValue)) && !showEditDialog
      ensures old(editing).Some? && !updated ==> secrets == old(secrets) && showEditDialog == old(showEditDialog)
      ensures old(editing).Some? ==> !saving
      ensures old(editing).None? ==> saving == old(saving)
      ensures visible == old(visible) && editing == old(editing) && newValue == old(newValue)
    {
      if editing.None? {
        return None;
      }
      saving := true;
      request := Some(ValueUpdate(editing.value.id, newValue));
      if updated {
        showEditDialog := false;
        secrets := Updated(secrets, editing.value.id, newValue);
      }
      saving := false;
    }
  }
}
