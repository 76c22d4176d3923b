/** The admin form that registers a game server and the MODs it runs: the
    editable list of MODs, the rows it saves and the reset after a save. */
module ServerForm {
  import opened Text
  import opened JsNumbers
  import opened Db

  /** One MOD as the form holds it: four text inputs. */
  datatype Mod = Mod(nomeMod: string, discord: string, lojaSteam: string, valorMensal: string)

  /** The keys of a Mod that updateMod may be given. */
  datatype ModField = NomeMod | Discord | LojaSteam | ValorMensal

  const EmptyMod := Mod("", "", "", "")

  /** The row inserted into the servers table. */
  datatype ServerRow = ServerRow(nome: string, host: string, valorMensal: JsNumber)

  /** A row inserted into the MOD table. */
  datatype ModRow = ModRow(servidorId: string, nomeMod: string, discord: Option<string>,
                           lojaSteam: Option<string>, valorMensal: JsNumber)

  function WithField(m: Mod, field: ModField, value: string): Mod {
    match field
    case NomeMod => m.(nomeMod := value)
    case Discord => m.(discord := value)
    case LojaSteam => m.(lojaSteam := value)
    case ValorMensal => m.(valorMensal := value)
  }

  /** `mods.filter((_, i) => i !== index)`. */
  function Without(mods: seq<Mod>, index: int): seq<Mod> {
    if mods == [] then []
    else (if index == 0 then [] else [mods[0]]) + Without(mods[1..], index - 1)
  }

  /** Removing drops position index and keeps the others in order; an index
      outside the list removes nothing. */
  lemma {:induction false} WithoutSplice(mods: seq<Mod>, index: int)
    ensures 0 <= index < |mods| ==> Without(mods, index) == mods[..index] + mods[index + 1..]
    ensures !(0 <= index < |mods|) ==> Without(mods, index) == mods
    decreases |mods|
  {
    if mods != [] {
      WithoutSplice(mods[1..], index - 1);
      if 0 < index < |mods| {
        assert mods[1..][..index - 1] == mods[1..index];
        assert mods[1..][index..] == mods[index + 1..];
        assert [mods[0]] + mods[1..index] == mods[..index];
      }
    }
  }

  /** The MOD row for the new server. */
  function ModRowOf(servidorId: string, m: Mod): ModRow {
    ModRow(servidorId, m.nomeMod, NullIfEmpty(m.discord), NullIfEmpty(m.lojaSteam), ParseFloat(m.valorMensal))
  }

  /** A MOD is saved when its name is not blank. */
  predicate Named(m: Mod) {
    Trim(m.nomeMod) != ""
  }

  /** `s.filter(keep)`: the elements keep accepts, in order. */
  function Filter<T>(s: seq<T>, keep: T -> bool): (r: seq<T>)
    ensures |r| <= |s|
    ensures forall k :: 0 <= k < |r| ==> keep(r[k])
  {
    if s == [] then []
    else if keep(s[0]) then [s[0]] + Filter(s[1..], keep)
    else Filter(s[1..], keep)
  }

  /** The kept elements of a list are those of its parts, one after the
      other. */
  lemma {:induction false} FilterConcat<T>(a: seq<T>, b: seq<T>, keep: T -> bool)
    ensures Filter(a + b, keep) == Filter(a, keep) + Filter(b, keep)
    decreases |a|
  {
    if a != [] {
      assert (a + b)[0] == a[0];
      assert (a + b)[1..] == a[1..] + b;
      FilterConcat(a[1..], b, keep);
    } else {
      assert a + b == b;
    }
  }

  /** `mods.filter(mod => mod.nome_mod.trim() !== "")`. */
  function Kept(mods: seq<Mod>): (r: seq<Mod>)
    ensures |r| <= |mods|
    ensures forall k :: 0 <= k < |r| ==> Named(r[k])
  {
    Filter(mods, Named)
  }

  /** The `.map` that turns each kept MOD into its row. */
  function Rows(servidorId: string, mods: seq<Mod>): (r: seq<ModRow>)
    ensures |r| == |mods|
    ensures forall k :: 0 <= k < |r| ==> r[k] == ModRowOf(servidorId, mods[k])
  {
    if mods == [] then [] else [ModRowOf(servidorId, mods[0])] + Rows(servidorId, mods[1..])
  }

  /** modsToInsert: the named MODs, in order, as rows of the new server. */
  function ModsToInsert(servidorId: string, mods: seq<Mod>): (r: seq<ModRow>)
    ensures |r| <= |mods|
    ensures forall k :: 0 <= k < |r| ==> r[k].servidorId == servidorId
  {
    Rows(servidorId, Kept(mods))
  }

  lemma RowsConcat(servidorId: string, a: seq<Mod>, b: seq<Mod>)
    ensures Rows(servidorId, a + b) == Rows(servidorId, a) + Rows(servidorId, b)
  {
  }

  /** The rows of a list are the rows of its parts, one after the other. */
  lemma ModsToInsertConcat(servidorId: string, a: seq<Mod>, b: seq<Mod>)
    ensures ModsToInsert(servidorId, a + b) == ModsToInsert(servidorId, a) + ModsToInsert(servidorId, b)
  {
    FilterConcat(a, b, Named);
    RowsConcat(servidorId, Kept(a), Kept(b));
  }

  /** A single MOD gives its row exactly when its name has a non-space
      character. */
  lemma ModsToInsertSingle(servidorId: string, m: Mod)
    ensures (ModsToInsert(servidorId, [m]) == [ModRowOf(servidorId, m)]) <==>
      (exists i :: 0 <= i < |m.nomeMod| && !IsSpace(m.nomeMod[i]))
    ensures ModsToInsert(servidorId, [m]) == [] <==> !Named(m)
  {
    TrimEmptyIffAllSpace(m.nomeMod);
    assert [m][1..] == [];
  }

  /** An added empty MOD saves nothing. */
  lemma AddedModSavesNothing(servidorId: string, mods: seq<Mod>)
    ensures ModsToInsert(servidorId, mods + [EmptyMod]) == ModsToInsert(servidorId, mods)
  {
    ModsToInsertConcat(servidorId, mods, [EmptyMod]);
    ModsToInsertSingle(servidorId, EmptyMod);
  }

  /** The values the form holds. */
  datatype Values = Values(nome: string, host: string, valorMensal: string, mods: seq<Mod>)

  /** The row inserted into the servers table. */
  function ServerRowOf(v: Values): ServerRow {
    ServerRow(v.nome, v.host, ParseFloat(v.valorMensal))
  }

  /** The MOD insert handleSubmit issues once the server row exists: none
      when the server insert failed or no MOD is named. */
  function ModRequest(newServerId: Option<string>, mods: seq<Mod>): (r: Option<seq<ModRow>>)
    ensures r.Some? <==> newServerId.Some? && ModsToInsert(newServerId.value, mods) != []
    ensures r.Some? ==> r.value == ModsToInsert(newServerId.value, mods)
  {
    if newServerId.None? then None
    else
      var rows := ModsToInsert(newServerId.value, mods);
      if rows == [] then None else Some(rows)
  }

  /** The values a new form, and a form after a successful save, shows:
      empty fields and one empty MOD. */
  const Blank := Values("", "", "", [EmptyMod])

  /** The server form's state. */
  class Form {
    var values: Values
    var loading: bool

    /** The form never shows an empty MOD list. */
    predicate Valid()
      reads this
    {
      |values.mods| >= 1
    }

    constructor ()
      ensures values == Blank && !loading
      ensures Valid()
    {
      values := Blank;
      loading := false;
    }

    /** addMod: one empty MOD at the end. */
    method AddMod()
      requires Valid()
      modifies this
      ensures values == old(values).(mods := old(values).mods + [EmptyMod])
      ensures loading == old(loading)
      ensures Valid()
    {
      values := values.(mods := values.mods + [EmptyMod]);
    }

    /** removeMod: the list without position index. The button that calls
        it is only shown while there is more than one MOD, which keeps the
        list non-empty. */
    method RemoveMod(index: int)
      modifies this
      ensures values == old(values).(mods := Without(old(values).mods, index))
      ensures 0 <= index < |old(values).mods| ==> values.mods == old(values).mods[..index] + old(values).mods[index + 1..]
      ensures |old(values).mods| > 1 ==> Valid()
      ensures loading == old(loading)
    {
      WithoutSplice(values.mods, index);
      values := values.(mods := Without(values.mods, index));
    }

    /** updateMod: one field of one MOD; `newMods[index]` must exist. */
    method UpdateMod(index: int, field: ModField, value: string)
      requires 0 <= index < |values.mods|
      modifies this
      ensures values == old(values).(mods := old(values).mods[index := WithField(old(values).mods[index], field, value)])
      ensures loading == old(loading)
      ensures Valid() == old(Valid())
    {
      values := values.(mods := values.mods[index := WithField(values.mods[index], field, value)]);
    }

    /** handleSubmit, given the id the database gave the new server (None
        when the server insert failed) and whether the MOD insert succeeded.
        It returns the server row, the MOD rows it sent (None when it sent
        none) and whether the whole save succeeded; a successful save resets
        the form, a failed one leaves it as it was. */
    method HandleSubmit(newServerId: Option<string>, modsSaved: bool)
      returns (server: ServerRow, modRows: Option<seq<ModRow>>, saved: bool)
      modifies this
      ensures server == ServerRowOf(old(values))
      ensures modRows == ModRequest(newServerId, old(values).mods)
      ensures saved <==> newServerId.Some? && (modRows.None? || modsSaved)
      ensures values == (if saved then Blank else old(values))
      ensures !loading
      ensures old(Valid()) ==> Valid()
    {
      server := ServerRowOf(values);
      modRows := ModRequest(newServerId, values.mods);
      saved := newServerId.Some? && (modRows.None? || modsSaved);
      if saved {
        values := Blank;
      }
      loading := false;
    }
  }
}
