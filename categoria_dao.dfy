/** The in-memory category store: a list of categories and an id counter.
    Category names are unique among the stored records, ignoring case. */
module CategoriaStore {
  import opened Wrappers
  import opened Text
  import opened Sequences
  import opened Entities

  /** Index of the first record whose id is `id` (the `filter`/`findFirst` of a lookup by id). */
  function IndexOfId(s: seq<Categoria>, id: int): (r: Option<nat>)
    ensures r.Some? ==> r.value < |s| && s[r.value].id == Some(id)
    ensures r.Some? ==> forall j :: 0 <= j < r.value ==> s[j].id != Some(id)
    ensures r.None? ==> forall j :: 0 <= j < |s| ==> s[j].id != Some(id)
  {
    if s == [] then None
    else if s[0].id == Some(id) then Some(0)
    else match IndexOfId(s[1..], id)
      case None => None
      case Some(k) => Some(k + 1)
  }

  /** Index of the first record whose name equals `nome` ignoring case. */
  function IndexOfName(s: seq<Categoria>, nome: string): (r: Option<nat>)
    ensures r.Some? ==> r.value < |s| && EqualsIgnoreCase(nome, s[r.value].nome)
    ensures r.Some? ==> forall j :: 0 <= j < r.value ==> !EqualsIgnoreCase(nome, s[j].nome)
    ensures r.None? ==> forall j :: 0 <= j < |s| ==> !EqualsIgnoreCase(nome, s[j].nome)
  {
    if s == [] then None
    else if EqualsIgnoreCase(nome, s[0].nome) then Some(0)
    else match IndexOfName(s[1..], nome)
      case None => None
      case Some(k) => Some(k + 1)
  }

  /** `removeIf` on the id: every record with that id goes, the others keep their order. */
  function WithoutId(s: seq<Categoria>, id: int): (r: seq<Categoria>)
    ensures forall x :: x in r <==> x in s && x.id != Some(id)
    ensures IsSubsequence(r, s)
  {
    if s == [] then []
    else if s[0].id == Some(id) then WithoutId(s[1..], id)
    else
      var rest := WithoutId(s[1..], id);
      assert ([s[0]] + rest)[1..] == rest;
      [s[0]] + rest
  }

  /** The state of a store: the list of live records and the last id handed out. */
  datatype Tabella = Tabella(categorie: seq<Categoria>, contatoreId: nat) {

    /** What every reachable store satisfies: each record has an id in 1..contatoreId,
        ids are pairwise distinct, and names are pairwise distinct after case folding. */
    ghost predicate Valid() {
      IdsInRange(categorie, contatoreId) && DistinctIds(categorie) && DistinctNames(categorie)
    }

    /** `trovaPerId`: the first record with that id; a null id finds nothing. */
    function TrovaPerId(id: Option<int>): (r: Option<Categoria>)
      ensures r.None? <==> id.None? || forall k :: 0 <= k < |categorie| ==> categorie[k].id != id
      ensures r.Some? ==> r.value.id == id
      ensures r.Some? ==> exists k :: 0 <= k < |categorie| && categorie[k] == r.value &&
                                      forall j :: 0 <= j < k ==> categorie[j].id != id
    {
      if id.None? then None
      else match IndexOfId(categorie, id.value)
        case None => None
        case Some(k) => Some(categorie[k])
    }

    /** `trovaPerNome` (and the private `trovaPerNomeInterno` it calls): the first record
        whose name equals `nome` ignoring case; a null name finds nothing. */
    function TrovaPerNome(nome: Option<string>): (r: Option<Categoria>)
      ensures r.None? <==> nome.None? ||
                           forall k :: 0 <= k < |categorie| ==> !EqualsIgnoreCase(nome.value, categorie[k].nome)
      ensures r.Some? ==> EqualsIgnoreCase(nome.value, r.value.nome)
      ensures r.Some? ==> exists k :: 0 <= k < |categorie| && categorie[k] == r.value &&
                                      forall j :: 0 <= j < k ==> !EqualsIgnoreCase(nome.value, categorie[j].nome)
    {
      if nome.None? then None
      else match IndexOfName(categorie, nome.value)
        case None => None
        case Some(k) => Some(categorie[k])
    }

    /** `trovaTutte`: a copy of the stored list. */
    function TrovaTutte(): (r: seq<Categoria>)
      ensures |r| == |categorie| && forall k :: 0 <= k < |r| ==> r[k] == categorie[k]
    {
      categorie
    }

    /** The duplicate-name test of an update: the first record holding the new name,
        if any, belongs to a different id. */
    predicate NomeUsatoDaAltra(c: Categoria)
    {
      var trovata := TrovaPerNome(Some(c.nome));
      trovata.Some? && trovata.value.id != c.id
    }

    /** `salva`: a record without id is inserted under the next id, unless its name is taken;
        a record with an id replaces the stored one (remove, then append), unless the id is
        unknown or the name changes to one taken by another record. */
    function Salva(c: Option<Categoria>): (out: Step<Result<Categoria>, Tabella>)
      ensures c.None? ==> out.result == Err(InvalidArgument)
      ensures c.Some? && out.result.Err? ==> out.result.error == DataAccess
      ensures out.result.Err? ==> out.state == this
      ensures c.Some? && c.value.id.None? ==>
                (out.result.Err? <==> TrovaPerNome(Some(c.value.nome)).Some?)
      ensures c.Some? && c.value.id.None? && out.result.Ok? ==>
                out.result.value == c.value.(id := Some(contatoreId + 1)) &&
                out.state == Tabella(categorie + [out.result.value], contatoreId + 1)
      ensures c.Some? && c.value.id.Some? && TrovaPerId(c.value.id).None? ==> out.result.Err?
      ensures c.Some? && c.value.id.Some? && out.result.Ok? ==>
                out.result.value == c.value && out.state.contatoreId == contatoreId &&
                out.state.categorie == WithoutId(categorie, c.value.id.value) + [c.value]
    {
      if c.None? then Step(Err(InvalidArgument), this)
      else
        var categoria := c.value;
        if categoria.id.None? then
          if TrovaPerNome(Some(categoria.nome)).Some? then Step(Err(DataAccess), this)
          else
            var nuova := categoria.(id := Some(contatoreId + 1));
            Step(Ok(nuova), Tabella(categorie + [nuova], contatoreId + 1))
        else
          match TrovaPerId(categoria.id)
          case None => Step(Err(DataAccess), this)
          case Some(esistente) =>
            if !EqualsIgnoreCase(categoria.nome, esistente.nome) && NomeUsatoDaAltra(categoria) then
              Step(Err(DataAccess), this)
            else
              Step(Ok(categoria), Tabella(WithoutId(categorie, categoria.id.value) + [categoria], contatoreId))
    }

    /** `elimina`: removes the record with that id; an absent or null id is an error. */
    function Elimina(id: Option<int>): (out: Step<Result<()>, Tabella>)
      ensures out.result.Err? <==> TrovaPerId(id).None?
      ensures out.result.Err? ==> out.result.error == InvalidArgument && out.state == this
      ensures out.result.Ok? ==>
                out.state.contatoreId == contatoreId &&
                exists k :: 0 <= k < |categorie| && categorie[k].id == id &&
                            out.state.categorie == RemoveAt(categorie, k)
    {
      if id.None? then Step(Err(InvalidArgument), this)
      else match IndexOfId(categorie, id.value)
        case None => Step(Err(InvalidArgument), this)
        // ArrayList.remove(found): `found` is the first element with this id, and an earlier
        // element has another id, so it is not equal to `found`: the element removed is this one.
        case Some(k) => Step(Ok(()), Tabella(RemoveAt(categorie, k), contatoreId))
    }

    /** `modifica`: overwrites name and image path of the stored record in place. */
    function Modifica(c: Option<Categoria>): (out: Step<Result<Categoria>, Tabella>)
      ensures c.None? || c.value.id.None? || TrovaPerId(c.value.id).None? ==>
                out.result == Err(InvalidArgument)
      ensures out.result.Err? ==> out.state == this
      ensures out.result == Err(DataAccess) ==> c.Some? && NomeUsatoDaAltra(c.value)
      ensures c.Some? && c.value.id.Some? && TrovaPerId(c.value.id).Some? ==>
                (out.result.Err? <==>
                 !EqualsIgnoreCase(c.value.nome, TrovaPerId(c.value.id).value.nome) && NomeUsatoDaAltra(c.value)) &&
                (out.result.Err? ==> out.result.error == DataAccess)
      ensures out.result.Ok? ==>
                out.state.contatoreId == contatoreId &&
                |out.state.categorie| == |categorie| &&
                out.result.value == Categoria(c.value.id, c.value.nome, c.value.percorsoImmagine) &&
                exists k :: 0 <= k < |categorie| && categorie[k].id == c.value.id &&
                            out.state.categorie[k] == out.result.value &&
                            forall j :: 0 <= j < |categorie| && j != k ==> out.state.categorie[j] == categorie[j]
    {
      if c.None? || c.value.id.None? then Step(Err(InvalidArgument), this)
      else
        var categoria := c.value;
        match IndexOfId(categorie, categoria.id.value)
        case None => Step(Err(InvalidArgument), this)
        case Some(k) =>
          var esistente := categorie[k];
          if !EqualsIgnoreCase(categoria.nome, esistente.nome) && NomeUsatoDaAltra(categoria) then
            Step(Err(DataAccess), this)
          else
            var aggiornata := esistente.(nome := categoria.nome, percorsoImmagine := categoria.percorsoImmagine);
            Step(Ok(aggiornata), Tabella(categorie[k := aggiornata], contatoreId))
    }
  }

  /** Every record of `s` has an id in 1..n. */
  ghost predicate IdsInRange(s: seq<Categoria>, n: nat)
  {
    forall k :: 0 <= k < |s| ==> s[k].id.Some? && 1 <= s[k].id.value <= n
  }

  /** Ids of `s` are pairwise distinct. */
  ghost predicate DistinctIds(s: seq<Categoria>)
  {
    forall i, j :: 0 <= i < j < |s| ==> s[i].id != s[j].id
  }

  /** Names of `s` are pairwise distinct after case folding. */
  ghost predicate DistinctNames(s: seq<Categoria>)
  {
    forall i, j :: 0 <= i < j < |s| ==> Fold(s[i].nome) != Fold(s[j].nome)
  }

  /** Removing one record keeps the invariant. */
  lemma RemoveAtKeepsValid(s: seq<Categoria>, n: nat, k: nat)
    requires k < |s| && IdsInRange(s, n) && DistinctIds(s) && DistinctNames(s)
    ensures var r := RemoveAt(s, k); IdsInRange(r, n) && DistinctIds(r) && DistinctNames(r)
  {
    var r := RemoveAt(s, k);
    forall i, j | 0 <= i < j < |r|
      ensures r[i].id != r[j].id && Fold(r[i].nome) != Fold(r[j].nome)
    {
      var i0 := if i < k then i else i + 1;
      var j0 := if j < k then j else j + 1;
      assert r[i] == s[i0] && r[j] == s[j0] && i0 < j0;
    }
  }

  /** Appending a record whose id and folded name are new keeps the invariant. */
  lemma AppendKeepsValid(s: seq<Categoria>, n: nat, x: Categoria)
    requires IdsInRange(s, n) && DistinctIds(s) && DistinctNames(s)
    requires x.id.Some? && 1 <= x.id.value <= n
    requires forall k :: 0 <= k < |s| ==> s[k].id != x.id && Fold(s[k].nome) != Fold(x.nome)
    ensures var r := s + [x]; IdsInRange(r, n) && DistinctIds(r) && DistinctNames(r)
  {
  }

  lemma {:induction false} WithoutAbsentId(s: seq<Categoria>, id: int)
    requires forall j :: 0 <= j < |s| ==> s[j].id != Some(id)
    ensures WithoutId(s, id) == s
  {
    if s != [] {
      WithoutAbsentId(s[1..], id);
      assert s == [s[0]] + s[1..];
    }
  }

  /** With distinct ids, `removeIf` on an id removes exactly the one record holding it. */
  lemma {:induction false} WithoutUniqueId(s: seq<Categoria>, id: int, k: nat)
    requires DistinctIds(s) && k < |s| && s[k].id == Some(id)
    ensures WithoutId(s, id) == RemoveAt(s, k)
  {
    if k == 0 {
      WithoutAbsentId(s[1..], id);
    } else {
      assert s[0].id != s[k].id;
      WithoutUniqueId(s[1..], id, k - 1);
      assert RemoveAt(s, k) == [s[0]] + RemoveAt(s[1..], k - 1);
    }
  }

  /** The name test of an update, on a valid store and the record at index `k` being updated:
      it rejects the new name exactly when a record other than the one at `k` holds it. */
  lemma UpdateNameCheck(t: Tabella, k: nat, c: Categoria)
    requires t.Valid() && k < |t.categorie| && t.categorie[k].id == c.id
    ensures (!EqualsIgnoreCase(c.nome, t.categorie[k].nome) && t.NomeUsatoDaAltra(c)) <==>
            exists j :: 0 <= j < |t.categorie| && j != k && EqualsIgnoreCase(t.categorie[j].nome, c.nome)
  {
    var s := t.categorie;
    if exists j :: 0 <= j < |s| && j != k && EqualsIgnoreCase(s[j].nome, c.nome) {
      var j :| 0 <= j < |s| && j != k && EqualsIgnoreCase(s[j].nome, c.nome);
      assert Fold(s[j].nome) != Fold(s[k].nome) by {
        if j < k {} else {}
      }
      var trovata := t.TrovaPerNome(Some(c.nome));
      var m :| 0 <= m < |s| && s[m] == trovata.value &&
               forall i :: 0 <= i < m ==> !EqualsIgnoreCase(c.nome, s[i].nome);
      assert m != k;
      assert s[m].id != s[k].id by {
        if m < k {} else {}
      }
    }
  }

  /** Every `salva` keeps the store invariant: in particular no two live categories ever
      share a name ignoring case. */
  lemma SalvaPreservesValid(t: Tabella, c: Option<Categoria>)
    requires t.Valid()
    ensures t.Salva(c).state.Valid()
  {
    var out := t.Salva(c);
    if c.Some? && out.result.Ok? {
      var s := t.categorie;
      var cat := c.value;
      if cat.id.None? {
        AppendKeepsValid(s, t.contatoreId + 1, out.result.value);
      } else {
        var k := IndexOfId(s, cat.id.value).value;
        WithoutUniqueId(s, cat.id.value, k);
        UpdateNameCheck(t, k, cat);
        RemoveAtKeepsValid(s, t.contatoreId, k);
        var r := RemoveAt(s, k);
        forall i | 0 <= i < |r| ensures r[i].id != cat.id && Fold(r[i].nome) != Fold(cat.nome) {
          var i0 := if i < k then i else i + 1;
          assert r[i] == s[i0];
          assert s[i0].id != s[k].id by { if i0 < k {} else {} }
        }
        AppendKeepsValid(r, t.contatoreId, cat);
      }
    }
  }

  /** On a valid store, the id a successful insert hands out is larger than every stored id. */
  lemma InsertIdAboveStored(t: Tabella, c: Option<Categoria>)
    requires t.Valid() && c.Some? && c.value.id.None? && t.Salva(c).result.Ok?
    ensures forall k :: 0 <= k < |t.categorie| ==>
              t.categorie[k].id.value < t.Salva(c).result.value.id.value
  {
  }

  /** An update through `salva` on a valid store: the length is unchanged, the new record is
      last, it is the only one with its id, and a lookup by that id finds it. */
  lemma SalvaUpdateReplaces(t: Tabella, c: Categoria)
    requires t.Valid() && c.id.Some? && t.Salva(Some(c)).result.Ok?
    ensures var s' := t.Salva(Some(c)).state.categorie;
            |s'| == |t.categorie| && s'[|s'| - 1] == c &&
            (forall j :: 0 <= j < |s'| - 1 ==> s'[j].id != c.id) &&
            t.Salva(Some(c)).state.TrovaPerId(c.id) == Some(c)
  {
    var k := IndexOfId(t.categorie, c.id.value).value;
    WithoutUniqueId(t.categorie, c.id.value, k);
    var s' := t.Salva(Some(c)).state.categorie;
    forall j | 0 <= j < |s'| - 1 ensures s'[j].id != c.id {
      assert s'[j] in WithoutId(t.categorie, c.id.value);
    }
  }

  /** Updating a known id through `salva` fails exactly when another live category holds
      the new name ignoring case: keeping the own name, in any case, never fails. */
  lemma SalvaUpdateConflict(t: Tabella, c: Categoria)
    requires t.Valid() && c.id.Some? && t.TrovaPerId(c.id).Some?
    ensures t.Salva(Some(c)).result.Err? <==>
            exists j :: 0 <= j < |t.categorie| && t.categorie[j].id != c.id &&
                        EqualsIgnoreCase(t.categorie[j].nome, c.nome)
  {
    var s := t.categorie;
    var k := IndexOfId(s, c.id.value).value;
    UpdateNameCheck(t, k, c);
    forall j | 0 <= j < |s| ensures (j != k) == (s[j].id != c.id) {
      if j != k { assert s[j].id != s[k].id by { if j < k {} else {} } }
    }
  }

  /** `elimina` on a valid store removes exactly the record with that id: the others stay,
      in order, and the counter is not touched, so the id is never handed out again. */
  lemma EliminaRemovesExactly(t: Tabella, id: int)
    requires t.Valid() && t.Elimina(Some(id)).result.Ok?
    ensures var t' := t.Elimina(Some(id)).state;
            t'.categorie == WithoutId(t.categorie, id) &&
            |t'.categorie| == |t.categorie| - 1 &&
            t'.TrovaPerId(Some(id)).None? &&
            t'.contatoreId == t.contatoreId &&
            t'.Valid()
  {
    var k := IndexOfId(t.categorie, id).value;
    WithoutUniqueId(t.categorie, id, k);
    RemoveAtKeepsValid(t.categorie, t.contatoreId, k);
  }

  /** `modifica` keeps the store invariant, and on a valid store it fails with a data access
      error exactly when another live category holds the new name ignoring case. */
  lemma ModificaPreservesValid(t: Tabella, c: Option<Categoria>)
    requires t.Valid()
    ensures t.Modifica(c).state.Valid()
    ensures c.Some? && c.value.id.Some? && t.TrovaPerId(c.value.id).Some? ==>
              (t.Modifica(c).result.Err? <==>
               exists j :: 0 <= j < |t.categorie| && t.categorie[j].id != c.value.id &&
                           EqualsIgnoreCase(t.categorie[j].nome, c.value.nome)) &&
              (t.Modifica(c).result.Err? ==> t.Modifica(c).result.error == DataAccess)
  {
    var out := t.Modifica(c);
    if c.Some? && c.value.id.Some? && t.TrovaPerId(c.value.id).Some? {
      var s := t.categorie;
      var cat := c.value;
      var k := IndexOfId(s, cat.id.value).value;
      UpdateNameCheck(t, k, cat);
      forall j | 0 <= j < |s| ensures (j != k) == (s[j].id != cat.id) {
        if j != k { assert s[j].id != s[k].id by { if j < k {} else {} } }
      }
      if out.result.Ok? {
        var s' := out.state.categorie;
        assert s' == s[k := out.result.value];
        forall i, j | 0 <= i < j < |s'|
          ensures s'[i].id != s'[j].id && Fold(s'[i].nome) != Fold(s'[j].nome)
        {
          if i != k && j != k {
          } else if i == k {
            assert !EqualsIgnoreCase(s[j].nome, cat.nome);
          } else {
            assert !EqualsIgnoreCase(s[i].nome, cat.nome);
          }
        }
      }
    }
  }

  /** One call on the store, for reasoning about a whole history of calls. */
  datatype Operazione =
    | OpSalva(c: Option<Categoria>)
    | OpElimina(id: Option<int>)
    | OpModifica(c: Option<Categoria>)

  /** The store after one call; the counter never goes down. */
  function Applica(t: Tabella, op: Operazione): (t': Tabella)
    ensures t'.contatoreId >= t.contatoreId
  {
    match op
    case OpSalva(c) => t.Salva(c).state
    case OpElimina(id) => t.Elimina(id).state
    case OpModifica(c) => t.Modifica(c).state
  }

  /** The id one call hands out: a successful insert hands out the next counter value and
      advances the counter to it; no other call hands out an id. */
  function IdAssegnato(t: Tabella, op: Operazione): (ids: seq<int>)
    ensures |ids| <= 1
    ensures ids != [] ==> ids[0] == t.contatoreId + 1 && Applica(t, op).contatoreId == ids[0]
    ensures ids != [] <==> op.OpSalva? && op.c.Some? && op.c.value.id.None? && t.Salva(op.c).result.Ok?
    ensures ids != [] ==> t.Salva(op.c).result.value.id == Some(ids[0])
  {
    match op
    case OpSalva(c) =>
      var out := t.Salva(c);
      if c.Some? && c.value.id.None? && out.result.Ok? then [out.result.value.id.value] else []
    case _ => []
  }

  /** The store after a history of calls. */
  function Esegui(t: Tabella, ops: seq<Operazione>): Tabella
    decreases |ops|
  {
    if ops == [] then t else Esegui(Applica(t, ops[0]), ops[1..])
  }

  /** The ids a history of calls hands out, in order. */
  function IdAssegnati(t: Tabella, ops: seq<Operazione>): seq<int>
    decreases |ops|
  {
    if ops == [] then [] else IdAssegnato(t, ops[0]) + IdAssegnati(Applica(t, ops[0]), ops[1..])
  }

  /** Every history of calls keeps the store invariant, so live names stay unique. */
  lemma {:induction false} EseguiPreservesValid(t: Tabella, ops: seq<Operazione>)
    requires t.Valid()
    ensures Esegui(t, ops).Valid()
    decreases |ops|
  {
    if ops != [] {
      match ops[0] {
        case OpSalva(c) => SalvaPreservesValid(t, c);
        case OpElimina(id) =>
          if t.Elimina(id).result.Ok? { EliminaRemovesExactly(t, id.value); }
        case OpModifica(c) => ModificaPreservesValid(t, c);
      }
      EseguiPreservesValid(Applica(t, ops[0]), ops[1..]);
    }
  }

  /** Ids are handed out in strictly increasing order, all above the counter the history
      started from and none above the counter it ends with: deletions in between never make
      an id come back. */
  lemma {:induction false} IdsNeverReused(t: Tabella, ops: seq<Operazione>)
    ensures forall i, j :: 0 <= i < j < |IdAssegnati(t, ops)| ==>
              IdAssegnati(t, ops)[i] < IdAssegnati(t, ops)[j]
    ensures forall i :: 0 <= i < |IdAssegnati(t, ops)| ==>
              t.contatoreId < IdAssegnati(t, ops)[i] <= Esegui(t, ops).contatoreId
    decreases |ops|
  {
    if ops != [] {
      var t1 := Applica(t, ops[0]);
      IdsNeverReused(t1, ops[1..]);
      EseguiCounterGrows(t1, ops[1..]);
      IncreasingConcat(IdAssegnato(t, ops[0]), IdAssegnati(t1, ops[1..]),
                       t.contatoreId, t1.contatoreId, Esegui(t1, ops[1..]).contatoreId);
    }
  }

  lemma {:induction false} EseguiCounterGrows(t: Tabella, ops: seq<Operazione>)
    ensures Esegui(t, ops).contatoreId >= t.contatoreId
    decreases |ops|
  {
    if ops != [] {
      EseguiCounterGrows(Applica(t, ops[0]), ops[1..]);
    }
  }

  /** On a valid store, an id a later insert hands out belongs to no category stored now. */
  lemma NewIdsAreFresh(t: Tabella, ops: seq<Operazione>)
    requires t.Valid()
    ensures forall i, k :: 0 <= i < |IdAssegnati(t, ops)| && 0 <= k < |t.categorie| ==>
              t.categorie[k].id != Some(IdAssegnati(t, ops)[i])
  {
    IdsNeverReused(t, ops);
  }

  /** `InMemoryCategoriaDao`: the store object, whose list and counter its writes update. */
  class InMemoryCategoriaDao {
    var archivioCategorie: seq<Categoria>
    var contatoreId: nat

    function Stato(): Tabella
      reads this
    {
      Tabella(archivioCategorie, contatoreId)
    }

    ghost predicate Valid()
      reads this
    {
      Stato().Valid()
    }

    constructor ()
      ensures Valid() && Stato() == Tabella([], 0)
    {
      archivioCategorie := [];
      contatoreId := 0;
    }

    method Salva(c: Option<Categoria>) returns (r: Result<Categoria>)
      requires Valid()
      modifies this
      ensures Valid()
      ensures Step(r, Stato()) == old(Stato()).Salva(c)
    {
      ghost var prima := Stato();
      SalvaPreservesValid(prima, c);
      if c.None? {
        return Err(InvalidArgument);
      }
      var categoria := c.value;
      if categoria.id.None? {
        if Stato().TrovaPerNome(Some(categoria.nome)).Some? {
          return Err(DataAccess);
        }
        contatoreId := contatoreId + 1;
        categoria := categoria.(id := Some(contatoreId));
        archivioCategorie := archivioCategorie + [categoria];
      } else {
        var optEsistente := Stato().TrovaPerId(categoria.id);
        if optEsistente.None? {
          return Err(DataAccess);
        }
        var esistente := optEsistente.value;
        if !EqualsIgnoreCase(categoria.nome, esistente.nome) {
          var trovata := Stato().TrovaPerNome(Some(categoria.nome));
          if trovata.Some? && trovata.value.id != categoria.id {
            return Err(DataAccess);
          }
        }
        archivioCategorie := WithoutId(archivioCategorie, categoria.id.value);
        archivioCategorie := archivioCategorie + [categoria];
        assert Stato() == prima.Salva(c).state;
      }
      r := Ok(categoria);
    }

    method Elimina(id: Option<int>) returns (r: Result<()>)
      requires Valid()
      modifies this
      ensures Valid()
      ensures Step(r, Stato()) == old(Stato()).Elimina(id)
    {
      var categoriaOpt := Stato().TrovaPerId(id);
      if categoriaOpt.None? {
        return Err(InvalidArgument);
      }
      var k := IndexOfId(archivioCategorie, id.value).value;
      EliminaRemovesExactly(Stato(), id.value);
      archivioCategorie := RemoveAt(archivioCategorie, k);
      r := Ok(());
    }

    method Modifica(c: Option<Categoria>) returns (r: Result<Categoria>)
      requires Valid()
      modifies this
      ensures Valid()
      ensures Step(r, Stato()) == old(Stato()).Modifica(c)
    {
      ModificaPreservesValid(Stato(), c);
      if c.None? || c.value.id.None? {
        return Err(InvalidArgument);
      }
      var categoria := c.value;
      var indice := IndexOfId(archivioCategorie, categoria.id.value);
      if indice.None? {
        return Err(InvalidArgument);
      }
      var k := indice.value;
      var esistente := archivioCategorie[k];
      if !EqualsIgnoreCase(categoria.nome, esistente.nome) {
        var trovata := Stato().TrovaPerNome(Some(categoria.nome));
        if trovata.Some? && trovata.value.id != categoria.id {
          return Err(DataAccess);
        }
      }
      esistente := esistente.(nome := categoria.nome);
      esistente := esistente.(percorsoImmagine := categoria.percorsoImmagine);
      archivioCategorie := archivioCategorie[k := esistente];
      r := Ok(esistente);
    }
  }
}
