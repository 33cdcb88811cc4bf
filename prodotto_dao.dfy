/** The in-memory product store: a list of products and an id counter. Product names are
    not checked; each product embeds the category it belongs to, which may be absent. */
module ProdottoStore {
  import opened Wrappers
  import opened Sequences
  import opened Entities

  /** Index of the first product whose id is `id`. */
  function IndexOfId(s: seq<Prodotto>, id: int): (r: Option<nat>)
    ensures r.Some? ==> r.value < |s| && s[r.value].id == Some(id)
    ensures r.Some? ==> forall j :: 0 <= j < r.value ==> s[j].id != Some(id)
    ensures r.None? ==> forall j :: 0 <= j < |s| ==> s[j].id != Some(id)
  {
    if s == [] then None
    else if s[0].id == Some(id) then Some(0)
    else match IndexOfId(s[1..], id)
      case None => None
      case Some(k) => Some(k + 1)
  }

  /** `removeIf` on the id: every product with that id goes, the others keep their order. */
  function WithoutId(s: seq<Prodotto>, id: int): (r: seq<Prodotto>)
    ensures forall x :: x in r <==> x in s && x.id != Some(id)
    ensures IsSubsequence(r, s)
  {
    if s == [] then []
    else if s[0].id == Some(id) then WithoutId(s[1..], id)
    else
      var rest := WithoutId(s[1..], id);
      assert ([s[0]] + rest)[1..] == rest;
      [s[0]] + rest
  }

  /** The product belongs to a category, and that category has id `idCategoria`. */
  predicate InCategoria(p: Prodotto, idCategoria: int)
  {
    p.categoria.Some? && p.categoria.value.id == Some(idCategoria)
  }

  /** The stream filter of `trovaPerIdCategoria`: the products of one category, in order. */
  function OfCategory(s: seq<Prodotto>, idCategoria: int): (r: seq<Prodotto>)
    ensures forall x :: x in r <==> x in s && InCategoria(x, idCategoria)
    ensures IsSubsequence(r, s)
  {
    if s == [] then []
    else if InCategoria(s[0], idCategoria) then
      var rest := OfCategory(s[1..], idCategoria);
      assert ([s[0]] + rest)[1..] == rest;
      [s[0]] + rest
    else OfCategory(s[1..], idCategoria)
  }

  /** Every product of `s` has an id in 1..n. */
  ghost predicate IdsInRange(s: seq<Prodotto>, n: nat)
  {
    forall k :: 0 <= k < |s| ==> s[k].id.Some? && 1 <= s[k].id.value <= n
  }

  /** Ids of `s` are pairwise distinct. */
  ghost predicate DistinctIds(s: seq<Prodotto>)
  {
    forall i, j :: 0 <= i < j < |s| ==> s[i].id != s[j].id
  }

  /** The state of a store: the list of live products and the last id handed out. */
  datatype Tabella = Tabella(prodotti: seq<Prodotto>, contatoreId: nat) {

    /** What every reachable store satisfies: each product has an id in 1..contatoreId and
        ids are pairwise distinct. */
    ghost predicate Valid() {
      IdsInRange(prodotti, contatoreId) && DistinctIds(prodotti)
    }

    /** `trovaPerId`: the first product with that id; a null id finds nothing. */
    function TrovaPerId(id: Option<int>): (r: Option<Prodotto>)
      ensures r.None? <==> id.None? || forall k :: 0 <= k < |prodotti| ==> prodotti[k].id != id
      ensures r.Some? ==> r.value.id == id
      ensures r.Some? ==> exists k :: 0 <= k < |prodotti| && prodotti[k] == r.value &&
                                      forall j :: 0 <= j < k ==> prodotti[j].id != id
    {
      if id.None? then None
      else match IndexOfId(prodotti, id.value)
        case None => None
        case Some(k) => Some(prodotti[k])
    }

    /** `trovaTutti`: a copy of the stored list. */
    function TrovaTutti(): (r: seq<Prodotto>)
      ensures |r| == |prodotti| && forall k :: 0 <= k < |r| ==> r[k] == prodotti[k]
    {
      prodotti
    }

    /** `trovaPerIdCategoria`: the products whose category is present and has that id, in
        store order; a null id gives the empty list. */
    function TrovaPerIdCategoria(idCategoria: Option<int>): (r: seq<Prodotto>)
      ensures idCategoria.None? ==> r == []
      ensures idCategoria.Some? ==>
                forall x :: x in r <==> x in prodotti && InCategoria(x, idCategoria.value)
      ensures IsSubsequence(r, TrovaTutti())
    {
      if idCategoria.None? then [] else OfCategory(prodotti, idCategoria.value)
    }

    /** `salva`: a product without id is inserted under the next id; a product with an id
        replaces the stored one (remove, then append), unless the id is unknown. */
    function Salva(p: Option<Prodotto>): (out: Step<Result<Prodotto>, Tabella>)
      ensures p.None? ==> out.result == Err(InvalidArgument)
      ensures p.Some? && p.value.id.None? ==> out.result.Ok?
      ensures p.Some? && p.value.id.Some? ==> (out.result.Err? <==> TrovaPerId(p.value.id).None?)
      ensures p.Some? && out.result.Err? ==> out.result.error == DataAccess
      ensures out.result.Err? ==> out.state == this
      ensures p.Some? && p.value.id.None? ==>
                out.result.value == p.value.(id := Some(contatoreId + 1)) &&
                out.state == Tabella(prodotti + [out.result.value], contatoreId + 1)
      ensures p.Some? && p.value.id.Some? && out.result.Ok? ==>
                out.result.value == p.value && out.state.contatoreId == contatoreId &&
                out.state.prodotti == WithoutId(prodotti, p.value.id.value) + [p.value]
    {
      if p.None? then Step(Err(InvalidArgument), this)
      else
        var prodotto := p.value;
        if prodotto.id.None? then
          var nuovo := prodotto.(id := Some(contatoreId + 1));
          Step(Ok(nuovo), Tabella(prodotti + [nuovo], contatoreId + 1))
        else if TrovaPerId(prodotto.id).None? then Step(Err(DataAccess), this)
        else Step(Ok(prodotto), Tabella(WithoutId(prodotti, prodotto.id.value) + [prodotto], contatoreId))
    }

    /** `elimina`: removes the product with that id; an absent or null id is an error. */
    function Elimina(id: Option<int>): (out: Step<Result<()>, Tabella>)
      ensures out.result.Err? <==> TrovaPerId(id).None?
      ensures out.result.Err? ==> out.result.error == InvalidArgument && out.state == this
      ensures out.result.Ok? ==>
                out.state.contatoreId == contatoreId &&
                exists k :: 0 <= k < |prodotti| && prodotti[k].id == id &&
                            out.state.prodotti == RemoveAt(prodotti, k)
    {
      if id.None? then Step(Err(InvalidArgument), this)
      else match IndexOfId(prodotti, id.value)
        case None => Step(Err(InvalidArgument), this)
        // ArrayList.remove(found): `found` is the first element with this id, and an earlier
        // element has another id, so it is not equal to `found`: the element removed is this one.
        case Some(k) => Step(Ok(()), Tabella(RemoveAt(prodotti, k), contatoreId))
    }

    /** `modifica`: overwrites name, description, quantity, image path and category of the
        stored product in place. */
    function Modifica(p: Option<Prodotto>): (out: Step<Result<Prodotto>, Tabella>)
      ensures out.result.Err? <==> p.None? || p.value.id.None? || TrovaPerId(p.value.id).None?
      ensures out.result.Err? ==> out.result.error == InvalidArgument && out.state == this
      ensures out.result.Ok? ==>
                out.state.contatoreId == contatoreId &&
                |out.state.prodotti| == |prodotti| &&
                out.result.value == p.value &&
                exists k :: 0 <= k < |prodotti| && prodotti[k].id == p.value.id &&
                            out.state.prodotti[k] == p.value &&
                            forall j :: 0 <= j < |prodotti| && j != k ==> out.state.prodotti[j] == prodotti[j]
    {
      if p.None? || p.value.id.None? then Step(Err(InvalidArgument), this)
      else
        var prodotto := p.value;
        match IndexOfId(prodotti, prodotto.id.value)
        case None => Step(Err(InvalidArgument), this)
        case Some(k) =>
          var aggiornato := prodotti[k].(
            nome := prodotto.nome,
            descrizione := prodotto.descrizione,
            quantita := prodotto.quantita,
            percorsoImmagine := prodotto.percorsoImmagine,
            categoria := prodotto.categoria);
          Step(Ok(aggiornato), Tabella(prodotti[k := aggiornato], contatoreId))
    }
  }

  lemma {:induction false} WithoutAbsentId(s: seq<Prodotto>, id: int)
    requires forall j :: 0 <= j < |s| ==> s[j].id != Some(id)
    ensures WithoutId(s, id) == s
  {
    if s != [] {
      WithoutAbsentId(s[1..], id);
      assert s == [s[0]] + s[1..];
    }
  }

  /** With distinct ids, `removeIf` on an id removes exactly the one product holding it. */
  lemma {:induction false} WithoutUniqueId(s: seq<Prodotto>, id: int, k: nat)
    requires DistinctIds(s) && k < |s| && s[k].id == Some(id)
    ensures WithoutId(s, id) == RemoveAt(s, k)
  {
    if k == 0 {
      WithoutAbsentId(s[1..], id);
    } else {
      assert s[0].id != s[k].id;
      WithoutUniqueId(s[1..], id, k - 1);
      assert RemoveAt(s, k) == [s[0]] + RemoveAt(s[1..], k - 1);
    }
  }

  /** Removing one product keeps the invariant. */
  lemma RemoveAtKeepsValid(s: seq<Prodotto>, n: nat, k: nat)
    requires k < |s| && IdsInRange(s, n) && DistinctIds(s)
    ensures IdsInRange(RemoveAt(s, k), n) && DistinctIds(RemoveAt(s, k))
  {
    var r := RemoveAt(s, k);
    forall i, j | 0 <= i < j < |r| ensures r[i].id != r[j].id {
      var i0 := if i < k then i else i + 1;
      var j0 := if j < k then j else j + 1;
      assert r[i] == s[i0] && r[j] == s[j0] && i0 < j0;
    }
  }

  /** Appending a product whose id is new keeps the invariant. */
  lemma AppendKeepsValid(s: seq<Prodotto>, n: nat, x: Prodotto)
    requires IdsInRange(s, n) && DistinctIds(s)
    requires x.id.Some? && 1 <= x.id.value <= n
    requires forall k :: 0 <= k < |s| ==> s[k].id != x.id
    ensures IdsInRange(s + [x], n) && DistinctIds(s + [x])
  {
  }

  /** Every `salva` keeps the store invariant. */
  lemma SalvaPreservesValid(t: Tabella, p: Option<Prodotto>)
    requires t.Valid()
    ensures t.Salva(p).state.Valid()
  {
    var out := t.Salva(p);
    if p.Some? && p.value.id.None? {
      AppendKeepsValid(t.prodotti, t.contatoreId + 1, out.result.value);
    } else if p.Some? && out.result.Ok? {
      var s := t.prodotti;
      var prodotto := p.value;
      var k := IndexOfId(s, prodotto.id.value).value;
      WithoutUniqueId(s, prodotto.id.value, k);
      RemoveAtKeepsValid(s, t.contatoreId, k);
      var r := RemoveAt(s, k);
      forall i | 0 <= i < |r| ensures r[i].id != prodotto.id {
        var i0 := if i < k then i else i + 1;
        assert r[i] == s[i0];
        assert s[i0].id != s[k].id by { if i0 < k {} else {} }
      }
      AppendKeepsValid(r, t.contatoreId, prodotto);
    }
  }

  /** On a valid store, the id an insert hands out is larger than every stored id. */
  lemma InsertIdAboveStored(t: Tabella, p: Option<Prodotto>)
    requires t.Valid() && p.Some? && p.value.id.None?
    ensures forall k :: 0 <= k < |t.prodotti| ==>
              t.prodotti[k].id.value < t.Salva(p).result.value.id.value
  {
  }

  /** An update through `salva` on a valid store: the length is unchanged, the product moves
      to the end, it is the only one with its id, and a lookup by that id finds it. */
  lemma SalvaUpdateReplaces(t: Tabella, p: Prodotto)
    requires t.Valid() && p.id.Some? && t.Salva(Some(p)).result.Ok?
    ensures var s' := t.Salva(Some(p)).state.prodotti;
            |s'| == |t.prodotti| && s'[|s'| - 1] == p &&
            (forall j :: 0 <= j < |s'| - 1 ==> s'[j].id != p.id) &&
            t.Salva(Some(p)).state.TrovaPerId(p.id) == Some(p)
  {
    var k := IndexOfId(t.prodotti, p.id.value).value;
    WithoutUniqueId(t.prodotti, p.id.value, k);
    var s' := t.Salva(Some(p)).state.prodotti;
    forall j | 0 <= j < |s'| - 1 ensures s'[j].id != p.id {
      assert s'[j] in WithoutId(t.prodotti, p.id.value);
    }
  }

  /** `elimina` on a valid store removes exactly the product with that id: the others stay,
      in order, and the counter is not touched. */
  lemma EliminaRemovesExactly(t: Tabella, id: int)
    requires t.Valid() && t.Elimina(Some(id)).result.Ok?
    ensures var t' := t.Elimina(Some(id)).state;
            t'.prodotti == WithoutId(t.prodotti, id) &&
            |t'.prodotti| == |t.prodotti| - 1 &&
            t'.TrovaPerId(Some(id)).None? &&
            t'.contatoreId == t.contatoreId &&
            t'.Valid()
  {
    var k := IndexOfId(t.prodotti, id).value;
    WithoutUniqueId(t.prodotti, id, k);
    RemoveAtKeepsValid(t.prodotti, t.contatoreId, k);
  }

  /** `modifica` keeps the store invariant, and afterwards a lookup by the id finds the
      new values. */
  lemma ModificaPreservesValid(t: Tabella, p: Option<Prodotto>)
    requires t.Valid()
    ensures t.Modifica(p).state.Valid()
    ensures t.Modifica(p).result.Ok? ==> t.Modifica(p).state.TrovaPerId(p.value.id) == Some(p.value)
  {
    var out := t.Modifica(p);
    if out.result.Ok? {
      var s := t.prodotti;
      var k := IndexOfId(s, p.value.id.value).value;
      var s' := out.state.prodotti;
      assert s' == s[k := p.value];
      forall j | 0 <= j < k ensures s'[j].id != p.value.id {
        assert s'[j] == s[j];
      }
    }
  }

  /** One call on the store, for reasoning about a whole history of calls. */
  datatype Operazione =
    | OpSalva(p: Option<Prodotto>)
    | OpElimina(id: Option<int>)
    | OpModifica(p: Option<Prodotto>)

  /** The store after one call; the counter never goes down. */
  function Applica(t: Tabella, op: Operazione): (t': Tabella)
    ensures t'.contatoreId >= t.contatoreId
  {
    match op
    case OpSalva(p) => t.Salva(p).state
    case OpElimina(id) => t.Elimina(id).state
    case OpModifica(p) => t.Modifica(p).state
  }

  /** The id one call hands out: an insert hands out the next counter value and advances the
      counter to it; no other call hands out an id. */
  function IdAssegnato(t: Tabella, op: Operazione): (ids: seq<int>)
    ensures |ids| <= 1
    ensures ids != [] ==> ids[0] == t.contatoreId + 1 && Applica(t, op).contatoreId == ids[0]
    ensures ids != [] <==> op.OpSalva? && op.p.Some? && op.p.value.id.None?
    ensures ids != [] ==> t.Salva(op.p).result.value.id == Some(ids[0])
  {
    match op
    case OpSalva(p) =>
      if p.Some? && p.value.id.None? then [t.Salva(p).result.value.id.value] else []
    case _ => []
  }

  /** The store after a history of calls. */
  function Esegui(t: Tabella, ops: seq<Operazione>): Tabella
    decreases |ops|
  {
    if ops == [] then t else Esegui(Applica(t, ops[0]), ops[1..])
  }

  /** The ids a history of calls hands out, in order. */
  function IdAssegnati(t: Tabella, ops: seq<Operazione>): seq<int>
    decreases |ops|
  {
    if ops == [] then [] else IdAssegnato(t, ops[0]) + IdAssegnati(Applica(t, ops[0]), ops[1..])
  }

  /** Every history of calls keeps the store invariant. */
  lemma {:induction false} EseguiPreservesValid(t: Tabella, ops: seq<Operazione>)
    requires t.Valid()
    ensures Esegui(t, ops).Valid()
    decreases |ops|
  {
    if ops != [] {
      match ops[0] {
        case OpSalva(p) => SalvaPreservesValid(t, p);
        case OpElimina(id) =>
          if t.Elimina(id).result.Ok? { EliminaRemovesExactly(t, id.value); }
        case OpModifica(p) => ModificaPreservesValid(t, p);
      }
      EseguiPreservesValid(Applica(t, ops[0]), ops[1..]);
    }
  }

  lemma {:induction false} EseguiCounterGrows(t: Tabella, ops: seq<Operazione>)
    ensures Esegui(t, ops).contatoreId >= t.contatoreId
    decreases |ops|
  {
    if ops != [] {
      EseguiCounterGrows(Applica(t, ops[0]), ops[1..]);
    }
  }

  /** Ids are handed out in strictly increasing order, all above the counter the history
      started from and none above the counter it ends with: deletions in between never make
      an id come back. */
  lemma {:induction false} IdsNeverReused(t: Tabella, ops: seq<Operazione>)
    ensures forall i, j :: 0 <= i < j < |IdAssegnati(t, ops)| ==>
              IdAssegnati(t, ops)[i] < IdAssegnati(t, ops)[j]
    ensures forall i :: 0 <= i < |IdAssegnati(t, ops)| ==>
              t.contatoreId < IdAssegnati(t, ops)[i] <= Esegui(t, ops).contatoreId
    decreases |ops|
  {
    if ops != [] {
      var t1 := Applica(t, ops[0]);
      IdsNeverReused(t1, ops[1..]);
      EseguiCounterGrows(t1, ops[1..]);
      IncreasingConcat(IdAssegnato(t, ops[0]), IdAssegnati(t1, ops[1..]),
                       t.contatoreId, t1.contatoreId, Esegui(t1, ops[1..]).contatoreId);
    }
  }

  /** `InMemoryProdottoDao`: the store object, whose list and counter its writes update. */
  class InMemoryProdottoDao {
    var archivioProdotti: seq<Prodotto>
    var contatoreId: nat

    function Stato(): Tabella
      reads this
    {
      Tabella(archivioProdotti, contatoreId)
    }

    ghost predicate Valid()
      reads this
    {
      Stato().Valid()
    }

    constructor ()
      ensures Valid() && Stato() == Tabella([], 0)
    {
      archivioProdotti := [];
      contatoreId := 0;
    }

    method Salva(p: Option<Prodotto>) returns (r: Result<Prodotto>)
      requires Valid()
      modifies this
      ensures Valid()
      ensures Step(r, Stato()) == old(Stato()).Salva(p)
    {
      SalvaPreservesValid(Stato(), p);
      if p.None? {
        return Err(InvalidArgument);
      }
      var prodotto := p.value;
      if prodotto.id.None? {
        contatoreId := contatoreId + 1;
        prodotto := prodotto.(id := Some(contatoreId));
        archivioProdotti := archivioProdotti + [prodotto];
      } else {
        var esiste := Stato().TrovaPerId(prodotto.id).Some?;
        if !esiste {
          return Err(DataAccess);
        }
        archivioProdotti := WithoutId(archivioProdotti, prodotto.id.value);
        archivioProdotti := archivioProdotti + [prodotto];
      }
      r := Ok(prodotto);
    }

    method Elimina(id: Option<int>) returns (r: Result<()>)
      requires Valid()
      modifies this
      ensures Valid()
      ensures Step(r, Stato()) == old(Stato()).Elimina(id)
    {
      var prodottoOpt := Stato().TrovaPerId(id);
      if prodottoOpt.None? {
        return Err(InvalidArgument);
      }
      var k := IndexOfId(archivioProdotti, id.value).value;
      EliminaRemovesExactly(Stato(), id.value);
      archivioProdotti := RemoveAt(archivioProdotti, k);
      r := Ok(());
    }

    method Modifica(p: Option<Prodotto>) returns (r: Result<Prodotto>)
      requires Valid()
      modifies this
      ensures Valid()
      ensures Step(r, Stato()) == old(Stato()).Modifica(p)
    {
      ModificaPreservesValid(Stato(), p);
      if p.None? || p.value.id.None? {
        return Err(InvalidArgument);
      }
      var prodotto := p.value;
      var indice := IndexOfId(archivioProdotti, prodotto.id.value);
      if indice.None? {
        return Err(InvalidArgument);
      }
      var k := indice.value;
      var esistente := archivioProdotti[k];
      esistente := esistente.(nome := prodotto.nome);
      esistente := esistente.(descrizione := prodotto.descrizione);
      esistente := esistente.(quantita := prodotto.quantita);
      esistente := esistente.(percorsoImmagine := prodotto.percorsoImmagine);
      esistente := esistente.(categoria := prodotto.categoria);
      archivioProdotti := archivioProdotti[k := esistente];
      r := Ok(esistente);
    }
  }
}
