/** The product service: it checks a transfer object, looks up the category it names in the
    category store, and hands the converted product to the product store. It never writes
    to the category store. */
module ProdottoService {
  import opened Wrappers
  import opened Sequences
  import opened Entities
  import CategoriaStore
  import ProdottoStore

  /** `convertiAProdottoDTO`: the five plain fields, and the category as a transfer object. */
  function ProdottoADTO(p: Prodotto): (d: ProdottoDTO)
    ensures d.id == p.id && d.nome == p.nome && d.descrizione == p.descrizione &&
            d.quantita == p.quantita && d.percorsoImmagine == p.percorsoImmagine
    ensures d.categoriaDTO.Some? <==> p.categoria.Some?
    ensures p.categoria.Some? ==> d.categoriaDTO.value == CategoriaADTO(p.categoria.value)
  {
    ProdottoDTO(p.id, p.nome, p.descrizione, p.quantita, p.percorsoImmagine,
      match p.categoria
      case None => None
      case Some(c) => Some(CategoriaADTO(c)))
  }

  /** `convertiAProdottoEntity`: the five plain fields of the transfer object, and the
      category passed separately (the one found in the store, not the transfer object's). */
  function ProdottoAEntity(dto: ProdottoDTO, categoria: Categoria): (p: Prodotto)
    ensures p.id == dto.id && p.nome == dto.nome && p.descrizione == dto.descrizione &&
            p.quantita == dto.quantita && p.percorsoImmagine == dto.percorsoImmagine
    ensures p.categoria == Some(categoria)
  {
    Prodotto(dto.id, dto.nome, dto.descrizione, dto.quantita, dto.percorsoImmagine, Some(categoria))
  }

  /** The two conversions undo each other, except for the category, which is replaced by the
      one passed in. */
  lemma ConversioniInverse(p: Prodotto, dto: ProdottoDTO, c: Categoria)
    ensures ProdottoAEntity(ProdottoADTO(p), c) == p.(categoria := Some(c))
    ensures ProdottoADTO(ProdottoAEntity(dto, c)) == dto.(categoriaDTO := Some(CategoriaADTO(c)))
  {
  }

  function RisultatoDTO(r: Result<Prodotto>): (d: Result<ProdottoDTO>)
    ensures d.Err? <==> r.Err?
    ensures d.Err? ==> d.error == r.error
    ensures d.Ok? ==> d.value == ProdottoADTO(r.value)
  {
    match r
    case Ok(p) => Ok(ProdottoADTO(p))
    case Err(e) => Err(e)
  }

  /** Conversion of a whole list, element by element. */
  function ListaDTO(s: seq<Prodotto>): (r: seq<ProdottoDTO>)
    ensures |r| == |s| && forall k :: 0 <= k < |r| ==> r[k] == ProdottoADTO(s[k])
  {
    seq(|s|, k requires 0 <= k < |s| => ProdottoADTO(s[k]))
  }

  /** The request names a category by a non-null id. */
  predicate HaIdCategoria(dto: ProdottoDTO)
  {
    dto.categoriaDTO.Some? && dto.categoriaDTO.value.id.Some?
  }

  /** The effect of `salva` on the two stores' states: a null transfer object, a missing
      category or category id, and a category that is not stored are rejected as invalid
      arguments; otherwise the product, carrying the stored category, goes to the product
      store's `salva`, which fails only for an unknown product id. */
  function EffettoSalva(tc: CategoriaStore.Tabella, tp: ProdottoStore.Tabella, dto: Option<ProdottoDTO>): (out: Step<Result<ProdottoDTO>, ProdottoStore.Tabella>)
    ensures out.result.Err? ==> out.state == tp
    ensures out.result == Err(InvalidArgument) <==>
              dto.None? || !HaIdCategoria(dto.value) || tc.TrovaPerId(dto.value.categoriaDTO.value.id).None?
    ensures out.result == Err(DataAccess) <==>
              dto.Some? && HaIdCategoria(dto.value) && tc.TrovaPerId(dto.value.categoriaDTO.value.id).Some? &&
              dto.value.id.Some? && tp.TrovaPerId(dto.value.id).None?
    ensures out.result.Ok? ==>
              var categoria := tc.TrovaPerId(dto.value.categoriaDTO.value.id).value;
              var id := if dto.value.id.None? then Some(tp.contatoreId + 1) else dto.value.id;
              out.result.value == dto.value.(id := id, categoriaDTO := Some(CategoriaADTO(categoria))) &&
              (dto.value.id.None? ==>
                 out.state == ProdottoStore.Tabella(
                   tp.prodotti + [ProdottoAEntity(dto.value.(id := id), categoria)], tp.contatoreId + 1)) &&
              (dto.value.id.Some? ==>
                 out.state == ProdottoStore.Tabella(
                   ProdottoStore.WithoutId(tp.prodotti, dto.value.id.value) + [ProdottoAEntity(dto.value, categoria)],
                   tp.contatoreId))
  {
    if dto.None? then Step(Err(InvalidArgument), tp)
    else if !HaIdCategoria(dto.value) then Step(Err(InvalidArgument), tp)
    else match tc.TrovaPerId(dto.value.categoriaDTO.value.id)
      case None => Step(Err(InvalidArgument), tp)
      case Some(categoria) =>
        var out := tp.Salva(Some(ProdottoAEntity(dto.value, categoria)));
        Step(RisultatoDTO(out.result), out.state)
  }

  /** The effect of `modifica`: the request is checked in the source's order (transfer
      object and its id, category and its id, product existence, category existence), each
      failure an invalid argument; then the product store's `modifica` overwrites the stored
      product in place. */
  function EffettoModifica(tc: CategoriaStore.Tabella, tp: ProdottoStore.Tabella, dto: Option<ProdottoDTO>): (out: Step<Result<ProdottoDTO>, ProdottoStore.Tabella>)
    ensures out.result.Err? <==>
              dto.None? || dto.value.id.None? || !HaIdCategoria(dto.value) ||
              tp.TrovaPerId(dto.value.id).None? || tc.TrovaPerId(dto.value.categoriaDTO.value.id).None?
    ensures out.result.Err? ==> out.result.error == InvalidArgument && out.state == tp
    ensures out.result.Ok? ==>
              var categoria := tc.TrovaPerId(dto.value.categoriaDTO.value.id).value;
              out.result.value == dto.value.(categoriaDTO := Some(CategoriaADTO(categoria))) &&
              out.state.contatoreId == tp.contatoreId &&
              |out.state.prodotti| == |tp.prodotti| &&
              exists k :: 0 <= k < |tp.prodotti| && tp.prodotti[k].id == dto.value.id &&
                          out.state.prodotti[k] == ProdottoAEntity(dto.value, categoria) &&
                          forall j :: 0 <= j < |tp.prodotti| && j != k ==> out.state.prodotti[j] == tp.prodotti[j]
  {
    if dto.None? || dto.value.id.None? then Step(Err(InvalidArgument), tp)
    else if !HaIdCategoria(dto.value) then Step(Err(InvalidArgument), tp)
    else if tp.TrovaPerId(dto.value.id).None? then Step(Err(InvalidArgument), tp)
    else match tc.TrovaPerId(dto.value.categoriaDTO.value.id)
      case None => Step(Err(InvalidArgument), tp)
      case Some(categoria) =>
        var out := tp.Modifica(Some(ProdottoAEntity(dto.value, categoria)));
        Step(RisultatoDTO(out.result), out.state)
  }

  /** The effect of `elimina`: a null or unknown id is an invalid argument, otherwise the
      product store removes the product. */
  function EffettoElimina(tp: ProdottoStore.Tabella, id: Option<int>): (out: Step<Result<()>, ProdottoStore.Tabella>)
    ensures out.result.Err? <==> id.None? || forall k :: 0 <= k < |tp.prodotti| ==> tp.prodotti[k].id != id
    ensures out.result.Err? ==> out.result.error == InvalidArgument && out.state == tp
    ensures out.result.Ok? ==>
              out.state.contatoreId == tp.contatoreId &&
              exists k :: 0 <= k < |tp.prodotti| && tp.prodotti[k].id == id &&
                          out.state.prodotti == RemoveAt(tp.prodotti, k)
  {
    if id.None? then Step(Err(InvalidArgument), tp)
    else if tp.TrovaPerId(id).None? then Step(Err(InvalidArgument), tp)
    else tp.Elimina(id)
  }

  /** The service's own checks before `elimina` reject exactly what the store would reject
      anyway, with the same error: the service behaves as the store. */
  lemma EliminaComeDao(tp: ProdottoStore.Tabella, id: Option<int>)
    ensures EffettoElimina(tp, id) == tp.Elimina(id)
  {
  }

  /** On a valid store, the product `salva` answered with can be found by its id, and
      converts to that very answer; the store stays valid. */
  lemma SalvaRitrovabile(tc: CategoriaStore.Tabella, tp: ProdottoStore.Tabella, dto: Option<ProdottoDTO>)
    requires tp.Valid()
    ensures EffettoSalva(tc, tp, dto).state.Valid()
    ensures var out := EffettoSalva(tc, tp, dto);
            out.result.Ok? ==>
              out.state.TrovaPerId(out.result.value.id).Some? &&
              ProdottoADTO(out.state.TrovaPerId(out.result.value.id).value) == out.result.value
  {
    var out := EffettoSalva(tc, tp, dto);
    if out.result.Ok? {
      var categoria := tc.TrovaPerId(dto.value.categoriaDTO.value.id).value;
      var prodotto := ProdottoAEntity(dto.value, categoria);
      ProdottoStore.SalvaPreservesValid(tp, Some(prodotto));
      if dto.value.id.None? {
        var s' := out.state.prodotti;
        forall j | 0 <= j < |tp.prodotti| ensures s'[j].id != Some(tp.contatoreId + 1) {
          assert s'[j] == tp.prodotti[j];
        }
        assert s'[|tp.prodotti|].id == Some(tp.contatoreId + 1);
      } else {
        ProdottoStore.SalvaUpdateReplaces(tp, prodotto);
      }
    } else {
      ProdottoStore.SalvaPreservesValid(tp, None);
    }
  }

  /** On a valid store, after `modifica` the product found by the id converts to the
      answer; the store stays valid. */
  lemma ModificaRitrovabile(tc: CategoriaStore.Tabella, tp: ProdottoStore.Tabella, dto: Option<ProdottoDTO>)
    requires tp.Valid()
    ensures EffettoModifica(tc, tp, dto).state.Valid()
    ensures var out := EffettoModifica(tc, tp, dto);
            out.result.Ok? ==>
              out.state.TrovaPerId(dto.value.id).Some? &&
              ProdottoADTO(out.state.TrovaPerId(dto.value.id).value) == out.result.value
  {
    var out := EffettoModifica(tc, tp, dto);
    if out.result.Ok? {
      var categoria := tc.TrovaPerId(dto.value.categoriaDTO.value.id).value;
      ProdottoStore.ModificaPreservesValid(tp, Some(ProdottoAEntity(dto.value, categoria)));
    }
  }

  /** `ServizioProdottoImpl`: the service object, bound to a category store and a product
      store. */
  class ServizioProdottoImpl {
    const categoriaDao: CategoriaStore.InMemoryCategoriaDao
    const prodottoDao: ProdottoStore.InMemoryProdottoDao

    ghost predicate Valid()
      reads categoriaDao, prodottoDao
    {
      categoriaDao.Valid() && prodottoDao.Valid()
    }

    constructor (categoriaDao: CategoriaStore.InMemoryCategoriaDao, prodottoDao: ProdottoStore.InMemoryProdottoDao)
      ensures this.categoriaDao == categoriaDao && this.prodottoDao == prodottoDao
    {
      this.categoriaDao := categoriaDao;
      this.prodottoDao := prodottoDao;
    }

    method Salva(prodottoDTO: Option<ProdottoDTO>) returns (r: Result<ProdottoDTO>)
      requires Valid()
      modifies prodottoDao
      ensures Valid()
      ensures categoriaDao.Stato() == old(categoriaDao.Stato())
      ensures Step(r, prodottoDao.Stato()) == EffettoSalva(categoriaDao.Stato(), old(prodottoDao.Stato()), prodottoDTO)
    {
      if prodottoDTO.None? {
        return Err(InvalidArgument);
      }
      var dto := prodottoDTO.value;
      if dto.categoriaDTO.None? || dto.categoriaDTO.value.id.None? {
        return Err(InvalidArgument);
      }
      var categoria := categoriaDao.Stato().TrovaPerId(dto.categoriaDTO.value.id);
      if categoria.None? {
        return Err(InvalidArgument);
      }
      var prodottoDaSalvare := ProdottoAEntity(dto, categoria.value);
      var prodottoSalvato := prodottoDao.Salva(Some(prodottoDaSalvare));
      r := RisultatoDTO(prodottoSalvato);
    }

    /** `trovaPerId`: the stored product with that id, as a transfer object. */
    function TrovaPerId(id: Option<int>): (r: Option<ProdottoDTO>)
      reads prodottoDao
      ensures r.None? <==> id.None? ||
                           forall k :: 0 <= k < |prodottoDao.archivioProdotti| ==> prodottoDao.archivioProdotti[k].id != id
      ensures r.Some? ==> r.value.id == id &&
                          exists k :: 0 <= k < |prodottoDao.archivioProdotti| &&
                                      ProdottoADTO(prodottoDao.archivioProdotti[k]) == r.value
    {
      match prodottoDao.Stato().TrovaPerId(id)
      case None => None
      case Some(p) => Some(ProdottoADTO(p))
    }

    /** `trovaTutti`: one transfer object per stored product, in the store's order. */
    function TrovaTutti(): (r: seq<ProdottoDTO>)
      reads prodottoDao
      ensures |r| == |prodottoDao.archivioProdotti|
      ensures forall k :: 0 <= k < |r| ==> r[k] == ProdottoADTO(prodottoDao.archivioProdotti[k])
    {
      ListaDTO(prodottoDao.Stato().TrovaTutti())
    }

    /** `trovaPerIdCategoria`: the transfer objects of exactly the products of that
        category, in store order; a null id gives the empty list. */
    function TrovaPerIdCategoria(idCategoria: Option<int>): (r: seq<ProdottoDTO>)
      reads prodottoDao
      ensures idCategoria.None? ==> r == []
      ensures idCategoria.Some? ==> r == ListaDTO(prodottoDao.Stato().TrovaPerIdCategoria(idCategoria))
      ensures forall k :: 0 <= k < |r| ==>
                r[k].categoriaDTO.Some? && r[k].categoriaDTO.value.id == idCategoria
      ensures forall k :: 0 <= k < |prodottoDao.archivioProdotti| &&
                          idCategoria.Some? && ProdottoStore.InCategoria(prodottoDao.archivioProdotti[k], idCategoria.value) ==>
                ProdottoADTO(prodottoDao.archivioProdotti[k]) in r
    {
      if idCategoria.None? then []
      else
        var trovati := prodottoDao.Stato().TrovaPerIdCategoria(idCategoria);
        var r := ListaDTO(trovati);
        assert forall k :: 0 <= k < |prodottoDao.archivioProdotti| &&
                           ProdottoStore.InCategoria(prodottoDao.archivioProdotti[k], idCategoria.value) ==>
                 ProdottoADTO(prodottoDao.archivioProdotti[k]) in r by {
          forall k | 0 <= k < |prodottoDao.archivioProdotti| &&
                     ProdottoStore.InCategoria(prodottoDao.archivioProdotti[k], idCategoria.value)
            ensures ProdottoADTO(prodottoDao.archivioProdotti[k]) in r
          {
            var p := prodottoDao.archivioProdotti[k];
            assert p in trovati;
            var i :| 0 <= i < |trovati| && trovati[i] == p;
            assert r[i] == ProdottoADTO(p);
          }
        }
        assert forall k :: 0 <= k < |r| ==> r[k].categoriaDTO.Some? && r[k].categoriaDTO.value.id == idCategoria by {
          forall k | 0 <= k < |r| ensures r[k].categoriaDTO.Some? && r[k].categoriaDTO.value.id == idCategoria {
            assert trovati[k] in trovati;
          }
        }
        r
    }

    method Modifica(prodottoDTO: Option<ProdottoDTO>) returns (r: Result<ProdottoDTO>)
      requires Valid()
      modifies prodottoDao
      ensures Valid()
      ensures categoriaDao.Stato() == old(categoriaDao.Stato())
      ensures Step(r, prodottoDao.Stato()) == EffettoModifica(categoriaDao.Stato(), old(prodottoDao.Stato()), prodottoDTO)
    {
      if prodottoDTO.None? || prodottoDTO.value.id.None? {
        return Err(InvalidArgument);
      }
      var dto := prodottoDTO.value;
      if dto.categoriaDTO.None? || dto.categoriaDTO.value.id.None? {
        return Err(InvalidArgument);
      }
      if prodottoDao.Stato().TrovaPerId(dto.id).None? {
        return Err(InvalidArgument);
      }
      var categoria := categoriaDao.Stato().TrovaPerId(dto.categoriaDTO.value.id);
      if categoria.None? {
        return Err(InvalidArgument);
      }
      var prodottoDaModificare := ProdottoAEntity(dto, categoria.value);
      var prodottoModificato := prodottoDao.Modifica(Some(prodottoDaModificare));
      r := RisultatoDTO(prodottoModificato);
    }

    method Elimina(id: Option<int>) returns (r: Result<()>)
      requires Valid()
      modifies prodottoDao
      ensures Valid()
      ensures categoriaDao.Stato() == old(categoriaDao.Stato())
      ensures Step(r, prodottoDao.Stato()) == EffettoElimina(old(prodottoDao.Stato()), id)
    {
      if id.None? {
        return Err(InvalidArgument);
      }
      if prodottoDao.Stato().TrovaPerId(id).None? {
        return Err(InvalidArgument);
      }
      r := prodottoDao.Elimina(id);
    }
  }
}
