/** The category service: it turns transfer objects into categories, hands them to the
    category store, and turns what the store returns back into transfer objects. Both
    `salva` and `modifica` go through the store's `salva`, never through its `modifica`. */
module CategoriaService {
  import opened Wrappers
  import opened Entities
  import opened Text
  import CategoriaStore

  /** The category that `salva` builds from a transfer object: the id is not copied. */
  function NuovaCategoria(dto: CategoriaDTO): (c: Categoria)
    ensures c.id.None? && c.nome == dto.nome && c.percorsoImmagine == dto.percorsoImmagine
  {
    Categoria(None, dto.nome, dto.percorsoImmagine)
  }

  /** The category that `modifica` builds from a transfer object: all three fields. */
  function CategoriaDaDTO(dto: CategoriaDTO): (c: Categoria)
    ensures c.id == dto.id && c.nome == dto.nome && c.percorsoImmagine == dto.percorsoImmagine
    ensures CategoriaADTO(c) == dto
  {
    Categoria(dto.id, dto.nome, dto.percorsoImmagine)
  }

  /** Converts what the store's `salva` returned into the service's answer. */
  function RisultatoDTO(r: Result<Categoria>): (d: Result<CategoriaDTO>)
    ensures d.Err? <==> r.Err?
    ensures d.Err? ==> d.error == r.error
    ensures d.Ok? ==> d.value == CategoriaADTO(r.value)
  {
    match r
    case Ok(c) => Ok(CategoriaADTO(c))
    case Err(e) => Err(e)
  }

  /** The effect of the service's `salva` on a store: the id of the transfer object is
      dropped, so the call always inserts; it fails exactly when the name is already taken,
      ignoring case. */
  function EffettoSalva(t: CategoriaStore.Tabella, dto: CategoriaDTO): (out: Step<Result<CategoriaDTO>, CategoriaStore.Tabella>)
    ensures out.result.Err? <==> t.TrovaPerNome(Some(dto.nome)).Some?
    ensures out.result.Err? ==> out.result.error == DataAccess && out.state == t
    ensures out.result.Ok? ==>
              out.result.value == CategoriaDTO(Some(t.contatoreId + 1), dto.nome, dto.percorsoImmagine) &&
              out.state == CategoriaStore.Tabella(
                t.categorie + [Categoria(Some(t.contatoreId + 1), dto.nome, dto.percorsoImmagine)],
                t.contatoreId + 1)
  {
    var out := t.Salva(Some(NuovaCategoria(dto)));
    Step(RisultatoDTO(out.result), out.state)
  }

  /** The effect of the service's `modifica`: the transfer object, id included, goes through
      the store's `salva`. Without an id it inserts; with an unknown id it fails; otherwise
      it replaces the stored category and answers with the transfer object itself. */
  function EffettoModifica(t: CategoriaStore.Tabella, dto: CategoriaDTO): (out: Step<Result<CategoriaDTO>, CategoriaStore.Tabella>)
    ensures out.result.Err? ==> out.result.error == DataAccess && out.state == t
    ensures dto.id.None? ==> (out.result.Err? <==> t.TrovaPerNome(Some(dto.nome)).Some?)
    ensures dto.id.None? && out.result.Ok? ==>
              out.result.value == CategoriaDTO(Some(t.contatoreId + 1), dto.nome, dto.percorsoImmagine)
    ensures dto.id.Some? && t.TrovaPerId(dto.id).None? ==> out.result.Err?
    ensures dto.id.Some? && out.result.Ok? ==>
              out.result.value == dto && out.state.contatoreId == t.contatoreId &&
              out.state.categorie == CategoriaStore.WithoutId(t.categorie, dto.id.value) + [CategoriaDaDTO(dto)]
  {
    var out := t.Salva(Some(CategoriaDaDTO(dto)));
    Step(RisultatoDTO(out.result), out.state)
  }

  /** `modifica` of a transfer object without id behaves exactly as `salva`. */
  lemma ModificaSenzaIdComeSalva(t: CategoriaStore.Tabella, dto: CategoriaDTO)
    requires dto.id.None?
    ensures EffettoModifica(t, dto) == EffettoSalva(t, dto)
  {
    assert CategoriaDaDTO(dto) == NuovaCategoria(dto);
  }

  /** Neither service operation breaks the store invariant (unique ids in range, unique
      names ignoring case). */
  lemma ServizioPreservesValid(t: CategoriaStore.Tabella, dto: CategoriaDTO)
    requires t.Valid()
    ensures EffettoSalva(t, dto).state.Valid()
    ensures EffettoModifica(t, dto).state.Valid()
  {
    CategoriaStore.SalvaPreservesValid(t, Some(NuovaCategoria(dto)));
    CategoriaStore.SalvaPreservesValid(t, Some(CategoriaDaDTO(dto)));
  }

  /** Renaming a known category fails exactly when another category already has the new
      name ignoring case; after a successful rename, a lookup by id answers with the
      transfer object that was passed in. */
  lemma ModificaCategoriaEsistente(t: CategoriaStore.Tabella, dto: CategoriaDTO)
    requires t.Valid() && dto.id.Some? && t.TrovaPerId(dto.id).Some?
    ensures EffettoModifica(t, dto).result.Err? <==>
            exists j :: 0 <= j < |t.categorie| && t.categorie[j].id != dto.id &&
                        EqualsIgnoreCase(t.categorie[j].nome, dto.nome)
    ensures EffettoModifica(t, dto).result.Ok? ==>
            EffettoModifica(t, dto).state.TrovaPerId(dto.id) == Some(CategoriaDaDTO(dto)) &&
            CategoriaADTO(CategoriaDaDTO(dto)) == dto
  {
    CategoriaStore.SalvaUpdateConflict(t, CategoriaDaDTO(dto));
    if EffettoModifica(t, dto).result.Ok? {
      CategoriaStore.SalvaUpdateReplaces(t, CategoriaDaDTO(dto));
    }
  }

  /** `ServizioCategoriaImpl`: the service object, bound to the category store it was
      built with. */
  class ServizioCategoriaImpl {
    const categoriaDao: CategoriaStore.InMemoryCategoriaDao

    ghost predicate Valid()
      reads categoriaDao
    {
      categoriaDao.Valid()
    }

    constructor (categoriaDao: CategoriaStore.InMemoryCategoriaDao)
      ensures this.categoriaDao == categoriaDao
    {
      this.categoriaDao := categoriaDao;
    }

    method Salva(categoriaDTO: CategoriaDTO) returns (r: Result<CategoriaDTO>)
      requires Valid()
      modifies categoriaDao
      ensures Valid()
      ensures Step(r, categoriaDao.Stato()) == EffettoSalva(old(categoriaDao.Stato()), categoriaDTO)
    {
      var categoria := NuovaCategoria(categoriaDTO);
      var categoriaSalvata := categoriaDao.Salva(Some(categoria));
      r := RisultatoDTO(categoriaSalvata);
    }

    /** `trovaPerId`: the stored category with that id, as a transfer object. */
    function TrovaPerId(id: Option<int>): (r: Option<CategoriaDTO>)
      reads categoriaDao
      ensures r.None? <==> id.None? ||
                           forall k :: 0 <= k < |categoriaDao.archivioCategorie| ==> categoriaDao.archivioCategorie[k].id != id
      ensures r.Some? ==> r.value.id == id &&
                          exists k :: 0 <= k < |categoriaDao.archivioCategorie| &&
                                      CategoriaADTO(categoriaDao.archivioCategorie[k]) == r.value
    {
      match categoriaDao.Stato().TrovaPerId(id)
      case None => None
      case Some(c) => Some(CategoriaADTO(c))
    }

    /** `trovaPerNome`: the first stored category with that name ignoring case, as a
        transfer object. */
    function TrovaPerNome(nome: Option<string>): (r: Option<CategoriaDTO>)
      reads categoriaDao
      ensures r.None? <==> nome.None? ||
                           forall k :: 0 <= k < |categoriaDao.archivioCategorie| ==>
                             !EqualsIgnoreCase(nome.value, categoriaDao.archivioCategorie[k].nome)
      ensures r.Some? ==> EqualsIgnoreCase(nome.value, r.value.nome) &&
                          exists k :: 0 <= k < |categoriaDao.archivioCategorie| &&
                                      CategoriaADTO(categoriaDao.archivioCategorie[k]) == r.value
    {
      match categoriaDao.Stato().TrovaPerNome(nome)
      case None => None
      case Some(c) => Some(CategoriaADTO(c))
    }

    /** `trovaTutte`: one transfer object per stored category, in the store's order. */
    function TrovaTutte(): (r: seq<CategoriaDTO>)
      reads categoriaDao
      ensures |r| == |categoriaDao.archivioCategorie|
      ensures forall k :: 0 <= k < |r| ==>
                r[k].id == categoriaDao.archivioCategorie[k].id &&
                r[k].nome == categoriaDao.archivioCategorie[k].nome &&
                r[k].percorsoImmagine == categoriaDao.archivioCategorie[k].percorsoImmagine
    {
      var categorie := categoriaDao.Stato().TrovaTutte();
      seq(|categorie|, k requires 0 <= k < |categorie| => CategoriaADTO(categorie[k]))
    }

    method Modifica(categoriaDTO: CategoriaDTO) returns (r: Result<CategoriaDTO>)
      requires Valid()
      modifies categoriaDao
      ensures Valid()
      ensures Step(r, categoriaDao.Stato()) == EffettoModifica(old(categoriaDao.Stato()), categoriaDTO)
    {
      var categoria := CategoriaDaDTO(categoriaDTO);
      var categoriaModificata := categoriaDao.Salva(Some(categoria));
      r := RisultatoDTO(categoriaModificata);
    }

    /** `elimina`: delegated to the store unchanged. */
    method Elimina(id: Option<int>) returns (r: Result<()>)
      requires Valid()
      modifies categoriaDao
      ensures Valid()
      ensures Step(r, categoriaDao.Stato()) == old(categoriaDao.Stato()).Elimina(id)
    {
      r := categoriaDao.Elimina(id);
    }
  }
}
