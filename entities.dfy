/** The records the stores hold and the transfer objects the services return.
    A Java `Long` id that may be null is an `Option<int>`. */
module Entities {
  import opened Wrappers

  datatype Categoria = Categoria(id: Option<int>, nome: string, percorsoImmagine: string)

  /** A product embeds the category it belongs to, which may be absent. */
  datatype Prodotto = Prodotto(
    id: Option<int>,
    nome: string,
    descrizione: string,
    quantita: int,
    percorsoImmagine: string,
    categoria: Option<Categoria>)

  datatype Utente = Utente(id: Option<int>, email: string, hashPassword: string, ruolo: string)

  datatype CategoriaDTO = CategoriaDTO(id: Option<int>, nome: string, percorsoImmagine: string)

  datatype ProdottoDTO = ProdottoDTO(
    id: Option<int>,
    nome: string,
    descrizione: string,
    quantita: int,
    percorsoImmagine: string,
    categoriaDTO: Option<CategoriaDTO>)

  /** The transfer object of a category: the same three fields. */
  function CategoriaADTO(c: Categoria): (d: CategoriaDTO)
    ensures d.id == c.id && d.nome == c.nome && d.percorsoImmagine == c.percorsoImmagine
  {
    CategoriaDTO(c.id, c.nome, c.percorsoImmagine)
  }
}
