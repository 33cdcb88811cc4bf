# NextCart back office: stores, services and password encoder

This project models the persistence core of the NextCart back office in Dafny:

- the three in-memory stores (categories, products, users);
- the product service and the category service built on them;
- the password encoder.

Each store is a list of records and a `long` id counter. A record without an id is
inserted under the next counter value. A record with an id replaces the stored one.
Category names and user emails must be unique, ignoring case. Errors are of two kinds:
`InvalidArgument` (Java's `IllegalArgumentException`) and `DataAccess` (the project's
`EccezioneAccessoDati`).

Layout:

- `wrappers.dfy`: `Option`, the error kinds, `Result`, and `Step`, a result paired with the new state.
- `text.dfy`: the ASCII case fold behind `equalsIgnoreCase`.
- `sequences.dfy`: subsequence, and removal at an index.
- `entities.dfy`: the records and their transfer objects.
- `categoria_dao.dfy`, `prodotto_dao.dfy`, `utente_dao.dfy`: one module per store. Each has two parts:
  - a `Tabella` datatype, the list plus the counter, whose member functions specify every lookup and write;
  - the store class `InMemory…Dao`, with the list and the counter as fields. Its write methods change the fields step by step as the Java code does. Each method is proved to keep the invariant and to produce exactly what the `Tabella` function describes.
- `servizio_categoria.dfy`, `servizio_prodotto.dfy`: the service classes, bound to store objects. Each write method is proved against an `Effetto…` function or the store's own transition, the effect of the call on the stores' states.
- `codificatore_password.dfy`: the encoder and its verification.

The three store classes are commented out line by line in the repository. The tests still
construct them, so the model follows the commented text.

## Model

| member | source | states |
|---|---|---|
| Text.Fold | src/main/java/org/example/dao/impl/InMemoryCategoriaDao.java:36 | Folding keeps the length and lower-cases each ASCII letter; all other characters are unchanged. |
| Text.EqualsIgnoreCaseCharwise | src/main/java/org/example/dao/impl/InMemoryCategoriaDao.java:36 | Two strings are equal ignoring case iff they have the same length and agree character by character after folding. |
| CategoriaStore.Tabella.TrovaPerNome | src/main/java/org/example/dao/impl/InMemoryCategoriaDao.java:32-38 | A null name, or no name equal ignoring case, gives empty. Otherwise the result is the first stored category whose name matches ignoring case. |
| CategoriaStore.Tabella.TrovaPerId | src/main/java/org/example/dao/impl/InMemoryCategoriaDao.java:97-103 | A null or absent id gives empty. Otherwise the result is the first stored category with that id. |
| CategoriaStore.Tabella.TrovaTutte | src/main/java/org/example/dao/impl/InMemoryCategoriaDao.java:123-126 | The result equals the stored list, element by element. |
| CategoriaStore.Tabella.Salva | src/main/java/org/example/dao/impl/InMemoryCategoriaDao.java:53-88 | • Null gives InvalidArgument; every other failure is DataAccess; a failure leaves list and counter unchanged. • An insert fails iff the name is taken ignoring case; on success it gets id counter+1, is appended, and the counter advances. • An update of an unknown id fails. • A successful update returns the record, leaves the counter as it was, and yields "every record but that id, then the record". |
| CategoriaStore.Tabella.Elimina | src/main/java/org/example/dao/impl/InMemoryCategoriaDao.java:135-144 | Fails iff the id is null or no category has it; the error is InvalidArgument and the state is unchanged. On success, one record holding that id is removed, the rest keep their order, and the counter is unchanged. |
| CategoriaStore.Tabella.Modifica | src/main/java/org/example/dao/impl/InMemoryCategoriaDao.java:159-183 | • A null record, null id or unknown id gives InvalidArgument. • For a known id, the call fails iff the name changes (ignoring case) to one another category holds, and that failure is always DataAccess. • Any failure leaves the state unchanged. • On success, the entry holding the id gets the new name and image path in place: same id, same position, every other entry untouched. |
| CategoriaStore.UpdateNameCheck | src/main/java/org/example/dao/impl/InMemoryCategoriaDao.java:73-79 | On a valid store, the update's name test rejects exactly when another record has a name equal to the new one ignoring case. |
| CategoriaStore.SalvaPreservesValid | src/main/java/org/example/dao/impl/InMemoryCategoriaDao.java:56-84 | `salva` keeps the invariant: ids distinct and in 1..counter, names distinct after case folding. |
| CategoriaStore.InsertIdAboveStored | src/main/java/org/example/dao/impl/InMemoryCategoriaDao.java:62-63 | On a valid store, the id a successful insert hands out is larger than every stored id. |
| CategoriaStore.SalvaUpdateReplaces | src/main/java/org/example/dao/impl/InMemoryCategoriaDao.java:81-84 | After a successful update: the length is unchanged, the new record is last, it is the only one with its id, and a lookup by id finds it. |
| CategoriaStore.SalvaUpdateConflict | src/main/java/org/example/dao/impl/InMemoryCategoriaDao.java:64-79 | Updating a known id fails iff a category with another id holds the new name ignoring case. Keeping one's own name never fails. |
| CategoriaStore.EliminaRemovesExactly | src/main/java/org/example/dao/impl/InMemoryCategoriaDao.java:135-144 | `elimina` on a valid store: list = every record but that id, one fewer record, the id is no longer found, counter unchanged, invariant kept. |
| CategoriaStore.ModificaPreservesValid | src/main/java/org/example/dao/impl/InMemoryCategoriaDao.java:159-183 | `modifica` keeps the invariant. For a known id, it fails iff another category holds the new name ignoring case, and then with DataAccess. |
| CategoriaStore.Applica | src/main/java/org/example/dao/impl/InMemoryCategoriaDao.java:62 | No call ever lowers the counter. |
| CategoriaStore.IdAssegnato | src/main/java/org/example/dao/impl/InMemoryCategoriaDao.java:62-63 | A call hands out an id iff it is a successful insert through `salva`. The id is counter+1, it is the id the inserted record receives, and it becomes the new counter. |
| CategoriaStore.EseguiPreservesValid | src/main/java/org/example/dao/impl/InMemoryCategoriaDao.java:53-183 | Every history of `salva`, `elimina` and `modifica` calls keeps the invariant. |
| CategoriaStore.EseguiCounterGrows | src/main/java/org/example/dao/impl/InMemoryCategoriaDao.java:53-144 | Over any history the counter only grows, deletions included. |
| CategoriaStore.IdsNeverReused | src/main/java/org/example/dao/impl/InMemoryCategoriaDao.java:53-144 | Over any history, handed-out ids are strictly increasing, all above the starting counter, and never above the final counter. |
| CategoriaStore.NewIdsAreFresh | src/main/java/org/example/dao/impl/InMemoryCategoriaDao.java:53-144 | On a valid store, no id handed out later belongs to a category stored now. |
| CategoriaStore.InMemoryCategoriaDao.constructor | src/main/java/org/example/dao/impl/InMemoryCategoriaDao.java:18-19 | A new store is empty, with counter 0. |
| CategoriaStore.InMemoryCategoriaDao.Salva | src/main/java/org/example/dao/impl/InMemoryCategoriaDao.java:53-88 | The method keeps the invariant. Its result and new fields are exactly `Tabella.Salva` of the old fields. |
| CategoriaStore.InMemoryCategoriaDao.Elimina | src/main/java/org/example/dao/impl/InMemoryCategoriaDao.java:135-144 | The method keeps the invariant. Its result and new fields are exactly `Tabella.Elimina` of the old fields. |
| CategoriaStore.InMemoryCategoriaDao.Modifica | src/main/java/org/example/dao/impl/InMemoryCategoriaDao.java:159-183 | The method keeps the invariant. Its result and new fields are exactly `Tabella.Modifica` of the old fields. |
| ProdottoStore.Tabella.TrovaPerId | src/main/java/org/example/dao/impl/InMemoryProdottoDao.java:61-67 | A null or absent id gives empty. Otherwise the result is the first stored product with that id. |
| ProdottoStore.Tabella.TrovaTutti | src/main/java/org/example/dao/impl/InMemoryProdottoDao.java:75-78 | The result equals the stored list, element by element. |
| ProdottoStore.Tabella.TrovaPerIdCategoria | src/main/java/org/example/dao/impl/InMemoryProdottoDao.java:87-94 | A null id gives the empty list. Otherwise a product is in the result iff it is stored and has a category with that id. The result is a subsequence of the stored list. |
| ProdottoStore.Tabella.Salva | src/main/java/org/example/dao/impl/InMemoryProdottoDao.java:32-52 | • Null gives InvalidArgument. • An insert always succeeds, gets id counter+1, is appended, and the counter advances. • An update fails iff the id is unknown; that failure is DataAccess and leaves the state unchanged. • A successful update yields "every product but that id, then the product". |
| ProdottoStore.Tabella.Elimina | src/main/java/org/example/dao/impl/InMemoryProdottoDao.java:103-112 | Fails iff the id is null or unknown, with InvalidArgument and the state unchanged. On success, the one record holding that id is removed, the rest keep their order, and the counter is unchanged. |
| ProdottoStore.Tabella.Modifica | src/main/java/org/example/dao/impl/InMemoryProdottoDao.java:125-145 | Fails iff the record is null, its id is null, or the id is unknown, always with InvalidArgument and the state unchanged. On success, the five fields are overwritten in place: same length, same position, other entries untouched, counter unchanged. |
| ProdottoStore.SalvaPreservesValid | src/main/java/org/example/dao/impl/InMemoryProdottoDao.java:32-52 | `salva` keeps ids distinct and in 1..counter. |
| ProdottoStore.InsertIdAboveStored | src/main/java/org/example/dao/impl/InMemoryProdottoDao.java:37-38 | On a valid store, the id an insert hands out is larger than every stored id. |
| ProdottoStore.SalvaUpdateReplaces | src/main/java/org/example/dao/impl/InMemoryProdottoDao.java:45-48 | After a successful update: the length is unchanged, the product is last, it is the only one with its id, and a lookup by id finds it. |
| ProdottoStore.EliminaRemovesExactly | src/main/java/org/example/dao/impl/InMemoryProdottoDao.java:103-112 | `elimina` on a valid store: list = every product but that id, one fewer product, the id is no longer found, counter unchanged, invariant kept. |
| ProdottoStore.ModificaPreservesValid | src/main/java/org/example/dao/impl/InMemoryProdottoDao.java:125-145 | `modifica` keeps the invariant. After it, a lookup by the id returns the modified product. |
| ProdottoStore.Applica | src/main/java/org/example/dao/impl/InMemoryProdottoDao.java:37 | No call ever lowers the counter. |
| ProdottoStore.IdAssegnato | src/main/java/org/example/dao/impl/InMemoryProdottoDao.java:37-38 | A call hands out an id iff it is an insert through `salva`. The id is counter+1, it is the id the inserted product receives, and it becomes the new counter. |
| ProdottoStore.EseguiPreservesValid | src/main/java/org/example/dao/impl/InMemoryProdottoDao.java:32-145 | Every history of calls keeps ids distinct and in range. |
| ProdottoStore.EseguiCounterGrows | src/main/java/org/example/dao/impl/InMemoryProdottoDao.java:32-112 | Over any history the counter never decreases, deletions included. |
| ProdottoStore.IdsNeverReused | src/main/java/org/example/dao/impl/InMemoryProdottoDao.java:32-112 | Over any history, handed-out ids are strictly increasing, all above the starting counter, and never above the final counter. |
| ProdottoStore.InMemoryProdottoDao.constructor | src/main/java/org/example/dao/impl/InMemoryProdottoDao.java:18-19 | A new store is empty, with counter 0. |
| ProdottoStore.InMemoryProdottoDao.Salva | src/main/java/org/example/dao/impl/InMemoryProdottoDao.java:32-52 | The method keeps the invariant. Its result and new fields are exactly `Tabella.Salva` of the old fields. |
| ProdottoStore.InMemoryProdottoDao.Elimina | src/main/java/org/example/dao/impl/InMemoryProdottoDao.java:103-112 | The method keeps the invariant. Its result and new fields are exactly `Tabella.Elimina` of the old fields. |
| ProdottoStore.InMemoryProdottoDao.Modifica | src/main/java/org/example/dao/impl/InMemoryProdottoDao.java:125-145 | The method keeps the invariant. Its result and new fields are exactly `Tabella.Modifica` of the old fields. |
| UtenteStore.Tabella.TrovaPerEmail | src/main/java/org/example/dao/impl/InMemoryUtenteDao.java:29-35 | A null email, or no email equal ignoring case, gives empty. Otherwise the result is the first user whose email matches ignoring case. |
| UtenteStore.Tabella.TrovaPerId | src/main/java/org/example/dao/impl/InMemoryUtenteDao.java:44-50 | A null or absent id gives empty. Otherwise the result is the first user with that id. |
| UtenteStore.Tabella.Salva | src/main/java/org/example/dao/impl/InMemoryUtenteDao.java:65-111 | • Null gives InvalidArgument; every other failure is DataAccess; a failure leaves the state unchanged. • An insert fails iff the email is taken ignoring case, checked before the counter moves. On success it gets id counter+1, is appended once, and the counter advances. • An update of an unknown id fails. • A successful update yields "every user but that id, then the user". |
| UtenteStore.UpdateEmailCheck | src/main/java/org/example/dao/impl/InMemoryUtenteDao.java:89-101 | On a valid store, the update's email test rejects exactly when another user has an email equal to the new one ignoring case. |
| UtenteStore.SalvaPreservesValid | src/main/java/org/example/dao/impl/InMemoryUtenteDao.java:70-108 | `salva` keeps ids distinct and in 1..counter, and emails distinct after case folding. |
| UtenteStore.InsertIdAboveStored | src/main/java/org/example/dao/impl/InMemoryUtenteDao.java:76-78 | On a valid store, the id a successful insert hands out is larger than every stored id. |
| UtenteStore.SalvaUpdateConflict | src/main/java/org/example/dao/impl/InMemoryUtenteDao.java:82-101 | Updating a known id fails iff a user with another id holds the new email ignoring case. Keeping the same email, ignoring case, always succeeds. |
| UtenteStore.SalvaUpdateReplaces | src/main/java/org/example/dao/impl/InMemoryUtenteDao.java:106-107 | After a successful update: the length is unchanged, the user is last and alone with its id, and a lookup by id returns it, so a changed role is visible. |
| UtenteStore.InMemoryUtenteDao.constructor | src/main/java/org/example/dao/impl/InMemoryUtenteDao.java:19-20 | A new store is empty, with counter 0. |
| UtenteStore.InMemoryUtenteDao.Salva | src/main/java/org/example/dao/impl/InMemoryUtenteDao.java:65-111 | The method keeps the invariant. Its result and new fields are exactly `Tabella.Salva` of the old fields. |
| Entities.CategoriaADTO | src/main/java/org/example/service/impl/ServizioCategoriaImpl.java:36 | The transfer object of a category copies its id, name and image path. |
| CategoriaService.NuovaCategoria | src/main/java/org/example/service/impl/ServizioCategoriaImpl.java:26-28 | The category that `salva` builds has no id: the transfer object's id is not copied. Name and image path are copied. |
| CategoriaService.CategoriaDaDTO | src/main/java/org/example/service/impl/ServizioCategoriaImpl.java:57-60 | The category that `modifica` builds copies id, name and image path. Converting it back gives the transfer object itself. |
| CategoriaService.ServizioCategoriaImpl.constructor | src/main/java/org/example/service/impl/ServizioCategoriaImpl.java:19-22 | The service is bound to the category store it is given. |
| CategoriaService.EffettoSalva | src/main/java/org/example/service/impl/ServizioCategoriaImpl.java:25-31 | The incoming id is dropped, so the call always inserts. It fails, with DataAccess and no change, iff the name is taken ignoring case. Otherwise the answer carries id counter+1 and the request's name and image path, and that category is appended. |
| CategoriaService.EffettoModifica | src/main/java/org/example/service/impl/ServizioCategoriaImpl.java:56-64 | • Failures are DataAccess and change nothing. • A null id behaves as an insert. • An unknown id fails. • A successful update answers with the request itself and yields "every category but that id, then the new one". |
| CategoriaService.ModificaSenzaIdComeSalva | src/main/java/org/example/service/impl/ServizioCategoriaImpl.java:56-64 | `modifica` of a request without id is exactly `salva`. |
| CategoriaService.ServizioPreservesValid | src/main/java/org/example/service/impl/ServizioCategoriaImpl.java:25-64 | Neither `salva` nor `modifica` breaks the category store's invariant. |
| CategoriaService.ModificaCategoriaEsistente | src/main/java/org/example/service/impl/ServizioCategoriaImpl.java:56-64 | For a known id, `modifica` fails iff another category has the new name ignoring case. After success, a lookup by id gives the request's category. |
| CategoriaService.ServizioCategoriaImpl.Salva | src/main/java/org/example/service/impl/ServizioCategoriaImpl.java:25-31 | The store ends in the state `EffettoSalva` describes, with the answer it describes, and the invariant holds. |
| CategoriaService.ServizioCategoriaImpl.TrovaPerId | src/main/java/org/example/service/impl/ServizioCategoriaImpl.java:34-37 | Empty iff the id is null or absent. Otherwise the answer has that id and is the field-by-field copy of a stored category. |
| CategoriaService.ServizioCategoriaImpl.TrovaPerNome | src/main/java/org/example/service/impl/ServizioCategoriaImpl.java:41-44 | Empty iff the name is null or matches no stored name ignoring case. Otherwise the answer matches ignoring case and copies a stored category. |
| CategoriaService.ServizioCategoriaImpl.TrovaTutte | src/main/java/org/example/service/impl/ServizioCategoriaImpl.java:48-53 | One transfer object per stored category, in store order, with the same id, name and image path. |
| CategoriaService.ServizioCategoriaImpl.Modifica | src/main/java/org/example/service/impl/ServizioCategoriaImpl.java:56-64 | The store ends in the state `EffettoModifica` describes, with the answer it describes, and the invariant holds. |
| CategoriaService.ServizioCategoriaImpl.Elimina | src/main/java/org/example/service/impl/ServizioCategoriaImpl.java:67-70 | Exactly the store's `elimina`: an absent or null id gives InvalidArgument. |
| ProdottoService.ProdottoADTO | src/main/java/org/example/service/impl/ServizioProdottoImpl.java:37-56 | The transfer object copies id, name, description, quantity and image path. It has a category exactly when the product has one, and that category is the transfer object of the product's category. |
| ProdottoService.ProdottoAEntity | src/main/java/org/example/service/impl/ServizioProdottoImpl.java:58-69 | The product copies id, name, description, quantity and image path from the transfer object. Its category is the one passed in. |
| ProdottoService.ConversioniInverse | src/main/java/org/example/service/impl/ServizioProdottoImpl.java:37-69 | The two converters undo each other, except that the category becomes the one passed in. |
| ProdottoService.EffettoSalva | src/main/java/org/example/service/impl/ServizioProdottoImpl.java:73-88 | • Fails with InvalidArgument iff the request is null, has no category or category id, or names a category that is not stored. • Fails with DataAccess iff, past those checks, it has an unknown product id. • A failure changes nothing. • On success the answer is the request with its assigned id and the stored category. The new product (insert) or the replacement (update) carries that stored category. |
| ProdottoService.EffettoModifica | src/main/java/org/example/service/impl/ServizioProdottoImpl.java:111-135 | Fails iff the request or its id is null, the category or its id is null, the product is unknown, or the category is unknown. Each failure is InvalidArgument and changes nothing. On success the answer is the request with the stored category, overwritten in place at the product's position. |
| ProdottoService.EffettoElimina | src/main/java/org/example/service/impl/ServizioProdottoImpl.java:138-144 | Fails iff the id is null or unknown, with InvalidArgument and no change. Otherwise the product with that id is removed. |
| ProdottoService.EliminaComeDao | src/main/java/org/example/service/impl/ServizioProdottoImpl.java:138-144 | The service's checks before `elimina` reject exactly what the store rejects: the service's `elimina` equals the store's. |
| ProdottoService.SalvaRitrovabile | src/main/java/org/example/service/impl/ServizioProdottoImpl.java:79-87 | On a valid store, `salva` keeps the invariant. A saved product can be found by its id, and converts to the answer. |
| ProdottoService.ModificaRitrovabile | src/main/java/org/example/service/impl/ServizioProdottoImpl.java:127-134 | On a valid store, `modifica` keeps the invariant. The product found by the id converts to the answer. |
| ProdottoService.ServizioProdottoImpl.constructor | src/main/java/org/example/service/impl/ServizioProdottoImpl.java:32-35 | The service is bound to the category store and the product store it is given. |
| ProdottoService.ServizioProdottoImpl.Salva | src/main/java/org/example/service/impl/ServizioProdottoImpl.java:73-88 | The category store is unchanged. The product store ends as `EffettoSalva` describes, with the answer it describes. |
| ProdottoService.ServizioProdottoImpl.TrovaPerId | src/main/java/org/example/service/impl/ServizioProdottoImpl.java:91-93 | Empty iff the id is null or absent. Otherwise the answer has that id and is the conversion of a stored product. |
| ProdottoService.ServizioProdottoImpl.TrovaTutti | src/main/java/org/example/service/impl/ServizioProdottoImpl.java:96-100 | One transfer object per stored product, in store order: each is the full conversion of the product at the same position. |
| ProdottoService.ServizioProdottoImpl.TrovaPerIdCategoria | src/main/java/org/example/service/impl/ServizioProdottoImpl.java:103-108 | A null id gives the empty list. Otherwise the answer is the conversion, in store order, of exactly the store's products of that category. Every answer belongs to that category, and every stored product of that category appears. |
| ProdottoService.ServizioProdottoImpl.Modifica | src/main/java/org/example/service/impl/ServizioProdottoImpl.java:111-135 | The category store is unchanged. The product store ends as `EffettoModifica` describes. |
| ProdottoService.ServizioProdottoImpl.Elimina | src/main/java/org/example/service/impl/ServizioProdottoImpl.java:138-144 | The category store is unchanged. The product store ends as `EffettoElimina` describes. |
| Codificatore.Reverse | src/main/java/org/example/util/CodificatorePassword.java:7 | Same length, characters in the opposite order. |
| Codificatore.ReverseReverse | src/main/java/org/example/util/CodificatorePassword.java:7 | Reversing twice gives the string back. |
| Codificatore.CalcolaHashPassword | src/main/java/org/example/util/CodificatorePassword.java:6-8 | The hash is "hashed_", then the password's characters in reverse order, then "_sale"; its length is the password's plus 12. |
| Codificatore.EstraiCalcola | src/main/java/org/example/util/CodificatorePassword.java:6-8 | Stripping the prefix and suffix and reversing brings the password back out of its hash. |
| Codificatore.HashInjective | src/main/java/org/example/util/CodificatorePassword.java:6-8 | Different passwords have different hashes. |
| Codificatore.VerificaPassword | src/main/java/org/example/util/CodificatorePassword.java:10-15 | A null argument gives false. A true answer means the hash is well formed and encodes exactly this password. |
| Codificatore.VerificaEsatta | src/main/java/org/example/util/CodificatorePassword.java:10-15 | A candidate verifies against the hash of p iff it is p, so the check is case-sensitive. |
| Codificatore.VerificaSoloHashBenFormati | src/main/java/org/example/util/CodificatorePassword.java:10-15 | A hash verifies p iff stripping and reversing it gives p. |
| Codificatore.HashConCodaNonVerifica | src/main/java/org/example/util/CodificatorePassword.java:10-15 | A computed hash with anything appended does not verify its password. |
| Codificatore.ReverseEsempio | src/main/java/org/example/util/CodificatorePassword.java:7 | "password123" reversed is "321drowssap". |
| Codificatore.EsempioPassword123 | src/main/java/org/example/util/CodificatorePassword.java:6-8 | "password123" hashes to "hashed_321drowssap_sale". |
| Codificatore.EsempioVuota | src/main/java/org/example/util/CodificatorePassword.java:6-8 | The empty password hashes to "hashed__sale". |

## Left out

- The JDBC stores and the connection manager: they are SQL I/O, and their validation mirrors the in-memory rules modelled here.
- Concurrency: the in-memory stores are documented as not thread-safe and have no lock, so every operation is modelled as one sequential step.
- Object identity and aliasing: records are values. The Java stores return, and keep, the very object they were given, so a caller can still mutate a stored record after saving it. Here only the record's value is related to what is stored.
- CategoriaStore.InMemoryCategoriaDao.Elimina: Java removes with `ArrayList.remove(found)`, where `equals` compares id and name. The model removes at the first index holding the id. These agree because `found` is that element, and every earlier element has a different id.
- Null names and emails: names and emails are modelled as strings that are never null. In Java, inserting a category with a null name or a user with a null email succeeds. The lookup by a null name or email finds nothing, so the duplicate check passes, and a store can hold any number of such records. An update with a null name or email throws `NullPointerException` instead. None of this is modelled. The uniqueness parts of the store invariants (`DistinctNames`, `DistinctEmails`) therefore speak only of non-null names and emails.
- Null transfer objects and passwords: a null transfer object in the category service and a null password in `calcolaHashPassword` throw `NullPointerException` in Java; here both are values that are never null. Null ids, null records, null categories and null lookup keys are modelled.
- Text.Fold: `equalsIgnoreCase` is modelled with an ASCII case fold. Java's Unicode case mapping of non-ASCII letters is not modelled.
- CategoriaStore.Tabella.Salva: the Java `long` counter is an unbounded `nat` here. Wrap-around after 2^63-1 inserts is not modelled, and the same holds for the product and user stores.
- The `tipologia` field that the product service copies does not exist in the entity and transfer object shown, so it is not part of this model.
- Exception messages: only the error kind is modelled.
- The services are bound to the in-memory store classes. Java injects the store interfaces, which may also be bound to the JDBC stores.
- `convertiAProdottoDTO(null)` and `convertiAProdottoEntity(null, …)` return null in Java. The service never calls them with null, so the model has no null cases.
- The browser scripts, the coverage script, the console entry point, and the authentication service are not part of this model.
- Some tests contradict the code, for example by expecting a `NullPointerException` where the service throws `IllegalArgumentException`, or by fixing ids by hand. The model follows the code.
