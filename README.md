# Products API catalogue core, modelled in Dafny

This project models the core of a small Spring product catalogue. A product
has an id, a name and a value, and carries hypermedia links. The model
covers:

- the product service: ingest from an external feed, batch create, paged
  listing, get-one, update and delete against a primary repository;
- the feed service that fetches and classifies the external catalogue;
- the start-up initializer that mirrors the primary repository into an
  in-memory secondary repository;
- the controller, which maps every service outcome of its six endpoints to
  an HTTP status and body;
- the global handler for request-validation failures;
- the entity's `equals` and `toString`.

Layout, one module per file:

- `wrappers.dfy` (`Wrappers`): `Option`, `Result`, `Outcome` and `Min`.
- `errors.dfy` (`Errors`): the closed set of exception kinds and their
  literal messages.
- `product_model.dfy` (`ProductModel`): the entity, its links, `equals` and
  `toString`.
- `repository.dfy` (`Repositories`): the shared JPA repository contract.
  - A store is a `Table`: the rows by id, a stable enumeration order, and
    the counter fresh ids come from.
  - `SaveInto`, `Enumerate`, `PageOf` and `DeleteEntity` state each
    repository call as a function of the store.
  - `SaveEach` and `SavedEntities` state a run of saves.
  - The `Repository` class holds a store and replaces it in its `Save` and
    `Delete` methods.
- `save_each.dfy` (`SaveInTurn`): `list.forEach(repository::save)` as a loop
  proved against `SaveEach`.
- `fake_products_service.dfy` (`FakeProducts`): the feed classification.
- `product_service.dfy` (`Service`): the `ProductService` class and the
  paging assembler.
- `memory_db_initializer.dfy` (`MemoryInit`): the start-up mirror.
- `responses.dfy` (`Responses`): status codes and response bodies.
- `controller.dfy` (`Controller`): the six handlers, plus a table of which
  exception kinds each endpoint catches.
- `exception_handler.dfy` (`ExceptionHandling`): the two validation handlers.

Save failures are an input. A `Fault(attempt, message)` says which save of
a run throws a `RuntimeException`, and with what message. So every loop is
specified for every point at which it can stop, including "never".

## Model

| member | source | states |
|---|---|---|
| ProductModel.Equals | src/main/java/com/dev/ProductsAPI/models/ProductModel.java:38-45 | equals holds exactly when the other object is a product that differs at most in its value; the lemmas below prove it an equivalence that ignores the value |
| ProductModel.ToString | src/main/java/com/dev/ProductsAPI/models/ProductModel.java:29-36 | the entity's text rendering; ToStringLayout pins every segment of it and ToStringShowsId reads the id back from it |
| ProductModel.EqualsUpToValue | src/main/java/com/dev/ProductsAPI/models/ProductModel.java:38-45 | two products are equal exactly when they agree on links, id and name; the value is not compared |
| ProductModel.EqualsIsEquivalence | src/main/java/com/dev/ProductsAPI/models/ProductModel.java:39-44 | equals is reflexive, symmetric and transitive on products, and false against null and against an object of another class |
| ProductModel.EqualsIgnoresValue | src/main/java/com/dev/ProductsAPI/models/ProductModel.java:43-44 | changing only the value never changes the outcome of equals |
| ProductModel.NatToStringRoundTrip | src/main/java/com/dev/ProductsAPI/models/ProductModel.java:32 | the decimal text an id is rendered as reads back as that id |
| ProductModel.ToStringLayout | src/main/java/com/dev/ProductsAPI/models/ProductModel.java:29-36 | toString is `ProductModel{idProduct=<id>, name='<name>', value=<value>}`: exact length, the fixed prefix, the id text, `, name='`, the name verbatim, `', value=` and the value text, the closing brace; the links play no part |
| ProductModel.ToStringShowsId | src/main/java/com/dev/ProductsAPI/models/ProductModel.java:31-32 | a stored id can be read back from the rendered text right after `idProduct=` |
| Repositories.EmptyWellFormed | src/main/java/com/dev/ProductsAPI/repository/primary/ProductRepository.java:8 | the empty store satisfies the store invariant (order lists each key once, rows under their own id, ids below the counter) |
| Repositories.SaveInto | src/main/java/com/dev/ProductsAPI/repository/primary/ProductRepository.java:8 | save keeps the invariant; only the id of the returned entity can differ from the argument; the row set becomes the old one updated at that id; an existing id is kept (upsert); a missing id is replaced by one that is not stored; the order only grows |
| Repositories.Lookup | src/main/java/com/dev/ProductsAPI/services/ProductService.java:75 | findById finds a row exactly when the id is stored, returns the row under that id, and in a well-formed store that row carries the id |
| Repositories.Enumerate | src/main/java/com/dev/ProductsAPI/repository/primary/ProductRepository.java:8 | findAll returns one entity per key, in store order, each the row under that key and carrying that key as its id |
| Repositories.Window | src/main/java/com/dev/ProductsAPI/services/ProductService.java:61 | the slice of at most `len` items from position `lo`: its length and that item i is element `lo + i` |
| Repositories.PageOf | src/main/java/com/dev/ProductsAPI/services/ProductService.java:61 | findAll(pageable) returns the requested number and size, the total count of the store, and the items at positions [number*size, min(number*size+size, n)), none if the offset is past the end |
| Repositories.Without | src/main/java/com/dev/ProductsAPI/services/ProductService.java:97 | removing an id from the order keeps exactly the other ids and keeps them distinct |
| Repositories.DeleteEntity | src/main/java/com/dev/ProductsAPI/services/ProductService.java:97 | delete keeps the invariant and removes exactly the row under the entity's id, leaving the counter alone |
| Repositories.SaveEach | src/main/java/com/dev/ProductsAPI/services/ProductService.java:42 | a run of saves keeps the invariant and never lowers the id counter |
| Repositories.SavedEntities | src/main/java/com/dev/ProductsAPI/services/ProductService.java:52 | a run of saves returns one entity per save |
| Repositories.SaveEachStep | src/main/java/com/dev/ProductsAPI/services/ProductService.java:42 | one more save extends the store fold by exactly that save |
| Repositories.SavedEntitiesStep | src/main/java/com/dev/ProductsAPI/services/ProductService.java:52 | one more save appends exactly the entity that save returns |
| Repositories.IdsFromSnoc | src/main/java/com/dev/ProductsAPI/services/ProductService.java:52 | appending the entity with the next consecutive id keeps the ids consecutive |
| Repositories.NewIdsAreIssuedInTurn | src/main/java/com/dev/ProductsAPI/services/ProductService.java:49-53 | saving n entities without ids advances the counter by n and gives entity i the id counter + i |
| Repositories.NewSaveTakesNextId | src/main/java/com/dev/ProductsAPI/services/ProductService.java:52 | a new entity gets the counter's value as id and advances the counter by one |
| Repositories.SaveNewKeepsRows | src/main/java/com/dev/ProductsAPI/services/ProductService.java:49-53 | saving new entities keeps every stored row and adds exactly one row per entity |
| Repositories.SavedEntitiesMatchInputs | src/main/java/com/dev/ProductsAPI/services/ProductService.java:50-52 | each entity a run returns has its input's name, value and links |
| Repositories.SavedEntitiesStored | src/main/java/com/dev/ProductsAPI/services/ProductService.java:49-53 | each entity a run of new saves returns is still stored under its id at the end |
| Repositories.NewSaveKeepsRow | src/main/java/com/dev/ProductsAPI/services/ProductService.java:52 | saving a new entity leaves every stored row as it was |
| Repositories.SavedEntitiesFacts | src/main/java/com/dev/ProductsAPI/services/ProductService.java:46-57 | a run of new saves returns one entity per input, in order, with the input's fields, under ids not stored before, pairwise different, each stored under its id |
| Repositories.SaveIdentifiedIsUpsert | src/main/java/com/dev/ProductsAPI/config/init/ProductsMemoryDBInitializer.java:28 | saving entities that all carry ids leaves the old rows overridden by those entities by id (later wins) and nothing else |
| Repositories.UnionUpdate | src/main/java/com/dev/ProductsAPI/config/init/ProductsMemoryDBInitializer.java:28 | updating one key after a map union equals the union with the updated right-hand map |
| Repositories.KeyedEnumeratePrefix | src/main/java/com/dev/ProductsAPI/config/init/ProductsMemoryDBInitializer.java:27 | keying the first i enumerated entities by id gives the rows under the first i ids of the order |
| Repositories.KeyedEnumerate | src/main/java/com/dev/ProductsAPI/config/init/ProductsMemoryDBInitializer.java:27 | keying all enumerated entities by id gives back exactly the rows |
| Repositories.MirrorSnapshot | src/main/java/com/dev/ProductsAPI/config/init/ProductsMemoryDBInitializer.java:27-28 | saving every primary entity into a store copies each primary row under its id, leaves rows the primary does not have untouched, and adds no other key; a completed run into a store with no rows leaves it holding exactly the primary's rows |
| Repositories.MirrorFromEmpty | src/main/java/com/dev/ProductsAPI/config/init/ProductsMemoryDBInitializer.java:27-28 | mirroring into an empty store yields exactly the primary's rows |
| Repositories.Completed | src/main/java/com/dev/ProductsAPI/services/ProductService.java:42 | the number of saves of a run that succeed: all of them without a fault in range, otherwise exactly those before the failing attempt |
| Repositories.FaultStep | src/main/java/com/dev/ProductsAPI/services/ProductService.java:42 | the current save either throws, and the run stops there, or leaves room for the next |
| Repositories.Repository.constructor | src/main/java/com/dev/ProductsAPI/repository/primary/ProductRepository.java:8 | a new repository holds the empty store |
| Repositories.Repository.Save | src/main/java/com/dev/ProductsAPI/repository/primary/ProductRepository.java:8 | a failing save throws with the store unchanged; otherwise the store becomes SaveInto's and its entity is returned |
| Repositories.Repository.FindById | src/main/java/com/dev/ProductsAPI/services/ProductService.java:75 | the lookup finds something exactly when the id is stored, and then the row under it |
| Repositories.Repository.FindAll | src/main/java/com/dev/ProductsAPI/config/init/ProductsMemoryDBInitializer.java:27 | findAll is the enumeration of the current store |
| Repositories.Repository.FindPage | src/main/java/com/dev/ProductsAPI/services/ProductService.java:61 | the paged findAll is PageOf on the current store |
| Repositories.Repository.Delete | src/main/java/com/dev/ProductsAPI/services/ProductService.java:97 | delete replaces the store by DeleteEntity's |
| SaveInTurn.SaveAll | src/main/java/com/dev/ProductsAPI/services/ProductService.java:42 | each product is saved once, in list order, until the first failing save; the store is the fold of exactly the saves that ran; the result is that save's exception, or success |
| FakeProducts.ConvertToProductModel | src/main/java/com/dev/ProductsAPI/services/FakeProductsService.java:36-41 | a converted record has the record's name and value, no id and no links |
| FakeProducts.ConvertAll | src/main/java/com/dev/ProductsAPI/services/FakeProductsService.java:28-29 | the stream map has the array's length and element i is the conversion of record i |
| FakeProducts.GetProductsList | src/main/java/com/dev/ProductsAPI/services/FakeProductsService.java:24-34 | success exactly for a non-null payload, and then its conversion; "No products found" exactly for null; "The API fake store is out of service" exactly for an HTTP status failure; a runtime failure exactly for any other client failure |
| FakeProducts.PayloadIsConvertedInOrder | src/main/java/com/dev/ProductsAPI/services/FakeProductsService.java:26-30 | a payload gives one product per record in order, with no id; an empty array gives the empty list, not an error |
| FakeProducts.NotFoundIsNotRewrapped | src/main/java/com/dev/ProductsAPI/services/FakeProductsService.java:30-33 | not-found comes only from a null payload and out-of-service only from an HTTP status failure; the catch clause turns neither into the other |
| Service.FromRecord | src/main/java/com/dev/ProductsAPI/services/ProductService.java:50-51 | a new entity has no id and no links and takes the request's name and value |
| Service.WithListLink | src/main/java/com/dev/ProductsAPI/services/ProductService.java:78 | the returned view keeps the entity's id, name, value and links and adds exactly one link, the "Products List:" link, at the end |
| Service.ToEntityModel | src/main/java/com/dev/ProductsAPI/services/ProductService.java:68-69 | the assembler's per-item step: the entity with one self link to its own id |
| Service.ToPagedModel | src/main/java/com/dev/ProductsAPI/services/ProductService.java:66-70 | the assembled page keeps the page's size, number and total, has one item per entity in order, and each item is that entity with a self link to its id |
| Service.FromRecords | src/main/java/com/dev/ProductsAPI/services/ProductService.java:49-51 | one new entity per request, in order, each without an id and with the request's properties |
| Service.Overwrite | src/main/java/com/dev/ProductsAPI/services/ProductService.java:87-88 | copying an update request overwrites name and value and keeps id and links |
| Service.ListPage | src/main/java/com/dev/ProductsAPI/services/ProductService.java:60-72 | getAllProducts fails with "There are no products to list" exactly when the page starts at or past the end of the store (including an empty store); otherwise it is the page: the right slice, a self link per item, and metadata (size, number, total) |
| Service.PagedItems | src/main/java/com/dev/ProductsAPI/services/ProductService.java:66-70 | each item the assembler builds is the row under the id at that position of the order, with a self link to that id |
| Service.SecondPageOfFive | src/main/java/com/dev/ProductsAPI/services/ProductService.java:60-72 | page 1 of size 3 over five products holds the fourth and fifth with metadata (3, 1, 5) |
| Service.FirstPageAndEmptyStore | src/main/java/com/dev/ProductsAPI/services/ProductService.java:60-72 | a first page of size n over n + 1 products holds n items and total n + 1; every page of the empty store is NoContent |
| Service.SavedProductsReport | src/main/java/com/dev/ProductsAPI/services/ProductService.java:46-57 | the entities saved for a list of requests answer them one for one: same name and value, no links, ids not stored before and pairwise different, each stored under its id |
| Service.ProductService.constructor | src/main/java/com/dev/ProductsAPI/services/ProductService.java:31-32 | the service works on the repository it is given |
| Service.ProductService.SaveProductsIntoDB | src/main/java/com/dev/ProductsAPI/services/ProductService.java:40-44 | a feed error propagates with the store unchanged; otherwise each fetched product is saved once, in feed order, until a save fails, and the result is the fetched list itself or that save's exception |
| Service.ProductService.SaveProducts | src/main/java/com/dev/ProductsAPI/services/ProductService.java:46-57 | the saves are those of the requests in order up to the failing one, which stay stored (no rollback); a failure is "Failed to save product" wrapping the save's exception; a success is the saved entities, one per request with its name and value, under fresh, distinct ids, each stored |
| Service.ProductService.GetAllProducts | src/main/java/com/dev/ProductsAPI/services/ProductService.java:60-72 | the loaded page is turned into ListPage of the store |
| Service.ProductService.GetOneProduct | src/main/java/com/dev/ProductsAPI/services/ProductService.java:74-80 | "This product was not found. Try again." exactly when the id is not stored; otherwise the stored entity with the "Products List:" link added |
| Service.ProductService.UpdateProduct | src/main/java/com/dev/ProductsAPI/services/ProductService.java:82-90 | not found: nothing saved; otherwise the entity with the request's name and value and the same id is saved back under that id and returned, and only that row changes; a failing save leaves the store as it was |
| Service.ProductService.DeleteProduct | src/main/java/com/dev/ProductsAPI/services/ProductService.java:92-98 | not found: nothing deleted; otherwise exactly the row under that id is removed |
| Service.UpdateThenRead | src/main/java/com/dev/ProductsAPI/services/ProductService.java:82-90 | after an update, that id holds the request's name and value, and the key set is unchanged |
| Service.DeleteThenRead | src/main/java/com/dev/ProductsAPI/services/ProductService.java:92-98 | after a delete, the id is not found and every other row reads as before |
| MemoryInit.ProductsMemoryDbInitializer.constructor | src/main/java/com/dev/ProductsAPI/config/init/ProductsMemoryDBInitializer.java:19-23 | the initializer holds the two repositories it is given |
| MemoryInit.ProductsMemoryDbInitializer.Run | src/main/java/com/dev/ProductsAPI/config/init/ProductsMemoryDBInitializer.java:25-29 | the primary store is only read; the secondary gets the primary's entities saved in order, until a save fails; a completed run copies every primary row under its id, leaves other secondary rows untouched, and adds no other key; a completed run into a store with no rows leaves it holding exactly the primary's rows |
| Controller.Handles | src/main/java/com/dev/ProductsAPI/controllers/ProductController.java:32-118 | which exception kinds each endpoint catches before its generic catch; a plain runtime exception is never among them |
| Controller.KindResponse | src/main/java/com/dev/ProductsAPI/controllers/ProductController.java:37-114 | the response a specifically caught kind gets: 500 only for the batch-create failure (and a plain runtime exception), otherwise its own status with its message as the body |
| Controller.ErrorResponse | src/main/java/com/dev/ProductsAPI/controllers/ProductController.java:32-118 | the error half of every handler: 500 exactly when the endpoint does not catch the kind or the kind is the batch-create failure, and the fixed "Internal Server Error" text whenever it does not catch it |
| Controller.SaveProductsIntoDBResponse | src/main/java/com/dev/ProductsAPI/controllers/ProductController.java:32-46 | 200 with the list exactly on success; a failure gets the endpoint's entry of the error table: 503 with the message for out-of-service, 404 with the message for not-found, otherwise 500 "Internal Server Error" |
| Controller.SaveProductsResponse | src/main/java/com/dev/ProductsAPI/controllers/ProductController.java:48-65 | 201 with the saved list exactly on success; ProductSaveException gets 500 with an empty list; anything else 500 "Internal Server Error" |
| Controller.GetAllProductsResponse | src/main/java/com/dev/ProductsAPI/controllers/ProductController.java:67-78 | 200 with the page exactly on success; NoContent gets 204 with its message; anything else 500 "Internal Server Error" |
| Controller.GetOneProductResponse | src/main/java/com/dev/ProductsAPI/controllers/ProductController.java:80-91 | 200 with the product exactly on success; not-found gets 404 with its message; anything else 500 "Internal Server Error" |
| Controller.UpdateProductResponse | src/main/java/com/dev/ProductsAPI/controllers/ProductController.java:93-106 | 200 with the product exactly on success; not-found gets 404 with its message; anything else 500 "Internal Server Error" |
| Controller.DeleteProductResponse | src/main/java/com/dev/ProductsAPI/controllers/ProductController.java:108-118 | 200 with "Product deleted successfully." exactly on success; not-found gets 404 with its message; anything else 500 "Internal Server Error" |
| Controller.ServerErrorsHideMessages | src/main/java/com/dev/ProductsAPI/controllers/ProductController.java:42-45 | a 500 never carries the exception's message: its body is the fixed text or the empty list, and every kind an endpoint does not catch gets the fixed text |
| Controller.CaughtKindsKeepTheirStatus | src/main/java/com/dev/ProductsAPI/controllers/ProductController.java:37-41 | a kind an endpoint catches is answered with its own status and its own message, never the generic 500 (the batch-create failure's own answer is 500 with an empty list) |
| Controller.EmptyPageIsTheOnly2xxError | src/main/java/com/dev/ProductsAPI/controllers/ProductController.java:72-73 | an error response has a 2xx status exactly for an empty page on the list endpoint (204) |
| Controller.SaveDBStatusIdentifiesOutcome | src/main/java/com/dev/ProductsAPI/controllers/ProductController.java:32-46 | on /saveDB, 503, 404 and 500 each identify exactly one kind of outcome |
| Controller.ListStatusFollowsStore | src/main/java/com/dev/ProductsAPI/controllers/ProductController.java:67-78 | listing a store answers 204 "There are no products to list" exactly when the page starts past the end, and otherwise 200 with that page |
| Controller.GetOneStatusFollowsStore | src/main/java/com/dev/ProductsAPI/controllers/ProductController.java:80-91 | reading one product answers 404 with the not-found message exactly when the id is not stored, otherwise 200 with the stored entity and its list link |
| ExceptionHandling.DefaultMessages | src/main/java/com/dev/ProductsAPI/exceptions/GlobalExceptionHandler.java:23-24 | the default message of each field error, in order |
| ExceptionHandling.HandleValidationExceptions | src/main/java/com/dev/ProductsAPI/exceptions/GlobalExceptionHandler.java:21-28 | a body-validation failure answers 400 "invalid params"; the joined messages go only to the log line |
| ExceptionHandling.HandleHandlerMethodValidation | src/main/java/com/dev/ProductsAPI/exceptions/GlobalExceptionHandler.java:30-35 | a handler-method validation failure answers 400 "invalid params"; the details go only to the log line |
| ExceptionHandling.JoinContainsEach | src/main/java/com/dev/ProductsAPI/exceptions/GlobalExceptionHandler.java:23-25 | every part appears in the joined text |
| ExceptionHandling.ResponseIgnoresFailures | src/main/java/com/dev/ProductsAPI/exceptions/GlobalExceptionHandler.java:21-35 | the response is the same whichever and however many fields failed, and the same for both handlers; the log line names every field's message |

## Left out

- Spring and JPA wiring, HTTP routing and JSON. These are framework code.
  - Repositories are abstract keyed stores.
  - Saving an entity that already carries an id which is not stored is
    modelled as an insert under that id. A JPA repository saves such an
    entity through `merge`, and with generated ids the framework may
    instead issue a new id or throw; the start-up mirror into a fresh
    secondary store takes this path for every row.
  - The feed response is an input datatype.
  - The feed call's URL and `RestTemplate` are not modelled.
- Id generation. UUIDs are naturals taken from a per-store counter, and
  the UUID text format is not modelled. What the source relies on is only
  that a new id is not stored and was never issued before.
  `Repositories.NewSaveTakesNextId` and `Repositories.NewIdsAreIssuedInTurn`
  state the counter's exact values; they are facts about the counter that
  stands in for UUID generation, not about UUIDs.
- Null name and value. In Java a product's `name` and `value` can be null,
  for example when a feed record has no `title` or `price`
  (FakeProductsService.java:37-39); `toString` then prints `null` and
  `equals` compares names null-safely. The model's name is a string and its
  value an integer, so neither can be null: those renderings and the
  null-to-null comparison are not modelled.
- The request's sort order. `getAllProducts` passes the whole `Pageable`,
  sort included, to `findAll` (ProductController.java:68-70,
  ProductService.java:61). The model always pages in the store's insertion
  order; a sorted page is not modelled.
- `BigDecimal` values are integers rendered at scale 0; a decimal scale is
  not modelled. `hashCode` is not modelled.
- Link URLs. A link is an abstract tag, either `SelfLink(id)` or
  `ProductsListLink`.
  - The `totalPages` field of the page metadata is not modelled.
  - The page-level navigation links (first, next, …) are not modelled.
- Logging. `System.out.println` in POST /products and the logger calls are
  not modelled. The two validation handlers return their log line as data.
- ExceptionHandling.HandleHandlerMethodValidation: the detail text is an
  input, because Java renders the arguments array by its identity hash.
- Service.ProductService.SaveProductsIntoDB: JPA would set the new ids on
  the very objects of the returned list. Products are values here, so the
  returned list is the fetched list as it was before saving.
- Service.ProductService.GetOneProduct: the link is added to the returned
  view, and the stored row is left as it was. Links are not persisted
  columns in the source. The model's rows do carry a links field, which
  `SaveInto`, `Mirrors` and `SameFields` store and compare; this agrees with
  the source only because every save the model performs stores an entity
  with no links (fresh feed and request entities, and updates of rows that
  have none).
- Find and delete calls that throw, and a page request with size 0, are not
  modelled. The controller's generic catch covers the first for every
  endpoint.
- The pagination request (`Pageable`) is a page number and a size of at
  least one. An unpaged request is not modelled.
- Concurrency and transactions are not modelled. A failed batch is not
  rolled back, and the store keeps the writes made before the failure, as
  the code does.
- Per-record failure counting during the start-up mirror is not modelled,
  because the code has none: the first failing save ends the run.
- Feed failures, as the code handles them:
  - an empty feed array is an empty success, not an error;
  - only an HTTP status failure becomes "out of service";
  - any other client failure (such as a refused connection) propagates and
    is answered 500.
