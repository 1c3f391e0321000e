/** ProductController: each handler runs one service call and maps its
    outcome to a response. The specific exception kinds an endpoint catches
    are tried before its generic `catch (Exception e)`, which always answers
    500 with a fixed text. */
module Controller {
  import opened Wrappers
  import opened ProductModel
  import opened Errors
  import opened Repositories
  import opened Service
  import opened Responses

  const InternalErrorText := "Internal Server Error"
  const DeletedText := "Product deleted successfully."

  /** The six handlers. */
  datatype Endpoint = SaveDB | CreateProducts | ListProducts | GetOne | Update | Delete

  /** Which exception kinds an endpoint catches before the generic catch. */
  predicate Handles(ep: Endpoint, e: Error)
    ensures Handles(ep, e) ==> !e.Runtime?
  {
    match ep
    case SaveDB => e.ApiOutOfService? || e.ProductNotFound?
    case CreateProducts => e.ProductSave?
    case ListProducts => e.NoContent?
    case GetOne => e.ProductNotFound?
    case Update => e.ProductNotFound?
    case Delete => e.ProductNotFound?
  }

  /** The response a specifically caught kind gets, whichever endpoint
      catches it. */
  function KindResponse(e: Error): (resp: Response)
    ensures resp.status == INTERNAL_SERVER_ERROR <==> e.ProductSave? || e.Runtime?
    ensures !e.ProductSave? && !e.Runtime? ==> resp.body == Text(e.message)
  {
    match e
    case ApiOutOfService(m) => Response(SERVICE_UNAVAILABLE, Text(m))
    case ProductNotFound(m) => Response(NOT_FOUND, Text(m))
    case NoContent(m) => Response(NO_CONTENT, Text(m))
    case ProductSave(_, _) => Response(INTERNAL_SERVER_ERROR, EmptyList)
    case Runtime(_) => Response(INTERNAL_SERVER_ERROR, Text(InternalErrorText))
  }

  /** The error half of the mapping: a caught kind gets its own response,
      everything else the generic 500. */
  function ErrorResponse(ep: Endpoint, e: Error): (resp: Response)
    ensures resp.status == INTERNAL_SERVER_ERROR <==> !Handles(ep, e) || e.ProductSave?
    ensures !Handles(ep, e) ==> resp.body == Text(InternalErrorText)
  {
    if Handles(ep, e) then KindResponse(e) else Response(INTERNAL_SERVER_ERROR, Text(InternalErrorText))
  }

  /** POST /saveDB. */
  function SaveProductsIntoDBResponse(outcome: Result<seq<Product>, Error>): (resp: Response)
    ensures resp.status == OK <==> outcome.Success?
    ensures outcome.Success? ==> resp.body == ProductList(outcome.value)
    ensures outcome.Failure? ==> resp == ErrorResponse(SaveDB, outcome.error)
  {
    match outcome
    case Success(list) => Response(OK, ProductList(list))
    case Failure(ApiOutOfService(m)) => Response(SERVICE_UNAVAILABLE, Text(m))
    case Failure(ProductNotFound(m)) => Response(NOT_FOUND, Text(m))
    case Failure(_) => Response(INTERNAL_SERVER_ERROR, Text(InternalErrorText))
  }

  /** POST /products. */
  function SaveProductsResponse(outcome: Result<seq<Product>, Error>): (resp: Response)
    ensures resp.status == CREATED <==> outcome.Success?
    ensures outcome.Success? ==> resp.body == ProductList(outcome.value)
    ensures outcome.Failure? ==> resp == ErrorResponse(CreateProducts, outcome.error)
  {
    match outcome
    case Success(saved) => Response(CREATED, ProductList(saved))
    case Failure(ProductSave(_, _)) => Response(INTERNAL_SERVER_ERROR, EmptyList)
    case Failure(_) => Response(INTERNAL_SERVER_ERROR, Text(InternalErrorText))
  }

  /** GET /products. */
  function GetAllProductsResponse(outcome: Result<PagedModel, Error>): (resp: Response)
    ensures resp.status == OK <==> outcome.Success?
    ensures outcome.Success? ==> resp.body == PageBody(outcome.value)
    ensures outcome.Failure? ==> resp == ErrorResponse(ListProducts, outcome.error)
  {
    match outcome
    case Success(page) => Response(OK, PageBody(page))
    case Failure(NoContent(m)) => Response(NO_CONTENT, Text(m))
    case Failure(_) => Response(INTERNAL_SERVER_ERROR, Text(InternalErrorText))
  }

  /** GET /products/{id}. */
  function GetOneProductResponse(outcome: Result<Product, Error>): (resp: Response)
    ensures resp.status == OK <==> outcome.Success?
    ensures outcome.Success? ==> resp.body == OneProduct(outcome.value)
    ensures outcome.Failure? ==> resp == ErrorResponse(GetOne, outcome.error)
  {
    match outcome
    case Success(p) => Response(OK, OneProduct(p))
    case Failure(ProductNotFound(m)) => Response(NOT_FOUND, Text(m))
    case Failure(_) => Response(INTERNAL_SERVER_ERROR, Text(InternalErrorText))
  }

  /** PUT /products/{id}. */
  function UpdateProductResponse(outcome: Result<Product, Error>): (resp: Response)
    ensures resp.status == OK <==> outcome.Success?
    ensures outcome.Success? ==> resp.body == OneProduct(outcome.value)
    ensures outcome.Failure? ==> resp == ErrorResponse(Update, outcome.error)
  {
    match outcome
    case Success(p) => Response(OK, OneProduct(p))
    case Failure(ProductNotFound(m)) => Response(NOT_FOUND, Text(m))
    case Failure(_) => Response(INTERNAL_SERVER_ERROR, Text(InternalErrorText))
  }

  /** DELETE /products/{id}. */
  function DeleteProductResponse(outcome: Outcome<Error>): (resp: Response)
    ensures resp.status == OK <==> outcome.Pass?
    ensures outcome.Pass? ==> resp.body == Text(DeletedText)
    ensures outcome.Fail? ==> resp == ErrorResponse(Delete, outcome.error)
  {
    match outcome
    case Pass => Response(OK, Text(DeletedText))
    case Fail(ProductNotFound(m)) => Response(NOT_FOUND, Text(m))
    case Fail(_) => Response(INTERNAL_SERVER_ERROR, Text(InternalErrorText))
  }

  /** A 500 never carries the exception's own message: its body is the
      fixed text, or the empty list for a failed batch create. */
  lemma ServerErrorsHideMessages(ep: Endpoint, e: Error)
    ensures ErrorResponse(ep, e).status == INTERNAL_SERVER_ERROR ==>
      ErrorResponse(ep, e).body in {Text(InternalErrorText), EmptyList}
    ensures !Handles(ep, e) ==> ErrorResponse(ep, e).body == Text(InternalErrorText)
  {
  }

  /** A kind an endpoint catches gets its own status, never the generic
      500 (the batch-create failure excepted, whose own status is 500 but
      whose body is the empty list). A caught kind with a message answers
      with exactly that message. */
  lemma CaughtKindsKeepTheirStatus(ep: Endpoint, e: Error)
    requires Handles(ep, e)
    ensures !e.ProductSave? ==> ErrorResponse(ep, e).status != INTERNAL_SERVER_ERROR
    ensures !e.ProductSave? ==> ErrorResponse(ep, e).body == Text(e.message)
    ensures e.ProductSave? ==> ErrorResponse(ep, e) == Response(INTERNAL_SERVER_ERROR, EmptyList)
  {
  }

  /** Every error is answered with a status outside 2xx, except an empty
      page, whose NoContent is answered 204. */
  lemma EmptyPageIsTheOnly2xxError(ep: Endpoint, e: Error)
    ensures IsSuccessStatus(ErrorResponse(ep, e).status) <==> ep == ListProducts && e.NoContent?
  {
  }

  /** On /saveDB the status alone tells the outcome kind apart. */
  lemma SaveDBStatusIdentifiesOutcome(outcome: Result<seq<Product>, Error>)
    ensures var s := SaveProductsIntoDBResponse(outcome).status;
      && (s == SERVICE_UNAVAILABLE <==> outcome.Failure? && outcome.error.ApiOutOfService?)
      && (s == NOT_FOUND <==> outcome.Failure? && outcome.error.ProductNotFound?)
      && (s == INTERNAL_SERVER_ERROR <==>
            outcome.Failure? && !outcome.error.ApiOutOfService? && !outcome.error.ProductNotFound?)
  {
  }

  /** GET /products over a store: 204 with "There are no products to list"
      exactly when the requested page starts past the end, otherwise 200
      with that page. */
  lemma ListStatusFollowsStore(t: Table, number: nat, size: nat)
    requires WellFormed(t) && size >= 1
    ensures var resp := GetAllProductsResponse(ListPage(t, number, size));
      && (resp.status == NO_CONTENT <==> number * size >= |t.order|)
      && (resp.status == NO_CONTENT ==> resp.body == Text(NoContentMessage))
      && (resp.status == OK ==> resp.body.PageBody? && IsPage(t, number, size, resp.body.page))
  {
  }

  /** GET /products/{id} over a store: 404 with the not-found message
      exactly when the id is not stored, otherwise 200 with the stored
      entity and its list link. */
  lemma GetOneStatusFollowsStore(t: Table, id: Id, outcome: Result<Product, Error>)
    requires WellFormed(t)
    requires id !in t.rows ==> outcome == Failure(ProductNotFound(NotFoundMessage))
    requires id in t.rows ==> outcome == Success(WithListLink(t.rows[id]))
    ensures var resp := GetOneProductResponse(outcome);
      && (resp.status == NOT_FOUND <==> id !in t.rows)
      && (resp.status == NOT_FOUND ==> resp.body == Text(NotFoundMessage))
      && (resp.status == OK ==> resp.body == OneProduct(WithListLink(t.rows[id])))
  {
  }
}
