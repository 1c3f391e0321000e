/** The HTTP responses the controller and the exception handler build
    (`ResponseEntity`): a status code and a body. */
module Responses {
  import opened ProductModel
  import opened Service

  const OK: nat := 200
  const CREATED: nat := 201
  const NO_CONTENT: nat := 204
  const BAD_REQUEST: nat := 400
  const NOT_FOUND: nat := 404
  const INTERNAL_SERVER_ERROR: nat := 500
  const SERVICE_UNAVAILABLE: nat := 503

  /** What a response body holds. */
  datatype Body =
    | ProductList(items: seq<Product>)
    | OneProduct(product: Product)
    | PageBody(page: PagedModel)
    | Text(text: string)
    /** `Collections.emptyList()`. */
    | EmptyList

  datatype Response = Response(status: nat, body: Body)

  predicate IsSuccessStatus(status: nat) {
    200 <= status < 300
  }
}
