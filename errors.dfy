/** The exception kinds the service layer raises, as one closed datatype,
    and the literal messages it raises them with. */
module Errors {

  datatype Error =
    /** ApiOutOfServiceException: the feed answered with an HTTP error status. */
    | ApiOutOfService(message: string)
    /** ProductNotFoundException: no feed payload, or an id that is not stored. */
    | ProductNotFound(message: string)
    /** NoContentException: the requested page holds no products. */
    | NoContent(message: string)
    /** ProductSaveException, wrapping the exception that made a save fail. */
    | ProductSave(message: string, cause: Error)
    /** Any other RuntimeException, e.g. one thrown by a repository call. */
    | Runtime(message: string)

  const OutOfServiceMessage := "The API fake store is out of service"
  const NoProductsFoundMessage := "No products found"
  const NotFoundMessage := "This product was not found. Try again."
  const NoContentMessage := "There are no products to list"
  const SaveFailedMessage := "Failed to save product"
}
