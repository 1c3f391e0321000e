/** FakeProductsService: fetches the external catalogue and turns it into
    products, or classifies why it could not. The HTTP call itself is not
    modelled; what it can hand back is the input `FeedResponse`. */
module FakeProducts {
  import opened Wrappers
  import opened ProductModel
  import opened Errors

  /** One record of the feed (ProductApiDTO): its title and its price. */
  datatype ApiRecord = ApiRecord(name: string, value: Decimal)

  /** What the call for the product array can end in. */
  datatype FeedResponse =
    /** A decoded, non-null array (possibly of length zero). */
    | Payload(records: seq<ApiRecord>)
    /** The call returned null. */
    | NullPayload
    /** An HttpStatusCodeException (the feed answered with an error status). */
    | HttpStatusFailure(status: nat)
    /** Any other client exception (connection refused, unreadable body). */
    | ClientFailure(message: string)

  /** convertToProductModel: a fresh product carrying the record's name and
      value, with no id and no links. */
  function ConvertToProductModel(rec: ApiRecord): (p: Product)
    ensures p.id == None && p.links == []
    ensures p.name == rec.name && p.value == rec.value
  {
    Product(None, rec.name, rec.value, [])
  }

  /** The stream map over the array: record i becomes product i. */
  function ConvertAll(recs: seq<ApiRecord>): (ps: seq<Product>)
    ensures |ps| == |recs|
    ensures forall i :: 0 <= i < |ps| ==> ps[i] == ConvertToProductModel(recs[i])
    decreases |recs|
  {
    if recs == [] then [] else [ConvertToProductModel(recs[0])] + ConvertAll(recs[1..])
  }

  /** getProductsList. A non-null array is converted element by element; null
      raises ProductNotFoundException, which the catch clause lets through;
      only an HttpStatusCodeException becomes ApiOutOfServiceException; any
      other client exception propagates unchanged. */
  function GetProductsList(resp: FeedResponse): (r: Result<seq<Product>, Error>)
    ensures r.Success? <==> resp.Payload?
    ensures resp.Payload? ==> r.value == ConvertAll(resp.records)
    ensures resp.NullPayload? <==> r == Failure(ProductNotFound(NoProductsFoundMessage))
    ensures resp.HttpStatusFailure? <==> r == Failure(ApiOutOfService(OutOfServiceMessage))
    ensures resp.ClientFailure? <==> r.Failure? && r.error.Runtime?
  {
    match resp
    case Payload(records) => Success(ConvertAll(records))
    case NullPayload => Failure(ProductNotFound(NoProductsFoundMessage))
    case HttpStatusFailure(_) => Failure(ApiOutOfService(OutOfServiceMessage))
    case ClientFailure(message) => Failure(Runtime(message))
  }

  /** A payload yields one product per record, in order, each with the
      record's name and value and no id; an empty array is not an error. */
  lemma PayloadIsConvertedInOrder(records: seq<ApiRecord>)
    ensures var r := GetProductsList(Payload(records));
      && r.Success? && |r.value| == |records|
      && forall i :: 0 <= i < |records| ==>
           r.value[i].id == None && r.value[i].name == records[i].name && r.value[i].value == records[i].value
    ensures GetProductsList(Payload([])) == Success([])
  {
  }

  /** The not-found error of a null payload is never re-classified as the
      out-of-service error, and the two are raised by different responses. */
  lemma NotFoundIsNotRewrapped(resp: FeedResponse)
    ensures GetProductsList(resp).Failure? && GetProductsList(resp).error.ProductNotFound? <==> resp == NullPayload
    ensures GetProductsList(resp).Failure? && GetProductsList(resp).error.ApiOutOfService? <==> resp.HttpStatusFailure?
  {
  }
}
