/** ProductService: ingest from the feed, batch create, paged listing,
    get-one, update and delete, all against the primary repository. */
module Service {
  import opened Wrappers
  import opened ProductModel
  import opened Errors
  import opened Repositories
  import opened SaveInTurn
  import opened FakeProducts

  /** A create or update request body (ProductRecordDto). */
  datatype ProductRecord = ProductRecord(name: string, value: Decimal)

  /** `new ProductModel()` followed by copying the request's properties onto it. */
  function FromRecord(dto: ProductRecord): (p: Product)
    ensures p.id == None && p.links == [] && p.name == dto.name && p.value == dto.value
  {
    Product(None, dto.name, dto.value, [])
  }

  function FromRecords(dtos: seq<ProductRecord>): (ps: seq<Product>)
    ensures |ps| == |dtos| && AllNew(ps)
    ensures forall i :: 0 <= i < |ps| ==> ps[i] == FromRecord(dtos[i])
  {
    seq(|dtos|, i requires 0 <= i < |dtos| => FromRecord(dtos[i]))
  }

  /** Copying an update request onto a stored entity overwrites its name and
      value and keeps its id and links. */
  function Overwrite(p: Product, dto: ProductRecord): (q: Product)
    ensures q.id == p.id && q.links == p.links
    ensures q.name == dto.name && q.value == dto.value
  {
    p.(name := dto.name, value := dto.value)
  }

  /** The view getOneProduct returns: the entity with the list link added. */
  function WithListLink(p: Product): (q: Product)
    ensures q.id == p.id && q.name == p.name && q.value == p.value
    ensures |q.links| == |p.links| + 1 && q.links[..|p.links|] == p.links
    ensures q.links[|p.links|] == ProductsListLink
  {
    p.(links := p.links + [ProductsListLink])
  }

  // ---- pagination and hypermedia assembly -------------------------------

  /** An item of a page: the entity and the links the assembler gave it. */
  datatype EntityModel = EntityModel(content: Product, links: seq<Link>)

  /** Page metadata: requested size, requested page number and the number
      of entities in the whole store. */
  datatype PageMetadata = PageMetadata(size: nat, number: nat, totalElements: nat)

  datatype PagedModel = PagedModel(content: seq<EntityModel>, metadata: PageMetadata)

  /** The assembler's per-item step: wrap with a self link to its own id. */
  function ToEntityModel(p: Product): EntityModel {
    EntityModel(p, [SelfLink(p.id)])
  }

  /** `assembler.toModel(page, ...)`. */
  function ToPagedModel(page: Page): (m: PagedModel)
    ensures m.metadata == PageMetadata(page.size, page.number, page.totalElements)
    ensures |m.content| == |page.content|
    ensures forall i :: 0 <= i < |m.content| ==>
      m.content[i].content == page.content[i] && m.content[i].links == [SelfLink(page.content[i].id)]
  {
    PagedModel(seq(|page.content|, i requires 0 <= i < |page.content| => ToEntityModel(page.content[i])),
               PageMetadata(page.size, page.number, page.totalElements))
  }

  /** `m` is the page (number, size) of the store: the items at positions
      [number * size, min(number * size + size, n)) of the store's order,
      each with a self link to its own id, and the metadata (requested size,
      requested number, total count n of the whole store). */
  ghost predicate IsPage(t: Table, number: nat, size: nat, m: PagedModel) {
    var n := |t.order|;
    var offset := number * size;
    && m.metadata == PageMetadata(size, number, n)
    && offset < n
    && |m.content| == Min(offset + size, n) - offset
    && forall i :: 0 <= i < |m.content| ==>
         var k := t.order[offset + i];
         k in t.rows && m.content[i] == EntityModel(t.rows[k], [SelfLink(Some(k))])
  }

  /** getAllProducts as a function of the store: NoContent exactly when the
      requested page is empty (an empty store or a page past the end),
      otherwise that page. */
  function ListPage(t: Table, number: nat, size: nat): (r: Result<PagedModel, Error>)
    requires WellFormed(t) && size >= 1
    ensures r.Failure? <==> number * size >= |t.order|
    ensures r.Failure? ==> r.error == NoContent(NoContentMessage)
    ensures r.Success? ==> IsPage(t, number, size, r.value)
  {
    var page := PageOf(t, number, size);
    if page.content == [] then Failure(NoContent(NoContentMessage))
    else
      PagedItems(t, page, number * size);
      Success(ToPagedModel(page))
  }

  /** Each item the assembler builds from a page starting at `offset` is the
      row under the id at that position of the order, with a self link to it. */
  lemma PagedItems(t: Table, page: Page, offset: nat)
    requires WellFormed(t)
    requires offset + |page.content| <= |t.order|
    requires forall i :: 0 <= i < |page.content| ==> page.content[i] == Enumerate(t)[offset + i]
    ensures var m := ToPagedModel(page);
      forall i :: 0 <= i < |m.content| ==>
        var k := t.order[offset + i];
        k in t.rows && m.content[i] == EntityModel(t.rows[k], [SelfLink(Some(k))])
  {
  }

  /** Page 1 of size 3 over five products holds the fourth and the fifth,
      with the total 5. */
  lemma SecondPageOfFive(t: Table)
    requires WellFormed(t) && |t.order| == 5
    ensures var r := ListPage(t, 1, 3);
      && r.Success? && |r.value.content| == 2
      && r.value.content[0].content == t.rows[t.order[3]]
      && r.value.content[1].content == t.rows[t.order[4]]
      && r.value.metadata == PageMetadata(3, 1, 5)
  {
  }

  /** The first page of size n over n + 1 products holds n items and the
      total n + 1; any page over the empty store is NoContent. */
  lemma FirstPageAndEmptyStore(t: Table, n: nat, number: nat, size: nat)
    requires WellFormed(t) && |t.order| == n + 1 && n >= 1 && size >= 1
    ensures ListPage(t, 0, n).Success?
    ensures |ListPage(t, 0, n).value.content| == n
    ensures ListPage(t, 0, n).value.metadata.totalElements == n + 1
    ensures ListPage(Empty, number, size) == Failure(NoContent(NoContentMessage))
  {
  }

  /** The saved entities answer the requests one for one, in order: same
      name and value, and no links. */
  predicate Echoes(dtos: seq<ProductRecord>, es: seq<Product>) {
    && |es| == |dtos|
    && forall i :: 0 <= i < |es| ==>
         es[i].name == dtos[i].name && es[i].value == dtos[i].value && es[i].links == []
  }

  /** Saving the entities built from a list of requests returns one entity
      per request with that request's fields, each under an id that was not
      in the store before, the ids pairwise different and each entity stored
      under its id. */
  lemma SavedProductsReport(t: Table, dtos: seq<ProductRecord>)
    requires WellFormed(t)
    ensures var news := FromRecords(dtos); var es := SavedEntities(t, news);
      Echoes(dtos, es) && IssuedFresh(t, SaveEach(t, news), es)
  {
    SavedEntitiesFacts(t, FromRecords(dtos));
  }

  // ---- the service --------------------------------------------------------

  class ProductService {
    const repository: Repository

    constructor (repository: Repository)
      ensures this.repository == repository
    {
      this.repository := repository;
    }

    /** saveProductsIntoDB: fetch the feed, save each product in feed order,
        and return the fetched list itself. A feed error propagates with the
        store unchanged; a failing save propagates its exception, and the
        saves before it stay in the store. */
    method SaveProductsIntoDB(feed: FeedResponse, fault: Option<Fault>) returns (r: Result<seq<Product>, Error>)
      requires repository.Valid()
      modifies repository
      ensures repository.Valid()
      ensures GetProductsList(feed).Failure? ==>
        r == Failure(GetProductsList(feed).error) && repository.table == old(repository.table)
      ensures GetProductsList(feed).Success? ==>
        var list := GetProductsList(feed).value; var done := Completed(fault, |list|);
        && repository.table == SaveEach(old(repository.table), list[..done])
        && r == if done < |list| then Failure(Runtime(fault.value.message)) else Success(list)
    {
      var fetched := GetProductsList(feed);
      if fetched.Failure? {
        return Failure(fetched.error);
      }
      var list := fetched.value;
      var saved := SaveAll(repository, list, fault);
      if saved.Fail? {
        return Failure(saved.error);
      }
      return Success(list);
    }

    /** saveProducts: build and save one new entity per request, in order,
        and return what the store returned for each. If a save fails, the
        call fails with ProductSaveException wrapping that failure, and the
        saves before it stay in the store (no rollback). */
    method SaveProducts(dtos: seq<ProductRecord>, fault: Option<Fault>) returns (r: Result<seq<Product>, Error>)
      requires repository.Valid()
      modifies repository
      ensures repository.Valid()
      ensures var news := FromRecords(dtos); var done := Completed(fault, |dtos|);
        && repository.table == SaveEach(old(repository.table), news[..done])
        && r == if done < |dtos|
                then Failure(ProductSave(SaveFailedMessage, Runtime(fault.value.message)))
                else Success(SavedEntities(old(repository.table), news))
      ensures r.Success? ==>
        Echoes(dtos, r.value) && IssuedFresh(old(repository.table), repository.table, r.value)
    {
      var news := FromRecords(dtos);
      ghost var t0 := repository.table;
      var savedProducts := [];
      var i := 0;
      while i < |dtos|
        invariant 0 <= i <= Completed(fault, |dtos|)
        invariant repository.table == SaveEach(t0, news[..i])
        invariant savedProducts == SavedEntities(t0, news[..i])
      {
        FaultStep(fault, |dtos|, i);
        SaveEachStep(t0, news, i);
        SavedEntitiesStep(t0, news, i);
        var saved := repository.Save(news[i], FaultAt(fault, i));
        if saved.Failure? {
          return Failure(ProductSave(SaveFailedMessage, saved.error));
        }
        savedProducts := savedProducts + [saved.value];
        i := i + 1;
      }
      assert news[..i] == news;
      SavedProductsReport(t0, dtos);
      return Success(savedProducts);
    }

    /** getAllProducts. */
    method GetAllProducts(number: nat, size: nat) returns (r: Result<PagedModel, Error>)
      requires repository.Valid() && size >= 1
      ensures r == ListPage(repository.table, number, size)
    {
      var page := repository.FindPage(number, size);
      if page.content == [] {
        return Failure(NoContent(NoContentMessage));
      }
      return Success(ToPagedModel(page));
    }

    /** getOneProduct: NotFound for an id that is not stored; otherwise the
        stored entity with the "Products List:" link added to the returned
        view (the store is only read). */
    method GetOneProduct(id: Id) returns (r: Result<Product, Error>)
      requires repository.Valid()
      ensures id !in repository.table.rows <==> r == Failure(ProductNotFound(NotFoundMessage))
      ensures id in repository.table.rows ==>
        r.Success? && r.value == WithListLink(repository.table.rows[id]) && r.value.id == Some(id)
    {
      var found := repository.FindById(id);
      if found.None? {
        return Failure(ProductNotFound(NotFoundMessage));
      }
      return Success(WithListLink(found.value));
    }

    /** updateProduct: NotFound, saving nothing, for an id that is not stored;
        otherwise the stored entity with its name and value overwritten and
        its id kept, saved back under the same id and returned. A failing
        save propagates its exception with the store unchanged. */
    method UpdateProduct(id: Id, dto: ProductRecord, fault: Option<string>) returns (r: Result<Product, Error>)
      requires repository.Valid()
      modifies repository
      ensures repository.Valid()
      ensures id !in old(repository.table.rows) ==>
        r == Failure(ProductNotFound(NotFoundMessage)) && repository.table == old(repository.table)
      ensures id in old(repository.table.rows) && fault.Some? ==>
        r == Failure(Runtime(fault.value)) && repository.table == old(repository.table)
      ensures id in old(repository.table.rows) && fault.None? ==>
        var e := Overwrite(old(repository.table.rows[id]), dto);
        && r == Success(e) && e.id == Some(id)
        && repository.table == SaveInto(old(repository.table), e).table
        && repository.table.rows == old(repository.table.rows)[id := e]
    {
      var found := repository.FindById(id);
      if found.None? {
        return Failure(ProductNotFound(NotFoundMessage));
      }
      var productModel := Overwrite(found.value, dto);
      r := repository.Save(productModel, fault);
    }

    /** deleteProduct: NotFound, deleting nothing, for an id that is not
        stored; otherwise exactly that entity is removed. */
    method DeleteProduct(id: Id) returns (r: Outcome<Error>)
      requires repository.Valid()
      modifies repository
      ensures repository.Valid()
      ensures id !in old(repository.table.rows) ==>
        r == Fail(ProductNotFound(NotFoundMessage)) && repository.table == old(repository.table)
      ensures id in old(repository.table.rows) ==>
        && r == Pass
        && repository.table == DeleteEntity(old(repository.table), old(repository.table.rows[id]))
        && repository.table.rows == old(repository.table.rows) - {id}
    {
      var found := repository.FindById(id);
      if found.None? {
        return Fail(ProductNotFound(NotFoundMessage));
      }
      repository.Delete(found.value);
      return Pass;
    }
  }

  // ---- what one operation means for the next ------------------------------

  /** After an update, reading the id back gives the request's name and
      value under the same id. */
  lemma UpdateThenRead(t: Table, id: Id, dto: ProductRecord)
    requires WellFormed(t) && id in t.rows
    ensures var e := Overwrite(t.rows[id], dto); var t' := SaveInto(t, e).table;
      && Lookup(t', id) == Some(e)
      && e.id == Some(id) && e.name == dto.name && e.value == dto.value
      && t'.rows.Keys == t.rows.Keys
  {
  }

  /** After a delete, reading the id gives NotFound and every other row is
      as it was. */
  lemma DeleteThenRead(t: Table, id: Id)
    requires WellFormed(t) && id in t.rows
    ensures var t' := DeleteEntity(t, t.rows[id]);
      && Lookup(t', id) == None
      && forall k :: k in t.rows && k != id ==> Lookup(t', k) == Lookup(t, k)
  {
  }
}
