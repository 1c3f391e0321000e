/** The two product repositories (the primary ProductRepository and the
    in-memory ProductsMemoryRepository) share one contract: a keyed store of
    products with save, find-by-id, find-all, paged find-all and delete. A
    store is a `Table`: the rows by id, the stable enumeration order, and the
    next identifier the store will hand out. */
module Repositories {
  import opened Wrappers
  import opened ProductModel
  import opened Errors

  datatype Table = Table(rows: map<Id, Product>, order: seq<Id>, nextId: Id)

  const Empty := Table(map[], [], 0)

  predicate Distinct(s: seq<Id>) {
    forall i, j :: 0 <= i < j < |s| ==> s[i] != s[j]
  }

  /** The store invariant: the order lists every key once, every row is
      stored under its own id, and every id in use was issued before
      `nextId` (so an id the store hands out is never one it used before). */
  ghost predicate WellFormed(t: Table) {
    && Distinct(t.order)
    && (forall k :: k in t.rows <==> k in t.order)
    && (forall k :: k in t.rows ==> t.rows[k].id == Some(k) && k < t.nextId)
  }

  lemma EmptyWellFormed()
    ensures WellFormed(Empty)
  {
  }

  /** The result of a save: the new table and the entity the store returns. */
  datatype Saved = Saved(table: Table, entity: Product)

  /** `save(entity)`: an entity that carries an id is written under that id
      (an upsert, replacing any earlier row); one without an id gets a fresh
      id first. Only the id of the saved entity can differ from the argument. */
  function SaveInto(t: Table, p: Product): (s: Saved)
    requires WellFormed(t)
    ensures WellFormed(s.table)
    ensures s.entity == p.(id := s.entity.id)
    ensures s.entity.id.Some? && s.table.rows == t.rows[s.entity.id.value := s.entity]
    ensures p.id.Some? ==> s.entity.id == p.id
    ensures p.id.None? ==> s.entity.id.value !in t.rows && t.nextId <= s.entity.id.value
    ensures t.nextId <= s.table.nextId
    ensures t.order <= s.table.order
  {
    match p.id
    case Some(k) =>
      var order := if k in t.rows then t.order else t.order + [k];
      var next := if k < t.nextId then t.nextId else k + 1;
      Saved(Table(t.rows[k := p], order, next), p)
    case None =>
      var k := t.nextId;
      var e := p.(id := Some(k));
      Saved(Table(t.rows[k := e], t.order + [k], k + 1), e)
  }

  /** `findById(id)`. */
  function Lookup(t: Table, id: Id): (r: Option<Product>)
    ensures r.Some? <==> id in t.rows
    ensures r.Some? ==> r.value == t.rows[id]
    ensures WellFormed(t) && r.Some? ==> r.value.id == Some(id)
  {
    if id in t.rows then Some(t.rows[id]) else None
  }

  /** `findAll()`: every stored entity, in the store's order. */
  function Enumerate(t: Table): (ps: seq<Product>)
    requires WellFormed(t)
    ensures |ps| == |t.order|
    ensures forall i :: 0 <= i < |ps| ==> t.order[i] in t.rows && ps[i] == t.rows[t.order[i]]
    ensures forall i :: 0 <= i < |ps| ==> ps[i].id == Some(t.order[i])
  {
    seq(|t.order|, i requires 0 <= i < |t.order| => assert t.order[i] in t.rows; t.rows[t.order[i]])
  }

  /** One page of `findAll(pageable)`: the requested slice of the order and
      the total number of stored entities. */
  datatype Page = Page(content: seq<Product>, number: nat, size: nat, totalElements: nat)

  /** The at most `len` elements of `s` starting at `lo`. */
  function Window<T>(s: seq<T>, lo: nat, len: nat): (w: seq<T>)
    ensures |w| == if lo < |s| then Min(lo + len, |s|) - lo else 0
    ensures forall i :: 0 <= i < |w| ==> w[i] == s[lo + i]
  {
    if lo >= |s| then [] else s[lo..Min(lo + len, |s|)]
  }

  /** `findAll(PageRequest.of(number, size))`: the slice
      [number * size, min(number * size + size, n)) of the enumeration, or
      nothing when the offset is past the end. */
  function PageOf(t: Table, number: nat, size: nat): (page: Page)
    requires WellFormed(t) && size >= 1
    ensures page.number == number && page.size == size && page.totalElements == |t.order|
    ensures |page.content| == if number * size < |t.order| then Min(number * size + size, |t.order|) - number * size else 0
    ensures forall i :: 0 <= i < |page.content| ==> page.content[i] == Enumerate(t)[number * size + i]
  {
    var all := Enumerate(t);
    Page(Window(all, number * size, size), number, size, |all|)
  }

  /** The order without the given id. */
  function Without(s: seq<Id>, x: Id): (r: seq<Id>)
    ensures forall y :: y in r <==> y in s && y != x
    ensures Distinct(s) ==> Distinct(r)
  {
    if s == [] then []
    else if s[0] == x then Without(s[1..], x)
    else
      var rest := Without(s[1..], x);
      assert s[0] !in rest ==> Distinct(s[1..]) ==> Distinct([s[0]] + rest);
      [s[0]] + rest
  }

  /** `delete(entity)`: removes the row under the entity's id; an entity
      without an id or with an id that is not stored changes nothing. */
  function DeleteEntity(t: Table, e: Product): (r: Table)
    requires WellFormed(t)
    ensures WellFormed(r)
    ensures r.rows == if e.id.Some? then t.rows - {e.id.value} else t.rows
    ensures r.nextId == t.nextId
  {
    match e.id
    case None => t
    case Some(k) =>
      if k in t.rows then
        var r := Table(t.rows - {k}, Without(t.order, k), t.nextId);
        assert forall j :: j in r.rows <==> j in r.order;
        r
      else
        assert t.rows - {k} == t.rows;
        t
  }

  /** Saving a sequence of entities one after the other. */
  function SaveEach(t: Table, ps: seq<Product>): (r: Table)
    requires WellFormed(t)
    ensures WellFormed(r)
    ensures t.nextId <= r.nextId
    decreases |ps|
  {
    if ps == [] then t else SaveInto(SaveEach(t, ps[..|ps| - 1]), ps[|ps| - 1]).table
  }

  /** The entities the store returns for those saves, in order. */
  function SavedEntities(t: Table, ps: seq<Product>): (es: seq<Product>)
    requires WellFormed(t)
    ensures |es| == |ps|
    decreases |ps|
  {
    if ps == [] then []
    else
      var init := ps[..|ps| - 1];
      SavedEntities(t, init) + [SaveInto(SaveEach(t, init), ps[|ps| - 1]).entity]
  }

  /** One more save extends both folds by one step (what a loop needs). */
  lemma SaveEachStep(t: Table, ps: seq<Product>, i: nat)
    requires WellFormed(t) && i < |ps|
    ensures SaveEach(t, ps[..i + 1]) == SaveInto(SaveEach(t, ps[..i]), ps[i]).table
  {
    assert ps[..i + 1][..i] == ps[..i];
  }

  lemma SavedEntitiesStep(t: Table, ps: seq<Product>, i: nat)
    requires WellFormed(t) && i < |ps|
    ensures SavedEntities(t, ps[..i + 1])
         == SavedEntities(t, ps[..i]) + [SaveInto(SaveEach(t, ps[..i]), ps[i]).entity]
  {
    assert ps[..i + 1][..i] == ps[..i];
  }

  predicate AllNew(ps: seq<Product>) {
    forall i :: 0 <= i < |ps| ==> ps[i].id.None?
  }

  /** The entities carry the consecutive ids base, base + 1, ... */
  predicate IdsFrom(es: seq<Product>, base: nat) {
    forall i :: 0 <= i < |es| ==> es[i].id == Some(base + i)
  }

  lemma IdsFromSnoc(es: seq<Product>, e: Product, base: nat)
    requires IdsFrom(es, base) && e.id == Some(base + |es|)
    ensures IdsFrom(es + [e], base)
  {
    assert forall i :: 0 <= i < |es| ==> (es + [e])[i] == es[i];
  }

  /** Saving entities that have no id yet hands out the next ids in turn. */
  lemma {:induction false} NewIdsAreIssuedInTurn(t: Table, ps: seq<Product>)
    requires WellFormed(t) && AllNew(ps)
    ensures SaveEach(t, ps).nextId == t.nextId + |ps|
    ensures IdsFrom(SavedEntities(t, ps), t.nextId)
    decreases |ps|
  {
    if ps != [] {
      var init := ps[..|ps| - 1];
      NewIdsAreIssuedInTurn(t, init);
      var mid := SaveEach(t, init);
      NewSaveTakesNextId(mid, ps[|ps| - 1]);
      IdsFromSnoc(SavedEntities(t, init), SaveInto(mid, ps[|ps| - 1]).entity, t.nextId);
    }
  }

  /** A save of an entity without id hands out the store's next id. */
  lemma NewSaveTakesNextId(t: Table, p: Product)
    requires WellFormed(t) && p.id.None?
    ensures SaveInto(t, p).entity.id == Some(t.nextId)
    ensures SaveInto(t, p).table.nextId == t.nextId + 1
  {
  }

  /** Saving new entities keeps every row that was already stored and adds
      exactly one row per entity. */
  lemma {:induction false} SaveNewKeepsRows(t: Table, ps: seq<Product>)
    requires WellFormed(t) && AllNew(ps)
    ensures forall k :: k in t.rows ==> k in SaveEach(t, ps).rows && SaveEach(t, ps).rows[k] == t.rows[k]
    ensures |SaveEach(t, ps).rows| == |t.rows| + |ps|
    decreases |ps|
  {
    if ps != [] {
      var init := ps[..|ps| - 1];
      SaveNewKeepsRows(t, init);
      var mid := SaveEach(t, init);
      var s := SaveInto(mid, ps[|ps| - 1]);
      assert s.entity.id.value !in mid.rows;
      assert s.table.rows.Keys == mid.rows.Keys + {s.entity.id.value};
    }
  }

  /** Each entity a batch of saves returns is its input with an id set. */
  lemma {:induction false} SavedEntitiesMatchInputs(t: Table, ps: seq<Product>)
    requires WellFormed(t)
    ensures forall i :: 0 <= i < |ps| ==> SameFields(SavedEntities(t, ps)[i], ps[i])
    decreases |ps|
  {
    if ps != [] {
      var init := ps[..|ps| - 1];
      SavedEntitiesMatchInputs(t, init);
      var last := SaveInto(SaveEach(t, init), ps[|ps| - 1]).entity;
      var es := SavedEntities(t, ps);
      var prev := SavedEntities(t, init);
      assert es == prev + [last];
      forall i | 0 <= i < |ps| ensures SameFields(es[i], ps[i]) {
        if i < |init| {
          assert es[i] == prev[i] && ps[i] == init[i];
        } else {
          assert es[i] == last;
        }
      }
    }
  }

  /** Two products agree on everything but the id. */
  predicate SameFields(a: Product, b: Product) {
    a.name == b.name && a.value == b.value && a.links == b.links
  }

  /** Each entity a batch of new-entity saves returns is still stored under
      its id when the batch is done: no later save of the batch overwrites it. */
  lemma {:induction false} SavedEntitiesStored(t: Table, ps: seq<Product>)
    requires WellFormed(t) && AllNew(ps)
    ensures forall i :: 0 <= i < |ps| ==> StoredUnderId(SaveEach(t, ps), SavedEntities(t, ps)[i])
    decreases |ps|
  {
    if ps != [] {
      var init := ps[..|ps| - 1];
      var last := ps[|ps| - 1];
      SavedEntitiesStored(t, init);
      var mid := SaveEach(t, init);
      var s := SaveInto(mid, last);
      var prev := SavedEntities(t, init);
      assert SavedEntities(t, ps) == prev + [s.entity];
      assert SaveEach(t, ps) == s.table;
      forall i | 0 <= i < |prev|
        ensures StoredUnderId(s.table, prev[i])
      {
        assert StoredUnderId(mid, prev[i]);
        NewSaveKeepsRow(mid, last, prev[i].id.value);
      }
    }
  }

  /** The entity is stored under its own id. */
  ghost predicate StoredUnderId(t: Table, e: Product) {
    e.id.Some? && e.id.value in t.rows && t.rows[e.id.value] == e
  }

  /** Saving an entity without an id leaves every stored row as it was. */
  lemma NewSaveKeepsRow(t: Table, p: Product, k: Id)
    requires WellFormed(t) && p.id.None? && k in t.rows
    ensures k in SaveInto(t, p).table.rows && SaveInto(t, p).table.rows[k] == t.rows[k]
  {
  }

  /** The entities `es` got ids that were not keys of `t`, pairwise
      different, and each is stored in `r` under its id. */
  ghost predicate IssuedFresh(t: Table, r: Table, es: seq<Product>)
  {
    && (forall i :: 0 <= i < |es| ==> es[i].id.Some? && es[i].id.value !in t.rows)
    && (forall i, j :: 0 <= i < j < |es| ==> es[i].id != es[j].id)
    && (forall i :: 0 <= i < |es| ==> StoredUnderId(r, es[i]))
  }

  /** The entities a batch of saves of new entities returns: one per input,
      in input order, each with the input's name, value and links and a fresh
      id, no two with the same id, and each stored under its id when the
      batch is done. */
  lemma SavedEntitiesFacts(t: Table, ps: seq<Product>)
    requires WellFormed(t) && AllNew(ps)
    ensures var es := SavedEntities(t, ps); var r := SaveEach(t, ps);
      && |es| == |ps|
      && (forall i :: 0 <= i < |es| ==> SameFields(es[i], ps[i]))
      && IssuedFresh(t, r, es)
  {
    NewIdsAreIssuedInTurn(t, ps);
    SavedEntitiesMatchInputs(t, ps);
    SavedEntitiesStored(t, ps);
  }

  /** The rows a sequence of identified entities is written to, the later
      entity winning on a repeated id. */
  function Keyed(ps: seq<Product>): map<Id, Product>
    requires forall i :: 0 <= i < |ps| ==> ps[i].id.Some?
    decreases |ps|
  {
    if ps == [] then map[]
    else Keyed(ps[..|ps| - 1])[ps[|ps| - 1].id.value := ps[|ps| - 1]]
  }

  /** Saving entities that all carry an id overwrites by id and touches
      nothing else. */
  lemma {:induction false} SaveIdentifiedIsUpsert(t: Table, ps: seq<Product>)
    requires WellFormed(t)
    requires forall i :: 0 <= i < |ps| ==> ps[i].id.Some?
    ensures SaveEach(t, ps).rows == t.rows + Keyed(ps)
    decreases |ps|
  {
    if ps != [] {
      var init := ps[..|ps| - 1];
      var last := ps[|ps| - 1];
      SaveIdentifiedIsUpsert(t, init);
      var mid := SaveEach(t, init);
      var k := last.id.value;
      assert SaveEach(t, ps).rows == mid.rows[k := last] by {
        assert SaveEach(t, ps) == SaveInto(mid, last).table;
      }
      assert Keyed(ps) == Keyed(init)[k := last];
      UnionUpdate(t.rows, Keyed(init), k, last);
    }
  }

  lemma UnionUpdate<K, V>(a: map<K, V>, b: map<K, V>, k: K, v: V)
    ensures (a + b)[k := v] == a + b[k := v]
  {
  }

  /** Keying the first i entities of an enumeration gives the rows under the
      first i ids of the order. */
  lemma {:induction false} KeyedEnumeratePrefix(t: Table, i: nat)
    requires WellFormed(t) && i <= |t.order|
    ensures Keyed(Enumerate(t)[..i]) == map k | k in t.order[..i] && k in t.rows :: t.rows[k]
    decreases i
  {
    var all := Enumerate(t);
    if i > 0 {
      KeyedEnumeratePrefix(t, i - 1);
      assert all[..i][..i - 1] == all[..i - 1];
      assert t.order[..i] == t.order[..i - 1] + [t.order[i - 1]];
    }
  }

  /** Keying the whole enumeration gives back the rows. */
  lemma KeyedEnumerate(t: Table)
    requires WellFormed(t)
    ensures Keyed(Enumerate(t)) == t.rows
  {
    KeyedEnumeratePrefix(t, |t.order|);
    assert Enumerate(t)[..|t.order|] == Enumerate(t);
    assert t.order[..|t.order|] == t.order;
  }

  /** `m` mirrors primary `p` over the earlier contents `s`: every primary
      row is copied as is, every other earlier row is untouched, and no other
      key appears. */
  ghost predicate Mirrors(s: Table, p: Table, m: Table)
  {
    && (forall k :: k in p.rows ==> k in m.rows && m.rows[k] == p.rows[k])
    && (forall k :: k in s.rows && k !in p.rows ==> k in m.rows && m.rows[k] == s.rows[k])
    && m.rows.Keys == s.rows.Keys + p.rows.Keys
  }

  /** Copying every entity of `p` into `s`, in p's order: every row of `p`
      is then in the copy under the same id with the same fields, every row
      of `s` whose id `p` does not use is untouched, and nothing else is added. */
  lemma MirrorSnapshot(s: Table, p: Table)
    requires WellFormed(s) && WellFormed(p)
    ensures Mirrors(s, p, SaveEach(s, Enumerate(p)))
  {
    SaveIdentifiedIsUpsert(s, Enumerate(p));
    KeyedEnumerate(p);
  }

  /** Copied into an empty store, the copy holds exactly the source rows. */
  lemma MirrorFromEmpty(p: Table)
    requires WellFormed(p)
    ensures SaveEach(Empty, Enumerate(p)).rows == p.rows
  {
    MirrorSnapshot(Empty, p);
  }

  /** A save fault: the given save attempt (counted from 0) throws a
      RuntimeException with the given message. */
  datatype Fault = Fault(attempt: nat, message: string)

  /** What the store does on save attempt i: throw (Some message) or not. */
  function FaultAt(fault: Option<Fault>, i: nat): Option<string> {
    if fault.Some? && fault.value.attempt == i then Some(fault.value.message) else None
  }

  /** How many of n consecutive saves succeed before the fault, if any, strikes. */
  function Completed(fault: Option<Fault>, n: nat): (c: nat)
    ensures c <= n
    ensures c < n <==> fault.Some? && fault.value.attempt < n
    ensures c < n ==> c == fault.value.attempt
  {
    if fault.Some? && fault.value.attempt < n then fault.value.attempt else n
  }

  /** Save attempt i of n, with no earlier attempt having failed, either
      throws (and then i is where the run stops) or leaves room for one more. */
  lemma FaultStep(fault: Option<Fault>, n: nat, i: nat)
    requires i < n && i <= Completed(fault, n)
    ensures FaultAt(fault, i).Some? ==> i == Completed(fault, n) && FaultAt(fault, i).value == fault.value.message
    ensures FaultAt(fault, i).None? ==> i + 1 <= Completed(fault, n)
  {
  }

  /** A repository bean: a store whose contents its methods replace. */
  class Repository {
    var table: Table

    ghost predicate Valid()
      reads this
    {
      WellFormed(table)
    }

    constructor ()
      ensures Valid() && table == Empty
    {
      table := Empty;
    }

    /** `save(entity)`; `fault` is the exception the store throws, if any. */
    method Save(p: Product, fault: Option<string>) returns (r: Result<Product, Error>)
      requires Valid()
      modifies this
      ensures Valid()
      ensures fault.Some? ==> r == Failure(Runtime(fault.value)) && table == old(table)
      ensures fault.None? ==> var s := SaveInto(old(table), p);
        r == Success(s.entity) && table == s.table
    {
      if fault.Some? {
        return Failure(Runtime(fault.value));
      }
      var s := SaveInto(table, p);
      table := s.table;
      return Success(s.entity);
    }

    /** `findById(id)`: the stored entity, or None when the id is not stored. */
    method FindById(id: Id) returns (r: Option<Product>)
      requires Valid()
      ensures r.Some? <==> id in table.rows
      ensures r.Some? ==> r.value == table.rows[id] && r.value.id == Some(id)
    {
      r := Lookup(table, id);
    }

    /** `findAll()`. */
    method FindAll() returns (ps: seq<Product>)
      requires Valid()
      ensures ps == Enumerate(table)
    {
      ps := Enumerate(table);
    }

    /** `findAll(PageRequest.of(number, size))`. */
    method FindPage(number: nat, size: nat) returns (page: Page)
      requires Valid() && size >= 1
      ensures page == PageOf(table, number, size)
    {
      page := PageOf(table, number, size);
    }

    /** `delete(entity)`. */
    method Delete(e: Product)
      requires Valid()
      modifies this
      ensures Valid()
      ensures table == DeleteEntity(old(table), e)
    {
      table := DeleteEntity(table, e);
    }
  }
}
