/** ProductsMemoryDBInitializer: at startup, copies every entity of the
    primary repository into the in-memory secondary repository. */
module MemoryInit {
  import opened Wrappers
  import opened ProductModel
  import opened Errors
  import opened Repositories
  import opened SaveInTurn

  class ProductsMemoryDbInitializer {
    const primary: Repository
    const secondary: Repository

    /** The two repositories are distinct beans. */
    constructor (primary: Repository, secondary: Repository)
      requires primary != secondary
      ensures this.primary == primary && this.secondary == secondary
    {
      this.primary := primary;
      this.secondary := secondary;
    }

    /** run: read all of the primary store once and save each entity, in the
        primary's order, into the secondary store (an upsert by id). The
        primary store is only read. A failing save propagates its exception,
        leaving the saves before it in place. A completed run into a store
        with no rows leaves it holding exactly the primary's rows. */
    method Run(fault: Option<Fault>) returns (r: Outcome<Error>)
      requires primary != secondary && primary.Valid() && secondary.Valid()
      modifies secondary
      ensures primary.table == old(primary.table)
      ensures secondary.Valid()
      ensures var all := Enumerate(primary.table); var done := Completed(fault, |all|);
        && secondary.table == SaveEach(old(secondary.table), all[..done])
        && r == if done < |all| then Fail(Runtime(fault.value.message)) else Pass
      ensures r.Pass? ==> Mirrors(old(secondary.table), primary.table, secondary.table)
      ensures r.Pass? && old(secondary.table.rows) == map[] ==> secondary.table.rows == primary.table.rows
    {
      var productModelList := primary.FindAll();
      r := SaveAll(secondary, productModelList, fault);
      if r.Pass? {
        assert productModelList[..|productModelList|] == productModelList;
        MirrorSnapshot(old(secondary.table), primary.table);
      }
    }
  }
}
