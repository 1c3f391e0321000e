/** `list.forEach(repository::save)`, the loop both the product service and
    the start-up initializer run over a list of entities. */
module SaveInTurn {
  import opened Wrappers
  import opened ProductModel
  import opened Errors
  import opened Repositories

  /** Save each product of `ps` into `repository` in list order, discarding
      what save returns. The first failing save ends the loop with its
      exception; the saves before it stay in the store. */
  method SaveAll(repository: Repository, ps: seq<Product>, fault: Option<Fault>) returns (r: Outcome<Error>)
    requires repository.Valid()
    modifies repository
    ensures repository.Valid()
    ensures var done := Completed(fault, |ps|);
      && repository.table == SaveEach(old(repository.table), ps[..done])
      && r == if done < |ps| then Fail(Runtime(fault.value.message)) else Pass
  {
    ghost var t0 := repository.table;
    var i := 0;
    while i < |ps|
      invariant 0 <= i <= Completed(fault, |ps|)
      invariant repository.table == SaveEach(t0, ps[..i])
    {
      FaultStep(fault, |ps|, i);
      SaveEachStep(t0, ps, i);
      var saved := repository.Save(ps[i], FaultAt(fault, i));
      if saved.Failure? {
        return Fail(saved.error);
      }
      i := i + 1;
    }
    assert ps[..i] == ps;
    return Pass;
  }
}
