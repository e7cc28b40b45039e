/** Concrete runs of a unit of work over stores with fixed outcomes. */
module Scenarios {
  import opened Store
  import opened SaveResults
  import opened UnitsOfWork

  /** A fault followed by a successful save: the success returns its count, but
      the result object still reports the earlier fault. */
  method StaleFault() returns (first: int, second: int, okAfter: bool)
    ensures first == 0 && second == 4 && !okAfter
  {
    var c := new Context(n => if n == 0 then Faulted(Fault(1)) else Saved(4), None);
    var u := new UnitOfWork(c);
    first := u.SaveChanges();
    second := u.SaveChanges();
    okAfter := u.lastSaveChangesResult.IsOk();
  }

  /** Releasing twice releases the store once. */
  method DisposeTwice() returns (releases: nat, disposed: bool)
    ensures releases == 1 && disposed
  {
    var c := new Context(n => Saved(0), None);
    var u := new UnitOfWork(c);
    u.Dispose();
    u.Dispose();
    releases, disposed := c.releases, u.disposed;
  }

  /** With a current transaction, asking to reuse it hands it back and begins
      nothing; asking without reuse begins a new one on the store. */
  method ReuseOrBegin() returns (reused: Transaction, begun: Transaction, begunCount: nat)
    ensures reused == Transaction(9) && begun == Transaction(0) && begunCount == 1
  {
    var c := new Context(n => Saved(0), Some(Transaction(9)));
    var u := new UnitOfWork(c);
    reused := u.BeginTransaction(true);
    begun := u.BeginTransaction(false);
    begunCount := c.transactionsBegun;
  }

  /** A missing store is rejected; a present one yields a unit that is OK. */
  method NullGuard() returns (rejected: bool, ok: bool)
    ensures rejected && ok
  {
    var none := Create(null);
    rejected := none.ArgumentNull?;
    var c := new Context(n => Saved(0), None);
    var some := Create(c);
    ok := some.Constructed? && some.unit.lastSaveChangesResult.IsOk();
  }
}
