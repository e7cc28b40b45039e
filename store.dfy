/** The backing store that a unit of work wraps: an abstract stand-in for the
    ORM's database context. What the store does inside a save or a transaction
    begin is not part of this model; its outcomes are inputs. */
module Store {

  datatype Option<T> = None | Some(value: T)

  /** An opaque fault raised by the store during a save. */
  datatype Fault = Fault(token: nat)

  /** What one save on the store yields: a count of written entities or a fault. */
  datatype Outcome = Saved(count: nat) | Faulted(fault: Fault)

  /** An opaque handle of a database transaction. */
  datatype Transaction = Transaction(id: nat)

  class Context {
    /** The outcome of the store's n-th save (counting from 0); fixed by the caller. */
    const outcomes: nat -> Outcome
    /** How many saves the store has performed. */
    var saves: nat
    var currentTransaction: Option<Transaction>
    /** How many transactions the store has begun. */
    var transactionsBegun: nat
    var autoDetectChanges: bool
    /** How many times the store has been released. */
    var releases: nat

    constructor (outcomes: nat -> Outcome, current: Option<Transaction>)
      ensures this.outcomes == outcomes && currentTransaction == current
      ensures saves == 0 && transactionsBegun == 0 && releases == 0 && autoDetectChanges
    {
      this.outcomes := outcomes;
      currentTransaction := current;
      saves, transactionsBegun, releases := 0, 0, 0;
      autoDetectChanges := true;
    }

    /** One save: yields the next scripted outcome. */
    method SaveChanges() returns (o: Outcome)
      modifies this`saves
      ensures o == outcomes(old(saves)) && saves == old(saves) + 1
    {
      o := outcomes(saves);
      saves := saves + 1;
    }

    /** Begins a new transaction, which becomes the current one. */
    method BeginTransaction() returns (t: Transaction)
      modifies this`currentTransaction, this`transactionsBegun
      ensures t == Transaction(old(transactionsBegun)) && currentTransaction == Some(t)
      ensures transactionsBegun == old(transactionsBegun) + 1
    {
      t := Transaction(transactionsBegun);
      currentTransaction := Some(t);
      transactionsBegun := transactionsBegun + 1;
    }

    method SetAutoDetectChanges(value: bool)
      modifies this`autoDetectChanges
      ensures autoDetectChanges == value
    {
      autoDetectChanges := value;
    }

    /** Releases the store's resources; every call is counted. */
    method Dispose()
      modifies this`releases
      ensures releases == old(releases) + 1
    {
      releases := releases + 1;
    }
  }
}
