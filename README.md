# UnitOfWork in Dafny

This project models the core of a small unit-of-work library that wraps an
Entity Framework Core database context. The context is modelled as an
abstract store, `Store.Context`. What a save on the store yields is fixed in
advance by the caller: `outcomes(n)` is the outcome of the store's n-th save,
either a count of written entities or an opaque fault. The store also keeps:

- the current transaction;
- a count of saves;
- a count of transactions begun;
- the auto-detect-changes flag;
- a count of releases.

The model has three modules.

- `SaveResults` models the result record of a save, `SaveChangesResult`.
  - It holds an optional captured fault and an append-only list of messages.
  - `IsOk` is derived from the fault, never stored.
- `UnitsOfWork` models the unit of work itself:
  - the null guard of the constructor;
  - the transaction-selection rule;
  - the fault-capturing save;
  - the composite save over several units;
  - release of the store at most once.

  The composite save is a loop. It visits every peer once, in order, then the
  unit itself, and adds up the counts. Its contract is stated against pure
  specification functions over the sequence of store outcomes:
  - `Total` is the sum;
  - `ExceptionAfterAll` is the fault each result object ends up holding;
  - `OutcomesOf` gives the saves that each result object sees.

  Units may share a store or a result object, and the contract accounts for
  that.
- `Scenarios` holds concrete runs over stores with fixed outcomes.

A stale fault is modelled as written. A successful save does not clear a fault
captured by an earlier save, so `IsOk` stays false after a fault even when
later saves succeed (`SuccessKeepsException`, `Scenarios.StaleFault`).

## Model

| member | source | states |
|---|---|---|
| SaveResults.SaveChangesResult.constructor | UnitOfWork/SaveChangesResult.cs:11-12 | a new result has no messages and no exception, so it is OK |
| SaveResults.SaveChangesResult.WithMessage | UnitOfWork/SaveChangesResult.cs:15-17 | a result built with a message holds exactly that one message and is OK |
| SaveResults.SaveChangesResult.SetException | UnitOfWork/SaveChangesResult.cs:22-27 | after setting the exception, IsOk holds exactly when it was set to null; the messages are untouched |
| SaveResults.SaveChangesResult.AddMessage | UnitOfWork/SaveChangesResult.cs:33-34 | the message is appended at the end: one more message, earlier ones unchanged, exception and IsOk unchanged |
| UnitsOfWork.Create | UnitOfWork/Implementations/UnitOfWork.cs:26-31 | a null store is rejected with the argument-null error, and only then; otherwise the unit wraps that store, is not disposed and has an OK result with no messages |
| UnitsOfWork.UnitOfWork.constructor | UnitOfWork/Implementations/UnitOfWork.cs:26-31 | the unit wraps the given store, is not disposed, and owns a fresh OK result object with no messages |
| UnitsOfWork.ChooseTransaction | UnitOfWork/Implementations/UnitOfWork.cs:49-58 | the current transaction is reused exactly when one exists and reuse is asked for; the reused one is the current one |
| UnitsOfWork.UnitOfWork.BeginTransaction | UnitOfWork/Implementations/UnitOfWork.cs:49-58 | when reusing, returns the current transaction and leaves the store unchanged; otherwise the store begins a new transaction, which is returned and becomes current |
| UnitsOfWork.UnitOfWork.SetAutoDetectChanges | UnitOfWork/Implementations/UnitOfWork.cs:64-65 | the store's auto-detect-changes flag takes the given value |
| UnitsOfWork.UnitOfWork.SaveChanges | UnitOfWork/Implementations/UnitOfWork.cs:75-86 | one store save; on success returns its count and leaves the exception as it was; on a fault returns 0 and records that fault, so the result is not OK |
| UnitsOfWork.SuccessKeepsException | UnitOfWork/Implementations/UnitOfWork.cs:77-80 | saves that all succeed leave the recorded exception, stale or not, as it was |
| UnitsOfWork.LastFaultWins | UnitOfWork/Implementations/UnitOfWork.cs:81-85 | after several saves the recorded exception is the fault of the last save that faulted |
| UnitsOfWork.OkAfterIff | UnitOfWork/Implementations/UnitOfWork.cs:75-86 | a result is OK after several saves if and only if it was OK before and none of them faulted |
| UnitsOfWork.FaultNeverCleared | UnitOfWork/Implementations/UnitOfWork.cs:81-85 | once a fault is recorded, no further saves reset the exception to null |
| UnitsOfWork.Total | UnitOfWork/Implementations/UnitOfWork.cs:95-102 | the composite count is never negative, and is 0 when every save faulted |
| UnitsOfWork.TotalAppend | UnitOfWork/Implementations/UnitOfWork.cs:95-102 | the composite count of two runs in sequence is the sum of their counts |
| UnitsOfWork.SaveTracked | UnitOfWork/Implementations/UnitOfWork.cs:98-101 | one save inside the composite save adds the next outcome of that unit's store, counts one save on that store only, and replays the outcome onto that unit's result object only |
| UnitsOfWork.UnitOfWork.SavePeers | UnitOfWork/Implementations/UnitOfWork.cs:95-99 | the loop saves every peer once, in order, and its running count is the sum of the counts returned so far |
| UnitsOfWork.UnitOfWork.SaveChangesAll | UnitOfWork/Implementations/UnitOfWork.cs:93-103 | one save per peer in order, then one of this unit, with no early stop; the result is the peers' sum plus this unit's count, and with no peers it is this unit's count; each store's save count grows by its number of occurrences among the units, and each result object holds the exception its own saves leave |
| UnitsOfWork.DistinctStoresSaveOnce | UnitOfWork/Implementations/UnitOfWork.cs:96-101 | over units with different stores, every store is saved exactly once and the i-th save yields that store's next outcome |
| UnitsOfWork.DistinctResultsSeeOwnSave | UnitOfWork/Implementations/UnitOfWork.cs:96-101 | over units with different result objects, each result object holds what its own save leaves, whatever the other units' saves did |
| UnitsOfWork.UnitOfWork.Dispose | UnitOfWork/Implementations/UnitOfWork.cs:108-113 | afterwards the unit is disposed; the store is released by the first call only |
| UnitsOfWork.UnitOfWork.DisposeCore | UnitOfWork/Implementations/UnitOfWork.cs:119-129 | the store is released only when not yet disposed and disposing; the unit is disposed afterwards in every case |
| Scenarios.StaleFault | UnitOfWork/Implementations/UnitOfWork.cs:75-86 | a fault then a success returns 0 then 4, and the result object still reports the fault |
| Scenarios.DisposeTwice | UnitOfWork/Implementations/UnitOfWork.cs:119-129 | releasing a unit twice releases its store once |
| Scenarios.ReuseOrBegin | UnitOfWork/Implementations/UnitOfWork.cs:49-58 | with a current transaction, reuse hands it back and no reuse begins exactly one new transaction |
| Scenarios.NullGuard | UnitOfWork/Implementations/UnitOfWork.cs:26-31 | a null store is rejected and a present one yields an OK unit |

## Left out

- `TrackGraph` (UnitOfWork/Implementations/UnitOfWork.cs:136-139) is not modelled. It only forwards to the ORM's change tracker, which has no counterpart in the abstract store.
- ORM internals are not modelled. This covers what a save writes, how a transaction is begun, and what a released store or a second concurrent transaction does. The store's save outcomes are inputs, and beginning a transaction always succeeds.
- Asynchrony is not modelled: every awaited call is an ordinary sequential call.
- `GC.SuppressFinalize` is not modelled. It is a runtime call with no observable effect on the unit or the store.
- Exception types and contents are not modelled. A fault is an opaque token. Every store fault is caught, since the source catches every exception type.
- The interface `IUnitOfWork` (UnitOfWork/Interfaces/IUnitOfWork.cs) is not modelled: it declares signatures only. The peers of a composite save are units of this same class, so a peer's save never throws.
- UnitsOfWork.UnitOfWork.SaveChangesAll: does not model the 32-bit wrap-around of the C# `int` count. Counts are unbounded integers, so a sum above 2^31 - 1 is not wrapped.
- UnitsOfWork.UnitOfWork.SaveChangesAll: the `params` array of peers is a sequence, because the source never writes to it. The per-save store outcomes are a ghost out-parameter; the source returns only the count.
- UnitsOfWork.Create: the `ArgumentNullException` of the constructor is the `ArgumentNull` value of a separate method. The constructor itself takes a store that cannot be null.
- The message list of a result object is a field with no reader, because the source never reads it back.
