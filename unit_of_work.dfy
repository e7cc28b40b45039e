/** A unit of work over one store: transaction selection, the fault-capturing
    save, the composite save across several units, and release of the store. */
module UnitsOfWork {
  import opened Store
  import opened SaveResults

  /** What beginning a transaction does: hand back the current one, or ask the
      store for a new one. */
  datatype TransactionChoice = Reuse(transaction: Transaction) | BeginNew

  /** The selection rule of BeginTransactionAsync. */
  function ChooseTransaction(current: Option<Transaction>, useIfExists: bool): (c: TransactionChoice)
    ensures c.Reuse? <==> current.Some? && useIfExists
    ensures c.Reuse? ==> current == Some(c.transaction)
  {
    if current == None then BeginNew
    else if useIfExists then Reuse(current.value)
    else BeginNew
  }

  /** The count a save returns for a store outcome: a fault reads as 0. */
  function Returned(o: Outcome): nat
  {
    match o
    case Saved(n) => n
    case Faulted(_) => 0
  }

  /** The exception a result holds after one save with outcome `o`, when it held `e`
      before: a fault overwrites it, a success leaves it alone. */
  function ExceptionAfter(e: Option<Fault>, o: Outcome): Option<Fault>
  {
    match o
    case Saved(_) => e
    case Faulted(f) => Some(f)
  }

  /** The exception a result holds after the saves `outs`, in order. */
  function ExceptionAfterAll(e: Option<Fault>, outs: seq<Outcome>): Option<Fault>
  {
    if outs == [] then e
    else ExceptionAfter(ExceptionAfterAll(e, outs[..|outs| - 1]), outs[|outs| - 1])
  }

  /** The running count of the composite save after the saves `outs`. */
  function Total(outs: seq<Outcome>): (r: int)
    ensures r >= 0
    ensures (forall i :: 0 <= i < |outs| ==> outs[i].Faulted?) ==> r == 0
  {
    if outs == [] then 0
    else Total(outs[..|outs| - 1]) + Returned(outs[|outs| - 1])
  }

  /** The outcomes, among `outs`, of the saves whose result object is `r`
      (`rs[i]` is the result object of the i-th save). */
  function OutcomesOf(rs: seq<SaveChangesResult>, outs: seq<Outcome>, r: SaveChangesResult): seq<Outcome>
    requires |rs| == |outs|
  {
    if outs == [] then []
    else OutcomesOf(rs[..|rs| - 1], outs[..|outs| - 1], r)
         + (if rs[|rs| - 1] == r then [outs[|outs| - 1]] else [])
  }

  /** How often `x` occurs in `s`. */
  function Occurrences<T(==)>(s: seq<T>, x: T): nat
  {
    if s == [] then 0
    else Occurrences(s[..|s| - 1], x) + if s[|s| - 1] == x then 1 else 0
  }

  /** The store of each unit, in order. */
  function ContextsOf(units: seq<UnitOfWork>): (cs: seq<Context>)
    ensures |cs| == |units| && forall i :: 0 <= i < |units| ==> cs[i] == units[i].dbContext
  {
    seq(|units|, i requires 0 <= i < |units| => units[i].dbContext)
  }

  /** The result object of each unit, in order. */
  function ResultsOf(units: seq<UnitOfWork>): (rs: seq<SaveChangesResult>)
    ensures |rs| == |units| && forall i :: 0 <= i < |units| ==> rs[i] == units[i].lastSaveChangesResult
  {
    seq(|units|, i requires 0 <= i < |units| => units[i].lastSaveChangesResult)
  }

  lemma TotalSnoc(outs: seq<Outcome>, o: Outcome)
    ensures Total(outs + [o]) == Total(outs) + Returned(o)
  {
    assert (outs + [o])[..|outs|] == outs;
  }

  lemma ExceptionAfterAllSnoc(e: Option<Fault>, outs: seq<Outcome>, o: Outcome)
    ensures ExceptionAfterAll(e, outs + [o]) == ExceptionAfter(ExceptionAfterAll(e, outs), o)
  {
    assert (outs + [o])[..|outs|] == outs;
  }

  lemma OutcomesOfSnoc(rs: seq<SaveChangesResult>, outs: seq<Outcome>, r: SaveChangesResult,
                       r': SaveChangesResult, o: Outcome)
    requires |rs| == |outs|
    ensures OutcomesOf(rs + [r'], outs + [o], r)
            == OutcomesOf(rs, outs, r) + (if r' == r then [o] else [])
  {
    assert (rs + [r'])[..|rs|] == rs;
    assert (outs + [o])[..|outs|] == outs;
  }

  /** The composite count splits into the counts of its parts. */
  lemma {:induction false} TotalAppend(a: seq<Outcome>, b: seq<Outcome>)
    ensures Total(a + b) == Total(a) + Total(b)
    decreases |b|
  {
    if b == [] {
      assert a + b == a;
    } else {
      var b' := b[..|b| - 1];
      var last := b[|b| - 1];
      assert a + b == (a + b') + [last];
      assert b == b' + [last];
      TotalSnoc(a + b', last);
      TotalSnoc(b', last);
      TotalAppend(a, b');
    }
  }

  /** A stale fault survives: saves that all succeed leave the exception as it was. */
  lemma {:induction false} SuccessKeepsException(e: Option<Fault>, outs: seq<Outcome>)
    requires forall i :: 0 <= i < |outs| ==> outs[i].Saved?
    ensures ExceptionAfterAll(e, outs) == e
    decreases |outs|
  {
    if outs != [] {
      SuccessKeepsException(e, outs[..|outs| - 1]);
    }
  }

  /** The exception after several saves is the fault of the last save that faulted. */
  lemma {:induction false} LastFaultWins(e: Option<Fault>, outs: seq<Outcome>, k: nat)
    requires k < |outs| && outs[k].Faulted?
    requires forall j :: k < j < |outs| ==> outs[j].Saved?
    ensures ExceptionAfterAll(e, outs) == Some(outs[k].fault)
    decreases |outs|
  {
    if k < |outs| - 1 {
      LastFaultWins(e, outs[..|outs| - 1], k);
    }
  }

  /** A result is OK after several saves exactly when it was OK before and no save faulted. */
  lemma {:induction false} OkAfterIff(e: Option<Fault>, outs: seq<Outcome>)
    ensures ExceptionAfterAll(e, outs) == None
            <==> e == None && forall i :: 0 <= i < |outs| ==> outs[i].Saved?
    decreases |outs|
  {
    if outs != [] {
      var init := outs[..|outs| - 1];
      OkAfterIff(e, init);
      if outs[|outs| - 1].Saved? {
        assert forall i :: 0 <= i < |outs| ==> (outs[i].Saved? <==> i == |outs| - 1 || init[i].Saved?);
      }
    }
  }

  /** Once a fault is captured, no sequence of saves clears it again. */
  lemma {:induction false} FaultNeverCleared(e: Option<Fault>, outs: seq<Outcome>)
    requires e.Some?
    ensures ExceptionAfterAll(e, outs).Some?
  {
    OkAfterIff(e, outs);
  }

  /** The j-th outcome is the next one of the j-th store, after the earlier
      saves on that same store. */
  ghost predicate OutcomesFollow(cs: seq<Context>, saves0: seq<nat>, outs: seq<Outcome>)
    requires |outs| <= |cs| == |saves0|
  {
    forall j :: 0 <= j < |outs| ==> outs[j] == cs[j].outcomes(saves0[j] + Occurrences(cs[..j], cs[j]))
  }

  /** The save count of each store, in order. */
  ghost function SavesOf(cs: seq<Context>): (counts: seq<nat>)
    reads cs
    ensures |counts| == |cs| && forall k :: 0 <= k < |cs| ==> counts[k] == cs[k].saves
  {
    if cs == [] then [] else SavesOf(cs[..|cs| - 1]) + [cs[|cs| - 1].saves]
  }

  /** The exception of each result object, in order. */
  ghost function ExceptionsOf(rs: seq<SaveChangesResult>): (es: seq<Option<Fault>>)
    reads rs
    ensures |es| == |rs| && forall k :: 0 <= k < |rs| ==> es[k] == rs[k].exception
  {
    if rs == [] then [] else ExceptionsOf(rs[..|rs| - 1]) + [rs[|rs| - 1].exception]
  }

  /** With save counts `saves` now and `saves0` at the start, each store has
      saved once per occurrence among the first `i` stores. */
  ghost predicate SavesCounted(cs: seq<Context>, saves0: seq<nat>, saves: seq<nat>, i: nat)
    requires i <= |cs| == |saves0| == |saves|
  {
    forall k :: 0 <= k < |cs| ==> saves[k] == saves0[k] + Occurrences(cs[..i], cs[k])
  }

  /** With exceptions `es` now and `es0` at the start, each result object holds
      the exception its own saves among `outs` leave. */
  ghost predicate ExceptionsReplayed(rs: seq<SaveChangesResult>, es0: seq<Option<Fault>>,
                                     es: seq<Option<Fault>>, outs: seq<Outcome>)
    requires |outs| <= |rs| == |es0| == |es|
  {
    forall k :: 0 <= k < |rs| ==> es[k] == ExceptionAfterAll(es0[k], OutcomesOf(rs[..|outs|], outs, rs[k]))
  }

  /** One more save replays onto the exception of its own result object only. */
  lemma ReplayStep(rs: seq<SaveChangesResult>, e0: Option<Fault>, outs: seq<Outcome>, o: Outcome,
                   r: SaveChangesResult)
    requires |outs| < |rs|
    ensures var before := ExceptionAfterAll(e0, OutcomesOf(rs[..|outs|], outs, r));
      ExceptionAfterAll(e0, OutcomesOf(rs[..|outs| + 1], outs + [o], r))
      == if rs[|outs|] == r then ExceptionAfter(before, o) else before
  {
    var i := |outs|;
    assert rs[..i + 1] == rs[..i] + [rs[i]];
    OutcomesOfSnoc(rs[..i], outs, r, rs[i], o);
    var prior := OutcomesOf(rs[..i], outs, r);
    if rs[i] == r {
      ExceptionAfterAllSnoc(e0, prior, o);
    } else {
      assert prior + [] == prior;
    }
  }

  /** The save of the next unit of a composite save, whose store is `cs[|outs|]`,
      adds one save to that store and to no other. */
  lemma SavesStep(cs: seq<Context>, saves0: seq<nat>, savesBefore: seq<nat>, savesAfter: seq<nat>, i: nat)
    requires i < |cs| == |saves0| == |savesBefore| == |savesAfter|
    requires SavesCounted(cs, saves0, savesBefore, i)
    requires forall k :: 0 <= k < |cs| ==>
               savesAfter[k] == savesBefore[k] + if cs[k] == cs[i] then 1 else 0
    ensures SavesCounted(cs, saves0, savesAfter, i + 1)
  {
    assert cs[..i + 1][..i] == cs[..i];
    forall k | 0 <= k < |cs|
      ensures Occurrences(cs[..i + 1], cs[k]) == Occurrences(cs[..i], cs[k]) + if cs[i] == cs[k] then 1 else 0
    {
    }
  }

  /** The save of the next unit of a composite save, whose result object is
      `rs[|outs|]`, replays its outcome onto that result object and no other. */
  lemma ExceptionsStep(rs: seq<SaveChangesResult>, es0: seq<Option<Fault>>, esBefore: seq<Option<Fault>>,
                       esAfter: seq<Option<Fault>>, outs: seq<Outcome>, o: Outcome)
    requires |outs| < |rs| == |es0| == |esBefore| == |esAfter|
    requires ExceptionsReplayed(rs, es0, esBefore, outs)
    requires forall k :: 0 <= k < |rs| ==>
               esAfter[k] == if rs[k] == rs[|outs|] then ExceptionAfter(esBefore[k], o) else esBefore[k]
    ensures ExceptionsReplayed(rs, es0, esAfter, outs + [o])
  {
    forall k | 0 <= k < |rs|
      ensures esAfter[k] == ExceptionAfterAll(es0[k], OutcomesOf(rs[..|outs| + 1], outs + [o], rs[k]))
    {
      ReplayStep(rs, es0[k], outs, o, rs[k]);
    }
  }

  /** The next outcome of the next store extends the recorded outcomes. */
  lemma OutcomesStep(cs: seq<Context>, saves0: seq<nat>, saves: seq<nat>, outs: seq<Outcome>, o: Outcome)
    requires |outs| < |cs| == |saves0| == |saves|
    requires OutcomesFollow(cs, saves0, outs) && SavesCounted(cs, saves0, saves, |outs|)
    requires o == cs[|outs|].outcomes(saves[|outs|])
    ensures OutcomesFollow(cs, saves0, outs + [o])
  {
    var i := |outs|;
    assert saves[i] == saves0[i] + Occurrences(cs[..i], cs[i]);
    forall j | 0 <= j < i + 1
      ensures (outs + [o])[j] == cs[j].outcomes(saves0[j] + Occurrences(cs[..j], cs[j]))
    {
      if j < i {
        assert (outs + [o])[j] == outs[j];
      }
    }
  }

  /** No element of `s` occurs twice. */
  predicate Distinct<T(==)>(s: seq<T>)
  {
    forall i, j :: 0 <= i < j < |s| ==> s[i] != s[j]
  }

  /** An element occurs exactly as often as the positions holding it, so in a
      sequence without repeats it does not occur before its own position. */
  lemma {:induction false} OccurrencesBeforeDistinct<T>(s: seq<T>, j: nat)
    requires Distinct(s) && j < |s|
    ensures Occurrences(s[..j], s[j]) == 0
  {
    OccurrencesAbsent(s[..j], s[j]);
  }

  lemma {:induction false} OccurrencesAbsent<T>(s: seq<T>, x: T)
    requires forall i :: 0 <= i < |s| ==> s[i] != x
    ensures Occurrences(s, x) == 0
    decreases |s|
  {
    if s != [] {
      OccurrencesAbsent(s[..|s| - 1], x);
    }
  }

  /** With result objects that are all different, the saves that a result
      object sees are exactly its own one. */
  lemma {:induction false} OutcomesOfDistinct(rs: seq<SaveChangesResult>, outs: seq<Outcome>, k: nat)
    requires |rs| == |outs| && Distinct(rs) && k < |rs|
    ensures OutcomesOf(rs, outs, rs[k]) == [outs[k]]
    decreases |rs|
  {
    var n := |rs| - 1;
    if k < n {
      OutcomesOfDistinct(rs[..n], outs[..n], k);
    } else {
      OutcomesOfAbsent(rs[..n], outs[..n], rs[k]);
    }
  }

  lemma {:induction false} OutcomesOfAbsent(rs: seq<SaveChangesResult>, outs: seq<Outcome>, r: SaveChangesResult)
    requires |rs| == |outs| && forall i :: 0 <= i < |rs| ==> rs[i] != r
    ensures OutcomesOf(rs, outs, r) == []
    decreases |rs|
  {
    if rs != [] {
      OutcomesOfAbsent(rs[..|rs| - 1], outs[..|outs| - 1], r);
    }
  }

  /** A composite save over units with different stores: each store is saved
      exactly once, and the i-th save yields the next outcome of the i-th store. */
  lemma DistinctStoresSaveOnce(cs: seq<Context>, saves0: seq<nat>, saves: seq<nat>, outs: seq<Outcome>)
    requires Distinct(cs) && |outs| == |cs| == |saves0| == |saves|
    requires OutcomesFollow(cs, saves0, outs) && SavesCounted(cs, saves0, saves, |outs|)
    ensures forall k :: 0 <= k < |outs| ==> outs[k] == cs[k].outcomes(saves0[k])
    ensures forall k :: 0 <= k < |cs| ==> saves[k] == saves0[k] + 1
  {
    assert cs[..|outs|] == cs;
    forall k | 0 <= k < |outs|
      ensures outs[k] == cs[k].outcomes(saves0[k]) && saves[k] == saves0[k] + 1
    {
      OccurrencesBeforeDistinct(cs, k);
      OccurrencesSplit(cs, k);
    }
  }

  /** A composite save over units with different result objects: each result
      object holds what its own save leaves, whatever the other saves did. */
  lemma DistinctResultsSeeOwnSave(rs: seq<SaveChangesResult>, es0: seq<Option<Fault>>,
                                  es: seq<Option<Fault>>, outs: seq<Outcome>)
    requires Distinct(rs) && |outs| == |rs| == |es0| == |es|
    requires ExceptionsReplayed(rs, es0, es, outs)
    ensures forall k :: 0 <= k < |rs| ==> es[k] == ExceptionAfter(es0[k], outs[k])
  {
    assert rs[..|outs|] == rs;
    forall k | 0 <= k < |rs|
      ensures es[k] == ExceptionAfter(es0[k], outs[k])
    {
      OutcomesOfDistinct(rs, outs, k);
      assert [outs[k]] == [] + [outs[k]];
      ExceptionAfterAllSnoc(es0[k], [], outs[k]);
    }
  }

  /** In a sequence without repeats, the element at position k occurs once. */
  lemma {:induction false} OccurrencesSplit<T>(s: seq<T>, k: nat)
    requires Distinct(s) && k < |s|
    ensures Occurrences(s, s[k]) == 1
    decreases |s|
  {
    var n := |s| - 1;
    if k < n {
      OccurrencesSplit(s[..n], k);
    } else {
      OccurrencesAbsent(s[..n], s[k]);
    }
  }

  /** The bookkeeping of a composite save whose units have stores `cs` and
      result objects `rs`, after the saves with outcomes `outs`. */
  ghost predicate Tracked(cs: seq<Context>, rs: seq<SaveChangesResult>, saves0: seq<nat>,
                          es0: seq<Option<Fault>>, outs: seq<Outcome>)
    reads cs, rs
  {
    |outs| <= |cs| == |rs| == |saves0| == |es0|
    && OutcomesFollow(cs, saves0, outs)
    && SavesCounted(cs, saves0, SavesOf(cs), |outs|)
    && ExceptionsReplayed(rs, es0, ExceptionsOf(rs), outs)
  }

  /** The save of unit `u`, the next of a composite save, with the composite
      save's bookkeeping carried along. */
  method SaveTracked(u: UnitOfWork, ghost cs: seq<Context>, ghost rs: seq<SaveChangesResult>,
                     ghost saves0: seq<nat>, ghost es0: seq<Option<Fault>>, ghost outs: seq<Outcome>)
    returns (n: int, ghost o: Outcome)
    requires Tracked(cs, rs, saves0, es0, outs) && |outs| < |cs|
    requires cs[|outs|] == u.dbContext && rs[|outs|] == u.lastSaveChangesResult
    modifies u.dbContext`saves, u.lastSaveChangesResult`exception
    ensures n == Returned(o) && Tracked(cs, rs, saves0, es0, outs + [o])
  {
    o := u.dbContext.outcomes(u.dbContext.saves);
    OutcomesStep(cs, saves0, SavesOf(cs), outs, o);
    ghost var savesBefore, esBefore := SavesOf(cs), ExceptionsOf(rs);
    n := u.SaveChanges();
    ghost var savesAfter, esAfter := SavesOf(cs), ExceptionsOf(rs);
    forall k | 0 <= k < |cs|
      ensures savesAfter[k] == savesBefore[k] + if cs[k] == u.dbContext then 1 else 0
    {
    }
    SavesStep(cs, saves0, savesBefore, savesAfter, |outs|);
    forall k | 0 <= k < |rs|
      ensures esAfter[k] == if rs[k] == u.lastSaveChangesResult then ExceptionAfter(esBefore[k], o) else esBefore[k]
    {
    }
    ExceptionsStep(rs, es0, esBefore, esAfter, outs, o);
  }

  /** What constructing a unit of work yields: the new unit, or the
      argument-null error for a missing store. */
  datatype Construction = Constructed(unit: UnitOfWork) | ArgumentNull

  /** The constructor's null guard: a missing store is rejected, and a present
      one yields a unit over that store with a fresh, OK result object. */
  method Create(context: Context?) returns (r: Construction)
    ensures r.ArgumentNull? <==> context == null
    ensures r.Constructed? ==>
      r.unit.dbContext == context && !r.unit.disposed
      && r.unit.lastSaveChangesResult.IsOk() && r.unit.lastSaveChangesResult.messages == []
  {
    if context == null {
      return ArgumentNull;
    }
    var u := new UnitOfWork(context);
    r := Constructed(u);
  }

  class UnitOfWork {
    const dbContext: Context
    const lastSaveChangesResult: SaveChangesResult
    var disposed: bool

    constructor (context: Context)
      ensures dbContext == context && fresh(lastSaveChangesResult) && !disposed
      ensures lastSaveChangesResult.IsOk() && lastSaveChangesResult.messages == []
    {
      dbContext := context;
      lastSaveChangesResult := new SaveChangesResult();
      disposed := false;
    }

    /** Returns the current transaction or a new one, as ChooseTransaction decides. */
    method BeginTransaction(useIfExists: bool) returns (t: Transaction)
      modifies dbContext`currentTransaction, dbContext`transactionsBegun
      ensures match ChooseTransaction(old(dbContext.currentTransaction), useIfExists)
        case Reuse(current) =>
          t == current && unchanged(dbContext)
        case BeginNew =>
          t == Transaction(old(dbContext.transactionsBegun)) && dbContext.currentTransaction == Some(t)
          && dbContext.transactionsBegun == old(dbContext.transactionsBegun) + 1
    {
      match ChooseTransaction(dbContext.currentTransaction, useIfExists)
      case Reuse(current) =>
        t := current;
      case BeginNew =>
        t := dbContext.BeginTransaction();
    }

    method SetAutoDetectChanges(value: bool)
      modifies dbContext`autoDetectChanges
      ensures dbContext.autoDetectChanges == value
    {
      dbContext.SetAutoDetectChanges(value);
    }

    /** Saves through the store. A fault is captured in the result object and
        reads as a count of 0; it is never propagated. */
    method SaveChanges() returns (count: int)
      modifies dbContext`saves, lastSaveChangesResult`exception
      ensures dbContext.saves == old(dbContext.saves) + 1
      ensures var o := dbContext.outcomes(old(dbContext.saves));
        count == Returned(o)
        && lastSaveChangesResult.exception == ExceptionAfter(old(lastSaveChangesResult.exception), o)
      ensures dbContext.outcomes(old(dbContext.saves)).Saved? ==>
        count == dbContext.outcomes(old(dbContext.saves)).count
        && lastSaveChangesResult.exception == old(lastSaveChangesResult.exception)
      ensures dbContext.outcomes(old(dbContext.saves)).Faulted? ==>
        count == 0 && !lastSaveChangesResult.IsOk()
        && lastSaveChangesResult.exception == Some(dbContext.outcomes(old(dbContext.saves)).fault)
    {
      var o := dbContext.SaveChanges();
      match o
      case Saved(n) =>
        count := n;
      case Faulted(f) =>
        lastSaveChangesResult.SetException(Some(f));
        count := 0;
    }

    /** The units a composite save visits: the peers in order, then this one. */
    function Members(peers: seq<UnitOfWork>): (units: seq<UnitOfWork>)
      ensures |units| == |peers| + 1 && units[..|peers|] == peers && units[|peers|] == this
    {
      peers + [this]
    }

    /** Saves every peer once, in order, then this unit, and adds up the counts.
        `outs[i]` is the store outcome of the i-th of these saves: the next
        outcome of that unit's store, after the earlier saves of this call on
        the same store. */
    method SaveChangesAll(peers: seq<UnitOfWork>) returns (count: int, ghost outs: seq<Outcome>)
      modifies (set u | u in Members(peers) :: u.dbContext)`saves
      modifies (set u | u in Members(peers) :: u.lastSaveChangesResult)`exception
      ensures |outs| == |peers| + 1
      ensures count == Total(outs)
      ensures count == Total(outs[..|peers|]) + Returned(outs[|peers|])
      ensures |peers| == 0 ==> count == Returned(outs[0])
      ensures var cs, rs := ContextsOf(Members(peers)), ResultsOf(Members(peers));
        Tracked(cs, rs, old(SavesOf(cs)), old(ExceptionsOf(rs)), outs)
    {
      ghost var units := Members(peers);
      ghost var cs := ContextsOf(units);
      ghost var rs := ResultsOf(units);
      ghost var saves0, es0 := SavesOf(cs), ExceptionsOf(rs);
      count, outs := SavePeers(peers, cs, rs, saves0, es0);
      var n;
      ghost var o;
      n, o := SaveTracked(this, cs, rs, saves0, es0, outs);
      TotalSnoc(outs, o);
      assert outs == (outs + [o])[..|peers|];
      count, outs := count + n, outs + [o];
    }

    /** The loop of the composite save over the peers, with its bookkeeping. */
    method SavePeers(peers: seq<UnitOfWork>, ghost cs: seq<Context>, ghost rs: seq<SaveChangesResult>,
                     ghost saves0: seq<nat>, ghost es0: seq<Option<Fault>>)
      returns (count: int, ghost outs: seq<Outcome>)
      requires Tracked(cs, rs, saves0, es0, []) && |peers| < |cs|
      requires forall k :: 0 <= k < |peers| ==>
                 cs[k] == peers[k].dbContext && rs[k] == peers[k].lastSaveChangesResult
      modifies (set u | u in peers :: u.dbContext)`saves
      modifies (set u | u in peers :: u.lastSaveChangesResult)`exception
      ensures |outs| == |peers| && Tracked(cs, rs, saves0, es0, outs) && count == Total(outs)
    {
      count, outs := 0, [];
      for i := 0 to |peers|
        invariant |outs| == i
        invariant Tracked(cs, rs, saves0, es0, outs)
        invariant count == Total(outs)
      {
        var n;
        ghost var o;
        n, o := SaveTracked(peers[i], cs, rs, saves0, es0, outs);
        TotalSnoc(outs, o);
        count, outs := count + n, outs + [o];
      }
    }

    /** Releases the store on the first call only. */
    method Dispose()
      modifies this`disposed, dbContext`releases
      ensures disposed
      ensures dbContext.releases == old(dbContext.releases) + (if old(disposed) then 0 else 1)
    {
      DisposeCore(true);
    }

    method DisposeCore(disposing: bool)
      modifies this`disposed, dbContext`releases
      ensures disposed
      ensures dbContext.releases == old(dbContext.releases) + (if !old(disposed) && disposing then 1 else 0)
    {
      if !disposed {
        if disposing {
          dbContext.Dispose();
        }
      }
      disposed := true;
    }
  }
}
