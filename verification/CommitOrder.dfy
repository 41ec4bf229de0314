/** What happens at the end of a transaction, event by event: how often, and in which order. */
module CommitOrder {
  import opened Commit

  // ---------------------------------------------------------------- how a transaction can end

  /** The transaction is given up before the database is asked to commit; or the database asks for it to be
      run again, or refuses it; or a callback fails that cannot be undone; or all goes well. */
  datatype Ending = Abandoned | Retried | Refused | Late | Done

  /** What decides: the transaction, what its callbacks and the database answer, and whether there was an error. */
  datatype Case = Case(s: Pending, fails: nat -> bool, code: int, error: bool)

  /** The commit callback of transactional `i` is one of the loop's. */
  ghost predicate Eligible(ts: seq<Transactional>, undoable: bool, i: nat) {
    i < |ts| && ts[i].commit && ts[i].rollback == undoable
  }

  /** None of the callbacks of the loop from `lo` up to `hi` reports an error. */
  ghost predicate Clear(ts: seq<Transactional>, fails: nat -> bool, undoable: bool, lo: nat, hi: nat) {
    forall j: nat :: lo <= j < hi && Eligible(ts, undoable, j) ==> !fails(j)
  }

  ghost function EndingOf(c: Case): Ending {
    if c.error || !Clear(c.s.ts, c.fails, true, 0, |c.s.ts|) then Abandoned
    else if c.s.started && c.code == -1 then Retried
    else if c.s.started && c.code != 0 then Refused
    else if !Clear(c.s.ts, c.fails, false, 0, |c.s.ts|) then Late
    else Done
  }

  /** The commit callback of `i` is run: nothing went wrong before its loop, nor in its loop above it. */
  ghost predicate Committed(c: Case, i: nat) {
    && i < |c.s.ts| && c.s.ts[i].commit && !c.error
    && (c.s.ts[i].rollback || EndingOf(c) in {Late, Done})
    && Clear(c.s.ts, c.fails, c.s.ts[i].rollback, i + 1, |c.s.ts|)
  }

  /** The cache has registered transactional `at` and no other, or none at all. */
  ghost predicate OnlyCache(ts: seq<Transactional>, at: nat) {
    forall i {:trigger ts[i]} :: 0 <= i < |ts| && ts[i].cache ==> i == at
  }

  ghost predicate IsCache(ts: seq<Transactional>, at: nat) {
    at < |ts| && ts[at].cache
  }

  /** Whether an event happens, which it does once if at all. */
  ghost predicate Happens(c: Case, at: nat, e: Event) {
    var ts, ending := c.s.ts, EndingOf(c);
    match e
    case CommitOf(i) => Committed(c, i)
    case RollbackOf(i) => ending in {Abandoned, Retried, Late} && i < |ts| && ts[i].rollback
    case FreeOf(i, willRetry) => i < |ts| && ts[i].free && willRetry == (ending == Retried)
    case Cleanup(i) => ending == Abandoned && i < c.s.cleanups
    case LockMessages => ending != Abandoned && c.s.deltas > 0
    case UnlockMessages => ending != Abandoned && c.s.deltas > 0
    case ReleaseClient => c.s.client
    case DbCommit(code) => ending != Abandoned && c.s.started && code == c.code
    case DbRollback => ending == Abandoned && c.s.started
    case Deliver(i) => ending == Done && i < c.s.deltas
    case Store(k) => IsCache(ts, at) && Committed(c, at) && k < c.s.updates
    case UnlockCache(k) => IsCache(ts, at) && ts[at].free && k < c.s.locks
  }

  function One(b: bool): nat { if b then 1 else 0 }

  ghost function Count(trace: seq<Event>, e: Event): nat {
    if trace == [] then 0 else One(trace[0] == e) + Count(trace[1..], e)
  }

  lemma {:induction false} CountConcat(a: seq<Event>, b: seq<Event>, e: Event)
    ensures Count(a + b, e) == Count(a, e) + Count(b, e)
  {
    if a == [] {
      assert a + b == b;
    } else {
      assert (a + b)[1..] == a[1..] + b;
      CountConcat(a[1..], b, e);
    }
  }

  lemma CountWhen(b: bool, x: Event, e: Event)
    ensures Count(When(b, x), e) == One(b && e == x)
  {
    assert [x][1..] == [];
  }

  // ---------------------------------------------------------------- the loops

  lemma {:induction false} CountRollbacks(ts: seq<Transactional>, n: nat, e: Event)
    requires n <= |ts|
    ensures Count(Rollbacks(ts, n), e) == One(e.RollbackOf? && e.i < n && ts[e.i].rollback)
  {
    if n > 0 {
      CountRollbacks(ts, n - 1, e);
      CountConcat(When(ts[n - 1].rollback, RollbackOf(n - 1)), Rollbacks(ts, n - 1), e);
      CountWhen(ts[n - 1].rollback, RollbackOf(n - 1), e);
    }
  }

  lemma {:induction false} CountUnlocks(n: nat, e: Event)
    ensures Count(Unlocks(n), e) == One(e.UnlockCache? && e.i < n)
  {
    if n > 0 {
      CountUnlocks(n - 1, e);
      CountConcat(Unlocks(n - 1), [UnlockCache(n - 1)], e);
      CountWhen(true, UnlockCache(n - 1), e);
    }
  }

  lemma {:induction false} CountStores(n: nat, e: Event)
    ensures Count(Stores(n), e) == One(e.Store? && e.i < n)
  {
    if n > 0 {
      CountStores(n - 1, e);
      CountConcat(Stores(n - 1), [Store(n - 1)], e);
      CountWhen(true, Store(n - 1), e);
    }
  }

  lemma {:induction false} CountDeliveries(n: nat, e: Event)
    ensures Count(Deliveries(n), e) == One(e.Deliver? && e.i < n)
  {
    if n > 0 {
      CountDeliveries(n - 1, e);
      CountConcat(Deliveries(n - 1), [Deliver(n - 1)], e);
      CountWhen(true, Deliver(n - 1), e);
    }
  }

  lemma {:induction false} CountCleanups(n: nat, e: Event)
    ensures Count(Cleanups(n), e) == One(e.Cleanup? && e.i < n)
  {
    if n > 0 {
      CountCleanups(n - 1, e);
      CountConcat(Cleanups(n - 1), [Cleanup(n - 1)], e);
      CountWhen(true, Cleanup(n - 1), e);
    }
  }

  lemma CountFreeOne(t: Transactional, i: nat, willRetry: bool, locks: nat, e: Event)
    ensures Count(FreeOne(t, i, willRetry, locks), e)
         == One(t.free && e == FreeOf(i, willRetry)) + One(t.free && t.cache && e.UnlockCache? && e.i < locks)
  {
    CountUnlocks(locks, e);
    CountWhen(true, FreeOf(i, willRetry), e);
    CountConcat([FreeOf(i, willRetry)], if t.cache then Unlocks(locks) else [], e);
  }

  ghost predicate FreedBy(ts: seq<Transactional>, n: nat, at: nat, willRetry: bool, locks: nat, e: Event)
    requires n <= |ts|
  {
    match e
    case FreeOf(i, w) => i < n && ts[i].free && w == willRetry
    case UnlockCache(k) => at < n && ts[at].cache && ts[at].free && k < locks
    case _ => false
  }

  lemma FreedTurn(ts: seq<Transactional>, n: nat, at: nat, willRetry: bool, locks: nat, e: Event)
    requires 0 < n <= |ts| && OnlyCache(ts, at)
    ensures One(FreedBy(ts, n, at, willRetry, locks, e))
         == One(FreedBy(ts, n - 1, at, willRetry, locks, e)) + One(ts[n - 1].free && e == FreeOf(n - 1, willRetry))
          + One(ts[n - 1].free && ts[n - 1].cache && e.UnlockCache? && e.i < locks)
  {
  }

  lemma {:induction false} CountFrees(ts: seq<Transactional>, n: nat, at: nat, willRetry: bool, locks: nat, e: Event)
    requires n <= |ts| && OnlyCache(ts, at)
    ensures Count(Frees(ts, n, willRetry, locks), e) == One(FreedBy(ts, n, at, willRetry, locks, e))
  {
    if n > 0 {
      CountFrees(ts, n - 1, at, willRetry, locks, e);
      CountFreeOne(ts[n - 1], n - 1, willRetry, locks, e);
      CountConcat(FreeOne(ts[n - 1], n - 1, willRetry, locks), Frees(ts, n - 1, willRetry, locks), e);
      FreedTurn(ts, n, at, willRetry, locks, e);
    }
  }

  lemma CountCommitOne(t: Transactional, i: nat, updates: nat, e: Event)
    ensures Count(CommitOne(t, i, updates), e) == One(e == CommitOf(i)) + One(t.cache && e.Store? && e.i < updates)
  {
    CountStores(updates, e);
    CountWhen(true, CommitOf(i), e);
    CountConcat([CommitOf(i)], if t.cache then Stores(updates) else [], e);
  }

  /** Which callbacks a loop gets to. */
  ghost predicate CommittedBy(ts: seq<Transactional>, n: nat, undoable: bool, fails: nat -> bool, i: nat) {
    i < n && Eligible(ts, undoable, i) && Clear(ts, fails, undoable, i + 1, n)
  }

  lemma {:induction false} CommitsOk(ts: seq<Transactional>, n: nat, undoable: bool, fails: nat -> bool, updates: nat)
    requires n <= |ts|
    ensures Commits(ts, n, undoable, fails, updates).1 <==> Clear(ts, fails, undoable, 0, n)
  {
    if n > 0 {
      CommitsOk(ts, n - 1, undoable, fails, updates);
      assert Clear(ts, fails, undoable, 0, n) <==>
             Clear(ts, fails, undoable, 0, n - 1) && !(Eligible(ts, undoable, n - 1) && fails(n - 1));
    }
  }

  lemma {:induction false} CountCommits(ts: seq<Transactional>, n: nat, undoable: bool, fails: nat -> bool,
                                        updates: nat, at: nat, e: Event)
    requires n <= |ts| && OnlyCache(ts, at)
    ensures Count(Commits(ts, n, undoable, fails, updates).0, e) ==
            One((e.CommitOf? && CommittedBy(ts, n, undoable, fails, e.i)) ||
                (e.Store? && IsCache(ts, at) && CommittedBy(ts, n, undoable, fails, at) && e.i < updates))
  {
    if n > 0 {
      var one, rest := CommitOne(ts[n - 1], n - 1, updates), Commits(ts, n - 1, undoable, fails, updates).0;
      CountCommits(ts, n - 1, undoable, fails, updates, at, e);
      CountCommitOne(ts[n - 1], n - 1, updates, e);
      CountConcat(one, rest, e);
      if e.CommitOf? {
        OneTurn(ts, n, undoable, fails, e.i);
      }
      OneTurn(ts, n, undoable, fails, at);
    }
  }

  lemma OneTurn(ts: seq<Transactional>, n: nat, undoable: bool, fails: nat -> bool, i: nat)
    requires 0 < n <= |ts|
    ensures CommittedBy(ts, n, undoable, fails, i) <==>
            (i == n - 1 && Eligible(ts, undoable, i)) ||
            (CommittedBy(ts, n - 1, undoable, fails, i) && !(Eligible(ts, undoable, n - 1) && fails(n - 1)))
  {
  }

  // ---------------------------------------------------------------- what the parts do

  ghost predicate UndoneBy(s: Pending, e: Event) {
    e.RollbackOf? && e.i < |s.ts| && s.ts[e.i].rollback
  }

  ghost predicate FreedIn(s: Pending, willRetry: bool, at: nat, e: Event) {
    FreedBy(s.ts, |s.ts|, at, willRetry, s.locks, e)
  }

  ghost predicate LetGoIn(s: Pending, e: Event) {
    (e == UnlockMessages && s.deltas > 0) || (e == ReleaseClient && s.client)
  }

  /** What a loop that commits comes to: callbacks, and the updates of the cache's. */
  ghost predicate RunBy(s: Pending, undoable: bool, fails: nat -> bool, at: nat, e: Event) {
    || (e.CommitOf? && CommittedBy(s.ts, |s.ts|, undoable, fails, e.i))
    || (e.Store? && IsCache(s.ts, at) && CommittedBy(s.ts, |s.ts|, undoable, fails, at) && e.i < s.updates)
  }

  /** `uw_rollback` does each of these once, and nothing else. */
  lemma RollbackDoes(s: Pending, willRetry: bool, at: nat, e: Event)
    requires OnlyCache(s.ts, at)
    ensures Count(RollbackTrace(s, willRetry), e)
         == One(s.client && e == ReleaseClient) + One(e.Cleanup? && e.i < s.cleanups) + One(UndoneBy(s, e))
          + One(FreedIn(s, willRetry, at, e)) + One(s.started && e == DbRollback)
  {
    var n := |s.ts|;
    var a, b, c, d, f := When(s.client, ReleaseClient), Cleanups(s.cleanups), Rollbacks(s.ts, n),
                         Frees(s.ts, n, willRetry, s.locks), When(s.started, DbRollback);
    CountWhen(s.client, ReleaseClient, e);
    CountCleanups(s.cleanups, e);
    CountRollbacks(s.ts, n, e);
    CountFrees(s.ts, n, at, willRetry, s.locks, e);
    CountWhen(s.started, DbRollback, e);
    CountConcat(d, f, e);
    CountConcat(c, d + f, e);
    CountConcat(b, c + (d + f), e);
    CountConcat(a, b + (c + (d + f)), e);
  }

  lemma CountLetting(s: Pending, e: Event)
    ensures Count(Letting(s), e) == One(LetGoIn(s, e))
  {
    CountWhen(s.deltas > 0, UnlockMessages, e);
    CountWhen(s.client, ReleaseClient, e);
    CountConcat(When(s.deltas > 0, UnlockMessages), When(s.client, ReleaseClient), e);
  }

  /** Letting go, rolling back or not, and freeing. */
  lemma CountUndoing(s: Pending, undo: bool, willRetry: bool, at: nat, e: Event)
    requires OnlyCache(s.ts, at)
    ensures Count(Letting(s) + ((if undo then Rollbacks(s.ts, |s.ts|) else [])
                                + Frees(s.ts, |s.ts|, willRetry, s.locks)), e)
         == One(LetGoIn(s, e)) + One(undo && UndoneBy(s, e)) + One(FreedIn(s, willRetry, at, e))
  {
    var undone, freed := if undo then Rollbacks(s.ts, |s.ts|) else [], Frees(s.ts, |s.ts|, willRetry, s.locks);
    CountLetting(s, e);
    CountRollbacks(s.ts, |s.ts|, e);
    CountFrees(s.ts, |s.ts|, at, willRetry, s.locks, e);
    CountConcat(undone, freed, e);
    CountConcat(Letting(s), undone + freed, e);
  }

  /** Delivering, letting go and freeing. */
  lemma CountDelivering(s: Pending, at: nat, e: Event)
    requires OnlyCache(s.ts, at)
    ensures Count(Deliveries(s.deltas) + (Letting(s) + Frees(s.ts, |s.ts|, false, s.locks)), e)
         == One(e.Deliver? && e.i < s.deltas) + One(LetGoIn(s, e)) + One(FreedIn(s, false, at, e))
  {
    var told, freed := Deliveries(s.deltas), Frees(s.ts, |s.ts|, false, s.locks);
    CountDeliveries(s.deltas, e);
    CountLetting(s, e);
    CountFrees(s.ts, |s.ts|, at, false, s.locks, e);
    CountConcat(Letting(s), freed, e);
    CountConcat(told, Letting(s) + freed, e);
  }

  lemma CountRefused(s: Pending, code: int, at: nat, e: Event)
    requires OnlyCache(s.ts, at)
    ensures Count(RefusedTrace(s, code), e)
         == One(LetGoIn(s, e)) + One(code == -1 && UndoneBy(s, e)) + One(FreedIn(s, code == -1, at, e))
  {
    CountUndoing(s, code == -1, code == -1, at, e);
  }

  lemma CountPublish(s: Pending, fails: nat -> bool, at: nat, e: Event)
    requires OnlyCache(s.ts, at)
    ensures var ok := Clear(s.ts, fails, false, 0, |s.ts|);
            Count(PublishTrace(s, fails), e) == One(RunBy(s, false, fails, at, e))
              + One(ok && e.Deliver? && e.i < s.deltas) + One(LetGoIn(s, e))
              + One(!ok && UndoneBy(s, e)) + One(FreedIn(s, false, at, e))
  {
    var (final, ok) := Commits(s.ts, |s.ts|, false, fails, s.updates);
    var rest := if ok then Deliveries(s.deltas) + (Letting(s) + Frees(s.ts, |s.ts|, false, s.locks))
                else Letting(s) + (Rollbacks(s.ts, |s.ts|) + Frees(s.ts, |s.ts|, false, s.locks));
    CommitsOk(s.ts, |s.ts|, false, fails, s.updates);
    CountCommits(s.ts, |s.ts|, false, fails, s.updates, at, e);
    if ok {
      CountDelivering(s, at, e);
    } else {
      CountUndoing(s, true, false, at, e);
    }
    CountConcat(final, rest, e);
  }

  lemma CountAsk(s: Pending, fails: nat -> bool, code: int, at: nat, e: Event)
    requires OnlyCache(s.ts, at)
    ensures Count(AskTrace(s, fails, code), e)
         == One(s.deltas > 0 && e == LockMessages) + One(s.started && e == DbCommit(code))
          + Count(if s.started && code != 0 then RefusedTrace(s, code) else PublishTrace(s, fails), e)
  {
    var lock, asked := When(s.deltas > 0, LockMessages), When(s.started, DbCommit(code));
    var rest := if s.started && code != 0 then RefusedTrace(s, code) else PublishTrace(s, fails);
    CountWhen(s.deltas > 0, LockMessages, e);
    CountWhen(s.started, DbCommit(code), e);
    CountConcat(asked, rest, e);
    CountConcat(lock, asked + rest, e);
  }

  // ---------------------------------------------------------------- every event

  ghost function Trace(c: Case): seq<Event> {
    CommitTrace(c.s, c.fails, c.code, c.error)
  }

  /** At the end of a transaction each event happens once or not at all, as its ending says: callbacks are
      undone, each that can be, exactly if the transaction is given up, run again, or failed late; cleanups
      are run exactly if it is given up; messages are delivered exactly if all goes well; and so on for
      every kind of event. */
  lemma EachEvent(c: Case, at: nat, e: Event)
    requires OnlyCache(c.s.ts, at)
    ensures Count(Trace(c), e) == One(Happens(c, at, e))
  {
    var s, n := c.s, |c.s.ts|;
    CommitsOk(s.ts, n, true, c.fails, s.updates);
    if EndingOf(c) == Abandoned {
      RollbackDoes(s, false, at, e);
      HappensAbandoned(c, at, e);
    } else {
      EventAsked(c, at, e);
    }
    if !c.error {
      var (undoable, ok) := Commits(s.ts, n, true, c.fails, s.updates);
      CountCommits(s.ts, n, true, c.fails, s.updates, at, e);
      CountConcat(undoable, if ok then AskTrace(s, c.fails, c.code) else RollbackTrace(s, false), e);
    }
  }

  lemma HappensAbandoned(c: Case, at: nat, e: Event)
    requires OnlyCache(c.s.ts, at) && EndingOf(c) == Abandoned
    ensures One(Happens(c, at, e)) == One(!c.error && RunBy(c.s, true, c.fails, at, e))
      + One(c.s.client && e == ReleaseClient) + One(e.Cleanup? && e.i < c.s.cleanups) + One(UndoneBy(c.s, e))
      + One(FreedIn(c.s, false, at, e)) + One(c.s.started && e == DbRollback)
  {
  }

  lemma EventAsked(c: Case, at: nat, e: Event)
    requires OnlyCache(c.s.ts, at) && EndingOf(c) != Abandoned
    ensures One(RunBy(c.s, true, c.fails, at, e)) + Count(AskTrace(c.s, c.fails, c.code), e) == One(Happens(c, at, e))
  {
    CountAsk(c.s, c.fails, c.code, at, e);
    if c.s.started && c.code != 0 {
      CountRefused(c.s, c.code, at, e);
      HappensRefused(c, at, e);
    } else {
      CountPublish(c.s, c.fails, at, e);
      HappensPublished(c, at, e);
    }
  }

  lemma HappensRefused(c: Case, at: nat, e: Event)
    requires OnlyCache(c.s.ts, at) && EndingOf(c) in {Retried, Refused}
    ensures One(Happens(c, at, e)) == One(RunBy(c.s, true, c.fails, at, e))
      + One(c.s.deltas > 0 && e == LockMessages) + One(c.s.started && e == DbCommit(c.code))
      + One(LetGoIn(c.s, e)) + One(c.code == -1 && UndoneBy(c.s, e)) + One(FreedIn(c.s, c.code == -1, at, e))
  {
  }

  lemma HappensPublished(c: Case, at: nat, e: Event)
    requires OnlyCache(c.s.ts, at) && EndingOf(c) in {Late, Done}
    ensures One(Happens(c, at, e)) == One(RunBy(c.s, true, c.fails, at, e))
      + One(c.s.deltas > 0 && e == LockMessages) + One(c.s.started && e == DbCommit(c.code))
      + One(RunBy(c.s, false, c.fails, at, e)) + One(EndingOf(c) == Done && e.Deliver? && e.i < c.s.deltas)
      + One(LetGoIn(c.s, e)) + One(EndingOf(c) == Late && UndoneBy(c.s, e)) + One(FreedIn(c.s, false, at, e))
  {
  }

  /** Another run is asked for in one ending, and three are errors. */
  lemma EndingTells(c: Case)
    ensures Asks(c.s, c.fails, c.error) && c.s.started && c.code == -1 <==> EndingOf(c) == Retried
    ensures !Asks(c.s, c.fails, c.error) || AskFails(c.s, c.fails, c.code) <==>
            EndingOf(c) in {Abandoned, Refused, Late}
  {
    CommitsOk(c.s.ts, |c.s.ts|, true, c.fails, c.s.updates);
    CommitsOk(c.s.ts, |c.s.ts|, false, c.fails, c.s.updates);
  }

  // ---------------------------------------------------------------- the order of events

  datatype Place = Place(phase: int, major: int, minor: int)

  /** The phase of an event, and its place in the loop of the phase.  Callbacks are called from the last
      transactional to the first, cleanups and messages from the first to the last; what the cache's
      callbacks do comes between the call and the next one. */
  ghost function PlaceOf(ts: seq<Transactional>, at: nat, e: Event): Place {
    match e
    case CommitOf(i) => Place(if i < |ts| && ts[i].rollback then 0 else 3, 0 - i, 0)
    case Store(k) => Place(if IsCache(ts, at) && ts[at].rollback then 0 else 3, 0 - at, k + 1)
    case LockMessages => Place(1, 0, 0)
    case DbCommit(_) => Place(2, 0, 0)
    case Deliver(i) => Place(4, i, 0)
    case UnlockMessages => Place(5, 0, 0)
    case ReleaseClient => Place(6, 0, 0)
    case Cleanup(i) => Place(7, i, 0)
    case RollbackOf(i) => Place(8, 0 - i, 0)
    case FreeOf(i, _) => Place(9, 0 - i, 0)
    case UnlockCache(k) => Place(9, 0 - at, k + 1)
    case DbRollback => Place(10, 0, 0)
  }

  predicate Before(p: Place, q: Place) {
    p.phase < q.phase || (p.phase == q.phase && (p.major < q.major || (p.major == q.major && p.minor < q.minor)))
  }

  ghost predicate Earlier(ts: seq<Transactional>, at: nat, e: Event, f: Event) {
    Before(PlaceOf(ts, at, e), PlaceOf(ts, at, f))
  }

  ghost predicate InSequence(ts: seq<Transactional>, at: nat, trace: seq<Event>) {
    forall i, j :: 0 <= i < j < |trace| ==> Earlier(ts, at, trace[i], trace[j])
  }

  lemma Joined(ts: seq<Transactional>, at: nat, a: seq<Event>, b: seq<Event>)
    requires InSequence(ts, at, a) && InSequence(ts, at, b)
    requires forall x, y :: x in a && y in b ==> Earlier(ts, at, x, y)
    ensures InSequence(ts, at, a + b)
  {
  }

  /** All of these happen in the phases from `lo` to `hi`. */
  ghost predicate Phases(ts: seq<Transactional>, at: nat, trace: seq<Event>, lo: int, hi: int) {
    forall e :: e in trace ==> lo <= PlaceOf(ts, at, e).phase <= hi
  }

  /** Phases from `lo` to `hi`, in sequence. */
  ghost predicate Span(ts: seq<Transactional>, at: nat, trace: seq<Event>, lo: int, hi: int) {
    InSequence(ts, at, trace) && Phases(ts, at, trace, lo, hi)
  }

  lemma Spans(ts: seq<Transactional>, at: nat, a: seq<Event>, b: seq<Event>, lo: int, mid: int, next: int, hi: int)
    requires Span(ts, at, a, lo, mid) && Span(ts, at, b, next, hi) && lo <= mid < next <= hi
    ensures Span(ts, at, a + b, lo, hi)
  {
    forall x, y | x in a && y in b ensures Earlier(ts, at, x, y) {
    }
    Joined(ts, at, a, b);
  }

  lemma Wider(ts: seq<Transactional>, at: nat, a: seq<Event>, lo: int, hi: int, lo': int, hi': int)
    requires Span(ts, at, a, lo, hi) && lo' <= lo && hi <= hi'
    ensures Span(ts, at, a, lo', hi')
  {
  }

  lemma SpanWhen(ts: seq<Transactional>, at: nat, b: bool, e: Event)
    ensures Span(ts, at, When(b, e), PlaceOf(ts, at, e).phase, PlaceOf(ts, at, e).phase)
  {
  }

  // ---------------------------------------------------------------- the order in the loops

  lemma {:induction false} RollbacksSpan(ts: seq<Transactional>, at: nat, n: nat)
    requires n <= |ts|
    ensures Span(ts, at, Rollbacks(ts, n), 8, 8)
    ensures forall e :: e in Rollbacks(ts, n) ==> e.RollbackOf? && e.i < n
  {
    if n > 0 {
      RollbacksSpan(ts, at, n - 1);
      Joined(ts, at, When(ts[n - 1].rollback, RollbackOf(n - 1)), Rollbacks(ts, n - 1));
    }
  }

  lemma {:induction false} DeliveriesSpan(ts: seq<Transactional>, at: nat, n: nat)
    ensures Span(ts, at, Deliveries(n), 4, 4)
    ensures forall e :: e in Deliveries(n) ==> e.Deliver? && e.i < n
  {
    if n > 0 {
      DeliveriesSpan(ts, at, n - 1);
      Joined(ts, at, Deliveries(n - 1), [Deliver(n - 1)]);
    }
  }

  lemma {:induction false} CleanupsSpan(ts: seq<Transactional>, at: nat, n: nat)
    ensures Span(ts, at, Cleanups(n), 7, 7)
    ensures forall e :: e in Cleanups(n) ==> e.Cleanup? && e.i < n
  {
    if n > 0 {
      CleanupsSpan(ts, at, n - 1);
      Joined(ts, at, Cleanups(n - 1), [Cleanup(n - 1)]);
    }
  }

  lemma {:induction false} UnlocksSequence(ts: seq<Transactional>, at: nat, n: nat)
    ensures InSequence(ts, at, Unlocks(n))
    ensures forall e :: e in Unlocks(n) ==> e.UnlockCache? && e.i < n
  {
    if n > 0 {
      UnlocksSequence(ts, at, n - 1);
      Joined(ts, at, Unlocks(n - 1), [UnlockCache(n - 1)]);
    }
  }

  lemma {:induction false} StoresSequence(ts: seq<Transactional>, at: nat, n: nat)
    ensures InSequence(ts, at, Stores(n))
    ensures forall e :: e in Stores(n) ==> e.Store? && e.i < n
  {
    if n > 0 {
      StoresSequence(ts, at, n - 1);
      Joined(ts, at, Stores(n - 1), [Store(n - 1)]);
    }
  }

  /** The events of one transactional in a phase. */
  ghost predicate Turn(ts: seq<Transactional>, at: nat, trace: seq<Event>, phase: int, n: nat) {
    InSequence(ts, at, trace) &&
    forall e :: e in trace ==> PlaceOf(ts, at, e).phase == phase && PlaceOf(ts, at, e).major == 0 - n
  }

  /** The events of the transactionals before the n-th. */
  ghost predicate Turns(ts: seq<Transactional>, at: nat, trace: seq<Event>, phase: int, n: nat) {
    InSequence(ts, at, trace) &&
    forall e :: e in trace ==> PlaceOf(ts, at, e).phase == phase && PlaceOf(ts, at, e).major > 0 - n
  }

  lemma OneMoreTurn(ts: seq<Transactional>, at: nat, one: seq<Event>, rest: seq<Event>, phase: int, n: nat)
    requires Turn(ts, at, one, phase, n) && Turns(ts, at, rest, phase, n)
    ensures Turns(ts, at, one + rest, phase, n + 1)
  {
    forall x, y | x in one && y in rest ensures Earlier(ts, at, x, y) {
    }
    Joined(ts, at, one, rest);
  }

  lemma FreeTurn(ts: seq<Transactional>, at: nat, i: nat, willRetry: bool, locks: nat)
    requires OnlyCache(ts, at) && i < |ts|
    ensures Turn(ts, at, FreeOne(ts[i], i, willRetry, locks), 9, i)
  {
    UnlocksSequence(ts, at, locks);
    if ts[i].free && ts[i].cache {
      Joined(ts, at, [FreeOf(i, willRetry)], Unlocks(locks));
    }
  }

  lemma {:induction false} FreesTurns(ts: seq<Transactional>, at: nat, n: nat, willRetry: bool, locks: nat)
    requires OnlyCache(ts, at) && n <= |ts|
    ensures Turns(ts, at, Frees(ts, n, willRetry, locks), 9, n)
  {
    if n > 0 {
      var one, rest := FreeOne(ts[n - 1], n - 1, willRetry, locks), Frees(ts, n - 1, willRetry, locks);
      assert Turns(ts, at, one + rest, 9, n) by {
        FreesTurns(ts, at, n - 1, willRetry, locks);
        FreeTurn(ts, at, n - 1, willRetry, locks);
        OneMoreTurn(ts, at, one, rest, 9, n - 1);
      }
    }
  }

  function CommitPhase(undoable: bool): int { if undoable then 0 else 3 }

  lemma CommitTurn(ts: seq<Transactional>, at: nat, i: nat, undoable: bool, updates: nat)
    requires OnlyCache(ts, at) && Eligible(ts, undoable, i)
    ensures Turn(ts, at, CommitOne(ts[i], i, updates), CommitPhase(undoable), i)
  {
    StoresSequence(ts, at, updates);
    if ts[i].cache {
      Joined(ts, at, [CommitOf(i)], Stores(updates));
    }
  }

  lemma MoreTurns(ts: seq<Transactional>, at: nat, trace: seq<Event>, phase: int, n: nat)
    requires Turns(ts, at, trace, phase, n)
    ensures Turns(ts, at, trace, phase, n + 1)
  {
  }

  lemma {:induction false} CommitsTurns(ts: seq<Transactional>, at: nat, n: nat, undoable: bool, fails: nat -> bool,
                                        updates: nat)
    requires OnlyCache(ts, at) && n <= |ts|
    ensures Turns(ts, at, Commits(ts, n, undoable, fails, updates).0, CommitPhase(undoable), n)
  {
    if n > 0 {
      var rest := Commits(ts, n - 1, undoable, fails, updates).0;
      CommitsTurns(ts, at, n - 1, undoable, fails, updates);
      if Eligible(ts, undoable, n - 1) {
        var one := CommitOne(ts[n - 1], n - 1, updates);
        CommitTurn(ts, at, n - 1, undoable, updates);
        OneMoreTurn(ts, at, one, rest, CommitPhase(undoable), n - 1);
        OneMoreTurn(ts, at, one, [], CommitPhase(undoable), n - 1);
        assert one + [] == one;
      } else {
        MoreTurns(ts, at, rest, CommitPhase(undoable), n - 1);
      }
    }
  }

  // ---------------------------------------------------------------- the order of the whole

  lemma RollbackSpan(s: Pending, at: nat, willRetry: bool)
    requires OnlyCache(s.ts, at)
    ensures Span(s.ts, at, RollbackTrace(s, willRetry), 6, 10)
  {
    var ts, n := s.ts, |s.ts|;
    var freed, undone := Frees(ts, n, willRetry, s.locks), Rollbacks(ts, n);
    SpanWhen(ts, at, s.client, ReleaseClient);
    CleanupsSpan(ts, at, s.cleanups);
    RollbacksSpan(ts, at, n);
    FreesTurns(ts, at, n, willRetry, s.locks);
    SpanWhen(ts, at, s.started, DbRollback);
    Spans(ts, at, freed, When(s.started, DbRollback), 9, 9, 10, 10);
    Spans(ts, at, undone, freed + When(s.started, DbRollback), 8, 8, 9, 10);
    Spans(ts, at, Cleanups(s.cleanups), undone + (freed + When(s.started, DbRollback)), 7, 7, 8, 10);
    Spans(ts, at, When(s.client, ReleaseClient),
          Cleanups(s.cleanups) + (undone + (freed + When(s.started, DbRollback))), 6, 6, 7, 10);
  }

  lemma LettingSpan(s: Pending, at: nat)
    ensures Span(s.ts, at, Letting(s), 5, 6)
  {
    SpanWhen(s.ts, at, s.deltas > 0, UnlockMessages);
    SpanWhen(s.ts, at, s.client, ReleaseClient);
    Spans(s.ts, at, When(s.deltas > 0, UnlockMessages), When(s.client, ReleaseClient), 5, 5, 6, 6);
  }

  lemma UndoingSpan(s: Pending, at: nat, undo: bool, willRetry: bool)
    requires OnlyCache(s.ts, at)
    ensures Span(s.ts, at, Letting(s) + ((if undo then Rollbacks(s.ts, |s.ts|) else [])
                                         + Frees(s.ts, |s.ts|, willRetry, s.locks)), 5, 9)
  {
    var undone, freed := if undo then Rollbacks(s.ts, |s.ts|) else [], Frees(s.ts, |s.ts|, willRetry, s.locks);
    LettingSpan(s, at);
    RollbacksSpan(s.ts, at, |s.ts|);
    FreesTurns(s.ts, at, |s.ts|, willRetry, s.locks);
    Spans(s.ts, at, undone, freed, 8, 8, 9, 9);
    Spans(s.ts, at, Letting(s), undone + freed, 5, 6, 8, 9);
  }

  lemma PublishSpan(s: Pending, at: nat, fails: nat -> bool)
    requires OnlyCache(s.ts, at)
    ensures Span(s.ts, at, PublishTrace(s, fails), 3, 9)
  {
    var (final, ok) := Commits(s.ts, |s.ts|, false, fails, s.updates);
    var told, freed := Deliveries(s.deltas), Frees(s.ts, |s.ts|, false, s.locks);
    CommitsTurns(s.ts, at, |s.ts|, false, fails, s.updates);
    if ok {
      DeliveriesSpan(s.ts, at, s.deltas);
      LettingSpan(s, at);
      FreesTurns(s.ts, at, |s.ts|, false, s.locks);
      Spans(s.ts, at, Letting(s), freed, 5, 6, 9, 9);
      Spans(s.ts, at, told, Letting(s) + freed, 4, 4, 5, 9);
      Spans(s.ts, at, final, told + (Letting(s) + freed), 3, 3, 4, 9);
    } else {
      UndoingSpan(s, at, true, false);
      Spans(s.ts, at, final, Letting(s) + (Rollbacks(s.ts, |s.ts|) + freed), 3, 3, 5, 9);
    }
  }

  lemma AskSpan(s: Pending, at: nat, fails: nat -> bool, code: int)
    requires OnlyCache(s.ts, at)
    ensures Span(s.ts, at, AskTrace(s, fails, code), 1, 9)
  {
    var lock, asked := When(s.deltas > 0, LockMessages), When(s.started, DbCommit(code));
    var rest := if s.started && code != 0 then RefusedTrace(s, code) else PublishTrace(s, fails);
    UndoingSpan(s, at, code == -1, code == -1);
    PublishSpan(s, at, fails);
    if s.started && code != 0 {
      Wider(s.ts, at, rest, 5, 9, 3, 9);
    }
    SpanWhen(s.ts, at, s.deltas > 0, LockMessages);
    SpanWhen(s.ts, at, s.started, DbCommit(code));
    Spans(s.ts, at, asked, rest, 2, 2, 3, 9);
    Spans(s.ts, at, lock, asked + rest, 1, 1, 2, 9);
  }

  /** And the events come in the order of their places: callbacks that can be undone, the lock, the
      database, the other callbacks, messages, the releases, cleanups, undoing, freeing, and the
      rollback of the database. */
  lemma EventsInSequence(c: Case, at: nat)
    requires OnlyCache(c.s.ts, at)
    ensures InSequence(c.s.ts, at, Trace(c))
  {
    var s := c.s;
    RollbackSpan(s, at, false);
    if !c.error {
      var (undoable, ok) := Commits(s.ts, |s.ts|, true, c.fails, s.updates);
      CommitsTurns(s.ts, at, |s.ts|, true, c.fails, s.updates);
      if ok {
        AskSpan(s, at, c.fails, c.code);
        Spans(s.ts, at, undoable, AskTrace(s, c.fails, c.code), 0, 0, 1, 9);
      } else {
        Spans(s.ts, at, undoable, RollbackTrace(s, false), 0, 0, 6, 10);
      }
    }
  }

  /** A transactional of the cache is the only one while transactionals are registered as they are. */
  lemma {:induction false} CacheIsOne(ts: seq<Transactional>, n: nat) returns (at: nat)
    requires n <= |ts| && CacheCount(ts, n) <= 1
    ensures forall i {:trigger ts[i]} :: 0 <= i < n && ts[i].cache ==> i == at
    ensures CacheCount(ts, n) == 1 ==> at < n && ts[at].cache
  {
    at := 0;
    if n > 0 {
      at := CacheIsOne(ts, n - 1);
      if ts[n - 1].cache {
        at := n - 1;
        NoCache(ts, n - 1);
      }
    }
  }

  lemma {:induction false} NoCache(ts: seq<Transactional>, n: nat)
    requires n <= |ts| && CacheCount(ts, n) == 0
    ensures forall i {:trigger ts[i]} :: 0 <= i < n ==> !ts[i].cache
  {
    if n > 0 {
      NoCache(ts, n - 1);
    }
  }

  lemma RegisteredOne(s: Pending) returns (at: nat)
    requires Registering(s)
    ensures OnlyCache(s.ts, at) && (CacheCount(s.ts, |s.ts|) == 1 ==> IsCache(s.ts, at))
  {
    at := CacheIsOne(s.ts, |s.ts|);
  }
}
