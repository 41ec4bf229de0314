/** The end of a transaction: what is run, released and published, whatever goes wrong. */
module Commit {

  datatype Option<T> = None | Some(value: T)

  /** Callbacks of a transactional; `cache` is the one that the query cache registers. */
  datatype Transactional = Transactional(commit: bool, rollback: bool, free: bool, cache: bool)

  datatype Event =
    | CommitOf(i: nat)
    | RollbackOf(i: nat)
    | FreeOf(i: nat, willRetry: bool)
    | Cleanup(i: nat)
    | LockMessages
    | UnlockMessages
    | ReleaseClient
    | DbCommit(code: int)
    | DbRollback
    | Deliver(i: nat)
    | Store(i: nat)        // a cache update
    | UnlockCache(i: nat)  // a lock of a cache

  // ---------------------------------------------------------------- the loops

  /** The counting-down loop that rolls back. */
  ghost function Rollbacks(ts: seq<Transactional>, n: nat): seq<Event>
    requires n <= |ts|
  {
    if n == 0 then [] else (if ts[n - 1].rollback then [RollbackOf(n - 1)] else []) + Rollbacks(ts, n - 1)
  }

  ghost function Unlocks(n: nat): seq<Event> {
    if n == 0 then [] else Unlocks(n - 1) + [UnlockCache(n - 1)]
  }

  ghost function Stores(n: nat): seq<Event> {
    if n == 0 then [] else Stores(n - 1) + [Store(n - 1)]
  }

  /** Freeing one: the cache's lets go of its locks. */
  ghost function FreeOne(t: Transactional, i: nat, willRetry: bool, locks: nat): seq<Event> {
    if !t.free then [] else [FreeOf(i, willRetry)] + if t.cache then Unlocks(locks) else []
  }

  ghost function Frees(ts: seq<Transactional>, n: nat, willRetry: bool, locks: nat): seq<Event>
    requires n <= |ts|
  {
    if n == 0 then [] else FreeOne(ts[n - 1], n - 1, willRetry, locks) + Frees(ts, n - 1, willRetry, locks)
  }

  /** Committing one: the cache's makes its updates. */
  ghost function CommitOne(t: Transactional, i: nat, updates: nat): seq<Event> {
    [CommitOf(i)] + if t.cache then Stores(updates) else []
  }

  /** The counting-down loop that commits those that can be rolled back, or those that cannot, up to an error. */
  ghost function Commits(ts: seq<Transactional>, n: nat, undoable: bool, fails: nat -> bool, updates: nat)
    : (seq<Event>, bool)
    requires n <= |ts|
  {
    if n == 0 then ([], true)
    else
      var t := ts[n - 1];
      if t.rollback != undoable || !t.commit then Commits(ts, n - 1, undoable, fails, updates)
      else if fails(n - 1) then (CommitOne(t, n - 1, updates), false)
      else
        var (rest, ok) := Commits(ts, n - 1, undoable, fails, updates);
        (CommitOne(t, n - 1, updates) + rest, ok)
  }

  ghost function Deliveries(n: nat): seq<Event> {
    if n == 0 then [] else Deliveries(n - 1) + [Deliver(n - 1)]
  }

  ghost function Cleanups(n: nat): seq<Event> {
    if n == 0 then [] else Cleanups(n - 1) + [Cleanup(n - 1)]
  }

  function When(b: bool, e: Event): seq<Event> {
    if b then [e] else []
  }

  // ---------------------------------------------------------------- the context

  /** `fails(i)` says whether the commit callback of transactional `i` reports an error, `code` is what the
      database says to a commit. */
  class Context {
    const fails: nat -> bool
    const code: int
    var transactionals: seq<Transactional>
    var deltas: nat
    var cleanups: nat
    var client: bool
    var started: bool
    var error: bool
    var updates: nat
    var locks: nat
    var trace: seq<Event>

    method RollbackAll()
      modifies this`trace
      ensures trace == old(trace) + Rollbacks(transactionals, |transactionals|)
    {
      var i := |transactionals|;
      while i > 0
        invariant 0 <= i <= |transactionals|
        invariant trace + Rollbacks(transactionals, i) == old(trace) + Rollbacks(transactionals, |transactionals|)
      {
        i := i - 1;
        Associate(trace, When(transactionals[i].rollback, RollbackOf(i)), Rollbacks(transactionals, i));
        trace := trace + When(transactionals[i].rollback, RollbackOf(i));
      }
      assert trace + [] == trace;
    }

    /** The callbacks that free; `uw_Sqlcache_free` unlocks every lock on its list. */
    method FreeAll(willRetry: bool)
      modifies this`trace
      ensures trace == old(trace) + Frees(transactionals, |transactionals|, willRetry, locks)
    {
      var i := |transactionals|;
      while i > 0
        invariant 0 <= i <= |transactionals|
        invariant trace + Frees(transactionals, i, willRetry, locks) ==
          old(trace) + Frees(transactionals, |transactionals|, willRetry, locks)
      {
        i := i - 1;
        Associate(trace, FreeOne(transactionals[i], i, willRetry, locks), Frees(transactionals, i, willRetry, locks));
        Free(i, willRetry);
      }
      assert trace + [] == trace;
    }

    method Free(i: nat, willRetry: bool)
      requires i < |transactionals|
      modifies this`trace
      ensures trace == old(trace) + FreeOne(transactionals[i], i, willRetry, locks)
    {
      if transactionals[i].free {
        trace := trace + [FreeOf(i, willRetry)];
        if transactionals[i].cache {
          var k := 0;
          while k < locks
            invariant k <= locks && trace == old(trace) + [FreeOf(i, willRetry)] + Unlocks(k)
          {
            trace := trace + [UnlockCache(k)];
            k := k + 1;
          }
          Associate(old(trace), [FreeOf(i, willRetry)], Unlocks(locks));
        }
      }
    }

    method RunCommit(i: nat)
      requires i < |transactionals|
      modifies this`trace, this`error
      ensures trace == old(trace) + CommitOne(transactionals[i], i, updates)
      ensures error == (old(error) || fails(i))
    {
      trace := trace + [CommitOf(i)];
      if transactionals[i].cache {
        var k := 0;
        while k < updates
          invariant k <= updates && trace == old(trace) + [CommitOf(i)] + Stores(k)
          modifies this`trace
        {
          trace := trace + [Store(k)];
          k := k + 1;
        }
        Associate(old(trace), [CommitOf(i)], Stores(updates));
      }
      error := error || fails(i);
    }

    /** A loop that commits; whether there was no error. */
    method CommitAll(undoable: bool) returns (ok: bool)
      requires !error
      modifies this`trace, this`error
      ensures
        var (events, good) := Commits(transactionals, |transactionals|, undoable, fails, updates);
        trace == old(trace) + events && ok == good == !error
    {
      var i := |transactionals|;
      while i > 0
        invariant 0 <= i <= |transactionals| && !error
        invariant
          var (rest, good) := Commits(transactionals, i, undoable, fails, updates);
          var (all, good0) := Commits(transactionals, |transactionals|, undoable, fails, updates);
          trace + rest == old(trace) + all && good == good0
      {
        i := i - 1;
        if transactionals[i].rollback == undoable && transactionals[i].commit {
          Associate(trace, CommitOne(transactionals[i], i, updates),
            Commits(transactionals, i, undoable, fails, updates).0);
          RunCommit(i);
          if error {
            return false;
          }
        }
      }
      assert trace + [] == trace;
      ok := true;
    }

    method RunCleanups()
      modifies this`trace, this`cleanups
      ensures trace == old(trace) + Cleanups(old(cleanups)) && cleanups == 0
    {
      var k := 0;
      while k < cleanups
        invariant k <= cleanups && trace == old(trace) + Cleanups(k)
        modifies this`trace
      {
        trace := trace + [Cleanup(k)];
        k := k + 1;
      }
      cleanups := 0;
    }

    /** `uw_rollback` */
    method Rollback(willRetry: bool)
      modifies this`trace, this`started, this`cleanups
      ensures trace == old(trace) + RollbackTrace(old(View()), willRetry)
      ensures !started && cleanups == 0
    {
      ghost var s, n := View(), |transactionals|;
      ghost var before := trace;
      trace := trace + When(client, ReleaseClient);
      RunCleanups();
      RollbackAll();
      FreeAll(willRetry);
      trace := trace + When(started, DbRollback);
      started := false;
      Nest(before, When(s.client, ReleaseClient), Cleanups(s.cleanups), Rollbacks(s.ts, n),
        Frees(s.ts, n, willRetry, s.locks),
           When(s.started, DbRollback));
    }

    ghost function View(): Pending
      reads this
    {
      Pending(transactionals, deltas, cleanups, client, started, updates, locks)
    }

    method DeliverAll()
      modifies this`trace
      ensures trace == old(trace) + Deliveries(deltas)
    {
      var k := 0;
      while k < deltas
        invariant k <= deltas && trace == old(trace) + Deliveries(k)
      {
        trace := trace + [Deliver(k)];
        k := k + 1;
      }
    }

    /** `uw_register_transactional`, which has no more than `max` places. */
    method Register(t: Transactional, max: nat) returns (ok: bool)
      modifies this`transactionals
      ensures ok == (|old(transactionals)| < max)
      ensures transactionals == if ok then old(transactionals) + [t] else old(transactionals)
    {
      ok := |transactionals| < max;
      if ok {
        transactionals := transactionals + [t];
      }
    }

    /** `uw_Sqlcache_pushUnlock`, after a lock has been taken. When there is no place for the transactional of the
        first lock, nothing will ever let go of it, nor of those taken after it. */
    method PushUnlock(max: nat)
      requires Registering(View())
      modifies this`transactionals, this`locks
      ensures Registering(View()) && locks == old(locks) + 1
      ensures WellRegistered(View()) <==>
        if old(locks) > 0 then old(WellRegistered(View())) else |old(transactionals)| < max
      ensures if WellRegistered(View()) then AllUnlocked(View()) else NoneUnlocked(View())
    {
      if locks == 0 {
        ghost var before, t := transactionals, Transactional(true, false, true, true);
        var ok := Register(Transactional(true, false, true, true), max);
        if ok {
          CacheCountSame(before, t, |before|);
        }
      }
      locks := locks + 1;
      UnlockedExactly(View());
    }

    /** `uw_commit`; 1 asks for the transaction to be run again. */
    method Commit() returns (r: int)
      modifies this`trace, this`started, this`cleanups, this`error
      ensures r == if Asks(old(View()), fails, old(error)) && old(started) && code == -1 then 1 else 0
      ensures trace == old(trace) + CommitTrace(old(View()), fails, code, old(error))
      ensures error <==> !Asks(old(View()), fails, old(error)) || AskFails(old(View()), fails, code)
    {
      ghost var s, before := View(), trace;
      if error {
        Rollback(false);
        return 0;
      }
      var ok := CommitAll(true);
      ghost var undoable := Commits(s.ts, |s.ts|, true, fails, s.updates).0;
      if !ok {
        Rollback(false);
        Associate(before, undoable, RollbackTrace(s, false));
        return 0;
      }
      r := Ask();
      Associate(before, undoable, AskTrace(s, fails, code));
    }

    /** The lock on messages, and the database. */
    method Ask() returns (r: int)
      requires !error
      modifies this`trace, this`error
      ensures r == if old(started) && code == -1 then 1 else 0
      ensures trace == old(trace) + AskTrace(old(View()), fails, code)
      ensures error <==> AskFails(old(View()), fails, code)
    {
      ghost var s, before := View(), trace;
      trace := trace + When(deltas > 0, LockMessages);
      trace := trace + When(started, DbCommit(code));
      ghost var asked := trace;
      if started && code != 0 {
        LetGo();
        ghost var n := |transactionals|;
        if code == -1 {
          RollbackAll();
          FreeAll(true);
          Nest3(asked, Letting(s), Rollbacks(s.ts, n), Frees(s.ts, n, true, s.locks));
          r := 1;
        } else {
          FreeAll(false);
          error := true;
          Nest3(asked, Letting(s), [], Frees(s.ts, n, false, s.locks));
          r := 0;
        }
        Nest3(before, When(s.deltas > 0, LockMessages), When(s.started, DbCommit(code)), RefusedTrace(s, code));
      } else {
        Publish();
        Nest3(before, When(s.deltas > 0, LockMessages), When(s.started, DbCommit(code)), PublishTrace(s, fails));
        r := 0;
      }
    }

    method LetGo()
      modifies this`trace
      ensures trace == old(trace) + Letting(View())
    {
      Associate(trace, When(deltas > 0, UnlockMessages), When(client, ReleaseClient));
      trace := trace + When(deltas > 0, UnlockMessages);
      trace := trace + When(client, ReleaseClient);
    }

    /** The callbacks that cannot be undone, and the messages. */
    method Publish()
      requires !error
      modifies this`trace, this`error
      ensures trace == old(trace) + PublishTrace(old(View()), fails)
      ensures error <==> !Commits(old(View()).ts, |old(View()).ts|, false, fails, old(View()).updates).1
    {
      ghost var s, n, before := View(), |transactionals|, trace;
      var ok := CommitAll(false);
      ghost var final, done := Commits(s.ts, n, false, fails, s.updates).0, trace;
      if !ok {
        LetGo();
        RollbackAll();
        FreeAll(false);
        Nest3(done, Letting(s), Rollbacks(s.ts, n), Frees(s.ts, n, false, s.locks));
        Associate(before, final, Letting(s) + (Rollbacks(s.ts, n) + Frees(s.ts, n, false, s.locks)));
      } else {
        DeliverAll();
        LetGo();
        FreeAll(false);
        Nest3(done, Deliveries(s.deltas), Letting(s), Frees(s.ts, n, false, s.locks));
        Associate(before, final, Deliveries(s.deltas) + (Letting(s) + Frees(s.ts, n, false, s.locks)));
      }
    }
  }

  /** What the end of a transaction depends on. */
  datatype Pending = Pending(ts: seq<Transactional>, deltas: nat, cleanups: nat, client: bool, started: bool,
    updates: nat, locks: nat)

  ghost function RollbackTrace(s: Pending, willRetry: bool): seq<Event> {
    When(s.client, ReleaseClient)
    + (Cleanups(s.cleanups) +
      (Rollbacks(s.ts, |s.ts|) + (Frees(s.ts, |s.ts|, willRetry, s.locks) + When(s.started, DbRollback))))
  }

  ghost function Letting(s: Pending): seq<Event> {
    When(s.deltas > 0, UnlockMessages) + When(s.client, ReleaseClient)
  }

  ghost function CommitTrace(s: Pending, fails: nat -> bool, code: int, error: bool): seq<Event> {
    if error then RollbackTrace(s, false)
    else
      var (undoable, ok) := Commits(s.ts, |s.ts|, true, fails, s.updates);
      undoable + if ok then AskTrace(s, fails, code) else RollbackTrace(s, false)
  }

  ghost function AskTrace(s: Pending, fails: nat -> bool, code: int): seq<Event> {
    When(s.deltas > 0, LockMessages)
    + (When(s.started, DbCommit(code))
       + if s.started && code != 0 then RefusedTrace(s, code) else PublishTrace(s, fails))
  }

  /** The database's refusal is an error unless it asks for another run; a callback that fails is one too. */
  ghost predicate AskFails(s: Pending, fails: nat -> bool, code: int) {
    if s.started && code != 0 then code != -1 else !Commits(s.ts, |s.ts|, false, fails, s.updates).1
  }

  ghost function RefusedTrace(s: Pending, code: int): seq<Event> {
    Letting(s) + ((if code == -1 then Rollbacks(s.ts, |s.ts|) else []) + Frees(s.ts, |s.ts|, code == -1, s.locks))
  }

  ghost function PublishTrace(s: Pending, fails: nat -> bool): seq<Event> {
    var (final, ok) := Commits(s.ts, |s.ts|, false, fails, s.updates);
    final + if ok then Deliveries(s.deltas) + (Letting(s) + Frees(s.ts, |s.ts|, false, s.locks))
            else Letting(s) + (Rollbacks(s.ts, |s.ts|) + Frees(s.ts, |s.ts|, false, s.locks))
  }

  lemma Associate(a: seq<Event>, b: seq<Event>, c: seq<Event>)
    ensures a + b + c == a + (b + c)
  {
  }

  lemma Nest3(t: seq<Event>, a: seq<Event>, b: seq<Event>, c: seq<Event>)
    ensures t + a + b + c == t + (a + (b + c))
    ensures b == [] ==> t + a + c == t + (a + (b + c))
  {
  }

  lemma Nest(t: seq<Event>, a: seq<Event>, b: seq<Event>, c: seq<Event>, d: seq<Event>, e: seq<Event>)
    ensures t + a + b + c + d + e == t + (a + (b + (c + (d + e))))
  {
  }

  // ---------------------------------------------------------------- registration

  /** A transactional of the cache commits and frees, and cannot be undone; there is at most one, and none when
      the cache holds no locks. */
  ghost predicate Registering(s: Pending) {
    && (forall i {:trigger s.ts[i]} ::
      0 <= i < |s.ts| && s.ts[i].cache ==> s.ts[i].commit && !s.ts[i].rollback && s.ts[i].free)
    && CacheCount(s.ts, |s.ts|) <= 1 && (s.locks == 0 ==> CacheCount(s.ts, |s.ts|) == 0)
  }

  /** And there is one when it holds locks. */
  ghost predicate WellRegistered(s: Pending) {
    Registering(s) && (s.locks > 0 ==> CacheCount(s.ts, |s.ts|) == 1)
  }

  ghost function CacheCount(ts: seq<Transactional>, n: nat): nat
    requires n <= |ts|
  {
    if n == 0 then 0 else CacheCount(ts, n - 1) + if ts[n - 1].cache then 1 else 0
  }

  lemma {:induction false} CacheCountSame(ts: seq<Transactional>, t: Transactional, n: nat)
    requires n <= |ts|
    ensures CacheCount(ts + [t], n) == CacheCount(ts, n)
  {
    if n > 0 {
      CacheCountSame(ts, t, n - 1);
    }
  }

  // ---------------------------------------------------------------- each thing once

  ghost function Tally(trace: seq<Event>, p: Event -> bool): nat {
    if trace == [] then 0 else (if p(trace[0]) then 1 else 0) + Tally(trace[1..], p)
  }

  lemma {:induction false} TallyConcat(a: seq<Event>, b: seq<Event>, p: Event -> bool)
    ensures Tally(a + b, p) == Tally(a, p) + Tally(b, p)
  {
    if a == [] {
      assert a + b == b;
    } else {
      assert (a + b)[1..] == a[1..] + b;
      TallyConcat(a[1..], b, p);
    }
  }

  /** Events of other kinds do not count. */
  lemma {:induction false} TallyNone(trace: seq<Event>, p: Event -> bool)
    requires forall e :: e in trace ==> !p(e)
    ensures Tally(trace, p) == 0
  {
    if trace != [] {
      assert trace[0] in trace;
      TallyNone(trace[1..], p);
    }
  }

  lemma TallyWhen(b: bool, e: Event, p: Event -> bool)
    ensures Tally(When(b, e), p) == if b && p(e) then 1 else 0
  {
    assert [e][1..] == [];
  }

  lemma {:induction false} RollbackEvents(ts: seq<Transactional>, n: nat)
    requires n <= |ts|
    ensures forall e :: e in Rollbacks(ts, n) ==> e.RollbackOf?
  {
    if n > 0 {
      RollbackEvents(ts, n - 1);
    }
  }

  lemma {:induction false} CommitEvents(ts: seq<Transactional>, n: nat, undoable: bool, fails: nat -> bool,
                                        updates: nat)
    requires n <= |ts|
    ensures forall e :: e in Commits(ts, n, undoable, fails, updates).0 ==> e.CommitOf? || e.Store?
  {
    if n > 0 {
      StoreEvents(updates);
      CommitEvents(ts, n - 1, undoable, fails, updates);
    }
  }

  lemma {:induction false} StoreEvents(n: nat)
    ensures forall e :: e in Stores(n) ==> e.Store?
  {
    if n > 0 {
      StoreEvents(n - 1);
    }
  }

  lemma {:induction false} CleanupEvents(n: nat)
    ensures forall e :: e in Cleanups(n) ==> e.Cleanup?
  {
    if n > 0 {
      CleanupEvents(n - 1);
    }
  }

  lemma {:induction false} DeliverEvents(n: nat)
    ensures forall e :: e in Deliveries(n) ==> e.Deliver?
  {
    if n > 0 {
      DeliverEvents(n - 1);
    }
  }

  lemma {:induction false} UnlockTally(n: nat, k: nat, p: Event -> bool)
    requires forall e :: p(e) <==> e == UnlockCache(k)
    ensures Tally(Unlocks(n), p) == if k < n then 1 else 0
  {
    if n > 0 {
      UnlockTally(n - 1, k, p);
      TallyConcat(Unlocks(n - 1), [UnlockCache(n - 1)], p);
      TallyWhen(true, UnlockCache(n - 1), p);
    }
  }

  lemma {:induction false} UnlockEvents(n: nat)
    ensures forall e :: e in Unlocks(n) ==> e.UnlockCache?
  {
    if n > 0 {
      UnlockEvents(n - 1);
    }
  }

  lemma {:induction false} FreeEvents(ts: seq<Transactional>, n: nat, willRetry: bool, locks: nat)
    requires n <= |ts|
    ensures forall e :: e in Frees(ts, n, willRetry, locks) ==> e.FreeOf? || e.UnlockCache?
  {
    if n > 0 {
      UnlockEvents(locks);
      FreeEvents(ts, n - 1, willRetry, locks);
    }
  }

  predicate Frees1(e: Event, i: nat) {
    e.FreeOf? && e.i == i
  }

  lemma FreeOneTally(t: Transactional, n: nat, willRetry: bool, locks: nat, i: nat, p: Event -> bool)
    requires forall e :: p(e) <==> Frees1(e, i)
    ensures Tally(FreeOne(t, n, willRetry, locks), p) == if n == i && t.free then 1 else 0
  {
    if t.free {
      UnlockEvents(locks);
      TallyNone(Unlocks(locks), p);
      TallyWhen(true, FreeOf(n, willRetry), p);
      TallyConcat([FreeOf(n, willRetry)], if t.cache then Unlocks(locks) else [], p);
    }
  }

  /** The loop that frees does so once for each that wants it. */
  lemma {:induction false} FreesOnce(ts: seq<Transactional>, n: nat, willRetry: bool, locks: nat, i: nat,
                                     p: Event -> bool)
    requires n <= |ts| && forall e :: p(e) <==> Frees1(e, i)
    ensures Tally(Frees(ts, n, willRetry, locks), p) == if i < n && ts[i].free then 1 else 0
  {
    if n > 0 {
      FreesOnce(ts, n - 1, willRetry, locks, i, p);
      FreeOneTally(ts[n - 1], n - 1, willRetry, locks, i, p);
      TallyConcat(FreeOne(ts[n - 1], n - 1, willRetry, locks), Frees(ts, n - 1, willRetry, locks), p);
    }
  }

  /** And each lock of the cache is let go of once for each transactional of the cache. */
  lemma {:induction false} UnlocksOnce(ts: seq<Transactional>, n: nat, willRetry: bool, locks: nat, k: nat,
                                       p: Event -> bool)
    requires n <= |ts| && k < locks && forall e :: p(e) <==> e == UnlockCache(k)
    requires forall i {:trigger ts[i]} :: 0 <= i < |ts| && ts[i].cache ==> ts[i].free
    ensures Tally(Frees(ts, n, willRetry, locks), p) == CacheCount(ts, n)
  {
    if n > 0 {
      var one, t := FreeOne(ts[n - 1], n - 1, willRetry, locks), ts[n - 1];
      UnlocksOnce(ts, n - 1, willRetry, locks, k, p);
      TallyConcat(one, Frees(ts, n - 1, willRetry, locks), p);
      if t.free {
        UnlockTally(locks, k, p);
        TallyWhen(true, FreeOf(n - 1, willRetry), p);
        TallyConcat([FreeOf(n - 1, willRetry)], if t.cache then Unlocks(locks) else [], p);
      }
    }
  }

  // ---------------------------------------------------------------- on every path

  /** A kind of event that only the last loop and the releases have: of frees, unlocks and releases. */
  ghost predicate Closing(p: Event -> bool) {
    forall e :: p(e) ==> e.FreeOf? || e.UnlockCache? || e.ReleaseClient? || e.UnlockMessages? || e.LockMessages?
  }

  lemma TallyRollback(s: Pending, willRetry: bool, p: Event -> bool)
    requires Closing(p)
    ensures Tally(RollbackTrace(s, willRetry), p) ==
            (if s.client && p(ReleaseClient) then 1 else 0) + Tally(Frees(s.ts, |s.ts|, willRetry, s.locks), p)
  {
    var a, b, c, d, e := When(s.client, ReleaseClient), Cleanups(s.cleanups), Rollbacks(s.ts, |s.ts|),
                         Frees(s.ts, |s.ts|, willRetry, s.locks), When(s.started, DbRollback);
    CleanupEvents(s.cleanups);
    RollbackEvents(s.ts, |s.ts|);
    TallyNone(b, p);
    TallyNone(c, p);
    TallyWhen(s.client, ReleaseClient, p);
    TallyWhen(s.started, DbRollback, p);
    TallyConcat(d, e, p);
    TallyConcat(c, d + e, p);
    TallyConcat(b, c + (d + e), p);
    TallyConcat(a, b + (c + (d + e)), p);
  }

  lemma TallyLetting(s: Pending, p: Event -> bool)
    ensures Tally(Letting(s), p) ==
      (if s.deltas > 0 && p(UnlockMessages) then 1 else 0) + (if s.client && p(ReleaseClient) then 1 else 0)
  {
    TallyWhen(s.deltas > 0, UnlockMessages, p);
    TallyWhen(s.client, ReleaseClient, p);
    TallyConcat(When(s.deltas > 0, UnlockMessages), When(s.client, ReleaseClient), p);
  }

  lemma TallyRefused(s: Pending, code: int, p: Event -> bool)
    requires Closing(p)
    ensures Tally(RefusedTrace(s, code), p) == Tally(Letting(s), p) + Tally(Frees(s.ts, |s.ts|, code == -1, s.locks), p)
  {
    var undone, freed := if code == -1 then Rollbacks(s.ts, |s.ts|) else [], Frees(s.ts, |s.ts|, code == -1, s.locks);
    RollbackEvents(s.ts, |s.ts|);
    TallyNone(undone, p);
    TallyConcat(undone, freed, p);
    TallyConcat(Letting(s), undone + freed, p);
  }

  lemma TallyPublish(s: Pending, fails: nat -> bool, p: Event -> bool)
    requires Closing(p)
    ensures Tally(PublishTrace(s, fails), p) == Tally(Letting(s), p) + Tally(Frees(s.ts, |s.ts|, false, s.locks), p)
  {
    var (final, ok) := Commits(s.ts, |s.ts|, false, fails, s.updates);
    var freed, undone, told, let := Frees(s.ts, |s.ts|, false, s.locks), Rollbacks(s.ts, |s.ts|), Deliveries(s.deltas),
      Letting(s);
    CommitEvents(s.ts, |s.ts|, false, fails, s.updates);
    RollbackEvents(s.ts, |s.ts|);
    DeliverEvents(s.deltas);
    TallyNone(final, p);
    TallyNone(undone, p);
    TallyNone(told, p);
    TallyConcat(let, freed, p);
    TallyConcat(told, let + freed, p);
    TallyConcat(undone, freed, p);
    TallyConcat(let, undone + freed, p);
    TallyConcat(final, told + (let + freed), p);
    TallyConcat(final, let + (undone + freed), p);
  }

  /** Whether the database is asked at all. */
  ghost predicate Asks(s: Pending, fails: nat -> bool, error: bool) {
    !error && Commits(s.ts, |s.ts|, true, fails, s.updates).1
  }

  /** The one loop that frees. */
  ghost function LastFrees(s: Pending, fails: nat -> bool, code: int, error: bool): seq<Event> {
    Frees(s.ts, |s.ts|, Asks(s, fails, error) && s.started && code == -1, s.locks)
  }

  /** How often things of these kinds happen, whatever happens. */
  lemma TallyCommit(s: Pending, fails: nat -> bool, code: int, error: bool, p: Event -> bool)
    requires Closing(p)
    ensures
      var locked := Asks(s, fails, error) && s.deltas > 0;
      Tally(CommitTrace(s, fails, code, error), p) ==
        (if locked && p(LockMessages) then 1 else 0) + (if locked && p(UnlockMessages) then 1 else 0)
        + (if s.client && p(ReleaseClient) then 1 else 0) + Tally(LastFrees(s, fails, code, error), p)
  {
    var (undoable, ok) := Commits(s.ts, |s.ts|, true, fails, s.updates);
    CommitEvents(s.ts, |s.ts|, true, fails, s.updates);
    TallyNone(undoable, p);
    TallyRollback(s, false, p);
    if error || !ok {
      TallyConcat(undoable, RollbackTrace(s, false), p);
    } else {
      var lock, asked := When(s.deltas > 0, LockMessages), When(s.started, DbCommit(code));
      var rest := if s.started && code != 0 then RefusedTrace(s, code) else PublishTrace(s, fails);
      TallyRefused(s, code, p);
      TallyPublish(s, fails, p);
      TallyLetting(s, p);
      TallyWhen(s.deltas > 0, LockMessages, p);
      TallyWhen(s.started, DbCommit(code), p);
      TallyConcat(asked, rest, p);
      TallyConcat(lock, asked + rest, p);
      TallyConcat(undoable, lock + (asked + rest), p);
    }
  }

  lemma FreedOnce(s: Pending, fails: nat -> bool, code: int, error: bool, i: nat)
    requires i < |s.ts|
    ensures Tally(CommitTrace(s, fails, code, error), e => Frees1(e, i)) == if s.ts[i].free then 1 else 0
  {
    var p := e => Frees1(e, i);
    TallyCommit(s, fails, code, error, p);
    FreesOnce(s.ts, |s.ts|, Asks(s, fails, error) && s.started && code == -1, s.locks, i, p);
  }

  /** How often the end of a transaction lets go of lock `k` of the cache. */
  ghost function TimesUnlocked(s: Pending, fails: nat -> bool, code: int, error: bool, k: nat): nat {
    Tally(CommitTrace(s, fails, code, error), e => e == UnlockCache(k))
  }

  /** On every path, once for each transactional of the cache that frees. */
  lemma UnlockedForEach(s: Pending, fails: nat -> bool, code: int, error: bool, k: nat)
    requires k < s.locks && forall i {:trigger s.ts[i]} :: 0 <= i < |s.ts| && s.ts[i].cache ==> s.ts[i].free
    ensures TimesUnlocked(s, fails, code, error, k) == CacheCount(s.ts, |s.ts|)
  {
    var p := e => e == UnlockCache(k);
    TallyCommit(s, fails, code, error, p);
    UnlocksOnce(s.ts, |s.ts|, Asks(s, fails, error) && s.started && code == -1, s.locks, k, p);
  }

  /** Whatever happens, every lock of the cache is let go of once. */
  ghost predicate AllUnlocked(s: Pending) {
    forall fails: nat -> bool, code: int, error: bool, k: nat ::
      k < s.locks ==> TimesUnlocked(s, fails, code, error, k) == 1
  }

  /** Whatever happens, no lock of the cache is let go of. */
  ghost predicate NoneUnlocked(s: Pending) {
    forall fails: nat -> bool, code: int, error: bool, k: nat ::
      k < s.locks ==> TimesUnlocked(s, fails, code, error, k) == 0
  }

  lemma UnlockedExactly(s: Pending)
    requires Registering(s)
    ensures if WellRegistered(s) then AllUnlocked(s) else s.locks > 0 && NoneUnlocked(s)
  {
    forall fails: nat -> bool, code: int, error: bool, k: nat | k < s.locks
      ensures TimesUnlocked(s, fails, code, error, k) == CacheCount(s.ts, |s.ts|)
    {
      UnlockedForEach(s, fails, code, error, k);
    }
  }

  lemma LetGoOnce(s: Pending, fails: nat -> bool, code: int, error: bool, p: Event -> bool, event: Event)
    requires event == ReleaseClient || event == LockMessages || event == UnlockMessages
    requires forall e :: p(e) <==> e == event
    ensures Tally(CommitTrace(s, fails, code, error), p) ==
            if (if event == ReleaseClient then s.client else Asks(s, fails, error) && s.deltas > 0) then 1 else 0
  {
    TallyCommit(s, fails, code, error, p);
    FreeEvents(s.ts, |s.ts|, Asks(s, fails, error) && s.started && code == -1, s.locks);
    TallyNone(LastFrees(s, fails, code, error), p);
  }

  /** Each transactional is freed once, the client is released once, each lock of the cache is let go of once,
      and the lock on messages is let go of exactly when it was taken. */
  lemma EachOnce(s: Pending, fails: nat -> bool, code: int, error: bool)
    requires WellRegistered(s)
    ensures
      var t := CommitTrace(s, fails, code, error);
      && (forall i: nat :: i < |s.ts| ==> Tally(t, e => Frees1(e, i)) == if s.ts[i].free then 1 else 0)
      && (forall k: nat :: k < s.locks ==> TimesUnlocked(s, fails, code, error, k) == 1)
      && Tally(t, e => e == ReleaseClient) == (if s.client then 1 else 0)
      && Tally(t, e => e == LockMessages) == Tally(t, e => e == UnlockMessages) <= 1
  {
    var t := CommitTrace(s, fails, code, error);
    forall i: nat | i < |s.ts| ensures Tally(t, e => Frees1(e, i)) == if s.ts[i].free then 1 else 0 {
      FreedOnce(s, fails, code, error, i);
    }
    forall k: nat | k < s.locks ensures TimesUnlocked(s, fails, code, error, k) == 1 {
      UnlockedForEach(s, fails, code, error, k);
    }
    LetGoOnce(s, fails, code, error, e => e == ReleaseClient, ReleaseClient);
    LetGoOnce(s, fails, code, error, e => e == LockMessages, LockMessages);
    LetGoOnce(s, fails, code, error, e => e == UnlockMessages, UnlockMessages);
  }

  // ---------------------------------------------------------------- in the right order

  /** Whether the lock on messages is held, and whether the transaction is past recall: committed by the
      database, or never begun there. */
  datatype Stage = Stage(held: bool, past: bool)

  /** What an event does to the stage; nothing where it may not happen there. */
  ghost function Next(e: Event, st: Stage, ts: seq<Transactional>): Option<Stage> {
    match e
    case LockMessages => if st.held then None else Some(st.(held := true))
    case UnlockMessages => if st.held then Some(st.(held := false)) else None
    case DbCommit(code) => if st.past then None else Some(st.(past := code == 0))
    case Deliver(_) => if st.held && st.past then Some(st) else None
    case Store(_) => if st.past then Some(st) else None
    case CommitOf(i) => if i < |ts| && (ts[i].rollback || st.past) then Some(st) else None
    case _ => Some(st)
  }

  ghost function Stages(trace: seq<Event>, st: Stage, ts: seq<Transactional>): Option<Stage> {
    if trace == [] then Some(st)
    else
      match Next(trace[0], st, ts)
      case None => None
      case Some(st1) => Stages(trace[1..], st1, ts)
  }

  lemma {:induction false} StagesConcat(a: seq<Event>, b: seq<Event>, st: Stage, ts: seq<Transactional>)
    requires Stages(a, st, ts).Some?
    ensures Stages(a + b, st, ts) == Stages(b, Stages(a, st, ts).value, ts)
  {
    if a == [] {
      assert a + b == b;
    } else {
      assert (a + b)[1..] == a[1..] + b;
      StagesConcat(a[1..], b, Next(a[0], st, ts).value, ts);
    }
  }

  /** Events that may happen in a stage, and leave it. */
  lemma {:induction false} StagesSame(trace: seq<Event>, st: Stage, ts: seq<Transactional>)
    requires forall e :: e in trace ==> Next(e, st, ts) == Some(st)
    ensures Stages(trace, st, ts) == Some(st)
  {
    if trace != [] {
      assert trace[0] in trace;
      StagesSame(trace[1..], st, ts);
    }
  }

  lemma StagesWhen(b: bool, e: Event, st: Stage, ts: seq<Transactional>)
    ensures Stages(When(b, e), st, ts) == if b then Next(e, st, ts) else Some(st)
  {
    assert [e][1..] == [];
  }

  /** The callbacks that are run while the transaction may still fail can be undone. */
  lemma {:induction false} CommitStages(s: Pending, n: nat, undoable: bool, fails: nat -> bool, st: Stage)
    requires WellRegistered(s) && n <= |s.ts| && (undoable || st.past)
    ensures Stages(Commits(s.ts, n, undoable, fails, s.updates).0, st, s.ts) == Some(st)
  {
    if n > 0 {
      CommitStages(s, n - 1, undoable, fails, st);
      var t, one, rest := s.ts[n - 1], CommitOne(s.ts[n - 1], n - 1, s.updates),
        Commits(s.ts, n - 1, undoable, fails, s.updates).0;
      if t.rollback == undoable && t.commit {
        StoreEvents(s.updates);
        StagesSame(one, st, s.ts);
        StagesConcat(one, rest, st, s.ts);
      }
    }
  }

  lemma QuietStages(s: Pending, willRetry: bool, st: Stage)
    ensures Stages(RollbackTrace(s, willRetry), st, s.ts) == Some(st)
    ensures Stages(Rollbacks(s.ts, |s.ts|) + Frees(s.ts, |s.ts|, willRetry, s.locks), st, s.ts) == Some(st)
    ensures Stages(Frees(s.ts, |s.ts|, willRetry, s.locks), st, s.ts) == Some(st)
  {
    CleanupEvents(s.cleanups);
    RollbackEvents(s.ts, |s.ts|);
    FreeEvents(s.ts, |s.ts|, willRetry, s.locks);
    StagesSame(RollbackTrace(s, willRetry), st, s.ts);
    StagesSame(Rollbacks(s.ts, |s.ts|) + Frees(s.ts, |s.ts|, willRetry, s.locks), st, s.ts);
    StagesSame(Frees(s.ts, |s.ts|, willRetry, s.locks), st, s.ts);
  }

  lemma LettingStages(s: Pending, st: Stage)
    requires st.held == (s.deltas > 0)
    ensures Stages(Letting(s), st, s.ts) == Some(st.(held := false))
  {
    StagesWhen(s.deltas > 0, UnlockMessages, st, s.ts);
    StagesWhen(s.client, ReleaseClient, st.(held := false), s.ts);
    StagesConcat(When(s.deltas > 0, UnlockMessages), When(s.client, ReleaseClient), st, s.ts);
  }

  lemma PublishStages(s: Pending, fails: nat -> bool, st: Stage)
    requires WellRegistered(s) && st.past && st.held == (s.deltas > 0)
    ensures Stages(PublishTrace(s, fails), st, s.ts) == Some(st.(held := false))
  {
    var (final, ok) := Commits(s.ts, |s.ts|, false, fails, s.updates);
    var freed, undone, told := Frees(s.ts, |s.ts|, false, s.locks), Rollbacks(s.ts, |s.ts|), Deliveries(s.deltas);
    CommitStages(s, |s.ts|, false, fails, st);
    QuietStages(s, false, st.(held := false));
    LettingStages(s, st);
    DeliverEvents(s.deltas);
    StagesSame(told, st, s.ts);
    StagesConcat(Letting(s), freed, st, s.ts);
    StagesConcat(told, Letting(s) + freed, st, s.ts);
    StagesConcat(Letting(s), undone + freed, st, s.ts);
    StagesConcat(final, if ok then told + (Letting(s) + freed) else Letting(s) + (undone + freed), st, s.ts);
  }

  /** Messages are delivered only under their lock, and messages, cache updates and callbacks that cannot be undone
      only when the database has committed or had no part in it; and the lock is not held at the end. */
  lemma InOrder(s: Pending, fails: nat -> bool, code: int, error: bool)
    requires WellRegistered(s)
    ensures
      var end := Stages(CommitTrace(s, fails, code, error), Stage(false, !s.started), s.ts);
      end.Some? && !end.value.held
  {
    var st := Stage(false, !s.started);
    var (undoable, ok) := Commits(s.ts, |s.ts|, true, fails, s.updates);
    CommitStages(s, |s.ts|, true, fails, st);
    QuietStages(s, false, st);
    if !error {
      StagesConcat(undoable, if ok then AskTrace(s, fails, code) else RollbackTrace(s, false), st, s.ts);
      if ok {
        AskStages(s, fails, code, st);
      }
    }
  }

  lemma AskStages(s: Pending, fails: nat -> bool, code: int, st: Stage)
    requires WellRegistered(s) && st == Stage(false, !s.started)
    ensures var end := Stages(AskTrace(s, fails, code), st, s.ts); end.Some? && !end.value.held
  {
    var lock, asked := When(s.deltas > 0, LockMessages), When(s.started, DbCommit(code));
    var st1 := Stage(s.deltas > 0, !s.started);
    var st2 := Stage(s.deltas > 0, !s.started || code == 0);
    var rest := if s.started && code != 0 then RefusedTrace(s, code) else PublishTrace(s, fails);
    StagesWhen(s.deltas > 0, LockMessages, st, s.ts);
    StagesWhen(s.started, DbCommit(code), st1, s.ts);
    StagesConcat(lock, asked + rest, st, s.ts);
    StagesConcat(asked, rest, st1, s.ts);
    if s.started && code != 0 {
      var undone, freed := if code == -1 then Rollbacks(s.ts, |s.ts|) else [], Frees(s.ts, |s.ts|, code == -1, s.locks);
      LettingStages(s, st2);
      QuietStages(s, code == -1, st2.(held := false));
      StagesConcat(Letting(s), undone + freed, st2, s.ts);
      assert [] + freed == freed;
    } else {
      PublishStages(s, fails, st2);
    }
  }
}
