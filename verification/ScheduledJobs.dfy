/** The timeout job under its expiring Redis lock: any number of workers, a clock, and an unconditional delete on release. */
module ScheduledJobs {
  import opened Common

  datatype TxRow = TxRow(status: Status, pendingTimeoutAt: Option<int>)

  /** A key set with PX. The owner is bookkeeping of the model: Redis stores the same value for everyone. None: the worker that
      set it has crashed and left it to expire. */
  datatype Lock = Lock(owner: Option<nat>, expiresAt: int)

  datatype Stage =
    | Fetching
    | Sweeping
    | Holding(tx: nat)
    | Written(tx: nat, saveOk: bool)
    | Leaving

  /** A worker inside the job: when it took the lock, the transactions still to do, and the next step. */
  datatype Worker = Worker(acquiredAt: int, todo: seq<nat>, stage: Stage)

  datatype State = State(now: int, jobLock: Option<Lock>, txLocks: map<nat, Lock>, workers: map<nat, Worker>, rows: seq<TxRow>)

  datatype Config = Config(lockTtlMs: int, pendingTimeoutMinutes: int)

  datatype Event =
    | Tick(ms: nat)
    | Acquire(w: nat)
    | Fetch(w: nat, ok: bool)
    | TryTx(w: nat)
    | SaveTx(w: nat, ok: bool)
    | DeleteTxLock(w: nat)
    | Release(w: nat)
    | Crash(w: nat)
    | OtherWrite(tx: nat, row: TxRow)

  // ---------------------------------------------------------------- one step

  /** SET NX PX answers OK exactly when the key is absent or past its expiry. */
  predicate Free(lock: Option<Lock>, now: int) {
    lock.None? || lock.value.expiresAt <= now
  }

  function LockOf(s: State, tx: nat): Option<Lock> {
    if tx in s.txLocks then Some(s.txLocks[tx]) else None
  }

  /** Ids of the rows the query returns: PENDING with a timeout before the cutoff. */
  function TimedOut(rows: seq<TxRow>, cutoff: int): seq<nat> {
    if rows == [] then [] else
      var id := |rows| - 1;
      TimedOut(rows[..id], cutoff)
      + (if rows[id].status == Pending && rows[id].pendingTimeoutAt.Some? && rows[id].pendingTimeoutAt.value < cutoff
         then [id] else [])
  }

  predicate AtStage(s: State, w: nat, stage: Stage) {
    w in s.workers && s.workers[w].stage == stage
  }

  function Move(s: State, w: nat, stage: Stage): State
    requires w in s.workers
  {
    s.(workers := s.workers[w := s.workers[w].(stage := stage)])
  }

  /** A lock of w after w has crashed; any other lock is as it was. */
  function Orphan(lock: Lock, w: nat): Lock {
    if lock.owner == Some(w) then lock.(owner := None) else lock
  }

  predicate CanRelease(s: State, w: nat) {
    AtStage(s, w, Leaving) || (AtStage(s, w, Sweeping) && s.workers[w].todo == [])
  }

  predicate CanTry(s: State, w: nat) {
    AtStage(s, w, Sweeping) && s.workers[w].todo != []
  }

  /** One step of one worker, of the clock, or of another writer; an event that is not enabled changes nothing. */
  function Step(c: Config, s: State, e: Event): State {
    match e
    case Tick(ms) => s.(now := s.now + ms)
    case Acquire(w) =>
      if w in s.workers || !Free(s.jobLock, s.now) then s
      else s.(jobLock := Some(Lock(Some(w), s.now + c.lockTtlMs)), workers := s.workers[w := Worker(s.now, [], Fetching)])
    case Fetch(w, ok) =>
      if !AtStage(s, w, Fetching) then s
      else if !ok then Move(s, w, Leaving)
      else s.(workers := s.workers[w := Worker(s.workers[w].acquiredAt,
                                               TimedOut(s.rows, s.now - c.pendingTimeoutMinutes * 60 * 1000), Sweeping)])
    case TryTx(w) =>
      if !CanTry(s, w) then s else
        var k := s.workers[w];
        var tx := k.todo[0];
        if Free(LockOf(s, tx), s.now)
        then Move(s, w, Holding(tx)).(txLocks := s.txLocks[tx := Lock(Some(w), s.now + c.lockTtlMs)])
        else s.(workers := s.workers[w := k.(todo := k.todo[1..])])
    case SaveTx(w, ok) =>
      if !(w in s.workers && s.workers[w].stage.Holding?) then s else
        var tx := s.workers[w].stage.tx;
        var s' := Move(s, w, Written(tx, ok));
        if ok && tx < |s.rows| then s'.(rows := s.rows[tx := s.rows[tx].(status := Failed)]) else s'
    case DeleteTxLock(w) =>
      if !(w in s.workers && s.workers[w].stage.Written?) then s else
        var k := s.workers[w];
        var k' := k.(todo := if k.todo == [] then [] else k.todo[1..], stage := if k.stage.saveOk then Sweeping else Leaving);
        s.(txLocks := s.txLocks - {k.stage.tx}, workers := s.workers[w := k'])
    case Release(w) =>
      if !CanRelease(s, w) then s else s.(jobLock := None, workers := s.workers - {w})
    case Crash(w) =>
      if w !in s.workers then s else
        s.(jobLock := if s.jobLock.Some? then Some(Orphan(s.jobLock.value, w)) else None,
           txLocks := map tx | tx in s.txLocks :: Orphan(s.txLocks[tx], w),
           workers := s.workers - {w})
    case OtherWrite(tx, row) =>
      if tx < |s.rows| then s.(rows := s.rows[tx := row]) else s.(rows := s.rows + [row])
  }

  function Run(c: Config, s: State, events: seq<Event>): State {
    if events == [] then s else Step(c, Run(c, s, events[..|events| - 1]), events[|events| - 1])
  }

  function Start(now: int, rows: seq<TxRow>): State {
    State(now, None, map[], map[], rows)
  }

  // ---------------------------------------------------------------- mutual exclusion

  /** Every worker inside the job has been there for less than the lock's time to live. */
  ghost predicate Timely(c: Config, s: State) {
    forall w :: w in s.workers ==> s.now - s.workers[w].acquiredAt < c.lockTtlMs
  }

  ghost predicate AlwaysTimely(c: Config, s: State, events: seq<Event>) {
    forall n :: 0 <= n <= |events| ==> Timely(c, Run(c, s, events[..n]))
  }

  /** The transaction whose lock a worker holds, if any. */
  function Held(k: Worker): Option<nat> {
    match k.stage
    case Holding(tx) => Some(tx)
    case Written(tx, _) => Some(tx)
    case _ => None
  }

  /** The job lock is that of the one worker inside, or was left by a crash; a transaction lock is held by that worker or was left
      by a crash; and no lock lasts longer than its time to live from now. */
  ghost predicate Inv(c: Config, s: State) {
    (forall w :: w in s.workers ==> s.jobLock == Some(Lock(Some(w), s.workers[w].acquiredAt + c.lockTtlMs)))
    && (s.workers == map[] ==> s.jobLock.None? || s.jobLock.value.owner.None?)
    && (forall tx :: tx in s.txLocks && s.txLocks[tx].owner.Some? ==>
          s.txLocks[tx].owner.value in s.workers && Held(s.workers[s.txLocks[tx].owner.value]) == Some(tx))
    && (forall w :: w in s.workers && Held(s.workers[w]).Some? ==>
          Held(s.workers[w]).value in s.txLocks && s.txLocks[Held(s.workers[w]).value].owner == Some(w))
    && (s.jobLock.Some? ==> s.jobLock.value.expiresAt <= s.now + c.lockTtlMs)
    && (forall tx :: tx in s.txLocks ==> s.txLocks[tx].expiresAt <= s.now + c.lockTtlMs)
  }

  /** Under the invariant at most one worker is inside. */
  lemma OneWorker(c: Config, s: State, w1: nat, w2: nat)
    requires Inv(c, s) && w1 in s.workers && w2 in s.workers
    ensures w1 == w2
  {
    assert s.jobLock == Some(Lock(Some(w1), s.workers[w1].acquiredAt + c.lockTtlMs));
    assert s.jobLock == Some(Lock(Some(w2), s.workers[w2].acquiredAt + c.lockTtlMs));
  }

  lemma LockIsHeld(c: Config, s: State, v: nat)
    requires Inv(c, s) && Timely(c, s)
    ensures v in s.workers ==> !Free(s.jobLock, s.now)
  {
  }

  /** A lock whose holder is on time cannot be taken. */
  lemma AcquireOnlyWhenEmpty(c: Config, s: State, w: nat)
    requires Inv(c, s) && Timely(c, s) && Step(c, s, Acquire(w)) != s
    ensures s.workers == map[] && forall tx :: tx in s.txLocks ==> s.txLocks[tx].owner.None?
  {
    forall v ensures v !in s.workers {
      LockIsHeld(c, s, v);
    }
  }

  lemma AcquireKeepsInv(c: Config, s: State, w: nat)
    requires Inv(c, s) && Timely(c, s)
    ensures Inv(c, Step(c, s, Acquire(w)))
  {
    if Step(c, s, Acquire(w)) != s { AcquireOnlyWhenEmpty(c, s, w); }
  }

  /** In a state with the invariant, a step of a worker inside is a step of the only worker, and every lock it did not set was left
      by a crash. */
  lemma AloneInside(c: Config, s: State, w: nat)
    requires Inv(c, s) && w in s.workers
    ensures s.workers == map[w := s.workers[w]]
    ensures forall tx :: tx in s.txLocks && s.txLocks[tx].owner.Some? ==> s.txLocks[tx].owner.value == w && Held(s.workers[w]) == Some(tx)
  {
    forall v | v in s.workers ensures v == w { OneWorker(c, s, v, w); }
  }

  lemma ClockKeepsInv(c: Config, s: State, e: Event)
    requires Inv(c, s) && (e.Tick? || e.OtherWrite?)
    ensures Inv(c, Step(c, s, e))
  {
  }

  lemma FetchKeepsInv(c: Config, s: State, w: nat, ok: bool)
    requires Inv(c, s) && w in s.workers
    ensures Inv(c, Step(c, s, Fetch(w, ok)))
  {
    AloneInside(c, s, w);
    var s' := Step(c, s, Fetch(w, ok));
    assert s'.workers == map[w := s'.workers[w]];
  }

  lemma StepKeepsInv(c: Config, s: State, e: Event)
    requires Inv(c, s) && Timely(c, s)
    ensures Inv(c, Step(c, s, e))
  {
    if e.Tick? || e.OtherWrite? {
      ClockKeepsInv(c, s, e);
    } else if e.Acquire? {
      AcquireKeepsInv(c, s, e.w);
    } else if e.w in s.workers {
      WorkerKeepsInv(c, s, e);
    } else {
      assert Step(c, s, e) == s;
    }
  }

  lemma WorkerKeepsInv(c: Config, s: State, e: Event)
    requires Inv(c, s) && !e.Tick? && !e.OtherWrite? && !e.Acquire? && e.w in s.workers
    ensures Inv(c, Step(c, s, e))
  {
    match e
    case Fetch(w, ok) => FetchKeepsInv(c, s, w, ok);
    case TryTx(w) => TryKeepsInv(c, s, w);
    case SaveTx(w, ok) => SaveKeepsInv(c, s, w, ok);
    case DeleteTxLock(w) => DeleteKeepsInv(c, s, w);
    case Release(w) => if CanRelease(s, w) { LeaveKeepsInv(c, s, w, Release(w)); }
    case Crash(w) => LeaveKeepsInv(c, s, w, Crash(w));
  }

  lemma TryKeepsInv(c: Config, s: State, w: nat)
    requires Inv(c, s) && w in s.workers
    ensures Inv(c, Step(c, s, TryTx(w)))
  {
    AloneInside(c, s, w);
    var s' := Step(c, s, TryTx(w));
    if CanTry(s, w) { assert s'.workers == map[w := s'.workers[w]]; }
  }

  lemma SaveKeepsInv(c: Config, s: State, w: nat, ok: bool)
    requires Inv(c, s) && w in s.workers
    ensures Inv(c, Step(c, s, SaveTx(w, ok)))
  {
    AloneInside(c, s, w);
    var s' := Step(c, s, SaveTx(w, ok));
    assert s'.workers == map[w := s'.workers[w]];
  }

  lemma DeleteKeepsInv(c: Config, s: State, w: nat)
    requires Inv(c, s) && w in s.workers
    ensures Inv(c, Step(c, s, DeleteTxLock(w)))
  {
    AloneInside(c, s, w);
    var s' := Step(c, s, DeleteTxLock(w));
    assert s'.workers == map[w := s'.workers[w]];
  }

  /** The only worker goes, by its own release or by a crash. */
  lemma LeaveKeepsInv(c: Config, s: State, w: nat, e: Event)
    requires Inv(c, s) && w in s.workers && (e == Crash(w) || (e == Release(w) && CanRelease(s, w)))
    ensures Inv(c, Step(c, s, e))
  {
    AloneInside(c, s, w);
    assert s.workers - {w} == map[];
  }

  lemma {:induction false} RunKeepsInv(c: Config, now: int, rows: seq<TxRow>, events: seq<Event>)
    requires AlwaysTimely(c, Start(now, rows), events)
    ensures Inv(c, Run(c, Start(now, rows), events))
  {
    if events != [] {
      var before := events[..|events| - 1];
      forall n | 0 <= n <= |before| ensures Timely(c, Run(c, Start(now, rows), before[..n])) {
        assert before[..n] == events[..n];
      }
      RunKeepsInv(c, now, rows, before);
      assert events[..|before|] == before;
      StepKeepsInv(c, Run(c, Start(now, rows), before), events[|before|]);
    }
  }

  /** While every run of the job is shorter than the lock's time to live, and wherever workers crash: at most one worker is inside,
      a release deletes only the releaser's lock, a transaction lock that is set when it is tried was left by a crash, and a
      transaction lock is deleted only by its owner. */
  lemma MutualExclusion(c: Config, now: int, rows: seq<TxRow>, events: seq<Event>, w: nat)
    requires AlwaysTimely(c, Start(now, rows), events)
    ensures var s := Run(c, Start(now, rows), events);
            && (forall w1, w2 :: w1 in s.workers && w2 in s.workers ==> w1 == w2)
            && (CanRelease(s, w) ==> s.jobLock.Some? && s.jobLock.value.owner == Some(w))
            && (CanTry(s, w) ==> var lock := LockOf(s, s.workers[w].todo[0]); lock.None? || lock.value.owner.None?)
            && (w in s.workers && s.workers[w].stage.Written? ==>
                  LockOf(s, s.workers[w].stage.tx).Some? && LockOf(s, s.workers[w].stage.tx).value.owner == Some(w))
  {
    RunKeepsInv(c, now, rows, events);
    var s := Run(c, Start(now, rows), events);
    forall w1, w2 | w1 in s.workers && w2 in s.workers ensures w1 == w2 { OneWorker(c, s, w1, w2); }
    if w in s.workers { AloneInside(c, s, w); }
  }

  /** No event is a crash. */
  ghost predicate NoCrash(events: seq<Event>) {
    forall k :: 0 <= k < |events| ==> !events[k].Crash?
  }

  /** No lock was left by a crash. */
  ghost predicate AllOwned(s: State) {
    (s.jobLock.Some? ==> s.jobLock.value.owner.Some?) && forall tx :: tx in s.txLocks ==> s.txLocks[tx].owner.Some?
  }

  lemma {:induction false} OwnedWithoutCrash(c: Config, s: State, events: seq<Event>)
    requires NoCrash(events) && AllOwned(s)
    ensures AllOwned(Run(c, s, events))
  {
    if events != [] {
      OwnedWithoutCrash(c, s, events[..|events| - 1]);
      StepStaysOwned(c, Run(c, s, events[..|events| - 1]), events[|events| - 1]);
    }
  }

  lemma StepStaysOwned(c: Config, s: State, e: Event)
    requires AllOwned(s) && !e.Crash?
    ensures AllOwned(Step(c, s, e))
  {
  }

  /** Without crashes a transaction lock is absent whenever it is tried. */
  lemma TriedLockIsFree(c: Config, now: int, rows: seq<TxRow>, events: seq<Event>, w: nat)
    requires AlwaysTimely(c, Start(now, rows), events) && NoCrash(events)
    requires CanTry(Run(c, Start(now, rows), events), w)
    ensures var s := Run(c, Start(now, rows), events); LockOf(s, s.workers[w].todo[0]).None?
  {
    MutualExclusion(c, now, rows, events, w);
    OwnedWithoutCrash(c, Start(now, rows), events);
  }

  /** What a crash leaves blocks nobody for longer than the time to live: by then every lock key is free. */
  lemma LeftoversExpire(c: Config, now: int, rows: seq<TxRow>, events: seq<Event>, later: int, tx: nat)
    requires AlwaysTimely(c, Start(now, rows), events)
    requires later >= Run(c, Start(now, rows), events).now + c.lockTtlMs
    ensures var s := Run(c, Start(now, rows), events); Free(s.jobLock, later) && Free(LockOf(s, tx), later)
  {
    RunKeepsInv(c, now, rows, events);
  }

  /** The proviso is needed, whatever the time to live: a worker that stays exactly that long is joined by a second one
      and then deletes the second one's lock, so a third walks in beside the second. */
  lemma OverrunBreaksExclusion(c: Config, now: int)
    requires c.lockTtlMs >= 0
    ensures var s2 := Step(c, Step(c, Step(c, Start(now, []), Acquire(1)), Tick(c.lockTtlMs)), Acquire(2));
            1 in s2.workers && 2 in s2.workers &&
            var s3 := Step(c, Step(c, s2, Fetch(1, true)), Release(1));
            2 in s3.workers && s3.jobLock.None? && 3 in Step(c, s3, Acquire(3)).workers
  {
    var s1 := Step(c, Start(now, []), Acquire(1));
    var s2 := Step(c, Step(c, s1, Tick(c.lockTtlMs)), Acquire(2));
    assert s2.workers == map[1 := Worker(now, [], Fetching), 2 := Worker(now + c.lockTtlMs, [], Fetching)];
    var s := Step(c, s2, Fetch(1, true));
    assert s.workers[1] == Worker(now, [], Sweeping);
    var s3 := Step(c, s, Release(1));
    assert 2 in s3.workers && 3 !in s3.workers;
  }

  // ---------------------------------------------------------------- the query and the sequential job

  lemma AppendLarger(ids: seq<nat>, n: nat)
    requires NoDuplicates(ids) && forall id :: id in ids ==> id < n
    ensures NoDuplicates(ids + [n])
    ensures forall id: nat :: id in ids + [n] <==> id in ids || id == n
  {
    assert forall i :: 0 <= i < |ids| ==> ids[i] in ids;
  }

  /** The query returns each PENDING row past its timeout once, and no other. */
  lemma {:induction false} TimedOutExactly(rows: seq<TxRow>, cutoff: int)
    ensures var found := TimedOut(rows, cutoff);
            NoDuplicates(found) &&
            forall id: nat :: id in found <==>
              id < |rows| && rows[id].status == Pending && rows[id].pendingTimeoutAt.Some? && rows[id].pendingTimeoutAt.value < cutoff
  {
    if rows != [] {
      var n := |rows| - 1;
      var before, found := TimedOut(rows[..n], cutoff), TimedOut(rows, cutoff);
      TimedOutExactly(rows[..n], cutoff);
      assert found == before || found == before + [n];
      AppendLarger(before, n);
    }
  }

  /** One turn of the loop when the transaction's lock is taken by someone else. */
  lemma SkippedTx(c: Config, s: State, w: nat, saveOk: bool)
    requires CanTry(s, w) && !Free(LockOf(s, s.workers[w].todo[0]), s.now)
    ensures Step(c, Step(c, Step(c, s, TryTx(w)), SaveTx(w, saveOk)), DeleteTxLock(w))
            == s.(workers := s.workers[w := s.workers[w].(todo := s.workers[w].todo[1..])])
  {
  }

  /** One turn of the loop when it is free. */
  lemma TakenTx(c: Config, s: State, w: nat, saveOk: bool)
    requires CanTry(s, w) && Free(LockOf(s, s.workers[w].todo[0]), s.now)
    ensures var tx := s.workers[w].todo[0];
            var k := s.workers[w].(todo := s.workers[w].todo[1..], stage := if saveOk then Sweeping else Leaving);
            Step(c, Step(c, Step(c, s, TryTx(w)), SaveTx(w, saveOk)), DeleteTxLock(w))
            == State(s.now, s.jobLock, s.txLocks - {tx}, s.workers[w := k],
                     if saveOk && tx < |s.rows| then s.rows[tx := s.rows[tx].(status := Failed)] else s.rows)
  {
    var tx := s.workers[w].todo[0];
    var s1 := Step(c, s, TryTx(w));
    assert s1.workers[w] == s.workers[w].(stage := Holding(tx));
    var s2 := Step(c, s1, SaveTx(w, saveOk));
    assert s2.workers[w] == s.workers[w].(stage := Written(tx, saveOk)) && s2.txLocks == s1.txLocks;
    assert s2.txLocks - {tx} == s.txLocks - {tx};
  }

  predicate FreeTx(txLocks: map<nat, Lock>, now: int, tx: nat) {
    tx in txLocks ==> txLocks[tx].expiresAt <= now
  }

  /** Which turns of the loop over found ran: done of them, ended by the first failing save or by the end. */
  ghost predicate Swept(txLocks: map<nat, Lock>, now: int, found: seq<nat>, saveOk: nat -> bool, done: nat) {
    && done <= |found|
    && (forall k :: 0 <= k < done - 1 && FreeTx(txLocks, now, found[k]) ==> saveOk(found[k]))
    && (done < |found| ==> done > 0 && FreeTx(txLocks, now, found[done - 1]) && !saveOk(found[done - 1]))
  }

  /** Those turns failed row id. */
  predicate SweptRow(txLocks: map<nat, Lock>, now: int, found: seq<nat>, saveOk: nat -> bool, done: nat, id: nat) {
    id in found[..Min(done, |found|)] && FreeTx(txLocks, now, id) && saveOk(id)
  }

  /** After that many turns exactly the rows they failed have changed. */
  ghost predicate RowsSwept(before: seq<TxRow>, after: seq<TxRow>, txLocks: map<nat, Lock>, now: int, found: seq<nat>,
                            saveOk: nat -> bool, done: nat)
  {
    |after| == |before| &&
    forall id: nat :: id < |after| ==>
      after[id] == if SweptRow(txLocks, now, found, saveOk, done, id) then before[id].(status := Failed) else before[id]
  }

  lemma RowsSweptNext(before: seq<TxRow>, mid: seq<TxRow>, after: seq<TxRow>, txLocks: map<nat, Lock>, now: int, found: seq<nat>,
                      saveOk: nat -> bool, done: nat)
    requires done < |found| && NoDuplicates(found) && RowsSwept(before, mid, txLocks, now, found, saveOk, done)
    requires var tx := found[done];
             after == if FreeTx(txLocks, now, tx) && saveOk(tx) && tx < |mid| then mid[tx := mid[tx].(status := Failed)] else mid
    ensures RowsSwept(before, after, txLocks, now, found, saveOk, done + 1)
  {
    assert found[..done + 1] == found[..done] + [found[done]];
    assert found[done] !in found[..done];
  }

  lemma {:induction false} TimedOutAscends(rows: seq<TxRow>, cutoff: int)
    ensures Ascends(TimedOut(rows, cutoff))
  {
    if rows != [] {
      var n := |rows| - 1;
      TimedOutAscends(rows[..n], cutoff);
      TimedOutExactly(rows[..n], cutoff);
      AscendsNext(TimedOut(rows[..n], cutoff), n);
    }
  }

  ghost predicate Ascends(ids: seq<nat>) {
    forall i, j :: 0 <= i < j < |ids| ==> ids[i] < ids[j]
  }

  lemma AscendsNext(ids: seq<nat>, n: nat)
    requires Ascends(ids) && forall id :: id in ids ==> id < n
    ensures Ascends(ids + [n])
  {
    assert forall i :: 0 <= i < |ids| ==> ids[i] in ids;
  }

  /** Row id is PENDING with a timeout before the cutoff. */
  predicate Due(rows: seq<TxRow>, cutoff: int, id: nat) {
    id < |rows| && rows[id].status == Pending && rows[id].pendingTimeoutAt.Some? && rows[id].pendingTimeoutAt.value < cutoff
  }

  /** A run fails row id: the row is due, its lock key is absent or past its expiry, its save goes through, and so did that of every due
      row before it whose lock was free. */
  ghost predicate FailedBy(rows: seq<TxRow>, txLocks: map<nat, Lock>, now: int, cutoff: int, saveOk: nat -> bool, id: nat) {
    && Due(rows, cutoff, id) && (id in txLocks ==> txLocks[id].expiresAt <= now) && saveOk(id)
    && forall j: nat {:trigger saveOk(j)} :: j < id && Due(rows, cutoff, j) && (j in txLocks ==> txLocks[j].expiresAt <= now) ==> saveOk(j)
  }

  lemma SweptIsFailedBy(rows: seq<TxRow>, txLocks: map<nat, Lock>, now: int, cutoff: int, saveOk: nat -> bool, done: nat, id: nat)
    requires Swept(txLocks, now, TimedOut(rows, cutoff), saveOk, done)
    ensures SweptRow(txLocks, now, TimedOut(rows, cutoff), saveOk, done, id) <==> FailedBy(rows, txLocks, now, cutoff, saveOk, id)
  {
    var found := TimedOut(rows, cutoff);
    TimedOutExactly(rows, cutoff);
    TimedOutAscends(rows, cutoff);
    assert id in found <==> Due(rows, cutoff, id);
    if id in found {
      var k :| 0 <= k < |found| && found[k] == id;
      if k < done {
        assert found[..done][k] == id;
        forall j: nat | j < id && Due(rows, cutoff, j) && FreeTx(txLocks, now, j) ensures saveOk(j) {
          var i :| 0 <= i < |found| && found[i] == j;
          assert i < k;
        }
      } else {
        assert found[done - 1] in found && found[done - 1] < id;
        assert id !in found[..done];
      }
    }
  }

  lemma SweptRowsAreFailedBy(rows: seq<TxRow>, after: seq<TxRow>, txLocks: map<nat, Lock>, now: int, cutoff: int, saveOk: nat -> bool,
                             done: nat)
    requires Swept(txLocks, now, TimedOut(rows, cutoff), saveOk, done)
    requires RowsSwept(rows, after, txLocks, now, TimedOut(rows, cutoff), saveOk, done)
    ensures forall id: nat :: id < |after| ==>
              after[id] == if FailedBy(rows, txLocks, now, cutoff, saveOk, id) then rows[id].(status := Failed) else rows[id]
  {
    forall id: nat | id < |after|
      ensures after[id] == if FailedBy(rows, txLocks, now, cutoff, saveOk, id) then rows[id].(status := Failed) else rows[id]
    {
      SweptIsFailedBy(rows, txLocks, now, cutoff, saveOk, done, id);
    }
  }

  // ---------------------------------------------------------------- what each step does

  /** A worker enters if and only if it is outside and the job lock is absent or past its expiry; the lock then lasts the time to live.
      It leaves by deleting the lock, whoever's it is. A clock tick and another writer touch no lock. */
  lemma JobLockExactly(c: Config, s: State, w: nat, ms: nat, tx: nat, row: TxRow)
    ensures Step(c, s, Acquire(w))
            == if w !in s.workers && (s.jobLock.None? || s.jobLock.value.expiresAt <= s.now)
               then s.(jobLock := Some(Lock(Some(w), s.now + c.lockTtlMs)), workers := s.workers[w := Worker(s.now, [], Fetching)])
               else s
    ensures w in s.workers && (s.workers[w].stage == Leaving || (s.workers[w].stage == Sweeping && s.workers[w].todo == [])) ==>
              Step(c, s, Release(w)) == s.(jobLock := None, workers := s.workers - {w})
    ensures Step(c, s, Tick(ms)) == s.(now := s.now + ms)
    ensures Step(c, s, OtherWrite(tx, row)) == s.(rows := if tx < |s.rows| then s.rows[tx := row] else s.rows + [row])
  {
  }

  /** A crash takes the worker out and leaves every lock key where it is, to expire when it would have, with no owner if it was the
      worker's. */
  lemma CrashExactly(c: Config, s: State, w: nat, tx: nat)
    requires w in s.workers
    ensures var t := Step(c, s, Crash(w));
            && t == State(s.now, t.jobLock, t.txLocks, s.workers - {w}, s.rows)
            && (t.jobLock.None? <==> s.jobLock.None?) && (tx in t.txLocks <==> tx in s.txLocks)
            && (s.jobLock.Some? ==>
                  t.jobLock.value == Lock(if s.jobLock.value.owner == Some(w) then None else s.jobLock.value.owner, s.jobLock.value.expiresAt))
            && (tx in s.txLocks ==>
                  t.txLocks[tx] == Lock(if s.txLocks[tx].owner == Some(w) then None else s.txLocks[tx].owner, s.txLocks[tx].expiresAt))
  {
  }

  /** The query, the two steps that may fail and the locks of the loop: a failing query or save makes the worker leave; a transaction
      whose lock is held is passed over; a save writes FAILED whatever the row has become; the lock is deleted after it in any case. */
  lemma SweepExactly(c: Config, s: State, w: nat, ok: bool)
    requires w in s.workers
    ensures var k := s.workers[w];
            && (k.stage == Fetching ==>
                  var t := Step(c, s, Fetch(w, ok));
                  t == s.(workers := t.workers) && t.workers.Keys == s.workers.Keys && t.workers - {w} == s.workers - {w}
                  && t.workers[w].acquiredAt == k.acquiredAt && t.workers[w].stage == (if ok then Sweeping else Leaving)
                  && (ok ==> forall id: nat :: id in t.workers[w].todo <==> Due(s.rows, s.now - c.pendingTimeoutMinutes * 60_000, id)))
            && (k.stage == Sweeping && k.todo != [] ==>
                  var tx := k.todo[0];
                  Step(c, s, TryTx(w))
                  == if tx in s.txLocks && s.txLocks[tx].expiresAt > s.now then s.(workers := s.workers[w := k.(todo := k.todo[1..])])
                     else s.(txLocks := s.txLocks[tx := Lock(Some(w), s.now + c.lockTtlMs)], workers := s.workers[w := k.(stage := Holding(tx))]))
            && (k.stage.Holding? && k.stage.tx < |s.rows| ==>
                  var tx := k.stage.tx;
                  Step(c, s, SaveTx(w, ok)) == s.(rows := if ok then s.rows[tx := TxRow(Failed, s.rows[tx].pendingTimeoutAt)] else s.rows,
                                                  workers := s.workers[w := k.(stage := Written(tx, ok))]))
            && (k.stage.Written? && k.todo != [] ==>
                  Step(c, s, DeleteTxLock(w))
                  == s.(txLocks := s.txLocks - {k.stage.tx},
                        workers := s.workers[w := k.(todo := k.todo[1..], stage := if k.stage.saveOk then Sweeping else Leaving)]))
  {
    TimedOutExactly(s.rows, s.now - c.pendingTimeoutMinutes * 60_000);
  }

  class ScheduledJobsService {
    const config: Config
    var now: int
    var jobLock: Option<Lock>
    var txLocks: map<nat, Lock>
    var workers: map<nat, Worker>
    var rows: seq<TxRow>

    constructor (config: Config, now: int, rows: seq<TxRow>)
      ensures this.config == config && Now() == Start(now, rows)
    {
      this.config, this.now, this.rows := config, now, rows;
      jobLock, txLocks, workers := None, map[], map[];
    }

    ghost function Now(): State
      reads this
    {
      State(now, jobLock, txLocks, workers, rows)
    }

    method AcquireJobLock(w: nat) returns (acquired: bool)
      requires w !in workers
      modifies this
      ensures Now() == Step(config, old(Now()), Acquire(w)) && (acquired <==> w in workers)
    {
      acquired := jobLock.None? || jobLock.value.expiresAt <= now;
      if acquired {
        jobLock := Some(Lock(Some(w), now + config.lockTtlMs));
        workers := workers[w := Worker(now, [], Fetching)];
      }
    }

    method ReleaseJobLock(w: nat)
      requires CanRelease(Now(), w)
      modifies this
      ensures Now() == Step(config, old(Now()), Release(w))
    {
      jobLock := None;
      workers := workers - {w};
    }

    method FindTimedOut(w: nat, ok: bool)
      requires AtStage(Now(), w, Fetching)
      modifies this
      ensures Now() == Step(config, old(Now()), Fetch(w, ok))
    {
      if !ok {
        workers := workers[w := workers[w].(stage := Leaving)];
        return;
      }
      var cutoff := now - config.pendingTimeoutMinutes * 60 * 1000;
      workers := workers[w := workers[w].(todo := TimedOut(rows, cutoff), stage := Sweeping)];
    }

    /** The body of the loop for the first transaction still to do. */
    method SweepOne(w: nat, saveOk: bool)
      requires CanTry(Now(), w)
      modifies this
      ensures var tried := Step(config, old(Now()), TryTx(w));
              Now() == Step(config, Step(config, tried, SaveTx(w, saveOk)), DeleteTxLock(w))
    {
      var tx := workers[w].todo[0];
      var acquired := tx !in txLocks || txLocks[tx].expiresAt <= now;
      if !acquired {
        SkippedTx(config, Now(), w, saveOk);
        workers := workers[w := workers[w].(todo := workers[w].todo[1..])];
        return;
      }
      TakenTx(config, Now(), w, saveOk);
      txLocks := txLocks[tx := Lock(Some(w), now + config.lockTtlMs)];
      if saveOk && tx < |rows| { rows := rows[tx := rows[tx].(status := Failed)]; }
      txLocks := txLocks - {tx};
      workers := workers[w := workers[w].(todo := workers[w].todo[1..], stage := if saveOk then Sweeping else Leaving)];
    }

    /** The same, seen from outside: one row at most changes, every lock key ends as absent or as it was, and the loop goes on
        unless the save was tried and failed. */
    method SweepNext(w: nat, saveOk: bool)
      requires CanTry(Now(), w)
      modifies this
      ensures now == old(now) && jobLock == old(jobLock)
      ensures var tx := old(workers[w]).todo[0];
              var tried := Free(LockOf(old(Now()), tx), now);
              && workers == old(workers)[w := old(workers[w]).(todo := old(workers[w]).todo[1..],
                                                               stage := if tried && !saveOk then Leaving else Sweeping)]
              && (forall id :: id != tx ==> LockOf(Now(), id) == LockOf(old(Now()), id))
              && rows == if tried && saveOk && tx < |old(rows)|
                         then old(rows)[tx := old(rows)[tx].(status := Failed)] else old(rows)
    {
      SweepOne(w, saveOk);
    }

    /** The loop over what the query returned. done is how many turns it took: all, or up to the first save that fails. */
    method SweepAll(w: nat, saveOk: nat -> bool) returns (ghost done: nat)
      requires AtStage(Now(), w, Sweeping) && NoDuplicates(workers[w].todo)
      modifies this
      ensures now == old(now) && jobLock == old(jobLock)
      ensures CanRelease(Now(), w) && workers - {w} == old(workers) - {w}
      ensures Swept(old(txLocks), now, old(workers[w]).todo, saveOk, done)
      ensures RowsSwept(old(rows), rows, old(txLocks), now, old(workers[w]).todo, saveOk, done)
    {
      ghost var found := workers[w].todo;
      done := 0;
      while workers[w].stage == Sweeping && workers[w].todo != []
        invariant 0 <= done <= |found| && w in workers && workers - {w} == old(workers) - {w}
        invariant now == old(now) && jobLock == old(jobLock) && workers[w].todo == found[done..]
        invariant workers[w].stage in {Sweeping, Leaving}
        invariant workers[w].stage == Leaving ==> Swept(old(txLocks), now, found, saveOk, done)
        invariant workers[w].stage == Sweeping ==>
                    forall k :: 0 <= k < done && FreeTx(old(txLocks), now, found[k]) ==> saveOk(found[k])
        invariant forall id :: id !in found[..done] ==> LockOf(Now(), id) == LockOf(old(Now()), id)
        invariant RowsSwept(old(rows), rows, old(txLocks), now, found, saveOk, done)
        decreases |found| - done
      {
        ghost var tx, before := workers[w].todo[0], rows;
        assert tx == found[done] && tx !in found[..done];
        assert found[..done + 1] == found[..done] + [tx];
        assert Free(LockOf(Now(), tx), now) <==> FreeTx(old(txLocks), now, tx);
        SweepNext(w, saveOk(workers[w].todo[0]));
        RowsSweptNext(old(rows), before, rows, old(txLocks), now, found, saveOk, done);
        done := done + 1;
      }
    }

    /** What happens under the job lock. */
    method SweepTimedOut(w: nat, queryOk: bool, saveOk: nat -> bool)
      requires AtStage(Now(), w, Fetching)
      modifies this
      ensures now == old(now) && jobLock == old(jobLock) && |rows| == |old(rows)|
      ensures CanRelease(Now(), w) && workers - {w} == old(workers) - {w}
      ensures !queryOk ==> rows == old(rows)
      ensures queryOk ==>
                forall id: nat :: id < |rows| ==>
                  rows[id] == if FailedBy(old(rows), old(txLocks), now, now - config.pendingTimeoutMinutes * 60_000, saveOk, id)
                              then old(rows)[id].(status := Failed) else old(rows)[id]
    {
      FindTimedOut(w, queryOk);
      if queryOk {
        ghost var cutoff := now - config.pendingTimeoutMinutes * 60_000;
        TimedOutExactly(rows, cutoff);
        ghost var done := SweepAll(w, saveOk);
        SweptRowsAreFailedBy(old(rows), rows, old(txLocks), now, cutoff, saveOk, done);
      }
    }

    /** One uninterrupted run: it does nothing when the lock is taken; otherwise it fails exactly the timed-out PENDING rows whose
        transaction lock is free, up to the first whose save fails, changes no other row, and leaves the job lock deleted. A query
        that fails changes no row. */
    method ReconcilePendingTransactions(w: nat, queryOk: bool, saveOk: nat -> bool)
      requires w !in workers
      modifies this
      ensures var entered := old(jobLock).None? || old(jobLock).value.expiresAt <= now;
              && now == old(now) && workers == old(workers) && |rows| == |old(rows)|
              && jobLock == (if entered then None else old(jobLock))
              && forall id: nat :: id < |rows| ==>
                   rows[id] == if entered && queryOk
                                  && FailedBy(old(rows), old(txLocks), now, now - config.pendingTimeoutMinutes * 60_000, saveOk, id)
                               then old(rows)[id].(status := Failed) else old(rows)[id]
    {
      var acquired := AcquireJobLock(w);
      if !acquired { return; }
      SweepTimedOut(w, queryOk, saveOk);
      ReleaseJobLock(w);
    }
  }
}
