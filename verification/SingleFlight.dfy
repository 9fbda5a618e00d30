/** The wallet balance fetch that callers of one user share. A call is cut at its awaits, so that any interleaving of callers,
    loaders, cache writes, expiries and invalidations is a sequence of events. */
module SingleFlight {
  import opened Common

  /** One run of a loader and what follows it. Threw: the loader failed before it returned a promise. */
  datatype Phase<V> = Loading | Storing(value: V) | Stored(value: V) | Loaded(value: V) | LoadFailed | StoreFailed(value: V) | Threw

  datatype Flight<V> = Flight(user: string, phase: Phase<V>)

  datatype CallerPhase<V> = Called | HasRead(cached: Option<V>) | Returned(value: V) | ReadFailed | Awaiting(flight: nat)

  datatype Caller<V> = Caller(user: string, phase: CallerPhase<V>)

  datatype State<V> = State(cache: map<string, V>, pending: map<string, nat>, flights: seq<Flight<V>>, callers: seq<Caller<V>>)

  datatype Event<V> =
    | Call(user: string)
    | Read(c: nat)
    | ReadFails(c: nat)
    | Resume(c: nat, throws: bool)
    | LoaderReturns(f: nat, value: V)
    | LoaderFails(f: nat)
    | CacheWrite(f: nat)
    | CacheWriteFails(f: nat)
    | Finish(f: nat)
    | Invalidate(user: string)
    | Expire(user: string)

  // ---------------------------------------------------------------- steps

  function Lookup<K, V>(m: map<K, V>, k: K): Option<V> {
    if k in m then Some(m[k]) else None
  }

  function SetCaller<V>(s: State<V>, c: nat, phase: CallerPhase<V>): State<V>
    requires c < |s.callers|
  {
    s.(callers := s.callers[c := Caller(s.callers[c].user, phase)])
  }

  function SetFlight<V>(s: State<V>, f: nat, phase: Phase<V>): State<V>
    requires f < |s.flights|
  {
    s.(flights := s.flights[f := Flight(s.flights[f].user, phase)])
  }

  /** A flight that ends removes its user's entry, whatever the entry is. */
  function Settle<V>(s: State<V>, f: nat, phase: Phase<V>): State<V>
    requires f < |s.flights|
  {
    SetFlight(s, f, phase).(pending := s.pending - {s.flights[f].user})
  }

  /** A loader that throws at once removes the entry before the caller adds it. */
  function Start<V>(s: State<V>, c: nat, throws: bool): State<V>
    requires c < |s.callers|
  {
    var u, f := s.callers[c].user, |s.flights|;
    SetCaller(s, c, Awaiting(f)).(flights := s.flights + [Flight(u, if throws then Threw else Loading)],
                                  pending := s.pending[u := f])
  }

  function Step<V>(s: State<V>, e: Event<V>): State<V> {
    match e
    case Call(u) => s.(callers := s.callers + [Caller(u, Called)])
    case Read(c) =>
      if c < |s.callers| && s.callers[c].phase.Called? then SetCaller(s, c, HasRead(Lookup(s.cache, s.callers[c].user))) else s
    case ReadFails(c) =>
      if c < |s.callers| && s.callers[c].phase.Called? then SetCaller(s, c, ReadFailed) else s
    case Resume(c, throws) =>
      if c >= |s.callers| || !s.callers[c].phase.HasRead? then s else
        var (u, cached) := (s.callers[c].user, s.callers[c].phase.cached);
        if cached.Some? then SetCaller(s, c, Returned(cached.value))
        else if u in s.pending then SetCaller(s, c, Awaiting(s.pending[u]))
        else Start(s, c, throws)
    case LoaderReturns(f, v) =>
      if f < |s.flights| && s.flights[f].phase.Loading? then SetFlight(s, f, Storing(v)) else s
    case LoaderFails(f) =>
      if f < |s.flights| && s.flights[f].phase.Loading? then Settle(s, f, LoadFailed) else s
    case CacheWrite(f) =>
      if f < |s.flights| && s.flights[f].phase.Storing? then
        SetFlight(s, f, Stored(s.flights[f].phase.value)).(cache := s.cache[s.flights[f].user := s.flights[f].phase.value])
      else s
    case CacheWriteFails(f) =>
      if f < |s.flights| && s.flights[f].phase.Storing? then Settle(s, f, StoreFailed(s.flights[f].phase.value)) else s
    case Finish(f) =>
      if f < |s.flights| && s.flights[f].phase.Stored? then Settle(s, f, Loaded(s.flights[f].phase.value)) else s
    case Invalidate(u) => s.(cache := s.cache - {u})
    case Expire(u) => s.(cache := s.cache - {u})
  }

  function RunFrom<V>(s: State<V>, events: seq<Event<V>>): State<V> {
    if events == [] then s else Step(RunFrom(s, events[..|events| - 1]), events[|events| - 1])
  }

  function Empty<V>(): State<V> { State(map[], map[], [], []) }

  // ---------------------------------------------------------------- one flight per user

  predicate Active<V>(s: State<V>, f: int) {
    0 <= f < |s.flights| && (s.flights[f].phase.Loading? || s.flights[f].phase.Storing? || s.flights[f].phase.Stored?)
  }

  ghost predicate HasActive<V>(s: State<V>, u: string) {
    exists f :: Active(s, f) && s.flights[f].user == u
  }

  /** The user's entry is a flight that threw before it was entered; nothing ever removes it. */
  predicate Wedged<V>(s: State<V>, u: string) {
    u in s.pending && s.pending[u] < |s.flights| && s.flights[s.pending[u]].phase.Threw?
  }

  /** Some flight of u from number n on has written v to the cache. */
  ghost predicate Wrote<V>(s: State<V>, u: string, v: V, n: int) {
    exists f :: n <= f < |s.flights| && 0 <= f && s.flights[f] in {Flight(u, Stored(v)), Flight(u, Loaded(v))}
  }

  ghost predicate EntryRuns<V>(s: State<V>, u: string) {
    u in s.pending ==> s.pending[u] < |s.flights| && s.flights[s.pending[u]].user == u && (Active(s, s.pending[u]) || Wedged(s, u))
  }

  /** Every active flight is its user's entry, and every entry is an active flight of that user or one that threw. */
  ghost predicate Entries<V>(s: State<V>) {
    (forall f {:trigger Active(s, f)} :: Active(s, f) ==> Lookup(s.pending, s.flights[f].user) == Some(f))
    && (forall u {:trigger EntryRuns(s, u)} :: EntryRuns(s, u))
  }

  /** The value cached for u was written by a flight of u from number n on. */
  ghost predicate CacheOk<V>(s: State<V>, u: string, n: int) {
    u in s.cache ==> Wrote(s, u, s.cache[u], n)
  }

  /** What this caller holds comes from a flight of its own user from number n on; a flight that threw gives no value. */
  ghost predicate CallerOk<V>(s: State<V>, c: Caller<V>, n: int) {
    match c.phase
    case HasRead(Some(v)) => Wrote(s, c.user, v, n)
    case Returned(v) => Wrote(s, c.user, v, n)
    case Awaiting(f) => f < |s.flights| && s.flights[f].user == c.user && (n <= f || s.flights[f].phase.Threw?)
    case _ => true
  }

  ghost predicate Inv<V>(s: State<V>) {
    Entries(s)
    && (forall u {:trigger CacheOk(s, u, 0)} :: CacheOk(s, u, 0))
    && (forall k :: 0 <= k < |s.callers| ==> CallerOk(s, s.callers[k], 0))
  }

  /** No active flight of u has a number below n. */
  ghost predicate Quiet<V>(s: State<V>, u: string, n: int) {
    n <= |s.flights| && forall f {:trigger Active(s, f)} :: Active(s, f) && s.flights[f].user == u ==> n <= f
  }

  /** Flights only move forward, so what a flight wrote it has written for good. */
  ghost predicate Advances<V>(s: State<V>, t: State<V>) {
    |s.flights| <= |t.flights|
    && forall f :: 0 <= f < |s.flights| ==>
                     && t.flights[f].user == s.flights[f].user
                     && (s.flights[f].phase.Stored? ==> t.flights[f].phase in {s.flights[f].phase, Loaded(s.flights[f].phase.value)})
                     && (!Active(s, f) ==> t.flights[f] == s.flights[f])
  }

  lemma StepAdvances<V>(s: State<V>, e: Event<V>)
    ensures Advances(s, Step(s, e))
  {
  }

  lemma WroteStays<V>(s: State<V>, t: State<V>, u: string, v: V, n: int)
    requires Advances(s, t) && Wrote(s, u, v, n)
    ensures Wrote(t, u, v, n)
  {
    var f :| n <= f < |s.flights| && 0 <= f && s.flights[f] in {Flight(u, Stored(v)), Flight(u, Loaded(v))};
    assert t.flights[f] in {Flight(u, Stored(v)), Flight(u, Loaded(v))};
  }

  /** The entry a flight removes when it ends is its own. */
  lemma SettleKeepsEntries<V>(s: State<V>, f: nat, phase: Phase<V>)
    requires Entries(s) && Active(s, f) && (phase.LoadFailed? || phase.StoreFailed? || phase.Loaded?)
    ensures Lookup(s.pending, s.flights[f].user) == Some(f)
    ensures Entries(Settle(s, f, phase))
  {
    var t := Settle(s, f, phase);
    forall g | Active(t, g) ensures Lookup(t.pending, t.flights[g].user) == Some(g) { assert Active(s, g); }
    forall u ensures EntryRuns(t, u) { assert EntryRuns(s, u); }
  }

  lemma StartKeepsEntries<V>(s: State<V>, c: nat, throws: bool)
    requires Entries(s) && c < |s.callers| && s.callers[c].user !in s.pending
    ensures Entries(Start(s, c, throws))
  {
    var t := Start(s, c, throws);
    forall g | Active(t, g) ensures Lookup(t.pending, t.flights[g].user) == Some(g) {
      if g < |s.flights| { assert Active(s, g); }
    }
    forall u ensures EntryRuns(t, u) { assert EntryRuns(s, u); }
  }

  lemma StepKeepsEntries<V>(s: State<V>, e: Event<V>)
    requires Entries(s)
    ensures Entries(Step(s, e))
  {
    var t := Step(s, e);
    if |t.flights| > |s.flights| {
      StartKeepsEntries(s, e.c, e.throws);
    } else if t.pending != s.pending {
      assert Active(s, e.f);
      SettleKeepsEntries(s, e.f, t.flights[e.f].phase);
    } else {
      forall f | Active(t, f) ensures Lookup(t.pending, t.flights[f].user) == Some(f) { assert Active(s, f); }
      forall u ensures EntryRuns(t, u) { assert EntryRuns(s, u); }
    }
  }

  lemma StepKeepsQuiet<V>(s: State<V>, e: Event<V>, u: string, n: int)
    requires Quiet(s, u, n)
    ensures Quiet(Step(s, e), u, n)
  {
    var t := Step(s, e);
    forall f | Active(t, f) && t.flights[f].user == u ensures n <= f {
      if f < |s.flights| { assert Active(s, f); }
    }
  }

  lemma StepKeepsCache<V>(s: State<V>, e: Event<V>, u: string, n: int)
    requires CacheOk(s, u, n) && Quiet(s, u, n)
    ensures CacheOk(Step(s, e), u, n)
  {
    var t := Step(s, e);
    StepAdvances(s, e);
    if u in t.cache {
      if e.CacheWrite? && t.cache != s.cache && s.flights[e.f].user == u {
        assert Active(s, e.f) && t.flights[e.f] == Flight(u, Stored(t.cache[u]));
      } else {
        WroteStays(s, t, u, t.cache[u], n);
      }
    }
  }

  lemma CallerStays<V>(s: State<V>, t: State<V>, c: Caller<V>, n: int)
    requires Advances(s, t) && CallerOk(s, c, n)
    ensures CallerOk(t, c, n)
  {
    match c.phase
    case HasRead(Some(v)) => WroteStays(s, t, c.user, v, n);
    case Returned(v) => WroteStays(s, t, c.user, v, n);
    case _ =>
  }

  lemma StepKeepsCaller<V>(s: State<V>, e: Event<V>, k: nat, n: int)
    requires k < |Step(s, e).callers|
    requires k < |s.callers| ==> CallerOk(s, s.callers[k], n)
    requires var u := Step(s, e).callers[k].user; CacheOk(s, u, n) && Quiet(s, u, n)
    requires Entries(s)
    ensures CallerOk(Step(s, e), Step(s, e).callers[k], n)
  {
    var t := Step(s, e);
    StepAdvances(s, e);
    if k < |s.callers| {
      var c, c' := s.callers[k], t.callers[k];
      CallerStays(s, t, c, n);
      if c' != c {
        assert EntryRuns(s, c.user);
        if c'.phase.HasRead? && c'.phase.cached.Some? {
          WroteStays(s, t, c.user, c'.phase.cached.value, n);
        }
      }
    }
  }

  lemma StepKeepsInv<V>(s: State<V>, e: Event<V>)
    requires Inv(s)
    ensures Inv(Step(s, e))
  {
    var t := Step(s, e);
    StepKeepsEntries(s, e);
    forall u ensures CacheOk(t, u, 0) {
      assert CacheOk(s, u, 0);
      StepKeepsCache(s, e, u, 0);
    }
    forall k | 0 <= k < |t.callers| ensures CallerOk(t, t.callers[k], 0) {
      assert CacheOk(s, t.callers[k].user, 0);
      StepKeepsCaller(s, e, k, 0);
    }
  }

  lemma {:induction false} RunKeepsInv<V>(s: State<V>, events: seq<Event<V>>)
    requires Inv(s)
    ensures Inv(RunFrom(s, events))
    decreases |events|
  {
    if events != [] {
      RunKeepsInv(s, events[..|events| - 1]);
      StepKeepsInv(RunFrom(s, events[..|events| - 1]), events[|events| - 1]);
    }
  }

  lemma EmptyIsOk<V>()
    ensures Inv(Empty<V>())
  {
  }

  lemma EntryMeansActive<V>(s: State<V>, u: string)
    requires Entries(s)
    ensures u in s.pending <==> HasActive(s, u) || Wedged(s, u)
    ensures !(HasActive(s, u) && Wedged(s, u))
  {
    assert EntryRuns(s, u);
    if u in s.pending && !Wedged(s, u) { assert Active(s, s.pending[u]); }
  }

  /** Whatever the interleaving, a user has at most one active flight; it has an entry exactly while one is active, unless a
      loader threw before its flight was entered; and what is cached for it was written by one of its flights. */
  lemma OneFlightPerUser<V>(events: seq<Event<V>>, u: string)
    ensures var s := RunFrom(Empty(), events);
            && (forall f, g :: Active(s, f) && Active(s, g) && s.flights[f].user == u == s.flights[g].user ==> f == g)
            && (u in s.pending <==> HasActive(s, u) || Wedged(s, u))
            && !(HasActive(s, u) && Wedged(s, u))
            && (u in s.cache ==> Wrote(s, u, s.cache[u], 0))
  {
    EmptyIsOk<V>();
    RunKeepsInv(Empty(), events);
    EntryMeansActive(RunFrom(Empty(), events), u);
    assert CacheOk(RunFrom(Empty(), events), u, 0);
  }

  // ---------------------------------------------------------------- what callers get

  /** How a call has ended: with a value, with a failure, or not yet. */
  function Outcome<V>(s: State<V>, c: nat): Option<Result<V, ()>>
    requires c < |s.callers|
  {
    match s.callers[c].phase
    case Returned(v) => Some(Ok(v))
    case ReadFailed => Some(Err(()))
    case Awaiting(f) =>
      if f >= |s.flights| || Active(s, f) then None
      else if s.flights[f].phase.Loaded? then Some(Ok(s.flights[f].phase.value)) else Some(Err(()))
    case _ => None
  }

  /** Callers keep their user, a decided caller keeps what it decided, and flights advance. */
  ghost predicate Progress<V>(s: State<V>, t: State<V>) {
    && Advances(s, t) && |s.callers| <= |t.callers|
    && forall c :: 0 <= c < |s.callers| ==>
                     && t.callers[c].user == s.callers[c].user
                     && (!s.callers[c].phase.Called? && !s.callers[c].phase.HasRead? ==> t.callers[c] == s.callers[c])
  }

  lemma StepProgresses<V>(s: State<V>, e: Event<V>)
    ensures Progress(s, Step(s, e))
  {
    StepAdvances(s, e);
  }

  lemma {:induction false} RunProgresses<V>(s: State<V>, events: seq<Event<V>>)
    ensures Progress(s, RunFrom(s, events))
    decreases |events|
  {
    if events != [] {
      RunProgresses(s, events[..|events| - 1]);
      var r := RunFrom(s, events[..|events| - 1]);
      StepProgresses(r, events[|events| - 1]);
      ProgressIsTransitive(s, r, RunFrom(s, events));
    }
  }

  lemma ProgressIsTransitive<V>(s: State<V>, r: State<V>, t: State<V>)
    requires Progress(s, r) && Progress(r, t)
    ensures Progress(s, t)
  {
    forall f | 0 <= f < |s.flights| && !Active(s, f) ensures t.flights[f] == s.flights[f] {
      assert !Active(r, f);
    }
  }

  /** A call ends once. */
  lemma OutcomeIsFinal<V>(s: State<V>, events: seq<Event<V>>, c: nat)
    requires Inv(s) && c < |s.callers| && Outcome(s, c).Some?
    ensures c < |RunFrom(s, events).callers| && Outcome(RunFrom(s, events), c) == Outcome(s, c)
  {
    RunProgresses(s, events);
    assert CallerOk(s, s.callers[c], 0);
  }

  /** Two callers of one user who wait at the same time wait for the same flight and get the same result. */
  lemma WaitersShare<V>(s: State<V>, events: seq<Event<V>>, c: nat, d: nat)
    requires Inv(s) && c < |s.callers| && d < |s.callers| && s.callers[c].user == s.callers[d].user
    requires s.callers[c].phase.Awaiting? && s.callers[d].phase.Awaiting? && Outcome(s, c).None? && Outcome(s, d).None?
    ensures c < |RunFrom(s, events).callers| && d < |RunFrom(s, events).callers|
    ensures Outcome(RunFrom(s, events), c) == Outcome(RunFrom(s, events), d)
  {
    RunProgresses(s, events);
    assert CallerOk(s, s.callers[c], 0) && CallerOk(s, s.callers[d], 0);
    var f, g := s.callers[c].phase.flight, s.callers[d].phase.flight;
    assert Active(s, f) && Active(s, g);
  }

  // ---------------------------------------------------------------- invalidation

  /** From here on u is served by flights from number n on only: the cache and every caller from number m on. */
  ghost predicate ServedFrom<V>(s: State<V>, u: string, n: nat, m: nat) {
    && Entries(s) && Quiet(s, u, n) && CacheOk(s, u, n) && m <= |s.callers|
    && forall k :: m <= k < |s.callers| && s.callers[k].user == u ==> CallerOk(s, s.callers[k], n)
  }

  lemma StepKeepsServed<V>(s: State<V>, e: Event<V>, u: string, n: nat, m: nat)
    requires ServedFrom(s, u, n, m)
    ensures ServedFrom(Step(s, e), u, n, m)
  {
    var t := Step(s, e);
    StepKeepsEntries(s, e);
    StepKeepsQuiet(s, e, u, n);
    StepKeepsCache(s, e, u, n);
    forall k | m <= k < |t.callers| && t.callers[k].user == u ensures CallerOk(t, t.callers[k], n) {
      StepKeepsCaller(s, e, k, n);
    }
  }

  lemma {:induction false} RunKeepsServed<V>(s: State<V>, events: seq<Event<V>>, u: string, n: nat, m: nat)
    requires ServedFrom(s, u, n, m)
    ensures ServedFrom(RunFrom(s, events), u, n, m)
    decreases |events|
  {
    if events != [] {
      RunKeepsServed(s, events[..|events| - 1], u, n, m);
      StepKeepsServed(RunFrom(s, events[..|events| - 1]), events[|events| - 1], u, n, m);
    }
  }

  /** A caller of u from number m on waits for a flight below number n, or holds a value that no later flight wrote. */
  ghost predicate ServesOld<V>(s: State<V>, u: string, n: nat, m: nat) {
    exists k :: m <= k < |s.callers| && s.callers[k].user == u && !CallerOk(s, s.callers[k], n)
  }

  /** An invalidation makes sure that later calls see only what is loaded after it if and only if no flight of the user is
      active when it happens. */
  lemma FreshAfterInvalidation<V>(s: State<V>, u: string)
    requires Inv(s)
    ensures var t := Step(s, Invalidate(u));
            (exists events: seq<Event<V>> :: ServesOld(RunFrom(t, events), u, |s.flights|, |s.callers|)) <==> HasActive(s, u)
  {
    var t, n, m := Step(s, Invalidate(u)), |s.flights|, |s.callers|;
    if HasActive(s, u) {
      OldFlightIsJoined(s, u);
    } else {
      assert forall f :: Active(t, f) ==> Active(s, f);
      StepKeepsEntries(s, Invalidate(u));
      assert ServedFrom(t, u, n, m);
      forall events: seq<Event<V>> ensures !ServesOld(RunFrom(t, events), u, n, m) {
        RunKeepsServed(t, events, u, n, m);
      }
    }
  }

  /** The three events of a call that is not interrupted. */
  function CallOnce<V>(u: string, c: nat, throws: bool): seq<Event<V>> {
    [Call(u), Read(c), Resume(c, throws)]
  }

  lemma RunThree<V>(s: State<V>, a: Event<V>, b: Event<V>, c: Event<V>)
    ensures RunFrom(s, [a, b, c]) == Step(Step(Step(s, a), b), c)
  {
    assert [a, b, c][..2] == [a, b] && [a, b][..1] == [a] && [a][..0] == [];
    assert RunFrom(s, [a]) == Step(s, a);
    assert RunFrom(s, [a, b]) == Step(Step(s, a), b);
  }

  /** A call right after the invalidation joins the flight that was active before it. */
  lemma OldFlightIsJoined<V>(s: State<V>, u: string)
    requires Inv(s) && HasActive(s, u)
    ensures exists events: seq<Event<V>> ::
              ServesOld(RunFrom(Step(s, Invalidate(u)), events), u, |s.flights|, |s.callers|)
  {
    var t, m := Step(s, Invalidate(u)), |s.callers|;
    var f :| Active(s, f) && s.flights[f].user == u;
    var events := CallOnce<V>(u, m, false);
    RunThree(t, Call(u), Read(m), Resume(m, false));
    var r := RunFrom(t, events);
    assert r.callers[m] == Caller(u, Awaiting(f));
    assert ServesOld(r, u, |s.flights|, |s.callers|);
  }

  /** With no entry for the user, the next uninterrupted call after an invalidation runs its own loader. */
  lemma InvalidationForcesLoad<V>(s: State<V>, u: string)
    requires Inv(s) && !HasActive(s, u) && !Wedged(s, u)
    ensures var t := RunFrom(Step(s, Invalidate(u)), CallOnce(u, |s.callers|, false));
            t.flights == s.flights + [Flight(u, Loading)] && t.callers == s.callers + [Caller(u, Awaiting(|s.flights|))]
  {
    EntryMeansActive(s, u);
    RunThree(Step(s, Invalidate(u)), Call(u), Read(|s.callers|), Resume(|s.callers|, false));
  }

  // ---------------------------------------------------------------- a loader that throws at once

  /** u's entry is flight w, which threw, and no flight from number n on is u's. */
  ghost predicate Stuck<V>(s: State<V>, u: string, w: nat, n: nat) {
    && Entries(s) && Wedged(s, u) && s.pending[u] == w
    && n <= |s.flights| && (forall f :: n <= f < |s.flights| ==> s.flights[f].user != u)
  }

  lemma StepKeepsStuck<V>(s: State<V>, e: Event<V>, u: string, w: nat, n: nat)
    requires Stuck(s, u, w, n)
    ensures Stuck(Step(s, e), u, w, n)
  {
    var t := Step(s, e);
    StepKeepsEntries(s, e);
    StepAdvances(s, e);
    if |t.flights| == |s.flights| && t.pending != s.pending {
      assert Active(s, e.f);
      SettleKeepsEntries(s, e.f, t.flights[e.f].phase);
    }
  }

  lemma {:induction false} RunKeepsStuck<V>(s: State<V>, events: seq<Event<V>>, u: string, w: nat, n: nat)
    requires Stuck(s, u, w, n)
    ensures Stuck(RunFrom(s, events), u, w, n)
    decreases |events|
  {
    if events != [] {
      RunKeepsStuck(s, events[..|events| - 1], u, w, n);
      StepKeepsStuck(RunFrom(s, events[..|events| - 1]), events[|events| - 1], u, w, n);
    }
  }

  /** A loader that throws at once leaves its entry behind. */
  lemma ThrowWedges<V>(s: State<V>, c: nat)
    requires Inv(s) && c < |s.callers| && s.callers[c].phase == HasRead(None) && s.callers[c].user !in s.pending
    ensures Wedged(Step(s, Resume(c, true)), s.callers[c].user)
    ensures !Wedged(Step(s, Resume(c, false)), s.callers[c].user)
  {
  }

  /** After that no loader of this user runs again, and once nothing is cached no later call ever gets a value. */
  lemma WedgedForever<V>(s: State<V>, events: seq<Event<V>>, u: string)
    requires Inv(s) && Wedged(s, u)
    ensures var t := RunFrom(s, events);
            && Wedged(t, u) && |s.flights| <= |t.flights|
            && (forall f :: |s.flights| <= f < |t.flights| ==> t.flights[f].user != u)
            && (u !in s.cache ==>
                  forall c :: |s.callers| <= c < |t.callers| && t.callers[c].user == u ==> Outcome(t, c) in {None, Some(Err(()))})
  {
    var n, m := |s.flights|, |s.callers|;
    RunKeepsStuck(s, events, u, s.pending[u], n);
    if u !in s.cache {
      assert ServedFrom(s, u, n, m);
      RunKeepsServed(s, events, u, n, m);
      var t := RunFrom(s, events);
      forall c | m <= c < |t.callers| && t.callers[c].user == u ensures Outcome(t, c) in {None, Some(Err(()))} {
        assert CallerOk(t, t.callers[c], n);
      }
    }
  }

  // ---------------------------------------------------------------- what each step does

  /** A call starts by itself; its read finds what is cached for its user at that moment, and a failing read ends the call. */
  lemma ReadExactly<V>(s: State<V>, u: string, c: nat)
    ensures Step(s, Call(u)) == s.(callers := s.callers + [Caller(u, Called)])
    ensures c < |s.callers| && s.callers[c].phase == Called ==>
              var user := s.callers[c].user;
              var found := if user in s.cache then Some(s.cache[user]) else None;
              && Step(s, Read(c)) == s.(callers := s.callers[c := Caller(user, HasRead(found))])
              && Step(s, ReadFails(c)) == s.(callers := s.callers[c := Caller(user, ReadFailed)])
    ensures c < |s.callers| && s.callers[c].phase != Called ==> Step(s, Read(c)) == s && Step(s, ReadFails(c)) == s
  {
  }

  /** What a call does after its read: a cached value it returns, and touches nothing else; with none it joins the flight its user has an
      entry for; and only when there is none it starts a flight of its own, whose entry it makes. */
  lemma ResumeExactly<V>(s: State<V>, c: nat, throws: bool)
    requires c < |s.callers| && s.callers[c].phase.HasRead?
    ensures var (t, user, cached) := (Step(s, Resume(c, throws)), s.callers[c].user, s.callers[c].phase.cached);
            && t.cache == s.cache
            && (cached.Some? ==> t == s.(callers := s.callers[c := Caller(user, Returned(cached.value))]))
            && (cached.None? && user in s.pending ==> t == s.(callers := s.callers[c := Caller(user, Awaiting(s.pending[user]))]))
            && (cached.None? && user !in s.pending ==>
                  && t.flights == s.flights + [Flight(user, if throws then Threw else Loading)]
                  && t.pending == s.pending[user := |s.flights|]
                  && t.callers == s.callers[c := Caller(user, Awaiting(|s.flights|))])
  {
  }

  /** What becomes of a flight, and of those who wait for it: a loader's failure and a failing cache write end it in failure, with nothing
      cached; a cache write that goes through caches the loaded value, and the flight then ends with it. Ending removes the entry. */
  lemma FlightExactly<V>(s: State<V>, f: nat, c: nat, v: V)
    requires f < |s.flights| && c < |s.callers| && s.callers[c].phase == Awaiting(f)
    ensures var user := s.flights[f].user;
            && (s.flights[f].phase == Loading ==>
                  && Step(s, LoaderReturns(f, v)) == s.(flights := s.flights[f := Flight(user, Storing(v))])
                  && Outcome(Step(s, LoaderReturns(f, v)), c) == None
                  && Step(s, LoaderFails(f)) == s.(flights := s.flights[f := Flight(user, LoadFailed)], pending := s.pending - {user})
                  && Outcome(Step(s, LoaderFails(f)), c) == Some(Err(())))
            && (s.flights[f].phase == Storing(v) ==>
                  && Step(s, CacheWrite(f)) == s.(flights := s.flights[f := Flight(user, Stored(v))], cache := s.cache[user := v])
                  && Outcome(Step(s, CacheWrite(f)), c) == None
                  && Step(s, CacheWriteFails(f)) == s.(flights := s.flights[f := Flight(user, StoreFailed(v))], pending := s.pending - {user})
                  && Outcome(Step(s, CacheWriteFails(f)), c) == Some(Err(())))
            && (s.flights[f].phase == Stored(v) ==>
                  && Step(s, Finish(f)) == s.(flights := s.flights[f := Flight(user, Loaded(v))], pending := s.pending - {user})
                  && Outcome(Step(s, Finish(f)), c) == Some(Ok(v)))
  {
  }

  /** An invalidation or an expiry takes the one value cached for the user. */
  lemma InvalidateExactly<V>(s: State<V>, u: string)
    ensures Step(s, Invalidate(u)) == Step(s, Expire(u))
    ensures Step(s, Invalidate(u)) == s.(cache := map k | k in s.cache && k != u :: s.cache[k])
  {
  }

  /** With a value cached for the user an uninterrupted call returns it, whatever is in flight; flights, entries and cache stay as they
      are. */
  lemma CachedCallReturns<V>(s: State<V>, u: string, throws: bool)
    requires u in s.cache
    ensures var t := RunFrom(s, CallOnce(u, |s.callers|, throws));
            t == s.(callers := s.callers + [Caller(u, Returned(s.cache[u]))]) && Outcome(t, |s.callers|) == Some(Ok(s.cache[u]))
  {
    var c := |s.callers|;
    var s1 := s.(callers := s.callers + [Caller(u, Called)]);
    var s2 := s.(callers := s.callers + [Caller(u, HasRead(Some(s.cache[u])))]);
    RunThree(s, Call(u), Read(c), Resume(c, throws));
    ReadExactly(s, u, c);
    ReadExactly(s1, u, c);
    assert s1.callers[c := Caller(u, HasRead(Some(s.cache[u])))] == s2.callers;
    ResumeExactly(s2, c, throws);
    assert s2.callers[c := Caller(u, Returned(s.cache[u]))] == s.callers + [Caller(u, Returned(s.cache[u]))];
  }

  /** Event n of the run read the cache for call c and found nothing. */
  ghost predicate Missed<V>(events: seq<Event<V>>, n: nat, c: nat, u: string) {
    n < |events| && events[n] == Read(c) &&
    var s := RunFrom(Empty(), events[..n]);
    c < |s.callers| && s.callers[c] == Caller(u, Called) && u !in s.cache
  }

  /** Event n of the run resumed call c, which had found nothing in the cache, without an entry for its user, and began flight f. */
  ghost predicate Began<V>(events: seq<Event<V>>, n: nat, c: nat, f: nat, u: string) {
    n < |events| && events[n].Resume? && events[n].c == c &&
    var s := RunFrom(Empty(), events[..n]);
    && |s.flights| == f && c < |s.callers| && s.callers[c] == Caller(u, HasRead(None)) && u !in s.pending
    && exists m: nat :: m < n && Missed(events, m, c, u)
  }

  lemma {:induction false} ReadBefore<V>(events: seq<Event<V>>, c: nat)
    requires c < |RunFrom(Empty(), events).callers| && RunFrom(Empty(), events).callers[c].phase == HasRead(None)
    ensures exists m: nat :: Missed(events, m, c, RunFrom(Empty(), events).callers[c].user)
    decreases |events|
  {
    var before, e := events[..|events| - 1], events[|events| - 1];
    var s, u := RunFrom(Empty(), before), RunFrom(Empty(), events).callers[c].user;
    if c < |s.callers| && s.callers[c] == RunFrom(Empty(), events).callers[c] {
      ReadBefore(before, c);
      var m: nat :| Missed(before, m, c, u);
      assert before[..m] == events[..m];
      assert Missed(events, m, c, u);
    } else {
      assert e == Read(c);
      assert Missed(events, |before|, c, u);
    }
  }

  lemma NewFlight<V>(s: State<V>, e: Event<V>, f: nat)
    requires f < |Step(s, e).flights|
    ensures |s.flights| <= |Step(s, e).flights| <= |s.flights| + 1
    ensures f < |s.flights| ==> Step(s, e).flights[f].user == s.flights[f].user
    ensures f >= |s.flights| ==>
              && f == |s.flights| && e.Resume? && e.c < |s.callers|
              && s.callers[e.c] == Caller(Step(s, e).flights[f].user, HasRead(None)) && s.callers[e.c].user !in s.pending
  {
  }

  /** In every interleaving a flight was begun by a call that had found nothing in the cache, and at a moment without an entry for its
      user. */
  lemma {:induction false} FlightsAreNeeded<V>(events: seq<Event<V>>, f: nat)
    requires f < |RunFrom(Empty(), events).flights|
    ensures exists n: nat, c: nat :: Began(events, n, c, f, RunFrom(Empty(), events).flights[f].user)
    decreases |events|
  {
    var before, e := events[..|events| - 1], events[|events| - 1];
    var s, u := RunFrom(Empty(), before), RunFrom(Empty(), events).flights[f].user;
    NewFlight(s, e, f);
    if f < |s.flights| {
      FlightsAreNeeded(before, f);
      var n: nat, c: nat :| Began(before, n, c, f, u);
      BeganStays(events, n, c, f, u);
    } else {
      ReadBefore(before, e.c);
      var m: nat :| Missed(before, m, e.c, u);
      assert before[..m] == events[..m];
      assert Missed(events, m, e.c, u);
      assert Began(events, |before|, e.c, f, u);
    }
  }

  lemma BeganStays<V>(events: seq<Event<V>>, n: nat, c: nat, f: nat, u: string)
    requires events != [] && Began(events[..|events| - 1], n, c, f, u)
    ensures Began(events, n, c, f, u)
  {
    var before := events[..|events| - 1];
    var m: nat :| m < n && Missed(before, m, c, u);
    assert before[..m] == events[..m] && before[..n] == events[..n];
    assert Missed(events, m, c, u);
  }

  // ---------------------------------------------------------------- the service

  /** The stretches of code between two awaits. flights and callers are the promises and the suspended calls the runtime keeps. */
  class UsersService<V> {
    var cache: map<string, V>
    var pendingFetches: map<string, nat>
    var flights: seq<Flight<V>>
    var callers: seq<Caller<V>>

    function Now(): State<V>
      reads this
    {
      State(cache, pendingFetches, flights, callers)
    }

    ghost predicate Valid()
      reads this
    {
      Inv(Now())
    }

    constructor ()
      ensures Valid() && Now() == Empty()
    {
      cache, pendingFetches, flights, callers := map[], map[], [], [];
    }

    /** getWalletBalances up to its first await, the cache read. */
    method Begin(userId: string) returns (c: nat)
      requires Valid()
      modifies this
      ensures Valid() && c == |old(callers)| && Now() == Step(old(Now()), Call(userId))
    {
      StepKeepsInv(Now(), Call(userId));
      c := |callers|;
      callers := callers + [Caller(userId, Called)];
    }

    /** The cache store answers, or rejects. */
    method CacheGet(c: nat, ok: bool)
      requires Valid() && c < |callers| && callers[c].phase.Called?
      modifies this
      ensures Valid() && Now() == Step(old(Now()), if ok then Read(c) else ReadFails(c))
    {
      StepKeepsInv(Now(), if ok then Read(c) else ReadFails(c));
      var userId := callers[c].user;
      var cached := if userId in cache then Some(cache[userId]) else None;
      callers := callers[c := Caller(userId, if ok then HasRead(cached) else ReadFailed)];
    }

    /** From the cache read to the end of the call's own code: return, join, or start a flight. */
    method AfterCacheGet(c: nat, throws: bool)
      requires Valid() && c < |callers| && callers[c].phase.HasRead?
      modifies this
      ensures Valid() && Now() == Step(old(Now()), Resume(c, throws))
    {
      StepKeepsInv(Now(), Resume(c, throws));
      var userId, cached := callers[c].user, callers[c].phase.cached;
      if cached.Some? {
        callers := callers[c := Caller(userId, Returned(cached.value))];
        return;
      }
      if userId in pendingFetches {
        callers := callers[c := Caller(userId, Awaiting(pendingFetches[userId]))];
        return;
      }
      var fetch := |flights|;
      flights := flights + [Flight(userId, Loading)];
      if throws {
        flights := flights[fetch := Flight(userId, Threw)];
        pendingFetches := pendingFetches - {userId};
      }
      pendingFetches := pendingFetches[userId := fetch];
      callers := callers[c := Caller(userId, Awaiting(fetch))];
      assert pendingFetches == old(pendingFetches)[userId := fetch];
      assert flights == old(flights) + [Flight(userId, if throws then Threw else Loading)];
      assert Now() == Step(old(Now()), Resume(c, throws));
    }

    /** The loader's promise settles. */
    method AfterLoader(f: nat, balances: Option<V>)
      requires Valid() && f < |flights| && flights[f].phase.Loading?
      modifies this
      ensures Valid() && Now() == Step(old(Now()), if balances.Some? then LoaderReturns(f, balances.value) else LoaderFails(f))
    {
      StepKeepsInv(Now(), if balances.Some? then LoaderReturns(f, balances.value) else LoaderFails(f));
      var userId := flights[f].user;
      if balances.Some? {
        flights := flights[f := Flight(userId, Storing(balances.value))];
      } else {
        pendingFetches := pendingFetches - {userId};
        flights := flights[f := Flight(userId, LoadFailed)];
      }
    }

    /** The cache store writes, or rejects. */
    method CacheSet(f: nat, ok: bool)
      requires Valid() && f < |flights| && flights[f].phase.Storing?
      modifies this
      ensures Valid() && Now() == Step(old(Now()), if ok then CacheWrite(f) else CacheWriteFails(f))
    {
      StepKeepsInv(Now(), if ok then CacheWrite(f) else CacheWriteFails(f));
      var userId, balances := flights[f].user, flights[f].phase.value;
      if ok {
        cache := cache[userId := balances];
        flights := flights[f := Flight(userId, Stored(balances))];
      } else {
        pendingFetches := pendingFetches - {userId};
        flights := flights[f := Flight(userId, StoreFailed(balances))];
      }
    }

    /** The end of the flight. */
    method AfterCacheSet(f: nat)
      requires Valid() && f < |flights| && flights[f].phase.Stored?
      modifies this
      ensures Valid() && Now() == Step(old(Now()), Finish(f))
    {
      StepKeepsInv(Now(), Finish(f));
      pendingFetches := pendingFetches - {flights[f].user};
      flights := flights[f := Flight(flights[f].user, Loaded(flights[f].phase.value))];
    }

    method InvalidateWalletBalanceCache(userId: string)
      requires Valid()
      modifies this
      ensures Valid() && Now() == Step(old(Now()), Invalidate(userId)) && userId !in cache
    {
      StepKeepsInv(Now(), Invalidate(userId));
      cache := cache - {userId};
    }
  }
}
