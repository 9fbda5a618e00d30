/** Idempotency keys: the guard that looks a key up, the interceptor that replays or executes and stores, and the cleanup.
    The request handler and the hash are arbitrary functions; the application state is an arbitrary type. */
module Idempotency {
  import opened Common

  const MIN_KEY_LENGTH := 16
  const MAX_KEY_LENGTH := 255

  datatype Content = Content(verb: string, url: string, body: string)

  datatype Reply = Reply(statusCode: int, body: string)

  /** A row of the key table. */
  datatype Stored = Stored(requestHash: string, reply: Reply, expiresAt: int)

  type Table = map<string, Stored>

  /** What a handler does to the application: it answers, or it throws; either way it may have changed the state. */
  datatype Handled<S> = Answered(state: S, reply: Reply) | Threw(state: S, error: string)

  datatype GuardError = KeyRequired | KeyTooShort | KeyTooLong | KeyReused

  datatype Answer = Refused(error: GuardError) | Sent(reply: Reply) | HandlerError(thrown: string)

  /** One request to an idempotent route, with the time it is stored at and whether the store goes through. */
  datatype Request = Request(key: Option<string>, content: Content, now: int, storeOk: bool)

  datatype Event = Arrives(r: Request) | Cleanup(now: int)

  datatype System<S> = System(app: S, table: Table)

  // ---------------------------------------------------------------- one request

  datatype Verdict = Reject(error: GuardError) | Replay(reply: Reply) | Proceed

  function KeyError(key: Option<string>): Option<GuardError> {
    if key.None? || key.value == "" then Some(KeyRequired)
    else if |key.value| < MIN_KEY_LENGTH then Some(KeyTooShort)
    else if |key.value| > MAX_KEY_LENGTH then Some(KeyTooLong)
    else None
  }

  function Guard(hash: Content -> string, table: Table, r: Request): Verdict {
    if KeyError(r.key).Some? then Reject(KeyError(r.key).value)
    else if r.key.value !in table then Proceed
    else if table[r.key.value].requestHash != hash(r.content) then Reject(KeyReused)
    else Replay(table[r.key.value].reply)
  }

  /** The interceptor, given what the guard left on the request. */
  function Intercept<S>(handler: (S, Content) -> Handled<S>, hash: Content -> string, ttl: int, s: System<S>, r: Request, v: Verdict)
    : (System<S>, Answer)
    requires v.Proceed? ==> r.key.Some?
  {
    match v
    case Reject(e) => (s, Refused(e))
    case Replay(reply) => (s, Sent(reply))
    case Proceed =>
      match handler(s.app, r.content)
      case Threw(app, e) => (System(app, s.table), HandlerError(e))
      case Answered(app, reply) =>
        (System(app, if r.storeOk then s.table[r.key.value := Stored(hash(r.content), reply, r.now + ttl)] else s.table),
         Sent(reply))
  }

  function Expire(table: Table, now: int): Table {
    map k | k in table && table[k].expiresAt >= now :: table[k]
  }

  /** One event of a server whose requests do not overlap. A cleanup answers nobody. */
  function Step<S>(handler: (S, Content) -> Handled<S>, hash: Content -> string, ttl: int, s: System<S>, e: Event)
    : (System<S>, Option<Answer>)
  {
    match e
    case Arrives(r) =>
      var (s', a) := Intercept(handler, hash, ttl, s, r, Guard(hash, s.table, r));
      (s', Some(a))
    case Cleanup(now) => (System(s.app, Expire(s.table, now)), None)
  }

  function Run<S>(handler: (S, Content) -> Handled<S>, hash: Content -> string, ttl: int, s: System<S>, events: seq<Event>)
    : (System<S>, seq<Option<Answer>>)
    decreases |events|
  {
    if events == [] then (s, []) else
      var (s1, a) := Step(handler, hash, ttl, s, events[0]);
      var (s2, rest) := Run(handler, hash, ttl, s1, events[1..]);
      (s2, [a] + rest)
  }

  // ---------------------------------------------------------------- what one request gets

  /** What the guard says, by the length of the header and the row of its key. */
  lemma GuardExactly(hash: Content -> string, table: Table, r: Request)
    ensures var v := Guard(hash, table, r);
            var n := if r.key.None? then 0 else |r.key.value|;
            && (v == Reject(KeyRequired) <==> n == 0)
            && (v == Reject(KeyTooShort) <==> 1 <= n <= 15)
            && (v == Reject(KeyTooLong) <==> n > 255)
            && (v == Reject(KeyReused) <==>
                  16 <= n <= 255 && r.key.value in table && table[r.key.value].requestHash != hash(r.content))
            && (forall reply :: v == Replay(reply) <==>
                  && 16 <= n <= 255 && r.key.value in table && table[r.key.value].requestHash == hash(r.content)
                  && table[r.key.value].reply == reply)
            && (v == Proceed <==> 16 <= n <= 255 && r.key.value !in table)
  {
  }

  /** The reference and the server refuse the same headers. */
  lemma KeyErrorExactly(key: Option<string>)
    ensures KeyError(key).None? <==> key.Some? && 16 <= |key.value| <= 255
    ensures KeyError(key) == Some(KeyRequired) <==> key.None? || |key.value| == 0
    ensures KeyError(key) == Some(KeyTooShort) <==> key.Some? && 1 <= |key.value| <= 15
    ensures KeyError(key) == Some(KeyTooLong) <==> key.Some? && |key.value| > 255
  {
  }

  /** Whether the handler runs, what the client gets, and what is kept. A header of the wrong length, a key stored with another hash and
      a replay run nothing and change nothing; any other request runs the handler once, and a reply, but no error, is stored for ttl
      from now, when that write goes through. */
  lemma RequestExactly<S>(handler: (S, Content) -> Handled<S>, hash: Content -> string, ttl: int, s: System<S>, r: Request)
    ensures var (s', a) := Step(handler, hash, ttl, s, Arrives(r));
            var n := if r.key.None? then 0 else |r.key.value|;
            var h := handler(s.app, r.content);
            if n == 0 then s' == s && a == Some(Refused(KeyRequired))
            else if n < 16 then s' == s && a == Some(Refused(KeyTooShort))
            else if n > 255 then s' == s && a == Some(Refused(KeyTooLong))
            else if r.key.value in s.table then
              s' == s && a == Some(if s.table[r.key.value].requestHash == hash(r.content) then Sent(s.table[r.key.value].reply)
                                   else Refused(KeyReused))
            else
              && s'.app == h.state
              && a == Some(if h.Answered? then Sent(h.reply) else HandlerError(h.error))
              && s'.table == if h.Answered? && r.storeOk then s.table[r.key.value := Stored(hash(r.content), h.reply, r.now + ttl)]
                             else s.table
  {
  }

  /** A cleanup drops the rows whose expiry is past and no other; so a key that was stored and has expired by then runs the handler
      again, and one that has not is still replayed. */
  lemma CleanupExactly<S>(handler: (S, Content) -> Handled<S>, hash: Content -> string, ttl: int, s: System<S>, now: int, r: Request)
    requires r.key.Some? && 16 <= |r.key.value| <= 255 && r.key.value in s.table
             && s.table[r.key.value].requestHash == hash(r.content)
    ensures var t := Step(handler, hash, ttl, s, Cleanup(now)).0;
            && t.app == s.app
            && (forall k :: k in t.table <==> k in s.table && s.table[k].expiresAt >= now)
            && (forall k :: k in t.table ==> t.table[k] == s.table[k])
            && (s.table[r.key.value].expiresAt < now ==>
                  Step(handler, hash, ttl, t, Arrives(r)).0.app == handler(s.app, r.content).state)
            && (s.table[r.key.value].expiresAt >= now ==>
                  Step(handler, hash, ttl, t, Arrives(r)) == (t, Some(Sent(s.table[r.key.value].reply))))
  {
  }

  // ---------------------------------------------------------------- the reference: exactly once per key

  /** What the first successful request of a key was and got. */
  datatype First = First(requestHash: string, reply: Reply)

  /** A re-send carries a key that has succeeded before, with the same hash. */
  predicate IsResend(hash: Content -> string, seen: map<string, First>, e: Event) {
    e.Arrives? && KeyError(e.r.key).None? && e.r.key.value in seen && seen[e.r.key.value].requestHash == hash(e.r.content)
  }

  /** The reference runs the handler for a request with a good key that has not succeeded before. */
  predicate Executes(seen: map<string, First>, e: Event) {
    e.Arrives? && KeyError(e.r.key).None? && e.r.key.value !in seen
  }

  function AppAfter<S>(handler: (S, Content) -> Handled<S>, app: S, seen: map<string, First>, e: Event): S {
    if Executes(seen, e) then handler(app, e.r.content).state else app
  }

  /** The reference keeps no table and forgets nothing. */
  function Advance<S>(handler: (S, Content) -> Handled<S>, hash: Content -> string, app: S, seen: map<string, First>, e: Event)
    : map<string, First>
  {
    if Executes(seen, e) && handler(app, e.r.content).Answered?
    then seen[e.r.key.value := First(hash(e.r.content), handler(app, e.r.content).reply)]
    else seen
  }

  /** A re-send gets the reply of the first success, a mismatch is refused. */
  function IdealAnswer<S>(handler: (S, Content) -> Handled<S>, hash: Content -> string, app: S, seen: map<string, First>, e: Event)
    : Option<Answer>
  {
    if e.Cleanup? then None
    else if KeyError(e.r.key).Some? then Some(Refused(KeyError(e.r.key).value))
    else if e.r.key.value in seen then Some(if IsResend(hash, seen, e) then Sent(seen[e.r.key.value].reply) else Refused(KeyReused))
    else match handler(app, e.r.content)
      case Threw(_, error) => Some(HandlerError(error))
      case Answered(_, reply) => Some(Sent(reply))
  }

  /** Which events are not re-sends. */
  function Kept<S>(handler: (S, Content) -> Handled<S>, hash: Content -> string, app: S, seen: map<string, First>, events: seq<Event>)
    : seq<bool>
    decreases |events|
  {
    if events == [] then [] else
      [!IsResend(hash, seen, events[0])]
      + Kept(handler, hash, AppAfter(handler, app, seen, events[0]), Advance(handler, hash, app, seen, events[0]), events[1..])
  }

  /** A request that runs the handler and is answered: the first success of its key. */
  predicate Succeeds<S>(handler: (S, Content) -> Handled<S>, app: S, seen: map<string, First>, e: Event) {
    Executes(seen, e) && handler(app, e.r.content).Answered?
  }

  /** Which events are the first success of their key. */
  function Firsts<S>(handler: (S, Content) -> Handled<S>, hash: Content -> string, app: S, seen: map<string, First>, events: seq<Event>)
    : (marks: seq<bool>)
    ensures |marks| == |events|
    decreases |events|
  {
    if events == [] then [] else
      [Succeeds(handler, app, seen, events[0])]
      + Firsts(handler, hash, AppAfter(handler, app, seen, events[0]), Advance(handler, hash, app, seen, events[0]), events[1..])
  }

  function Ideal<S>(handler: (S, Content) -> Handled<S>, hash: Content -> string, app: S, seen: map<string, First>, events: seq<Event>)
    : seq<Option<Answer>>
    decreases |events|
  {
    if events == [] then [] else
      [IdealAnswer(handler, hash, app, seen, events[0])]
      + Ideal(handler, hash, AppAfter(handler, app, seen, events[0]), Advance(handler, hash, app, seen, events[0]), events[1..])
  }

  function Select<T>(xs: seq<T>, keep: seq<bool>): seq<T>
    requires |xs| == |keep|
  {
    if xs == [] then [] else (if keep[0] then [xs[0]] else []) + Select(xs[1..], keep[1..])
  }

  lemma {:induction false} KeptLength<S>(handler: (S, Content) -> Handled<S>, hash: Content -> string, app: S, seen: map<string, First>, events: seq<Event>)
    ensures |Kept(handler, hash, app, seen, events)| == |events|
    decreases |events|
  {
    if events != [] {
      KeptLength(handler, hash, AppAfter(handler, app, seen, events[0]), Advance(handler, hash, app, seen, events[0]), events[1..]);
    }
  }

  lemma {:induction false} RunLength<S>(handler: (S, Content) -> Handled<S>, hash: Content -> string, ttl: int, s: System<S>, events: seq<Event>)
    ensures |Run(handler, hash, ttl, s, events).1| == |events|
    decreases |events|
  {
    if events != [] { RunLength(handler, hash, ttl, Step(handler, hash, ttl, s, events[0]).0, events[1..]); }
  }

  // ---------------------------------------------------------------- the conditions, read off the trace

  predicate Carries(e: Event, k: string) {
    e.Arrives? && e.r.key == Some(k)
  }

  /** The stores of first successes go through; those of other requests are never tried. */
  ghost predicate StoresSucceed(events: seq<Event>, firsts: seq<bool>)
    requires |firsts| == |events|
  {
    forall i :: 0 <= i < |events| && firsts[i] && events[i].Arrives? ==> events[i].r.storeOk
  }

  /** No cleanup that runs between the first success of a key and a later request of that key runs later than the expiry. */
  ghost predicate InTime(ttl: int, events: seq<Event>, firsts: seq<bool>)
    requires |firsts| == |events|
  {
    forall i, j, l :: (0 <= i < j < l < |events| && firsts[i] && events[i].Arrives? && events[j].Cleanup? && events[l].Arrives?
                       && events[i].r.key == events[l].r.key)
                      ==> events[j].now <= events[i].r.now + ttl
  }

  /** The rows of keys still to be requested outlive every cleanup before that. */
  ghost predicate Safe(table: Table, events: seq<Event>) {
    forall k, j, l :: k in table && 0 <= j < l < |events| && events[j].Cleanup? && Carries(events[l], k)
      ==> events[j].now <= table[k].expiresAt
  }

  /** For the keys still to be requested the table holds exactly the first successes. */
  ghost predicate Agrees(table: Table, seen: map<string, First>, events: seq<Event>) {
    forall k, l :: 0 <= l < |events| && Carries(events[l], k) ==>
      (k in table <==> k in seen) && (k in table ==> seen[k] == First(table[k].requestHash, table[k].reply))
  }

  lemma TailConditions(ttl: int, table: Table, seen: map<string, First>, events: seq<Event>, firsts: seq<bool>)
    requires events != [] && |firsts| == |events| && StoresSucceed(events, firsts) && InTime(ttl, events, firsts)
    requires Safe(table, events) && Agrees(table, seen, events)
    ensures StoresSucceed(events[1..], firsts[1..]) && InTime(ttl, events[1..], firsts[1..])
    ensures Safe(table, events[1..]) && Agrees(table, seen, events[1..])
  {
    var rest, marks := events[1..], firsts[1..];
    assert forall i :: 0 <= i < |rest| ==> rest[i] == events[i + 1];
    forall k, l | 0 <= l < |rest| && Carries(rest[l], k)
      ensures (k in table <==> k in seen) && (k in table ==> seen[k] == First(table[k].requestHash, table[k].reply))
    {
      assert Carries(events[l + 1], k);
    }
    forall k, j, l | k in table && 0 <= j < l < |rest| && rest[j].Cleanup? && Carries(rest[l], k)
      ensures rest[j].now <= table[k].expiresAt
    {
      assert Carries(events[l + 1], k) && events[j + 1].Cleanup?;
    }
    forall i, j, l | 0 <= i < j < l < |rest| && marks[i] && rest[i].Arrives? && rest[j].Cleanup? && rest[l].Arrives? && rest[i].r.key == rest[l].r.key
      ensures rest[j].now <= rest[i].r.now + ttl
    {
      assert firsts[i + 1] && events[i + 1].Arrives? && events[j + 1].Cleanup? && events[l + 1].Arrives?;
    }
  }

  /** A cleanup takes no row that a later request still needs. */
  lemma CleanupConditions(table: Table, seen: map<string, First>, events: seq<Event>)
    requires events != [] && events[0].Cleanup?
    requires Safe(table, events[1..]) && Agrees(table, seen, events[1..])
    requires Safe(table, events) && Agrees(table, seen, events)
    ensures Safe(Expire(table, events[0].now), events[1..]) && Agrees(Expire(table, events[0].now), seen, events[1..])
  {
    var rest := events[1..];
    forall k, l | 0 <= l < |rest| && Carries(rest[l], k) && k in table
      ensures k in Expire(table, events[0].now)
    {
      assert Carries(events[l + 1], k);
    }
  }

  /** A first success is stored where the later requests of its key find it. */
  lemma StoreConditions(ttl: int, table: Table, seen: map<string, First>, events: seq<Event>, firsts: seq<bool>, row: Stored)
    requires |firsts| == |events| && InTime(ttl, events, firsts)
    requires events != [] && events[0].Arrives? && events[0].r.key.Some? && row.expiresAt == events[0].r.now + ttl
    requires firsts[0] && Safe(table, events[1..]) && Agrees(table, seen, events[1..])
    ensures Safe(table[events[0].r.key.value := row], events[1..])
    ensures Agrees(table[events[0].r.key.value := row], seen[events[0].r.key.value := First(row.requestHash, row.reply)], events[1..])
  {
    var rest, key := events[1..], events[0].r.key.value;
    forall k, j, l | k in table[key := row] && 0 <= j < l < |rest| && rest[j].Cleanup? && Carries(rest[l], k)
      ensures rest[j].now <= table[key := row][k].expiresAt
    {
      assert events[j + 1] == rest[j] && events[l + 1] == rest[l];
    }
  }

  // ---------------------------------------------------------------- replay is deduplication

  /** From any table and reference that agree on the keys to come. */
  lemma {:induction false} Deduplication<S>(handler: (S, Content) -> Handled<S>, hash: Content -> string, ttl: int,
                                            s: System<S>, seen: map<string, First>, events: seq<Event>)
    requires var firsts := Firsts(handler, hash, s.app, seen, events); StoresSucceed(events, firsts) && InTime(ttl, events, firsts)
    requires Safe(s.table, events) && Agrees(s.table, seen, events)
    ensures |Kept(handler, hash, s.app, seen, events)| == |events|
    ensures |Run(handler, hash, ttl, s, events).1| == |events|
    ensures Run(handler, hash, ttl, s, events).1 == Ideal(handler, hash, s.app, seen, events)
    ensures var keep := Kept(handler, hash, s.app, seen, events);
            Run(handler, hash, ttl, s, Select(events, keep))
            == (Run(handler, hash, ttl, s, events).0, Select(Run(handler, hash, ttl, s, events).1, keep))
    decreases |events|
  {
    KeptLength(handler, hash, s.app, seen, events);
    RunLength(handler, hash, ttl, s, events);
    if events != [] {
      var firsts := Firsts(handler, hash, s.app, seen, events);
      TailConditions(ttl, s.table, seen, events, firsts);
      NextConditions(handler, hash, ttl, s, seen, events, firsts);
      HeadAgrees(handler, hash, ttl, s, seen, events);
      var (s1, a) := Step(handler, hash, ttl, s, events[0]);
      var seen1 := Advance(handler, hash, s.app, seen, events[0]);
      Deduplication(handler, hash, ttl, s1, seen1, events[1..]);
      var k, keep1 := !IsResend(hash, seen, events[0]), Kept(handler, hash, s1.app, seen1, events[1..]);
      SelectCons(a, Run(handler, hash, ttl, s1, events[1..]).1, k, keep1);
      SelectCons(events[0], events[1..], k, keep1);
      assert [events[0]] + events[1..] == events;
      if k {
        RunCons(handler, hash, ttl, s, events[0], Select(events[1..], keep1));
      }
    }
  }

  lemma RunCons<S>(handler: (S, Content) -> Handled<S>, hash: Content -> string, ttl: int, s: System<S>, e: Event, events: seq<Event>)
    ensures var (s1, a) := Step(handler, hash, ttl, s, e);
            var (s2, rest) := Run(handler, hash, ttl, s1, events);
            Run(handler, hash, ttl, s, [e] + events) == (s2, [a] + rest)
  {
    assert ([e] + events)[1..] == events;
  }

  lemma SelectCons<T>(x: T, xs: seq<T>, k: bool, keep: seq<bool>)
    requires |xs| == |keep|
    ensures Select([x] + xs, [k] + keep) == if k then [x] + Select(xs, keep) else Select(xs, keep)
  {
    assert ([x] + xs)[1..] == xs && ([k] + keep)[1..] == keep;
  }

  /** On the head of a trace the server and the reference answer alike and move the application alike, and an event the
      reference drops changes nothing on the server. */
  lemma HeadAgrees<S>(handler: (S, Content) -> Handled<S>, hash: Content -> string, ttl: int,
                      s: System<S>, seen: map<string, First>, events: seq<Event>)
    requires events != [] && Agrees(s.table, seen, events)
    ensures var (s1, a) := Step(handler, hash, ttl, s, events[0]);
            && a == IdealAnswer(handler, hash, s.app, seen, events[0])
            && s1.app == AppAfter(handler, s.app, seen, events[0])
            && (IsResend(hash, seen, events[0]) ==> s1 == s)
  {
    var e := events[0];
    if e.Arrives? && KeyError(e.r.key).None? { assert Carries(e, e.r.key.value); }
  }

  lemma NextConditions<S>(handler: (S, Content) -> Handled<S>, hash: Content -> string, ttl: int,
                          s: System<S>, seen: map<string, First>, events: seq<Event>, firsts: seq<bool>)
    requires events != [] && |firsts| == |events| && StoresSucceed(events, firsts) && InTime(ttl, events, firsts)
    requires firsts[0] == Succeeds(handler, s.app, seen, events[0])
    requires Safe(s.table, events) && Agrees(s.table, seen, events)
    ensures var s1 := Step(handler, hash, ttl, s, events[0]).0;
            Safe(s1.table, events[1..]) && Agrees(s1.table, Advance(handler, hash, s.app, seen, events[0]), events[1..])
  {
    TailConditions(ttl, s.table, seen, events, firsts);
    match events[0]
    case Cleanup(now) => CleanupConditions(s.table, seen, events);
    case Arrives(r) =>
      if KeyError(r.key).None? {
        assert Carries(events[0], r.key.value);
        var h := handler(s.app, r.content);
        if r.key.value !in s.table && h.Answered? {
          StoreConditions(ttl, s.table, seen, events, firsts, Stored(hash(r.content), h.reply, r.now + ttl));
        }
      }
  }

  /** From an empty key table, when first successes are stored and their keys are re-sent before they can be cleaned up: the trace with
      re-sends ends in the same state as the trace without them, kept requests get the same answers in both, and every
      request is answered as by the reference that executes each key once. */
  lemma ReplayIsDeduplication<S>(handler: (S, Content) -> Handled<S>, hash: Content -> string, ttl: int, app: S, events: seq<Event>)
    requires var firsts := Firsts(handler, hash, app, map[], events); StoresSucceed(events, firsts) && InTime(ttl, events, firsts)
    ensures var s := System(app, map[]);
            var keep := Kept(handler, hash, app, map[], events);
            && |keep| == |events| && |Run(handler, hash, ttl, s, events).1| == |events|
            && Run(handler, hash, ttl, s, Select(events, keep)).0 == Run(handler, hash, ttl, s, events).0
            && Run(handler, hash, ttl, s, Select(events, keep)).1 == Select(Run(handler, hash, ttl, s, events).1, keep)
            && Run(handler, hash, ttl, s, events).1 == Ideal(handler, hash, app, map[], events)
  {
    Deduplication(handler, hash, ttl, System(app, map[]), map[], events);
  }

  // ---------------------------------------------------------------- one key over any run

  /** A stored key survives any traffic and any cleanup up to its expiry: its re-send is answered from the row and a
      request with another hash is refused, both without any change. */
  lemma {:induction false} StoredKeyIsStable<S>(handler: (S, Content) -> Handled<S>, hash: Content -> string, ttl: int,
                                                s: System<S>, events: seq<Event>, r: Request)
    requires KeyError(r.key).None? && r.key.value in s.table
    requires forall e :: e in events && e.Cleanup? ==> e.now <= s.table[r.key.value].expiresAt
    ensures var s' := Run(handler, hash, ttl, s, events).0;
            Step(handler, hash, ttl, s', Arrives(r)) ==
              (s', Some(if s.table[r.key.value].requestHash == hash(r.content) then Sent(s.table[r.key.value].reply)
                        else Refused(KeyReused)))
    decreases |events|
  {
    if events != [] {
      var s1 := Step(handler, hash, ttl, s, events[0]).0;
      assert events[0] in events;
      assert s1.table[r.key.value] == s.table[r.key.value];
      assert forall e :: e in events[1..] ==> e in events;
      StoredKeyIsStable(handler, hash, ttl, s1, events[1..], r);
    }
  }

  /** The provisos are needed: after a store that fails, the re-send runs the handler again. */
  lemma FailedStoreRunsTwice<S>(handler: (S, Content) -> Handled<S>, hash: Content -> string, ttl: int, s: System<S>, r: Request)
    requires Guard(hash, s.table, r) == Proceed && !r.storeOk
    ensures Run(handler, hash, ttl, s, [Arrives(r), Arrives(r)]).0.app
            == handler(handler(s.app, r.content).state, r.content).state
  {
    var s1 := Step(handler, hash, ttl, s, Arrives(r)).0;
    var two := [Arrives(r), Arrives(r)];
    assert two[1..] == [Arrives(r)];
    assert Run(handler, hash, ttl, s, two).0 == Run(handler, hash, ttl, s1, two[1..]).0;
    assert Run(handler, hash, ttl, s1, [Arrives(r)]).0 == Step(handler, hash, ttl, s1, Arrives(r)).0;
  }

  /** Requests that overlap, both guarded before either is stored, run the handler twice. */
  lemma OverlapRunsTwice<S>(handler: (S, Content) -> Handled<S>, hash: Content -> string, ttl: int, s: System<S>, r: Request)
    requires Guard(hash, s.table, r) == Proceed
    ensures var v := Guard(hash, s.table, r);
            Intercept(handler, hash, ttl, Intercept(handler, hash, ttl, s, r, v).0, r, v).0.app
            == handler(handler(s.app, r.content).state, r.content).state
  {
  }

  // ---------------------------------------------------------------- the classes

  class HttpRequest {
    const header: Option<string>
    const content: Content
    var idempotencyKey: Option<string>
    var requestHash: Option<string>
    var idempotencyResponse: Option<Reply>

    constructor (header: Option<string>, content: Content)
      ensures this.header == header && this.content == content
      ensures idempotencyKey.None? && requestHash.None? && idempotencyResponse.None?
    {
      this.header, this.content := header, content;
      idempotencyKey, requestHash, idempotencyResponse := None, None, None;
    }

    /** The request as the step functions see it. */
    function View(now: int, storeOk: bool): Request {
      Request(header, content, now, storeOk)
    }
  }

  class IdempotencyService {
    const hash: Content -> string
    const ttl: int
    var repo: Table

    constructor (hash: Content -> string, ttl: int)
      ensures this.hash == hash && this.ttl == ttl && repo == map[]
    {
      this.hash, this.ttl, repo := hash, ttl, map[];
    }

    method FindByKey(key: string) returns (row: Option<Stored>)
      ensures row == if key in repo then Some(repo[key]) else None
    {
      row := if key in repo then Some(repo[key]) else None;
    }

    method Store(key: string, requestHash: string, reply: Reply, now: int, ok: bool) returns (stored: bool)
      modifies this
      ensures stored == ok && repo == if ok then old(repo)[key := Stored(requestHash, reply, now + ttl)] else old(repo)
    {
      if ok { repo := repo[key := Stored(requestHash, reply, now + ttl)]; }
      stored := ok;
    }

    method CleanUp(now: int) returns (affected: int)
      modifies this
      ensures repo == Expire(old(repo), now) && affected == |old(repo)| - |repo|
      ensures forall k :: k in repo <==> k in old(repo) && old(repo)[k].expiresAt >= now
    {
      var before := |repo|;
      repo := map k | k in repo && !(repo[k].expiresAt < now) :: repo[k];
      affected := before - |repo|;
    }

    /** canActivate on an idempotent route: what it answers and what it writes onto the request. */
    method CanActivate(request: HttpRequest, now: int, storeOk: bool) returns (e: Option<GuardError>)
      modifies request
      ensures var n := if request.header.None? then 0 else |request.header.value|;
              && (e == Some(KeyRequired) <==> n == 0)
              && (e == Some(KeyTooShort) <==> 1 <= n <= 15)
              && (e == Some(KeyTooLong) <==> n > 255)
              && (e == Some(KeyReused) <==>
                    16 <= n <= 255 && request.header.value in repo && repo[request.header.value].requestHash != hash(request.content))
      ensures var v := Guard(hash, repo, request.View(now, storeOk));
              match v
              case Reject(error) => e == Some(error) && unchanged(request)
              case Replay(reply) =>
                e == None && request.idempotencyResponse == Some(reply)
                && request.idempotencyKey == request.header && request.requestHash == Some(hash(request.content))
              case Proceed =>
                e == None && request.idempotencyResponse == old(request.idempotencyResponse)
                && request.idempotencyKey == request.header && request.requestHash == Some(hash(request.content))
    {
      if request.header.None? || request.header.value == "" { return Some(KeyRequired); }
      var key := request.header.value;
      if |key| < MIN_KEY_LENGTH { return Some(KeyTooShort); }
      if |key| > MAX_KEY_LENGTH { return Some(KeyTooLong); }
      var requestHash := hash(request.content);
      var existing := FindByKey(key);
      if existing.Some? {
        if existing.value.requestHash != requestHash { return Some(KeyReused); }
        request.idempotencyResponse := Some(existing.value.reply);
      }
      request.idempotencyKey := Some(key);
      request.requestHash := Some(requestHash);
      e := None;
    }
  }

  /** The application behind the guard and the interceptor. */
  class Server<S> {
    const idempotency: IdempotencyService
    const handler: (S, Content) -> Handled<S>
    var app: S

    constructor (idempotency: IdempotencyService, handler: (S, Content) -> Handled<S>, app: S)
      ensures this.idempotency == idempotency && this.handler == handler && this.app == app
    {
      this.idempotency, this.handler, this.app := idempotency, handler, app;
    }

    ghost function Now(): System<S>
      reads this, idempotency
    {
      System(app, idempotency.repo)
    }

    /** One request to an idempotent route, guard and interceptor with nothing in between, is one step; any other route
        just runs the handler. */
    method Serve(idempotent: bool, header: Option<string>, content: Content, now: int, storeOk: bool) returns (a: Answer)
      modifies this`app, idempotency
      ensures idempotent ==>
                (Now(), Some(a)) == Step(handler, idempotency.hash, idempotency.ttl, old(Now()),
                                         Arrives(Request(header, content, now, storeOk)))
      ensures !idempotent ==> Now() == System(handler(old(app), content).state, old(idempotency.repo))
      ensures !idempotent ==> a == match handler(old(app), content)
                                   case Answered(_, reply) => Sent(reply)
                                   case Threw(_, error) => HandlerError(error)
    {
      var request := new HttpRequest(header, content);
      if idempotent {
        var e := idempotency.CanActivate(request, now, storeOk);
        if e.Some? { return Refused(e.value); }
      }
      if request.idempotencyResponse.Some? { return Sent(request.idempotencyResponse.value); }
      var outcome := handler(app, content);
      app := outcome.state;
      if outcome.Threw? { return HandlerError(outcome.error); }
      if request.idempotencyKey.None? || request.requestHash.None? { return Sent(outcome.reply); }
      var stored := idempotency.Store(request.idempotencyKey.value, request.requestHash.value, outcome.reply, now, storeOk);
      a := Sent(outcome.reply);
    }
  }
}
