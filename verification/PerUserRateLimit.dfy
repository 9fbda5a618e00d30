/** The per-user fixed window: a counter that restarts at the first call after its window has run out. */
module PerUserRateLimit {
  import opened Common

  const WINDOW_MS := 60_000

  datatype Category = Read | Write

  function LimitOf(category: Category): int {
    match category
    case Read => 100
    case Write => 20
  }

  function Categorize(httpMethod: string): Category {
    if Upper(httpMethod) in {"GET", "HEAD", "OPTIONS"} then Read else Write
  }

  /** The stored row of one user and endpoint. */
  datatype Record = Record(requestCount: int, windowStart: int)

  datatype Verdict = Verdict(allowed: bool, remaining: int, resetAt: int, limit: int)

  // ---------------------------------------------------------------- one call

  predicate WindowExpired(r: Record, now: int) {
    r.windowStart < now - WINDOW_MS
  }

  function Check(record: Option<Record>, now: int, limit: int): (Record, Verdict) {
    if record.None? || WindowExpired(record.value, now) then
      (Record(1, now), Verdict(true, limit - 1, now + WINDOW_MS, limit))
    else
      var r := record.value;
      var allowed := r.requestCount < limit;
      (if allowed then r.(requestCount := r.requestCount + 1) else r,
       Verdict(allowed, Max(0, limit - r.requestCount - (if allowed then 1 else 0)), r.windowStart + WINDOW_MS, limit))
  }

  // ---------------------------------------------------------------- a run of calls of one user to one endpoint

  datatype Call = Call(now: int, category: Category)

  datatype State = State(record: Option<Record>, admitted: seq<int>)

  function After(s: State, c: Call): State {
    var (r, v) := Check(s.record, c.now, LimitOf(c.category));
    State(Some(r), if v.allowed then s.admitted + [c.now] else s.admitted)
  }

  function Run(calls: seq<Call>): State {
    if calls == [] then State(None, []) else After(Run(calls[..|calls| - 1]), calls[|calls| - 1])
  }

  /** The calls do not go back in time, none is later than now, and none has a limit above most. */
  ghost predicate Timeline(calls: seq<Call>, now: int, most: int) {
    (forall i, j :: 0 <= i < j < |calls| ==> calls[i].now <= calls[j].now)
    && (forall i :: 0 <= i < |calls| ==> calls[i].now <= now && LimitOf(calls[i].category) <= most)
  }

  function CountFrom(s: seq<int>, lo: int): nat {
    if s == [] then 0 else CountFrom(s[..|s| - 1], lo) + (if lo <= s[|s| - 1] then 1 else 0)
  }

  lemma CountFromAppend(s: seq<int>, x: int, lo: int)
    ensures CountFrom(s + [x], lo) == CountFrom(s, lo) + (if lo <= x then 1 else 0)
  {
    assert (s + [x])[..|s|] == s;
  }

  lemma {:induction false} CountFromMonotone(s: seq<int>, lo: int, hi: int)
    requires lo <= hi
    ensures CountFrom(s, hi) <= CountFrom(s, lo)
    ensures InInterval(s, hi, hi + WINDOW_MS + 1) <= CountFrom(s, hi)
  {
    if s != [] { CountFromMonotone(s[..|s| - 1], lo, hi); }
  }

  lemma {:induction false} CountFromBeyond(s: seq<int>, lo: int)
    requires forall i :: 0 <= i < |s| ==> s[i] < lo
    ensures CountFrom(s, lo) == 0
  {
    if s != [] { CountFromBeyond(s[..|s| - 1], lo); }
  }

  // ---------------------------------------------------------------- the invariant of the counter

  /** The counter is the number of calls admitted since the window opened, the one that opened it included; of the calls
      admitted before, fewer than the limit fall into the window length before the opening. */
  ghost predicate Inv(s: State, now: int, most: int) {
    match s.record
    case None => s.admitted == []
    case Some(r) =>
      && 1 <= r.requestCount <= most && r.windowStart <= now
      && CountFrom(s.admitted, r.windowStart) == r.requestCount
      && CountFrom(s.admitted, r.windowStart - WINDOW_MS) <= r.requestCount + most - 1
      && CountFrom(s.admitted, r.windowStart + 1) <= r.requestCount - 1
      && (forall i :: 0 <= i < |s.admitted| ==> s.admitted[i] <= Min(now, r.windowStart + WINDOW_MS))
  }

  lemma RestartKeepsInv(s: State, now: int, last: int, most: int)
    requires Inv(s, last, most) && last <= now && 1 <= most
    requires s.record.Some? ==> WindowExpired(s.record.value, now)
    ensures Inv(State(Some(Record(1, now)), s.admitted + [now]), now, most)
  {
    if s.record.Some? {
      CountFromMonotone(s.admitted, s.record.value.windowStart + 1, now - WINDOW_MS);
    }
    CountFromBeyond(s.admitted, now);
    CountFromMonotone(s.admitted, now, now + 1);
    CountFromAppend(s.admitted, now, now);
    CountFromAppend(s.admitted, now, now - WINDOW_MS);
    CountFromAppend(s.admitted, now, now + 1);
  }

  lemma AdmissionKeepsInv(s: State, now: int, last: int, most: int)
    requires Inv(s, last, most) && last <= now
    requires s.record.Some? && !WindowExpired(s.record.value, now) && s.record.value.requestCount < most
    ensures Inv(State(Some(s.record.value.(requestCount := s.record.value.requestCount + 1)), s.admitted + [now]), now, most)
  {
    var w := s.record.value.windowStart;
    CountFromAppend(s.admitted, now, w);
    CountFromAppend(s.admitted, now, w - WINDOW_MS);
    CountFromAppend(s.admitted, now, w + 1);
  }

  lemma CallKeepsInv(s: State, c: Call, last: int, most: int)
    requires Inv(s, last, most) && last <= c.now && LimitOf(c.category) <= most
    ensures Inv(After(s, c), c.now, most)
  {
    if s.record.None? || WindowExpired(s.record.value, c.now) {
      RestartKeepsInv(s, c.now, last, most);
    } else if s.record.value.requestCount < LimitOf(c.category) {
      AdmissionKeepsInv(s, c.now, last, most);
    }
  }

  lemma {:induction false} RunKeepsInv(calls: seq<Call>, now: int, most: int)
    requires Timeline(calls, now, most)
    ensures calls != [] ==> Inv(Run(calls), calls[|calls| - 1].now, most)
  {
    if calls != [] {
      var before, c := calls[..|calls| - 1], calls[|calls| - 1];
      RunKeepsInv(before, now, most);
      CallKeepsInv(Run(before), c, if before == [] then c.now else before[|before| - 1].now, most);
    }
  }

  lemma CallKeepsBound(s: State, c: Call, most: int, lo: int)
    requires Inv(After(s, c), c.now, most)
    requires InInterval(s.admitted, lo, lo + WINDOW_MS + 1) <= 2 * most - 1
    ensures InInterval(After(s, c).admitted, lo, lo + WINDOW_MS + 1) <= 2 * most - 1
  {
    var s' := After(s, c);
    if s'.admitted != s.admitted {
      InIntervalAppend(s.admitted, c.now, lo, lo + WINDOW_MS + 1);
      if lo <= c.now <= lo + WINDOW_MS {
        CountFromMonotone(s'.admitted, s'.record.value.windowStart - WINDOW_MS, lo);
      }
    }
  }

  /** Any closed interval as long as the window, up to its last millisecond, admits at most 2 L - 1 calls, L the largest limit in
      use. */
  lemma {:induction false} BurstBound(calls: seq<Call>, now: int, most: int, lo: int)
    requires most >= 1 && Timeline(calls, now, most)
    ensures InInterval(Run(calls).admitted, lo, lo + WINDOW_MS + 1) <= 2 * most - 1
  {
    if calls != [] {
      var before, c := calls[..|calls| - 1], calls[|calls| - 1];
      BurstBound(before, now, most, lo);
      RunKeepsInv(calls, now, most);
      CallKeepsBound(Run(before), c, most, lo);
    }
  }

  /** The count the usage report shows is the number of calls admitted since the window opened. */
  lemma UsageIsExact(calls: seq<Call>, now: int, most: int)
    requires calls != [] && Timeline(calls, now, most)
    ensures var s := Run(calls);
            s.record.Some? && s.record.value.requestCount == CountFrom(s.admitted, s.record.value.windowStart)
  {
    RunKeepsInv(calls, now, most);
  }

  /** A refused caller is admitted again exactly one millisecond after the reported resetAt: a call at resetAt itself is
      still refused. */
  lemma ResetAtIsOneEarly(s: State, now: int, category: Category, later: int)
    requires s.record.Some? && !Check(s.record, now, LimitOf(category)).1.allowed && now <= later
    ensures Check(Some(Check(s.record, now, LimitOf(category)).0), later, LimitOf(category)).1.allowed
            <==> later > Check(s.record, now, LimitOf(category)).1.resetAt
  {
  }

  /** remaining counts exactly the further calls of this category that the same instant admits: n of them all pass if and only
      if n is at most remaining. */
  lemma RemainingIsExact(s: State, c: Call, n: nat)
    requires s.record.Some? ==> s.record.value.requestCount >= 1
    ensures var v := Check(s.record, c.now, LimitOf(c.category)).1;
            |AfterMany(After(s, c), c, n).admitted| == |After(s, c).admitted| + n <==> n <= v.remaining
  {
    var v := Check(s.record, c.now, LimitOf(c.category)).1;
    var room := if n <= v.remaining then n else v.remaining;
    RoomIsUsed(After(s, c), c, room);
    if n > v.remaining { FullStaysFull(AfterMany(After(s, c), c, room), c, n - room); AfterManySum(After(s, c), c, room, n - room); }
  }

  lemma {:induction false} RoomIsUsed(s: State, c: Call, n: nat)
    requires s.record.Some? && !WindowExpired(s.record.value, c.now)
    requires n == 0 || s.record.value.requestCount + n <= LimitOf(c.category)
    ensures AfterMany(s, c, n).record == Some(Record(s.record.value.requestCount + n, s.record.value.windowStart))
    ensures |AfterMany(s, c, n).admitted| == |s.admitted| + n
  {
    if n > 0 { RoomIsUsed(s, c, n - 1); }
  }

  lemma {:induction false} FullStaysFull(s: State, c: Call, n: nat)
    requires s.record.Some? && !WindowExpired(s.record.value, c.now) && s.record.value.requestCount >= LimitOf(c.category)
    ensures AfterMany(s, c, n) == s
  {
    if n > 0 { FullStaysFull(s, c, n - 1); }
  }

  lemma {:induction false} AfterManySum(s: State, c: Call, m: nat, n: nat)
    ensures AfterMany(AfterMany(s, c, m), c, n) == AfterMany(s, c, m + n)
  {
    if n > 0 { AfterManySum(s, c, m, n - 1); }
  }

  // ---------------------------------------------------------------- the bound is attained

  /** The calls, then n more calls c. */
  function Repeated(calls: seq<Call>, c: Call, n: nat): seq<Call> {
    if n == 0 then calls else Repeated(calls, c, n - 1) + [c]
  }

  lemma OneAdmitted(s: State, c: Call, lo: int, hi: int)
    requires s.record.Some? && s.record.value.requestCount < LimitOf(c.category)
    requires !WindowExpired(s.record.value, c.now) && lo <= c.now < hi
    ensures After(s, c).record == Some(Record(s.record.value.requestCount + 1, s.record.value.windowStart))
    ensures InInterval(After(s, c).admitted, lo, hi) == InInterval(s.admitted, lo, hi) + 1
  {
    InIntervalAppend(s.admitted, c.now, lo, hi);
  }

  function AfterMany(s: State, c: Call, n: nat): State {
    if n == 0 then s else After(AfterMany(s, c, n - 1), c)
  }

  lemma {:induction false} RunRepeated(calls: seq<Call>, c: Call, n: nat)
    ensures Run(Repeated(calls, c, n)) == AfterMany(Run(calls), c, n)
  {
    if n > 0 {
      RunRepeated(calls, c, n - 1);
      RunAppend(Repeated(calls, c, n - 1), c);
    }
  }

  /** t is s after n admitted calls in one window. */
  ghost predicate Filled(s: State, t: State, n: nat, lo: int, hi: int) {
    && s.record.Some? && t.record == Some(Record(s.record.value.requestCount + n, s.record.value.windowStart))
    && InInterval(t.admitted, lo, hi) == InInterval(s.admitted, lo, hi) + n
  }

  lemma FilledNext(s: State, t: State, c: Call, n: nat, lo: int, hi: int)
    requires Filled(s, t, n, lo, hi) && s.record.value.requestCount + n < LimitOf(c.category)
    requires !WindowExpired(s.record.value, c.now) && lo <= c.now < hi
    ensures Filled(s, After(t, c), n + 1, lo, hi)
  {
    OneAdmitted(t, c, lo, hi);
  }

  /** While the counter has room, n calls at one time inside the window are all admitted. */
  lemma {:induction false} RepeatsAdmitted(s: State, c: Call, n: nat, lo: int, hi: int)
    requires s.record.Some? && s.record.value.requestCount + n <= LimitOf(c.category)
    requires !WindowExpired(s.record.value, c.now) && lo <= c.now < hi
    ensures Filled(s, AfterMany(s, c, n), n, lo, hi)
  {
    if n > 0 {
      RepeatsAdmitted(s, c, n - 1, lo, hi);
      FilledNext(s, AfterMany(s, c, n - 1), c, n - 1, lo, hi);
    }
  }

  lemma RunAppend(calls: seq<Call>, c: Call)
    ensures Run(calls + [c]) == After(Run(calls), c)
  {
    assert (calls + [c])[..|calls|] == calls;
  }

  /** One call, then L - 1 at the end of its window, then L one millisecond later. */
  function Burst(category: Category): seq<Call> {
    var l := LimitOf(category);
    var first := Repeated([Call(0, category)], Call(WINDOW_MS, category), l - 1);
    Repeated(first + [Call(WINDOW_MS + 1, category)], Call(WINDOW_MS + 1, category), l - 1)
  }

  lemma {:induction false} RepeatedTimeline(calls: seq<Call>, c: Call, n: nat, most: int)
    requires Timeline(calls, c.now, most) && LimitOf(c.category) <= most
    ensures Timeline(Repeated(calls, c, n), c.now, most)
  {
    if n > 0 { RepeatedTimeline(calls, c, n - 1, most); }
  }

  lemma BurstIsTimeline(category: Category)
    ensures Timeline(Burst(category), WINDOW_MS + 1, LimitOf(category))
  {
    var l := LimitOf(category);
    var c1, c2, c3 := Call(0, category), Call(WINDOW_MS, category), Call(WINDOW_MS + 1, category);
    RepeatedTimeline([c1], c2, l - 1, l);
    RepeatedTimeline(Repeated([c1], c2, l - 1) + [c3], c3, l - 1, l);
  }

  const FIRST := State(Some(Record(1, 0)), [0])

  lemma BurstRun(category: Category)
    ensures var (l, c2, c3) := (LimitOf(category), Call(WINDOW_MS, category), Call(WINDOW_MS + 1, category));
            Run(Burst(category)) == AfterMany(After(AfterMany(FIRST, c2, l - 1), c3), c3, l - 1)
  {
    var l := LimitOf(category);
    var c1, c2, c3 := Call(0, category), Call(WINDOW_MS, category), Call(WINDOW_MS + 1, category);
    RunAppend([], c1);
    assert [] + [c1] == [c1] && [] + [0] == [0];
    RunRepeated([c1], c2, l - 1);
    RunAppend(Repeated([c1], c2, l - 1), c3);
    RunRepeated(Repeated([c1], c2, l - 1) + [c3], c3, l - 1);
  }

  /** A full window that has run out, and a full one after it. */
  lemma SecondWindow(s: State, category: Category, l: nat)
    requires l == LimitOf(category) && s.record == Some(Record(l, 0))
    ensures var c3 := Call(WINDOW_MS + 1, category);
            InInterval(AfterMany(After(s, c3), c3, l - 1).admitted, WINDOW_MS, 2 * WINDOW_MS + 1)
            == InInterval(s.admitted, WINDOW_MS, 2 * WINDOW_MS + 1) + l
  {
    var c3 := Call(WINDOW_MS + 1, category);
    InIntervalAppend(s.admitted, c3.now, WINDOW_MS, 2 * WINDOW_MS + 1);
    RepeatsAdmitted(After(s, c3), c3, l - 1, WINDOW_MS, 2 * WINDOW_MS + 1);
  }

  /** This run, on a clock that does not go back, admits 2 L - 1 calls in the sixty seconds from the end of the first window. */
  lemma BurstAttainsBound(category: Category)
    ensures InInterval(Run(Burst(category)).admitted, WINDOW_MS, 2 * WINDOW_MS + 1) == 2 * LimitOf(category) - 1
  {
    var l := LimitOf(category);
    BurstRun(category);
    InIntervalAppend([], 0, WINDOW_MS, 2 * WINDOW_MS + 1);
    assert [] + [0] == [0];
    RepeatsAdmitted(FIRST, Call(WINDOW_MS, category), l - 1, WINDOW_MS, 2 * WINDOW_MS + 1);
    SecondWindow(AfterMany(FIRST, Call(WINDOW_MS, category), l - 1), category, l);
  }

  // ---------------------------------------------------------------- what one call answers

  /** Reading methods have a limit of 100, all others of 20, in capitals or not. */
  lemma LimitExactly(httpMethod: string)
    ensures LimitOf(Categorize(httpMethod))
            == if Upper(httpMethod) == "GET" || Upper(httpMethod) == "HEAD" || Upper(httpMethod) == "OPTIONS" then 100 else 20
  {
  }

  /** The verdict and the row of one call. Without a row, or with one whose sixty seconds ended before now, a new window opens with this
      call. In a running window the call is admitted, and counted, if and only if the count is below the limit; a refusal changes
      nothing. What remains is never negative. */
  lemma CallExactly(record: Option<Record>, now: int, limit: int)
    ensures var (row, v) := Check(record, now, limit);
            var opens := record.None? || record.value.windowStart + 60_000 < now;
            && v.limit == limit && v.resetAt == row.windowStart + 60_000
            && (opens ==> row == Record(1, now) && v.allowed && v.remaining == limit - 1)
            && (!opens ==>
                  var n := record.value.requestCount;
                  && (v.allowed <==> n < limit) && row.windowStart == record.value.windowStart
                  && row.requestCount == n + (if n < limit then 1 else 0)
                  && v.remaining == (if n < limit then limit - n - 1 else 0))
  {
  }

  // ---------------------------------------------------------------- the service

  datatype Route = Route(userId: string, endpoint: string)

  class PerUserRateLimitService {
    var records: map<Route, Record>

    constructor ()
      ensures records == map[]
    {
      records := map[];
    }

    function Stored(route: Route): Option<Record>
      reads this
    {
      if route in records then Some(records[route]) else None
    }

    /** Only the caller's own row for this endpoint changes. */
    method CheckLimit(userId: string, endpoint: string, httpMethod: string, now: int) returns (v: Verdict)
      modifies this
      ensures var route := Route(userId, endpoint);
              var (r, verdict) := Check(old(Stored(route)), now, LimitOf(Categorize(httpMethod)));
              v == verdict && Stored(route) == Some(r) && forall x :: x != route ==> Stored(x) == old(Stored(x))
    {
      var route := Route(userId, endpoint);
      var limit := LimitOf(Categorize(httpMethod));
      if route !in records {
        records := records[route := Record(1, now)];
        return Verdict(true, limit - 1, now + WINDOW_MS, limit);
      }
      var record := records[route];
      if record.windowStart < now - WINDOW_MS {
        records := records[route := Record(1, now)];
        return Verdict(true, limit - 1, now + WINDOW_MS, limit);
      }
      var allowed := record.requestCount < limit;
      if allowed {
        records := records[route := record.(requestCount := record.requestCount + 1)];
      }
      v := Verdict(allowed, Max(0, limit - record.requestCount - (if allowed then 1 else 0)),
                   record.windowStart + WINDOW_MS, limit);
    }

    /** Reports the running count, or zero once the window has run out, always against the read limit. */
    method GetUsage(userId: string, endpoint: string, now: int) returns (requestCount: int, limit: int, resetAt: int)
      ensures limit == 100
      ensures match Stored(Route(userId, endpoint))
              case None => requestCount == 0 && resetAt == now + 60_000
              case Some(r) => requestCount == (if r.windowStart + 60_000 < now then 0 else r.requestCount)
                              && resetAt == r.windowStart + 60_000
    {
      var record := Stored(Route(userId, endpoint));
      limit := LimitOf(Read);
      if record.None? {
        requestCount, resetAt := 0, now + WINDOW_MS;
        return;
      }
      requestCount := if record.value.windowStart < now - WINDOW_MS then 0 else record.value.requestCount;
      resetAt := record.value.windowStart + WINDOW_MS;
    }
  }
}
