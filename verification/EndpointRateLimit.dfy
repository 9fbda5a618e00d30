/** The per-endpoint sliding window: a list of admitted times, pruned at every call. */
module EndpointRateLimit {
  import opened Common

  datatype Config = Config(maxRequests: int, windowMs: int)

  /** remaining is None for no limit at all; retryAfterMs is None where the arithmetic gives NaN. */
  datatype Decision = Decision(allowed: bool, remaining: Option<int>, retryAfterMs: Option<int>)

  // ---------------------------------------------------------------- one call

  function Prune(ts: seq<int>, windowStart: int): seq<int> {
    if ts == [] then [] else
      var before := Prune(ts[..|ts| - 1], windowStart);
      if ts[|ts| - 1] > windowStart then before + [ts[|ts| - 1]] else before
  }

  /** One call against a config: the list it leaves and its decision. */
  function Check(c: Config, ts: seq<int>, now: int): (seq<int>, Decision) {
    var recent := Prune(ts, now - c.windowMs);
    if |recent| >= c.maxRequests then
      (recent, Decision(false, Some(0), if recent == [] then None else Some(Max(recent[0] + c.windowMs - now, 1))))
    else
      (recent + [now], Decision(true, Some(c.maxRequests - |recent| - 1), Some(0)))
  }

  // ---------------------------------------------------------------- a run of calls

  /** After a run: the pruned list the service keeps, and the times of all calls ever admitted. */
  datatype State = State(timestamps: seq<int>, admitted: seq<int>)

  function Run(c: Config, calls: seq<int>): State {
    if calls == [] then State([], []) else
      var s := Run(c, calls[..|calls| - 1]);
      var now := calls[|calls| - 1];
      var (ts, d) := Check(c, s.timestamps, now);
      State(ts, if d.allowed then s.admitted + [now] else s.admitted)
  }

  ghost predicate Sorted(s: seq<int>) {
    forall i, j :: 0 <= i < j < |s| ==> s[i] <= s[j]
  }

  ghost predicate UpTo(s: seq<int>, now: int) {
    forall i :: 0 <= i < |s| ==> s[i] <= now
  }

  // ---------------------------------------------------------------- pruning

  lemma {:induction false} PruneFacts(s: seq<int>, start: int, now: int)
    requires Sorted(s) && UpTo(s, now)
    ensures Sorted(Prune(s, start)) && UpTo(Prune(s, start), now)
    ensures |Prune(s, start)| <= |s|
    ensures forall x :: x in Prune(s, start) ==> x > start
  {
    if s != [] { PruneFacts(s[..|s| - 1], start, s[|s| - 1]); }
  }

  /** Pruning again at a later start is pruning once at the later start. */
  lemma {:induction false} PruneTwice(s: seq<int>, first: int, second: int)
    requires first <= second
    ensures Prune(Prune(s, first), second) == Prune(s, second)
  {
    if s != [] {
      var before := s[..|s| - 1];
      PruneTwice(before, first, second);
      var p := Prune(s, first);
      if s[|s| - 1] > first { assert p[..|p| - 1] == Prune(before, first); }
    }
  }

  lemma {:induction false} PruneAll(s: seq<int>, start: int)
    requires forall i :: 0 <= i < |s| ==> s[i] > start
    ensures Prune(s, start) == s
  {
    if s != [] { PruneAll(s[..|s| - 1], start); }
  }

  lemma {:induction false} PruneDropsFirst(s: seq<int>, start: int)
    requires s != [] && s[0] <= start
    ensures |Prune(s, start)| < |s|
  {
    if |s| > 1 { PruneDropsFirst(s[..|s| - 1], start); }
  }

  lemma {:induction false} IntervalWithinPruned(s: seq<int>, lo: int, hi: int, start: int)
    requires start < lo
    ensures InInterval(s, lo, hi) <= |Prune(s, start)|
  {
    if s != [] { IntervalWithinPruned(s[..|s| - 1], lo, hi, start); }
  }

  lemma {:induction false} NothingBeyond(s: seq<int>, lo: int, hi: int)
    requires UpTo(s, lo - 1)
    ensures InInterval(s, lo, hi) == 0
  {
    if s != [] { NothingBeyond(s[..|s| - 1], lo, hi); }
  }

  // ---------------------------------------------------------------- every run on a clock that does not go back

  lemma {:induction false} AdmittedFacts(c: Config, calls: seq<int>, now: int)
    requires Sorted(calls) && UpTo(calls, now)
    ensures Sorted(Run(c, calls).admitted) && UpTo(Run(c, calls).admitted, now)
  {
    if calls != [] { AdmittedFacts(c, calls[..|calls| - 1], calls[|calls| - 1]); }
  }

  lemma PruneAppend(s: seq<int>, x: int, start: int)
    ensures Prune(s + [x], start) == Prune(s, start) + (if x > start then [x] else [])
  {
    assert (s + [x])[..|s|] == s;
  }

  lemma CallKeepsAgreement(kept: seq<int>, admitted: seq<int>, now: int, first: int, start: int)
    requires first <= start && Prune(kept, start) == Prune(admitted, start)
    ensures Prune(Prune(kept, first), start) == Prune(admitted, start)
    ensures Prune(Prune(kept, first) + [now], start) == Prune(admitted + [now], start)
  {
    PruneTwice(kept, first, start);
    PruneAppend(Prune(kept, first), now, start);
    PruneAppend(admitted, now, start);
  }

  /** Pruned no earlier than the last call did, the kept list and the full history are the same. */
  lemma {:induction false} KeptListIsHistory(c: Config, calls: seq<int>, start: int)
    requires Sorted(calls) && (calls != [] ==> start >= calls[|calls| - 1] - c.windowMs)
    ensures Prune(Run(c, calls).timestamps, start) == Prune(Run(c, calls).admitted, start)
  {
    if calls != [] {
      var before, now := calls[..|calls| - 1], calls[|calls| - 1];
      assert before != [] ==> calls[|before| - 1] <= now;
      KeptListIsHistory(c, before, start);
      CallKeepsAgreement(Run(c, before).timestamps, Run(c, before).admitted, now, now - c.windowMs, start);
    }
  }

  /** The pruned list decides exactly as the full history of admitted calls would. */
  lemma FullHistoryDecides(c: Config, calls: seq<int>, now: int)
    requires Sorted(calls) && UpTo(calls, now)
    ensures Check(c, Run(c, calls).timestamps, now).1.allowed
            <==> |Prune(Run(c, calls).admitted, now - c.windowMs)| < c.maxRequests
  {
    KeptListIsHistory(c, calls, now - c.windowMs);
    DecisionFrom(c, Run(c, calls).timestamps, Run(c, calls).admitted, now);
  }

  lemma DecisionFrom(c: Config, kept: seq<int>, admitted: seq<int>, now: int)
    requires Prune(kept, now - c.windowMs) == Prune(admitted, now - c.windowMs)
    ensures Check(c, kept, now).1.allowed <==> |Prune(admitted, now - c.windowMs)| < c.maxRequests
  {
  }

  /** One more admitted call keeps the bound when the history had room for it. */
  lemma AdmissionKeepsBound(c: Config, admitted: seq<int>, now: int, lo: int)
    requires InInterval(admitted, lo, lo + c.windowMs) <= c.maxRequests
    requires |Prune(admitted, now - c.windowMs)| < c.maxRequests
    ensures InInterval(admitted + [now], lo, lo + c.windowMs) <= c.maxRequests
  {
    InIntervalAppend(admitted, now, lo, lo + c.windowMs);
    if lo <= now < lo + c.windowMs { IntervalWithinPruned(admitted, lo, lo + c.windowMs, now - c.windowMs); }
  }

  /** Every half-open interval as long as the window holds at most maxRequests admitted calls. */
  lemma {:induction false} WindowBound(c: Config, calls: seq<int>, lo: int)
    requires c.maxRequests >= 0 && Sorted(calls)
    ensures InInterval(Run(c, calls).admitted, lo, lo + c.windowMs) <= c.maxRequests
  {
    if calls != [] {
      var before, now := calls[..|calls| - 1], calls[|calls| - 1];
      WindowBound(c, before, lo);
      FullHistoryDecides(c, before, now);
      if Check(c, Run(c, before).timestamps, now).1.allowed { AdmissionKeepsBound(c, Run(c, before).admitted, now, lo); }
    }
  }

  /** What a kept list always satisfies: ascending, not later than now, within the limit. */
  ghost predicate Fits(c: Config, ts: seq<int>, now: int) {
    Sorted(ts) && UpTo(ts, now) && |ts| <= c.maxRequests
  }

  /** The service's list always does. */
  lemma {:induction false} KeptListBound(c: Config, calls: seq<int>, now: int)
    requires c.maxRequests >= 1 && Sorted(calls) && UpTo(calls, now)
    ensures Fits(c, Run(c, calls).timestamps, now)
  {
    if calls != [] {
      var before, last := calls[..|calls| - 1], calls[|calls| - 1];
      assert UpTo(before, last);
      KeptListBound(c, before, last);
      KeptNext(c, Run(c, before).timestamps, last, now);
    }
  }

  lemma KeptNext(c: Config, ts: seq<int>, last: int, now: int)
    requires c.maxRequests >= 1 && Fits(c, ts, last) && last <= now
    ensures Fits(c, Check(c, ts, last).0, now)
  {
    PruneFacts(ts, last - c.windowMs, last);
  }

  /** Pruning an ascending list of later times at a later start drops something exactly when it drops the first. */
  lemma PruneLater(ts: seq<int>, start: int)
    requires Sorted(ts) && ts != []
    ensures Prune(ts, start) == ts || |Prune(ts, start)| < |ts|
    ensures Prune(ts, start) == ts <==> ts[0] > start
  {
    if ts[0] > start {
      assert forall i :: 0 <= i < |ts| ==> ts[0] <= ts[i];
      PruneAll(ts, start);
    } else {
      PruneDropsFirst(ts, start);
    }
  }

  /** What a call finds after pruning is inside the window. */
  lemma RecentFacts(c: Config, kept: seq<int>, now: int)
    requires Fits(c, kept, now)
    ensures var recent := Prune(kept, now - c.windowMs);
            Fits(c, recent, now) && forall i :: 0 <= i < |recent| ==> recent[i] > now - c.windowMs
  {
    PruneFacts(kept, now - c.windowMs, now);
    var recent := Prune(kept, now - c.windowMs);
    forall i | 0 <= i < |recent| ensures recent[i] > now - c.windowMs { assert recent[i] in recent; }
  }

  lemma RetryFrom(c: Config, kept: seq<int>, now: int, d: nat)
    requires c.maxRequests >= 1 && Fits(c, kept, now) && !Check(c, kept, now).1.allowed
    ensures var (ts, refusal) := Check(c, kept, now);
            && ts != [] && refusal.retryAfterMs == Some(ts[0] + c.windowMs - now) && ts[0] + c.windowMs - now >= 1
            && (Check(c, ts, now + d).1.allowed <==> d >= refusal.retryAfterMs.value)
  {
    RecentFacts(c, kept, now);
    PruneLater(Prune(kept, now - c.windowMs), now + d - c.windowMs);
  }

  /** After a refusal, a call d milliseconds later, with none in between, is admitted exactly when d is at least
      retryAfterMs; and the arithmetic alone already gives at least one, so the floor of one never applies. */
  lemma RetryAfterIsLeast(c: Config, calls: seq<int>, now: int, d: nat)
    requires c.maxRequests >= 1 && Sorted(calls) && UpTo(calls, now)
    requires !Check(c, Run(c, calls).timestamps, now).1.allowed
    ensures var (ts, refusal) := Check(c, Run(c, calls).timestamps, now);
            && ts != [] && refusal.retryAfterMs == Some(ts[0] + c.windowMs - now) && ts[0] + c.windowMs - now >= 1
            && (Check(c, ts, now + d).1.allowed <==> d >= refusal.retryAfterMs.value)
  {
    KeptListBound(c, calls, now);
    RetryFrom(c, Run(c, calls).timestamps, now, d);
  }

  /** The list after n calls at one instant, and how many of them were admitted. */
  function Repeated(c: Config, ts: seq<int>, now: int, n: nat): (seq<int>, nat) {
    if n == 0 then (ts, 0) else
      var (before, admitted) := Repeated(c, ts, now, n - 1);
      var (after, d) := Check(c, before, now);
      (after, admitted + (if d.allowed then 1 else 0))
  }

  ghost predicate Current(c: Config, ts: seq<int>, now: int) {
    |ts| <= c.maxRequests && forall i :: 0 <= i < |ts| ==> ts[i] > now - c.windowMs
  }

  /** On a list with nothing to prune a call at once only appends, as long as there is room. */
  lemma CallAtOnce(c: Config, ts: seq<int>, now: int)
    requires c.windowMs > 0 && Current(c, ts, now)
    ensures var (after, d) := Check(c, ts, now);
            Current(c, after, now) && (d.allowed <==> |ts| < c.maxRequests) && |after| == |ts| + (if d.allowed then 1 else 0)
  {
    PruneAll(ts, now - c.windowMs);
  }

  lemma {:induction false} RepeatedFills(c: Config, ts: seq<int>, now: int, n: nat)
    requires c.windowMs > 0 && Current(c, ts, now)
    ensures var (after, admitted) := Repeated(c, ts, now, n);
            Current(c, after, now) && |after| == |ts| + admitted && admitted == if n <= c.maxRequests - |ts| then n else c.maxRequests - |ts|
  {
    if n > 0 {
      RepeatedFills(c, ts, now, n - 1);
      CallAtOnce(c, Repeated(c, ts, now, n - 1).0, now);
    }
  }

  /** What an admitted call leaves. */
  lemma AdmittedLeaves(c: Config, kept: seq<int>, now: int)
    requires c.windowMs > 0 && Fits(c, kept, now) && Check(c, kept, now).1.allowed
    ensures var (ts, d) := Check(c, kept, now);
            Current(c, ts, now) && d.remaining == Some(c.maxRequests - |ts|)
  {
    RecentFacts(c, kept, now);
  }

  /** remaining counts exactly the further calls the same instant admits: of any n, remaining of them, or all when n is no more.
      Only a window of positive length limits calls at one instant. */
  lemma RemainingIsExact(c: Config, calls: seq<int>, now: int, n: nat)
    requires c.maxRequests >= 1 && c.windowMs > 0 && Sorted(calls) && UpTo(calls, now)
    requires Check(c, Run(c, calls).timestamps, now).1.allowed
    ensures var (ts, d) := Check(c, Run(c, calls).timestamps, now);
            && d.remaining.Some? && d.remaining.value >= 0
            && Repeated(c, ts, now, n).1 == if n <= d.remaining.value then n else d.remaining.value
  {
    KeptListBound(c, calls, now);
    AdmittedLeaves(c, Run(c, calls).timestamps, now);
    RepeatedFills(c, Check(c, Run(c, calls).timestamps, now).0, now, n);
  }

  // ---------------------------------------------------------------- what one call answers

  lemma {:induction false} PruneMembers(s: seq<int>, start: int)
    ensures forall x :: x in Prune(s, start) <==> x in s && x > start
    ensures |Prune(s, start)| == CountAfter(s, start)
  {
    if s != [] {
      var n := |s| - 1;
      PruneMembers(s[..n], start);
      assert s == s[..n] + [s[n]];
    }
  }

  /** How many of s lie after start. */
  function CountAfter(s: seq<int>, start: int): nat {
    if s == [] then 0 else CountAfter(s[..|s| - 1], start) + (if start < s[|s| - 1] then 1 else 0)
  }

  lemma {:induction false} PruneFirst(s: seq<int>, start: int)
    ensures var p := Prune(s, start);
            p != [] ==> exists i :: 0 <= i < |s| && p[0] == s[i] && s[i] > start && forall j :: 0 <= j < i ==> s[j] <= start
  {
    if s != [] {
      var n := |s| - 1;
      PruneFirst(s[..n], start);
      PruneMembers(s[..n], start);
      var before := Prune(s[..n], start);
      if before != [] {
        var i :| 0 <= i < n && before[0] == s[..n][i] && s[i] > start && forall j :: 0 <= j < i ==> s[..n][j] <= start;
        assert Prune(s, start)[0] == before[0] == s[i];
        assert forall j :: 0 <= j < i ==> s[j] == s[..n][j];
      } else if s[n] > start {
        forall j | 0 <= j < n ensures s[j] <= start { assert s[j] == s[..n][j] && s[..n][j] in s[..n]; }
        assert Prune(s, start)[0] == s[n];
      }
    }
  }

  /** The decision and the list of one call, by the entries less than a window old. It is admitted if and only if they are fewer than
      maxRequests, and then joins them; older entries go in any case. A refusal says when the first of them will be a window old, and at
      least one millisecond; with a limit below one there may be no first, and then it says nothing. */
  lemma CallExactly(c: Config, ts: seq<int>, now: int)
    ensures var (kept, d) := Check(c, ts, now);
            var n := CountAfter(ts, now - c.windowMs);
            && (d.allowed <==> n < c.maxRequests)
            && |kept| == n + (if d.allowed then 1 else 0)
            && (forall x :: x in kept <==> (x in ts && x > now - c.windowMs) || (d.allowed && x == now))
            && (d.allowed ==> kept[n] == now && d.remaining == Some(c.maxRequests - n - 1) && d.retryAfterMs == Some(0))
            && (!d.allowed ==> d.remaining == Some(0) && (d.retryAfterMs == None <==> n == 0))
            && (!d.allowed && n > 0 ==>
                  exists i :: 0 <= i < |ts| && ts[i] > now - c.windowMs && (forall j :: 0 <= j < i ==> ts[j] <= now - c.windowMs)
                              && d.retryAfterMs == Some(if ts[i] + c.windowMs - now >= 1 then ts[i] + c.windowMs - now else 1))
  {
    PruneMembers(ts, now - c.windowMs);
    PruneFirst(ts, now - c.windowMs);
  }

  // ---------------------------------------------------------------- the service

  class EndpointRateLimitService {
    var slidingWindows: map<string, seq<int>>

    constructor ()
      ensures slidingWindows == map[]
    {
      slidingWindows := map[];
    }

    /** The list of one route; an absent entry is an empty list. */
    function Window(key: string): seq<int>
      reads this
    {
      if key in slidingWindows then slidingWindows[key] else []
    }

    /** config is the active row for this endpoint and method, if there is one. Only the called route's list changes. */
    method CheckRateLimit(endpoint: string, httpMethod: string, config: Option<Config>, now: int) returns (d: Decision)
      modifies this
      ensures config.None? ==> d == Decision(true, None, Some(0)) && slidingWindows == old(slidingWindows)
      ensures config.Some? ==>
                var key := Upper(httpMethod) + ":" + endpoint;
                (Window(key), d) == Check(config.value, old(Window(key)), now)
                && forall k :: k != key ==> Window(k) == old(Window(k))
    {
      if config.None? { return Decision(true, None, Some(0)); }
      var c := config.value;
      var key := Upper(httpMethod) + ":" + endpoint;
      var windowStart := now - c.windowMs;
      if key !in slidingWindows { slidingWindows := slidingWindows[key := []]; }
      slidingWindows := slidingWindows[key := Prune(slidingWindows[key], windowStart)];
      if |slidingWindows[key]| >= c.maxRequests {
        if slidingWindows[key] == [] { return Decision(false, Some(0), None); }
        var oldestInWindow := slidingWindows[key][0];
        var retryAfterMs := oldestInWindow + c.windowMs - now;
        return Decision(false, Some(0), Some(if retryAfterMs > 1 then retryAfterMs else 1));
      }
      slidingWindows := slidingWindows[key := slidingWindows[key] + [now]];
      d := Decision(true, Some(c.maxRequests - |slidingWindows[key]|), Some(0));
    }
  }
}
