/** KYC tier upgrades: a user asks for a higher tier, an administrator approves or rejects. Every await is a step boundary: a request
    reads the user, looks for a pending request and writes its row; a review finds its request, saves its decision and, when it
    approves, writes the user's tier. Between two steps of a call any step of another may run. A request's id is its row number. */
module KycTiers {
  import opened Common

  datatype Review = Waiting | Approved | Rejected

  datatype Upgrade = Upgrade(userId: string, currentTier: string, requestedTier: string, review: Review)

  datatype Asking = UserRead | Checked | Ended

  /** A request: the row it is to write, how many rows there were when it read its user, and how far it is. */
  datatype Call = Call(row: Upgrade, seen: nat, at: Asking)

  datatype Reviewing = Found | TierDue | Done

  /** A review: the row it found, its verdict, and how far it is. */
  datatype Visit = Visit(id: nat, row: Upgrade, approve: bool, at: Reviewing)

  /** The tier column of the users table, empty until a first approval, and the requests in the order they were written; then the
      requests and reviews past their first read. */
  datatype State = State(users: map<string, Option<string>>, upgrades: seq<Upgrade>, calls: seq<Call>, visits: seq<Visit>)

  datatype KycError = UserNotFound | InvalidTier | NotHigher | AlreadyPending | RequestNotFound | NotPending

  /** A write that fails, or whose call dies before it, is one that never comes; but a tier that is never written is SaveTier with ok
      false, so that it can be counted. */
  datatype Event =
    | ReadUser(userId: string, tier: string)
    | ReadPending(c: nat)
    | Store(c: nat)
    | FindRequest(id: nat, approve: bool)
    | SaveReview(v: nat)
    | SaveTier(v: nat, ok: bool)

  // ---------------------------------------------------------------- steps

  function TierLevel(name: string): (r: Option<nat>)
    ensures r.Some? ==> r.value <= 3
  {
    if name == "NONE" then Some(0)
    else if name == "BASIC" then Some(1)
    else if name == "ADVANCED" then Some(2)
    else if name == "VERIFIED" then Some(3)
    else None
  }

  function TierName(tier: Option<string>): string {
    if tier.Some? then tier.value else "NONE"
  }

  /** A stored tier that is not a known name counts as level 0. */
  function CurrentLevel(name: string): (r: nat)
    ensures r <= 3
  {
    var l := TierLevel(Upper(name));
    if l.Some? then l.value else 0
  }

  /** The level of a stored tier. */
  function Level(tier: Option<string>): (r: nat)
    ensures r <= 3
  {
    CurrentLevel(TierName(tier))
  }

  /** The user's last request in row order: the first of those ordered by creation time, newest first. */
  function Latest(rows: seq<Upgrade>, u: string): (r: Option<nat>)
    ensures r.Some? ==> r.value < |rows| && rows[r.value].userId == u && forall j :: r.value < j < |rows| ==> rows[j].userId != u
    ensures r.None? ==> forall j :: 0 <= j < |rows| ==> rows[j].userId != u
  {
    if rows == [] then None
    else if rows[|rows| - 1].userId == u then Some(|rows| - 1)
    else Latest(rows[..|rows| - 1], u)
  }

  predicate IsPending(rows: seq<Upgrade>, i: int) {
    0 <= i < |rows| && rows[i].review.Waiting?
  }

  predicate HasPending(rows: seq<Upgrade>, u: string) {
    exists i :: 0 <= i < |rows| && IsPending(rows, i) && rows[i].userId == u
  }

  /** What the read of the user refuses, in this order. */
  function LevelRefusal(users: map<string, Option<string>>, u: string, tier: string): Option<KycError> {
    if u !in users then Some(UserNotFound) else
      var requested := TierLevel(Upper(tier));
      if requested.None? then Some(InvalidTier)
      else if requested.value <= Level(users[u]) then Some(NotHigher)
      else None
  }

  /** Why an uninterrupted request is refused, if it is. */
  function RequestRefusal(s: State, u: string, tier: string): Option<KycError> {
    var refusal := LevelRefusal(s.users, u, tier);
    if refusal.None? && HasPending(s.upgrades, u) then Some(AlreadyPending) else refusal
  }

  function ReviewRefusal(s: State, id: nat): Option<KycError> {
    if id >= |s.upgrades| then Some(RequestNotFound) else if !s.upgrades[id].review.Waiting? then Some(NotPending) else None
  }

  function SetReview(rows: seq<Upgrade>, i: nat, review: Review): seq<Upgrade>
    requires i < |rows|
  {
    rows[i := rows[i].(review := review)]
  }

  function Verdict(approve: bool): Review {
    if approve then Approved else Rejected
  }

  function NewRow(s: State, u: string, tier: string): Upgrade
    requires u in s.users
  {
    Upgrade(u, TierName(s.users[u]), Upper(tier), Waiting)
  }

  predicate CallAt(s: State, c: int, at: Asking) {
    0 <= c < |s.calls| && s.calls[c].at == at
  }

  predicate VisitAt(s: State, v: int, at: Reviewing) {
    0 <= v < |s.visits| && s.visits[v].at == at && s.visits[v].id < |s.upgrades|
  }

  function Move(s: State, c: nat, at: Asking): State
    requires c < |s.calls|
  {
    s.(calls := s.calls[c := s.calls[c].(at := at)])
  }

  function MoveVisit(s: State, v: nat, at: Reviewing): State
    requires v < |s.visits|
  {
    s.(visits := s.visits[v := s.visits[v].(at := at)])
  }

  function Step(s: State, e: Event): State {
    match e
    case ReadUser(u, tier) =>
      if LevelRefusal(s.users, u, tier).Some? then s
      else s.(calls := s.calls + [Call(NewRow(s, u, tier), |s.upgrades|, UserRead)])
    case ReadPending(c) =>
      if !CallAt(s, c, UserRead) then s else Move(s, c, if HasPending(s.upgrades, s.calls[c].row.userId) then Ended else Checked)
    case Store(c) =>
      if !CallAt(s, c, Checked) then s else Move(s, c, Ended).(upgrades := s.upgrades + [s.calls[c].row])
    case FindRequest(id, approve) =>
      if ReviewRefusal(s, id).Some? then s else s.(visits := s.visits + [Visit(id, s.upgrades[id], approve, Found)])
    case SaveReview(v) =>
      if !VisitAt(s, v, Found) then s else
        var visit := s.visits[v];
        MoveVisit(s, v, if visit.approve then TierDue else Done).(upgrades := SetReview(s.upgrades, visit.id, Verdict(visit.approve)))
    case SaveTier(v, ok) =>
      if !VisitAt(s, v, TierDue) then s else
        var row := s.visits[v].row;
        MoveVisit(s, v, Done).(users := if ok && row.userId in s.users then s.users[row.userId := Some(row.requestedTier)] else s.users)
  }

  function Run(s: State, events: seq<Event>): State {
    if events == [] then s else Step(Run(s, events[..|events| - 1]), events[|events| - 1])
  }

  function Start(users: map<string, Option<string>>): State {
    State(users, [], [], [])
  }

  // ---------------------------------------------------------------- what goes wrong on the way

  predicate IsDue(visits: seq<Visit>, v: int) {
    0 <= v < |visits| && visits[v].at == TierDue
  }

  /** An approved request of u waits for its tier to be written. */
  predicate HasDue(visits: seq<Visit>, u: string) {
    exists v :: 0 <= v < |visits| && IsDue(visits, v) && visits[v].row.userId == u
  }

  /** A row of the caller has been written since call c read the user. */
  predicate Overtaken(s: State, c: int) {
    0 <= c < |s.calls| && exists i :: 0 <= i < |s.upgrades| && s.calls[c].seen <= i && s.upgrades[i].userId == s.calls[c].row.userId
  }

  /** Since call c read its user, another request of the user was written or the tier has changed; or an approval still waits for its
      tier to be written. */
  predicate Late(s: State, c: int) {
    0 <= c < |s.calls| &&
    var u := s.calls[c].row.userId;
    Overtaken(s, c) || HasDue(s.visits, u) || (u in s.users && TierName(s.users[u]) != s.calls[c].row.currentTier)
  }

  /** What a step of u costs: three for a request written late, three for a decision saved over an earlier one, one for a tier that is
      never written. */
  function Charge(s: State, e: Event, u: string): nat {
    match e
    case Store(c) => if CallAt(s, c, Checked) && s.calls[c].row.userId == u && Late(s, c) then 3 else 0
    case SaveReview(v) =>
      if VisitAt(s, v, Found) && s.visits[v].row.userId == u && !s.upgrades[s.visits[v].id].review.Waiting? then 3 else 0
    case SaveTier(v, ok) => if VisitAt(s, v, TierDue) && s.visits[v].row.userId == u && !ok then 1 else 0
    case _ => 0
  }

  function Charges(s: State, events: seq<Event>, u: string): nat {
    if events == [] then 0 else
      var before, e := events[..|events| - 1], events[|events| - 1];
      Charges(s, before, u) + Charge(Run(s, before), e, u)
  }

  // ---------------------------------------------------------------- counting

  function Count<T>(xs: seq<T>, p: T -> bool): nat {
    if xs == [] then 0 else Count(xs[..|xs| - 1], p) + (if p(xs[|xs| - 1]) then 1 else 0)
  }

  lemma CountAppend<T>(xs: seq<T>, x: T, p: T -> bool)
    ensures Count(xs + [x], p) == Count(xs, p) + (if p(x) then 1 else 0)
  {
    assert (xs + [x])[..|xs|] == xs;
  }

  lemma {:induction false} CountUpdate<T>(xs: seq<T>, i: nat, x: T, p: T -> bool)
    requires i < |xs|
    ensures Count(xs[i := x], p) == Count(xs, p) - (if p(xs[i]) then 1 else 0) + (if p(x) then 1 else 0)
  {
    var n := |xs| - 1;
    if i < n {
      CountUpdate(xs[..n], i, x, p);
      assert xs[i := x][..n] == xs[..n][i := x];
    } else {
      assert xs[i := x][..n] == xs[..n];
    }
  }

  lemma {:induction false} CountMono<T>(xs: seq<T>, p: T -> bool, q: T -> bool)
    requires forall i :: 0 <= i < |xs| && p(xs[i]) ==> q(xs[i])
    ensures Count(xs, p) <= Count(xs, q)
  {
    if xs != [] { CountMono(xs[..|xs| - 1], p, q); }
  }

  lemma {:induction false} CountNone<T>(xs: seq<T>, p: T -> bool)
    requires forall i :: 0 <= i < |xs| ==> !p(xs[i])
    ensures Count(xs, p) == 0
  {
    if xs != [] { CountNone(xs[..|xs| - 1], p); }
  }

  function ApprovedOf(u: string): Upgrade -> bool { (r: Upgrade) => r.userId == u && r.review.Approved? }

  function WaitingOf(u: string): Upgrade -> bool { (r: Upgrade) => r.userId == u && r.review.Waiting? }

  function StaleOf(level: string -> nat, u: string, current: nat): Upgrade -> bool {
    (r: Upgrade) => r.userId == u && r.review.Waiting? && level(r.requestedTier) <= current
  }

  function DueOf(u: string): Visit -> bool { (v: Visit) => v.row.userId == u && v.at == TierDue }

  function StaleDueOf(level: string -> nat, u: string, current: nat): Visit -> bool {
    (v: Visit) => v.row.userId == u && v.at == TierDue && level(v.row.requestedTier) <= current
  }

  function Approvals(rows: seq<Upgrade>, u: string): nat { Count(rows, ApprovedOf(u)) }

  /** How many approvals of u wait for their tier to be written. */
  function Dues(visits: seq<Visit>, u: string): nat { Count(visits, DueOf(u)) }

  /** How many requests of u are pending, or approved with the tier not yet written. */
  function InPlay(rows: seq<Upgrade>, visits: seq<Visit>, u: string): nat {
    Count(rows, WaitingOf(u)) + Dues(visits, u)
  }

  /** How many of them would not raise a user of this level. level gives the level of a tier's name. */
  function Stales(level: string -> nat, rows: seq<Upgrade>, visits: seq<Visit>, u: string, current: nat): nat {
    Count(rows, StaleOf(level, u, current)) + Count(visits, StaleDueOf(level, u, current))
  }

  /** How many requests in play may yet end without raising the level, in the worst order: the stale ones, or all but the first. */
  function Debt(level: string -> nat, rows: seq<Upgrade>, visits: seq<Visit>, u: string, current: nat): nat {
    Max(Stales(level, rows, visits, u, current), InPlay(rows, visits, u) - 1)
  }

  lemma NothingInPlay(rows: seq<Upgrade>, visits: seq<Visit>, u: string)
    requires !HasPending(rows, u) && !HasDue(visits, u)
    ensures InPlay(rows, visits, u) == 0
  {
    forall i | 0 <= i < |rows| ensures !WaitingOf(u)(rows[i]) { assert IsPending(rows, i) <==> rows[i].review.Waiting?; }
    forall v | 0 <= v < |visits| ensures !DueOf(u)(visits[v]) { assert IsDue(visits, v) <==> visits[v].at == TierDue; }
    CountNone(rows, WaitingOf(u));
    CountNone(visits, DueOf(u));
  }

  /** A higher level makes no fewer requests stale, and never more than are in play. */
  lemma StalesGrow(level: string -> nat, rows: seq<Upgrade>, visits: seq<Visit>, u: string, low: nat, high: nat)
    requires low <= high
    ensures Stales(level, rows, visits, u, low) <= Stales(level, rows, visits, u, high) <= InPlay(rows, visits, u)
  {
    CountMono(rows, StaleOf(level, u, low), StaleOf(level, u, high));
    CountMono(rows, StaleOf(level, u, high), WaitingOf(u));
    CountMono(visits, StaleDueOf(level, u, low), StaleDueOf(level, u, high));
    CountMono(visits, StaleDueOf(level, u, high), DueOf(u));
  }

  // ---------------------------------------------------------------- what each write pays

  /** A new request adds at most one debt, and none when nothing is in play and it asks for more. */
  lemma StorePays(level: string -> nat, rows: seq<Upgrade>, visits: seq<Visit>, row: Upgrade, u: string, current: nat)
    requires row.review.Waiting?
    ensures Approvals(rows + [row], u) == Approvals(rows, u)
    ensures Debt(level, rows + [row], visits, u, current) <= Debt(level, rows, visits, u, current) + (if row.userId == u then 1 else 0)
    ensures row.userId == u && InPlay(rows, visits, u) == 0 && level(row.requestedTier) > current ==>
              Debt(level, rows + [row], visits, u, current) == 0
  {
    CountAppend(rows, row, ApprovedOf(u));
    CountAppend(rows, row, WaitingOf(u));
    CountAppend(rows, row, StaleOf(level, u, current));
    StalesGrow(level, rows, visits, u, current, current);
  }

  /** A review that has found its request changes no count. */
  lemma FindPays(level: string -> nat, rows: seq<Upgrade>, visits: seq<Visit>, x: Visit, u: string, current: nat)
    requires x.at == Found
    ensures Dues(visits + [x], u) == Dues(visits, u) && Debt(level, rows, visits + [x], u, current) == Debt(level, rows, visits, u, current)
  {
    CountAppend(visits, x, DueOf(u));
    CountAppend(visits, x, StaleDueOf(level, u, current));
  }

  /** The rows and reviews after review v has saved its decision. */
  function AfterSave(rows: seq<Upgrade>, visits: seq<Visit>, v: nat): (seq<Upgrade>, seq<Visit>)
    requires v < |visits| && visits[v].id < |rows|
  {
    (SetReview(rows, visits[v].id, Verdict(visits[v].approve)), visits[v := visits[v].(at := if visits[v].approve then TierDue else Done)])
  }

  /** Saving a decision on a pending request keeps it in play or ends it; saving over an earlier decision may bring one more into play. */
  lemma SavePays(level: string -> nat, rows: seq<Upgrade>, visits: seq<Visit>, v: nat, u: string, current: nat)
    requires v < |visits| && visits[v].id < |rows| && visits[v].at == Found
    requires rows[visits[v].id].userId == visits[v].row.userId && rows[visits[v].id].requestedTier == visits[v].row.requestedTier
    ensures var (rows', visits') := AfterSave(rows, visits, v);
            Approvals(rows', u) - Dues(visits', u) + 3 * Debt(level, rows', visits', u, current)
            <= Approvals(rows, u) - Dues(visits, u) + 3 * Debt(level, rows, visits, u, current)
               + (if visits[v].row.userId == u && !rows[visits[v].id].review.Waiting? then 3 else 0)
  {
    var i := visits[v].id;
    var r := rows[i].(review := Verdict(visits[v].approve));
    var x := visits[v].(at := if visits[v].approve then TierDue else Done);
    CountUpdate(rows, i, r, ApprovedOf(u));
    CountUpdate(rows, i, r, WaitingOf(u));
    CountUpdate(rows, i, r, StaleOf(level, u, current));
    CountUpdate(visits, v, x, DueOf(u));
    CountUpdate(visits, v, x, StaleDueOf(level, u, current));
  }

  lemma DueEnds(level: string -> nat, visits: seq<Visit>, v: nat, u: string, current: nat)
    requires IsDue(visits, v)
    ensures var visits', mine := visits[v := visits[v].(at := Done)], if visits[v].row.userId == u then 1 else 0;
            && Dues(visits', u) == Dues(visits, u) - mine
            && Count(visits', StaleDueOf(level, u, current))
               == Count(visits, StaleDueOf(level, u, current)) - (if level(visits[v].row.requestedTier) <= current then mine else 0)
  {
    CountUpdate(visits, v, visits[v].(at := Done), DueOf(u));
    CountUpdate(visits, v, visits[v].(at := Done), StaleDueOf(level, u, current));
  }

  /** Writing the tier of approval v moves the level from current to its own. One that raises the level pays for itself; one that does
      not has been counted as a debt, and costs at most three. */
  lemma TierPays(level: string -> nat, rows: seq<Upgrade>, visits: seq<Visit>, v: nat, u: string, current: nat)
    requires IsDue(visits, v) && visits[v].row.userId == u && current <= 3 && 1 <= level(visits[v].row.requestedTier) <= 3
    ensures var visits', after := visits[v := visits[v].(at := Done)], level(visits[v].row.requestedTier);
            3 * Debt(level, rows, visits', u, after) - Dues(visits', u) - after
            <= 3 * Debt(level, rows, visits, u, current) - Dues(visits, u) - current
  {
    var visits', after := visits[v := visits[v].(at := Done)], level(visits[v].row.requestedTier);
    DueEnds(level, visits, v, u, current);
    DueEnds(level, visits, v, u, after);
    StalesGrow(level, rows, visits', u, after, after);
    if after <= current { StalesGrow(level, rows, visits', u, after, current); }
  }

  /** An approval whose tier is never written adds no debt. */
  lemma LossPays(level: string -> nat, rows: seq<Upgrade>, visits: seq<Visit>, v: nat, u: string, current: nat)
    requires IsDue(visits, v)
    ensures var visits', mine := visits[v := visits[v].(at := Done)], if visits[v].row.userId == u then 1 else 0;
            Debt(level, rows, visits', u, current) <= Debt(level, rows, visits, u, current) && Dues(visits', u) == Dues(visits, u) - mine
  {
    DueEnds(level, visits, v, u, current);
    StalesGrow(level, rows, visits[v := visits[v].(at := Done)], u, current, current);
  }

  // ---------------------------------------------------------------- what every step keeps

  /** Call c asks for more than the tier it read; past its second read, the user has no pending request but those written since. */
  ghost predicate CallOk(s: State, c: nat)
    requires c < |s.calls|
  {
    var call := s.calls[c];
    && call.row.review.Waiting? && call.seen <= |s.upgrades|
    && CurrentLevel(call.row.requestedTier) > CurrentLevel(call.row.currentTier)
    && (call.at == Checked && !Overtaken(s, c) ==> !HasPending(s.upgrades, call.row.userId))
  }

  /** Review v has a request, with the user and the tiers it read. */
  ghost predicate VisitOk(s: State, v: nat)
    requires v < |s.visits|
  {
    && s.visits[v].id < |s.upgrades| && (s.visits[v].at == TierDue ==> s.visits[v].approve)
    && SameRequest(s.upgrades[s.visits[v].id], s.visits[v].row)
  }

  ghost predicate SameRequest(r: Upgrade, q: Upgrade) {
    r.userId == q.userId && r.currentTier == q.currentTier && r.requestedTier == q.requestedTier
  }

  /** Request i asks for more than the tier it records. */
  ghost predicate Asks(rows: seq<Upgrade>, i: nat)
    requires i < |rows|
  {
    CurrentLevel(rows[i].requestedTier) > CurrentLevel(rows[i].currentTier)
  }

  ghost predicate Valid(s: State) {
    && (forall i {:trigger Asks(s.upgrades, i)} :: 0 <= i < |s.upgrades| ==> Asks(s.upgrades, i))
    && (forall c {:trigger CallOk(s, c)} :: 0 <= c < |s.calls| ==> CallOk(s, c))
    && (forall v {:trigger VisitOk(s, v)} :: 0 <= v < |s.visits| ==> VisitOk(s, v))
  }

  lemma UpperTwice(s: string)
    ensures Upper(Upper(s)) == Upper(s)
  {
  }

  /** A request past its first read asks for a known tier above the user's. */
  lemma AllowedRow(s: State, u: string, tier: string)
    requires LevelRefusal(s.users, u, tier).None?
    ensures CurrentLevel(NewRow(s, u, tier).requestedTier) > CurrentLevel(NewRow(s, u, tier).currentTier)
  {
    UpperTwice(tier);
  }

  lemma SameCallOk(s: State, t: State, c: nat, d: nat)
    requires c < |s.calls| && d < |t.calls| && t.calls[d] == s.calls[c] && t.upgrades == s.upgrades && CallOk(s, c)
    ensures CallOk(t, d)
  {
    assert Overtaken(t, d) <==> Overtaken(s, c);
  }

  lemma ReadUserKeepsValid(s: State, u: string, tier: string)
    requires Valid(s) && LevelRefusal(s.users, u, tier).None?
    ensures Valid(s.(calls := s.calls + [Call(NewRow(s, u, tier), |s.upgrades|, UserRead)]))
  {
    var t := s.(calls := s.calls + [Call(NewRow(s, u, tier), |s.upgrades|, UserRead)]);
    AllowedRow(s, u, tier);
    forall c | 0 <= c < |t.calls| ensures CallOk(t, c) { if c < |s.calls| { SameCallOk(s, t, c, c); } }
    forall v | 0 <= v < |t.visits| ensures VisitOk(t, v) { assert VisitOk(s, v); }
    forall i | 0 <= i < |t.upgrades| ensures Asks(t.upgrades, i) { assert Asks(s.upgrades, i); }
  }

  lemma MoveKeepsValid(s: State, c: nat, at: Asking)
    requires Valid(s) && c < |s.calls| && (at == Checked ==> !HasPending(s.upgrades, s.calls[c].row.userId))
    ensures Valid(Move(s, c, at))
  {
    var t := Move(s, c, at);
    forall d | 0 <= d < |t.calls| ensures CallOk(t, d) {
      assert CallOk(s, d);
      if d != c { SameCallOk(s, t, d, d); }
    }
    forall v | 0 <= v < |t.visits| ensures VisitOk(t, v) { assert VisitOk(s, v); }
    forall i | 0 <= i < |t.upgrades| ensures Asks(t.upgrades, i) { assert Asks(s.upgrades, i); }
  }

  lemma CallAfterStore(s: State, row: Upgrade, c: nat)
    requires c < |s.calls| && CallOk(s, c)
    ensures CallOk(s.(upgrades := s.upgrades + [row]), c)
  {
    var t := s.(upgrades := s.upgrades + [row]);
    if row.userId == s.calls[c].row.userId {
      assert t.upgrades[|s.upgrades|] == row;
      assert Overtaken(t, c);
    } else if HasPending(t.upgrades, s.calls[c].row.userId) {
      var i :| 0 <= i < |t.upgrades| && IsPending(t.upgrades, i) && t.upgrades[i].userId == s.calls[c].row.userId;
      assert IsPending(s.upgrades, i) && t.upgrades[i] == s.upgrades[i];
      if Overtaken(s, c) {
        var j :| 0 <= j < |s.upgrades| && s.calls[c].seen <= j && s.upgrades[j].userId == s.calls[c].row.userId;
        assert t.upgrades[j] == s.upgrades[j];
      }
    }
  }

  lemma StoreKeepsValid(s: State, row: Upgrade)
    requires Valid(s) && CurrentLevel(row.requestedTier) > CurrentLevel(row.currentTier)
    ensures Valid(s.(upgrades := s.upgrades + [row]))
  {
    var t := s.(upgrades := s.upgrades + [row]);
    forall c | 0 <= c < |t.calls| ensures CallOk(t, c) {
      assert CallOk(s, c);
      CallAfterStore(s, row, c);
    }
    forall v | 0 <= v < |t.visits| ensures VisitOk(t, v) {
      assert VisitOk(s, v);
      assert t.upgrades[s.visits[v].id] == s.upgrades[s.visits[v].id];
    }
    forall i | 0 <= i < |t.upgrades| ensures Asks(t.upgrades, i) { assert i < |s.upgrades| ==> Asks(s.upgrades, i); }
  }

  lemma VisitsKeepValid(s: State, visits: seq<Visit>)
    requires Valid(s) && forall v {:trigger visits[v]} :: 0 <= v < |visits| ==> VisitOk(s.(visits := visits), v)
    ensures Valid(s.(visits := visits))
  {
    var t := s.(visits := visits);
    forall c | 0 <= c < |t.calls| ensures CallOk(t, c) {
      assert CallOk(s, c);
      SameCallOk(s, t, c, c);
    }
    forall i | 0 <= i < |t.upgrades| ensures Asks(t.upgrades, i) { assert Asks(s.upgrades, i); }
    forall v | 0 <= v < |t.visits| ensures VisitOk(t, v) { assert t.visits[v] == visits[v]; }
  }

  lemma FindKeepsValid(s: State, id: nat, approve: bool)
    requires Valid(s) && id < |s.upgrades|
    ensures Valid(s.(visits := s.visits + [Visit(id, s.upgrades[id], approve, Found)]))
  {
    var visits := s.visits + [Visit(id, s.upgrades[id], approve, Found)];
    forall v | 0 <= v < |visits| ensures VisitOk(s.(visits := visits), v) { assert v < |s.visits| ==> VisitOk(s, v); }
    VisitsKeepValid(s, visits);
  }

  lemma MoveVisitKeepsValid(s: State, v: nat, at: Reviewing)
    requires Valid(s) && v < |s.visits| && (at == TierDue ==> s.visits[v].approve)
    ensures Valid(MoveVisit(s, v, at))
  {
    var visits := s.visits[v := s.visits[v].(at := at)];
    forall w | 0 <= w < |visits| ensures VisitOk(s.(visits := visits), w) { assert VisitOk(s, w); }
    VisitsKeepValid(s, visits);
  }

  lemma ReviewKeepsValid(s: State, i: nat, review: Review)
    requires Valid(s) && i < |s.upgrades| && !review.Waiting?
    ensures Valid(s.(upgrades := SetReview(s.upgrades, i, review)))
  {
    var t := s.(upgrades := SetReview(s.upgrades, i, review));
    forall c | 0 <= c < |t.calls| ensures CallOk(t, c) {
      assert CallOk(s, c);
      CallAfterReview(s, i, review, c);
    }
    forall v | 0 <= v < |t.visits| ensures VisitOk(t, v) { assert VisitOk(s, v); }
    forall j | 0 <= j < |t.upgrades| ensures Asks(t.upgrades, j) { assert Asks(s.upgrades, j); }
  }

  lemma CallAfterReview(s: State, i: nat, review: Review, c: nat)
    requires c < |s.calls| && CallOk(s, c) && i < |s.upgrades| && !review.Waiting?
    ensures CallOk(s.(upgrades := SetReview(s.upgrades, i, review)), c)
  {
    var t := s.(upgrades := SetReview(s.upgrades, i, review));
    assert forall j :: 0 <= j < |s.upgrades| ==> t.upgrades[j].userId == s.upgrades[j].userId;
    assert forall j :: IsPending(t.upgrades, j) ==> IsPending(s.upgrades, j);
    assert Overtaken(s, c) ==> Overtaken(t, c);
  }

  lemma UsersKeepValid(s: State, users: map<string, Option<string>>)
    requires Valid(s)
    ensures Valid(s.(users := users))
  {
    var t := s.(users := users);
    forall c | 0 <= c < |t.calls| ensures CallOk(t, c) {
      assert CallOk(s, c);
      SameCallOk(s, t, c, c);
    }
    forall i | 0 <= i < |t.upgrades| ensures Asks(t.upgrades, i) { assert Asks(s.upgrades, i); }
    forall v | 0 <= v < |t.visits| ensures VisitOk(t, v) { assert VisitOk(s, v); }
  }

  lemma StepKeepsValid(s: State, e: Event)
    requires Valid(s)
    ensures Valid(Step(s, e))
  {
    match e
    case ReadUser(u, tier) => if LevelRefusal(s.users, u, tier).None? { ReadUserKeepsValid(s, u, tier); }
    case ReadPending(c) =>
      if CallAt(s, c, UserRead) { MoveKeepsValid(s, c, if HasPending(s.upgrades, s.calls[c].row.userId) then Ended else Checked); }
    case Store(c) =>
      if CallAt(s, c, Checked) {
        assert CallOk(s, c);
        MoveKeepsValid(s, c, Ended);
        StoreKeepsValid(Move(s, c, Ended), s.calls[c].row);
      }
    case FindRequest(id, approve) => if IsPending(s.upgrades, id) { FindKeepsValid(s, id, approve); }
    case SaveReview(v) =>
      if VisitAt(s, v, Found) {
        var at := if s.visits[v].approve then TierDue else Done;
        MoveVisitKeepsValid(s, v, at);
        ReviewKeepsValid(MoveVisit(s, v, at), s.visits[v].id, Verdict(s.visits[v].approve));
      }
    case SaveTier(v, ok) =>
      if VisitAt(s, v, TierDue) {
        MoveVisitKeepsValid(s, v, Done);
        UsersKeepValid(MoveVisit(s, v, Done), Step(s, e).users);
      }
  }

  // ---------------------------------------------------------------- the bound over every run

  /** What u's approvals cost so far, debts included and tiers due not, above the level reached. */
  function Cost(s: State, u: string): int
    requires u in s.users
  {
    Approvals(s.upgrades, u) - Dues(s.visits, u) - Level(s.users[u]) + 3 * Debt(CurrentLevel, s.upgrades, s.visits, u, Level(s.users[u]))
  }

  lemma StoreCosts(s: State, c: nat, u: string)
    requires Valid(s) && u in s.users && CallAt(s, c, Checked)
    ensures Cost(Step(s, Store(c)), u) <= Cost(s, u) + Charge(s, Store(c), u)
  {
    var row := s.calls[c].row;
    assert CallOk(s, c);
    StorePays(CurrentLevel, s.upgrades, s.visits, row, u, Level(s.users[u]));
    if row.userId == u && !Late(s, c) { NothingInPlay(s.upgrades, s.visits, u); }
  }

  lemma FindCosts(s: State, id: nat, approve: bool, u: string)
    requires u in s.users
    ensures Cost(Step(s, FindRequest(id, approve)), u) == Cost(s, u)
  {
    if IsPending(s.upgrades, id) {
      FindPays(CurrentLevel, s.upgrades, s.visits, Visit(id, s.upgrades[id], approve, Found), u, Level(s.users[u]));
    }
  }

  lemma SaveCosts(s: State, v: nat, u: string)
    requires Valid(s) && u in s.users && VisitAt(s, v, Found)
    ensures Cost(Step(s, SaveReview(v)), u) <= Cost(s, u) + Charge(s, SaveReview(v), u)
  {
    assert VisitOk(s, v);
    SavePays(CurrentLevel, s.upgrades, s.visits, v, u, Level(s.users[u]));
  }

  lemma TierCosts(s: State, v: nat, ok: bool, u: string)
    requires Valid(s) && u in s.users && VisitAt(s, v, TierDue)
    ensures var t := Step(s, SaveTier(v, ok));
            u in t.users && Cost(t, u) <= Cost(s, u) + Charge(s, SaveTier(v, ok), u)
  {
    assert VisitOk(s, v) && Asks(s.upgrades, s.visits[v].id);
    var row := s.visits[v].row;
    if row.userId == u && ok {
      TierPays(CurrentLevel, s.upgrades, s.visits, v, u, Level(s.users[u]));
    } else {
      LossPays(CurrentLevel, s.upgrades, s.visits, v, u, Level(s.users[u]));
    }
  }

  lemma StepCosts(s: State, e: Event, u: string)
    requires Valid(s) && u in s.users
    ensures u in Step(s, e).users && Cost(Step(s, e), u) <= Cost(s, u) + Charge(s, e, u)
  {
    match e
    case ReadUser(_, _) =>
    case ReadPending(_) =>
    case Store(c) => if CallAt(s, c, Checked) { StoreCosts(s, c, u); }
    case FindRequest(id, approve) => FindCosts(s, id, approve, u);
    case SaveReview(v) => if VisitAt(s, v, Found) { SaveCosts(s, v, u); }
    case SaveTier(v, ok) => if VisitAt(s, v, TierDue) { TierCosts(s, v, ok, u); }
  }

  lemma {:induction false} RunCosts(s: State, events: seq<Event>, u: string)
    requires Valid(s) && u in s.users
    ensures var t := Run(s, events);
            Valid(t) && u in t.users && Cost(t, u) <= Cost(s, u) + Charges(s, events, u)
  {
    if events != [] {
      var before, e := events[..|events| - 1], events[|events| - 1];
      RunCosts(s, before, u);
      StepKeepsValid(Run(s, before), e);
      StepCosts(Run(s, before), e, u);
    }
  }

  /** Over any run: a user's approved requests are at most the levels gained, plus the tiers not yet written, plus what the run is
      charged: one for each tier never written, three for each request written late and for each decision saved over another. */
  lemma ApprovalsBound(users: map<string, Option<string>>, events: seq<Event>, u: string)
    requires u in users
    ensures var s := Run(Start(users), events);
            && u in s.users
            && Approvals(s.upgrades, u) + Level(users[u])
               <= Level(s.users[u]) + Dues(s.visits, u) + Charges(Start(users), events, u)
  {
    RunCosts(Start(users), events, u);
  }

  /** When nothing is charged and no tier is due, a user has at most three approvals. */
  lemma AtMostThree(users: map<string, Option<string>>, events: seq<Event>, u: string)
    requires u in users && Charges(Start(users), events, u) == 0 && !HasDue(Run(Start(users), events).visits, u)
    ensures var s := Run(Start(users), events);
            u in s.users && Approvals(s.upgrades, u) + Level(users[u]) <= Level(s.users[u]) <= 3
  {
    ApprovalsBound(users, events, u);
    var visits := Run(Start(users), events).visits;
    forall v | 0 <= v < |visits| ensures !DueOf(u)(visits[v]) { assert IsDue(visits, v) <==> visits[v].at == TierDue; }
    CountNone(visits, DueOf(u));
  }

  // ---------------------------------------------------------------- the requests are the history of the tier

  /** The tier that the approved requests of u, in row order, lead to. */
  function TierAfter(rows: seq<Upgrade>, u: string, first: Option<string>): Option<string> {
    if rows == [] then first else
      var last := rows[|rows| - 1];
      if last.userId == u && last.review.Approved? then Some(last.requestedTier) else TierAfter(rows[..|rows| - 1], u, first)
  }

  /** Request i records the tier that the approvals before it led to. */
  ghost predicate RowOk(first: Option<string>, rows: seq<Upgrade>, i: nat)
    requires i < |rows|
  {
    rows[i].currentTier == TierName(TierAfter(rows[..i], rows[i].userId, first))
  }

  ghost predicate RowsOk(first: Option<string>, rows: seq<Upgrade>, u: string) {
    forall i {:trigger RowOk(first, rows, i)} :: 0 <= i < |rows| && rows[i].userId == u ==> RowOk(first, rows, i)
  }

  /** Row i is u's last. */
  ghost predicate IsLast(rows: seq<Upgrade>, i: nat, u: string) {
    i < |rows| && rows[i].userId == u && forall j :: i < j < |rows| ==> rows[j].userId != u
  }

  ghost predicate PendingIsLast(rows: seq<Upgrade>, u: string) {
    forall i: nat {:trigger IsLast(rows, i, u)} :: IsPending(rows, i) && rows[i].userId == u ==> IsLast(rows, i, u)
  }

  /** Tier due v of u is the only one; its request is u's last, and u still has the tier from before it. */
  ghost predicate DueOk(users: map<string, Option<string>>, rows: seq<Upgrade>, visits: seq<Visit>, v: nat, u: string, first: Option<string>)
    requires u in users && v < |visits|
  {
    var i := visits[v].id;
    && IsLast(rows, i, u) && rows[i].review.Approved? && users[u] == TierAfter(rows[..i], u, first)
    && forall w :: IsDue(visits, w) && visits[w].row.userId == u ==> w == v
  }

  ghost predicate TierFits(users: map<string, Option<string>>, rows: seq<Upgrade>, visits: seq<Visit>, u: string, first: Option<string>)
    requires u in users
  {
    && (!HasDue(visits, u) ==> users[u] == TierAfter(rows, u, first))
    && forall v {:trigger IsDue(visits, v)} :: IsDue(visits, v) && visits[v].row.userId == u ==> DueOk(users, rows, visits, v, u, first)
  }

  ghost predicate History(s: State, u: string, first: Option<string>) {
    && Valid(s) && u in s.users && RowsOk(first, s.upgrades, u) && PendingIsLast(s.upgrades, u)
    && TierFits(s.users, s.upgrades, s.visits, u, first)
  }

  lemma {:induction false} TierAtLast(rows: seq<Upgrade>, i: nat, u: string, first: Option<string>)
    requires IsLast(rows, i, u)
    ensures TierAfter(rows, u, first) == if rows[i].review.Approved? then Some(rows[i].requestedTier) else TierAfter(rows[..i], u, first)
    ensures Latest(rows, u) == Some(i)
  {
    var n := |rows| - 1;
    if i < n {
      TierAtLast(rows[..n], i, u, first);
      assert rows[..n][..i] == rows[..i];
    }
  }

  lemma TierAfterAppend(rows: seq<Upgrade>, row: Upgrade, u: string, first: Option<string>)
    requires row.userId != u || !row.review.Approved?
    ensures TierAfter(rows + [row], u, first) == TierAfter(rows, u, first)
  {
    assert (rows + [row])[..|rows|] == rows;
  }

  lemma {:induction false} TierAfterOther(rows: seq<Upgrade>, i: nat, review: Review, u: string, first: Option<string>)
    requires i < |rows| && (rows[i].userId != u || (!rows[i].review.Approved? && !review.Approved?))
    ensures TierAfter(SetReview(rows, i, review), u, first) == TierAfter(rows, u, first)
  {
    var n := |rows| - 1;
    if i < n {
      TierAfterOther(rows[..n], i, review, u, first);
      assert SetReview(rows, i, review)[..n] == SetReview(rows[..n], i, review);
    } else {
      assert SetReview(rows, i, review)[..n] == rows[..n];
    }
  }

  lemma RowsAppend(first: Option<string>, rows: seq<Upgrade>, row: Upgrade, u: string)
    requires RowsOk(first, rows, u) && (row.userId == u ==> row.currentTier == TierName(TierAfter(rows, u, first)))
    ensures RowsOk(first, rows + [row], u)
  {
    forall i | 0 <= i < |rows + [row]| && (rows + [row])[i].userId == u ensures RowOk(first, rows + [row], i) {
      if i < |rows| {
        assert RowOk(first, rows, i) && (rows + [row])[..i] == rows[..i];
      } else {
        assert (rows + [row])[..i] == rows;
      }
    }
  }

  /** Deciding u's last request, or one of another user, leaves every record of u as it was. */
  lemma RowsReview(first: Option<string>, rows: seq<Upgrade>, i: nat, review: Review, u: string)
    requires RowsOk(first, rows, u) && i < |rows| && (rows[i].userId == u ==> IsLast(rows, i, u))
    ensures RowsOk(first, SetReview(rows, i, review), u)
  {
    var rows' := SetReview(rows, i, review);
    forall j | 0 <= j < |rows'| && rows'[j].userId == u ensures RowOk(first, rows', j) {
      assert RowOk(first, rows, j);
      if i < j {
        assert rows[i].userId != u;
        TierAfterOther(rows[..j], i, review, u, first);
        assert rows'[..j] == SetReview(rows[..j], i, review);
      } else {
        assert rows'[..j] == rows[..j];
      }
    }
  }

  lemma LastReview(rows: seq<Upgrade>, i: nat, review: Review, k: nat, u: string)
    requires i < |rows|
    ensures IsLast(SetReview(rows, i, review), k, u) <==> IsLast(rows, k, u)
  {
    var rows' := SetReview(rows, i, review);
    assert forall j :: 0 <= j < |rows| ==> rows'[j].userId == rows[j].userId;
  }

  lemma PendingReview(rows: seq<Upgrade>, i: nat, review: Review, u: string)
    requires PendingIsLast(rows, u) && i < |rows| && !review.Waiting?
    ensures PendingIsLast(SetReview(rows, i, review), u)
  {
    var rows' := SetReview(rows, i, review);
    forall k: nat | IsPending(rows', k) && rows'[k].userId == u ensures IsLast(rows', k, u) {
      assert IsPending(rows, k);
      assert IsLast(rows, k, u);
      LastReview(rows, i, review, k, u);
    }
  }

  // ---------------------------------------------------------------- the history under each write

  lemma StoreKeepsRows(rows: seq<Upgrade>, row: Upgrade, u: string)
    requires PendingIsLast(rows, u) && (row.userId == u ==> !HasPending(rows, u))
    ensures PendingIsLast(rows + [row], u)
  {
    var rows' := rows + [row];
    forall k: nat | IsPending(rows', k) && rows'[k].userId == u ensures IsLast(rows', k, u) {
      if k < |rows| {
        assert IsPending(rows, k) && rows[k] == rows'[k];
        assert IsLast(rows, k, u);
      }
    }
  }

  lemma StoreKeepsFit(users: map<string, Option<string>>, rows: seq<Upgrade>, visits: seq<Visit>, row: Upgrade, u: string, first: Option<string>)
    requires u in users && TierFits(users, rows, visits, u, first) && row.review.Waiting? && (row.userId == u ==> !HasDue(visits, u))
    ensures TierFits(users, rows + [row], visits, u, first)
  {
    TierAfterAppend(rows, row, u, first);
    forall v | IsDue(visits, v) && visits[v].row.userId == u ensures DueOk(users, rows + [row], visits, v, u, first) {
      assert DueOk(users, rows, visits, v, u, first);
      assert (rows + [row])[..visits[v].id] == rows[..visits[v].id];
    }
  }

  lemma StoreKeepsHistory(s: State, c: nat, u: string, first: Option<string>)
    requires History(s, u, first) && CallAt(s, c, Checked) && Charge(s, Store(c), u) == 0
    ensures History(Step(s, Store(c)), u, first)
  {
    var row := s.calls[c].row;
    assert CallOk(s, c);
    StepKeepsValid(s, Store(c));
    StoreKeepsRows(s.upgrades, row, u);
    StoreKeepsFit(s.users, s.upgrades, s.visits, row, u, first);
    RowsAppend(first, s.upgrades, row, u);
  }

  lemma SameDues(users: map<string, Option<string>>, rows: seq<Upgrade>, visits: seq<Visit>, visits': seq<Visit>, u: string,
                 first: Option<string>)
    requires u in users && TierFits(users, rows, visits, u, first) && |visits| <= |visits'|
    requires forall v :: IsDue(visits', v) && visits'[v].row.userId == u ==> IsDue(visits, v) && visits'[v] == visits[v]
    requires forall v :: IsDue(visits, v) && visits[v].row.userId == u ==> IsDue(visits', v) && visits'[v] == visits[v]
    ensures TierFits(users, rows, visits', u, first)
  {
    assert HasDue(visits, u) ==> HasDue(visits', u);
    forall v | IsDue(visits', v) && visits'[v].row.userId == u ensures DueOk(users, rows, visits', v, u, first) {
      assert IsDue(visits, v);
      assert DueOk(users, rows, visits, v, u, first);
    }
  }

  lemma FindKeepsHistory(s: State, id: nat, approve: bool, u: string, first: Option<string>)
    requires History(s, u, first) && IsPending(s.upgrades, id)
    ensures History(Step(s, FindRequest(id, approve)), u, first)
  {
    StepKeepsValid(s, FindRequest(id, approve));
    SameDues(s.users, s.upgrades, s.visits, s.visits + [Visit(id, s.upgrades[id], approve, Found)], u, first);
  }

  /** A decision on another user's request. */
  lemma OtherReviewFits(users: map<string, Option<string>>, rows: seq<Upgrade>, visits: seq<Visit>, i: nat, review: Review, u: string,
                        first: Option<string>)
    requires u in users && TierFits(users, rows, visits, u, first) && i < |rows| && rows[i].userId != u
    ensures TierFits(users, SetReview(rows, i, review), visits, u, first)
  {
    var rows' := SetReview(rows, i, review);
    TierAfterOther(rows, i, review, u, first);
    forall v | IsDue(visits, v) && visits[v].row.userId == u ensures DueOk(users, rows', visits, v, u, first) {
      assert DueOk(users, rows, visits, v, u, first);
      var k := visits[v].id;
      LastReview(rows, i, review, k, u);
      if i < k {
        TierAfterOther(rows[..k], i, review, u, first);
        assert rows'[..k] == SetReview(rows[..k], i, review);
      } else {
        assert rows'[..k] == rows[..k];
      }
    }
  }

  /** While a request of u is pending, no tier of u is due. */
  lemma PendingMeansNoDue(users: map<string, Option<string>>, rows: seq<Upgrade>, visits: seq<Visit>, i: nat, u: string, first: Option<string>)
    requires u in users && TierFits(users, rows, visits, u, first) && IsPending(rows, i) && IsLast(rows, i, u)
    ensures !HasDue(visits, u)
  {
  }

  lemma OtherDues(visits: seq<Visit>, v: nat, x: Visit)
    requires v < |visits|
    ensures forall w {:trigger IsDue(visits[v := x], w)} :: IsDue(visits[v := x], w) ==>
              if w == v then x.at == TierDue else IsDue(visits, w) && visits[w] == visits[v := x][w]
  {
    forall w | IsDue(visits[v := x], w) && w != v ensures IsDue(visits, w) {}
  }

  /** A decision on u's pending request. */
  lemma OwnReviewFits(users: map<string, Option<string>>, rows: seq<Upgrade>, visits: seq<Visit>, v: nat, u: string, first: Option<string>)
    requires u in users && TierFits(users, rows, visits, u, first)
    requires v < |visits| && visits[v].at == Found && visits[v].row.userId == u
    requires IsPending(rows, visits[v].id) && IsLast(rows, visits[v].id, u)
    ensures var (rows', visits') := AfterSave(rows, visits, v); TierFits(users, rows', visits', u, first)
  {
    var (rows', visits') := AfterSave(rows, visits, v);
    var i := visits[v].id;
    PendingMeansNoDue(users, rows, visits, i, u, first);
    LastReview(rows, i, Verdict(visits[v].approve), i, u);
    TierAtLast(rows, i, u, first);
    TierAtLast(rows', i, u, first);
    assert rows'[..i] == rows[..i];
    OtherDues(visits, v, visits'[v]);
    if visits[v].approve { assert IsDue(visits', v); }
  }

  lemma SaveKeepsHistory(s: State, v: nat, u: string, first: Option<string>)
    requires History(s, u, first) && VisitAt(s, v, Found) && Charge(s, SaveReview(v), u) == 0
    ensures History(Step(s, SaveReview(v)), u, first)
  {
    var visit := s.visits[v];
    var i, verdict := visit.id, Verdict(visit.approve);
    assert VisitOk(s, v);
    StepKeepsValid(s, SaveReview(v));
    if visit.row.userId == u {
      assert IsPending(s.upgrades, i);
      assert IsLast(s.upgrades, i, u);
      OwnReviewFits(s.users, s.upgrades, s.visits, v, u, first);
    } else {
      OtherReviewFits(s.users, s.upgrades, s.visits, i, verdict, u, first);
      SameDues(s.users, SetReview(s.upgrades, i, verdict), s.visits, Step(s, SaveReview(v)).visits, u, first);
    }
    RowsReview(first, s.upgrades, i, verdict, u);
    PendingReview(s.upgrades, i, verdict, u);
  }

  /** Writing the due tier of u: the tier is then what the approved requests lead to, and nothing is due. */
  lemma OwnTierFits(users: map<string, Option<string>>, rows: seq<Upgrade>, visits: seq<Visit>, v: nat, u: string, first: Option<string>)
    requires u in users && TierFits(users, rows, visits, u, first) && IsDue(visits, v) && visits[v].row.userId == u
    requires visits[v].id < |rows| ==> rows[visits[v].id].requestedTier == visits[v].row.requestedTier
    ensures TierFits(users[u := Some(visits[v].row.requestedTier)], rows, visits[v := visits[v].(at := Done)], u, first)
  {
    var visits' := visits[v := visits[v].(at := Done)];
    assert DueOk(users, rows, visits, v, u, first);
    TierAtLast(rows, visits[v].id, u, first);
    OtherDues(visits, v, visits'[v]);
  }

  lemma TierKeepsHistory(s: State, v: nat, ok: bool, u: string, first: Option<string>)
    requires History(s, u, first) && VisitAt(s, v, TierDue) && Charge(s, SaveTier(v, ok), u) == 0
    ensures History(Step(s, SaveTier(v, ok)), u, first)
  {
    var t := Step(s, SaveTier(v, ok));
    assert VisitOk(s, v) && IsDue(s.visits, v);
    StepKeepsValid(s, SaveTier(v, ok));
    if s.visits[v].row.userId == u {
      OwnTierFits(s.users, s.upgrades, s.visits, v, u, first);
    } else {
      SameDues(s.users, s.upgrades, s.visits, t.visits, u, first);
      SameTier(s.users, t.users, s.upgrades, t.visits, u, first);
    }
  }

  lemma SameTier(users: map<string, Option<string>>, users': map<string, Option<string>>, rows: seq<Upgrade>, visits: seq<Visit>, u: string,
                 first: Option<string>)
    requires u in users && u in users' && users'[u] == users[u] && TierFits(users, rows, visits, u, first)
    ensures TierFits(users', rows, visits, u, first)
  {
    forall v | IsDue(visits, v) && visits[v].row.userId == u ensures DueOk(users', rows, visits, v, u, first) {
      assert DueOk(users, rows, visits, v, u, first);
    }
  }

  lemma StepKeepsHistory(s: State, e: Event, u: string, first: Option<string>)
    requires History(s, u, first) && Charge(s, e, u) == 0
    ensures History(Step(s, e), u, first)
  {
    match e
    case ReadUser(_, _) => StepKeepsValid(s, e);
    case ReadPending(_) => StepKeepsValid(s, e);
    case Store(c) => if CallAt(s, c, Checked) { StoreKeepsHistory(s, c, u, first); }
    case FindRequest(id, approve) => if IsPending(s.upgrades, id) { FindKeepsHistory(s, id, approve, u, first); }
    case SaveReview(v) => if VisitAt(s, v, Found) { SaveKeepsHistory(s, v, u, first); }
    case SaveTier(v, ok) => if VisitAt(s, v, TierDue) { TierKeepsHistory(s, v, ok, u, first); }
  }

  /** Over any run in which nothing is charged to u, whatever overlaps and whatever happens to other users: u's approved requests are the
      history of u's tier, but for one tier that may be due; a pending request is u's last. */
  lemma {:induction false} RunKeepsHistory(users: map<string, Option<string>>, events: seq<Event>, u: string)
    requires u in users && Charges(Start(users), events, u) == 0
    ensures History(Run(Start(users), events), u, users[u])
  {
    if events != [] {
      var before := events[..|events| - 1];
      RunKeepsHistory(users, before, u);
      StepKeepsHistory(Run(Start(users), before), events[|events| - 1], u, users[u]);
    }
  }

  /** Then a user has at most one pending request; no tier is due meanwhile; it records the user's tier, asks for more, and is what the
      status call shows. */
  lemma PendingIsCurrent(users: map<string, Option<string>>, events: seq<Event>, u: string, i: nat)
    requires u in users && Charges(Start(users), events, u) == 0
    requires IsPending(Run(Start(users), events).upgrades, i) && Run(Start(users), events).upgrades[i].userId == u
    ensures var s := Run(Start(users), events);
            && u in s.users && s.upgrades[i].currentTier == TierName(s.users[u])
            && CurrentLevel(s.upgrades[i].requestedTier) > Level(s.users[u])
            && (forall j: nat :: IsPending(s.upgrades, j) && s.upgrades[j].userId == u ==> j == i)
            && Latest(s.upgrades, u) == Some(i) && !HasDue(s.visits, u)
  {
    RunKeepsHistory(users, events, u);
    PendingInHistory(Run(Start(users), events), u, users[u], i);
  }

  lemma PendingInHistory(s: State, u: string, first: Option<string>, i: nat)
    requires History(s, u, first) && IsPending(s.upgrades, i) && s.upgrades[i].userId == u
    ensures s.upgrades[i].currentTier == TierName(s.users[u]) && CurrentLevel(s.upgrades[i].requestedTier) > Level(s.users[u])
    ensures Latest(s.upgrades, u) == Some(i) && !HasDue(s.visits, u)
    ensures forall j: nat :: IsPending(s.upgrades, j) && s.upgrades[j].userId == u ==> j == i
  {
    assert IsLast(s.upgrades, i, u) && RowOk(first, s.upgrades, i) && Asks(s.upgrades, i);
    TierAtLast(s.upgrades, i, u, first);
    PendingMeansNoDue(s.users, s.upgrades, s.visits, i, u, first);
    forall j: nat | IsPending(s.upgrades, j) && s.upgrades[j].userId == u ensures j == i { assert IsLast(s.upgrades, j, u); }
  }

  /** Then the write of a due tier raises the user's level and touches no other user. */
  lemma ApprovalRaises(users: map<string, Option<string>>, events: seq<Event>, u: string, v: nat)
    requires u in users && Charges(Start(users), events, u) == 0
    requires VisitAt(Run(Start(users), events), v, TierDue) && Run(Start(users), events).visits[v].row.userId == u
    ensures var s, t := Run(Start(users), events), Step(Run(Start(users), events), SaveTier(v, true));
            && u in s.users && u in t.users && Level(s.users[u]) < Level(t.users[u]) && t.users - {u} == s.users - {u}
  {
    RunKeepsHistory(users, events, u);
    DueRaises(Run(Start(users), events), u, users[u], v);
    TierWritten(Run(Start(users), events), u, v);
  }

  lemma DueRaises(s: State, u: string, first: Option<string>, v: nat)
    requires History(s, u, first) && VisitAt(s, v, TierDue) && s.visits[v].row.userId == u
    ensures Level(s.users[u]) < CurrentLevel(s.visits[v].row.requestedTier)
  {
    var i := s.visits[v].id;
    assert IsDue(s.visits, v) && VisitOk(s, v);
    assert DueOk(s.users, s.upgrades, s.visits, v, u, first);
    assert RowOk(first, s.upgrades, i) && Asks(s.upgrades, i);
  }

  lemma TierWritten(s: State, u: string, v: nat)
    requires VisitAt(s, v, TierDue) && s.visits[v].row.userId == u && u in s.users
    ensures var t := Step(s, SaveTier(v, true));
            u in t.users && t.users[u] == Some(s.visits[v].row.requestedTier) && t.users - {u} == s.users - {u}
  {
  }

  // ---------------------------------------------------------------- uninterrupted calls

  lemma RunOne(s: State, e: Event, u: string)
    ensures Run(s, [e]) == Step(s, e) && Charges(s, [e], u) == Charge(s, e, u)
  {
    assert [e][..0] == [];
  }

  lemma {:induction false} RunConcat(s: State, a: seq<Event>, b: seq<Event>, u: string)
    ensures Run(s, a + b) == Run(Run(s, a), b) && Charges(s, a + b, u) == Charges(s, a, u) + Charges(Run(s, a), b, u)
    decreases |b|
  {
    if b == [] {
      assert a + b == a;
    } else {
      RunConcat(s, a, b[..|b| - 1], u);
      assert (a + b)[..|a + b| - 1] == a + b[..|b| - 1];
    }
  }

  lemma RunThree(s: State, e1: Event, e2: Event, e3: Event, u: string)
    ensures var s1, s2 := Step(s, e1), Step(Step(s, e1), e2);
            && Run(s, [e1, e2, e3]) == Step(s2, e3)
            && Charges(s, [e1, e2, e3], u) == Charge(s, e1, u) + Charge(s1, e2, u) + Charge(s2, e3, u)
  {
    RunOne(s, e1, u);
    RunOne(Step(s, e1), e2, u);
    RunConcat(s, [e1], [e2], u);
    RunOne(Step(Step(s, e1), e2), e3, u);
    RunConcat(s, [e1] + [e2], [e3], u);
    assert [e1, e2, e3] == [e1] + [e2] + [e3];
  }

  function Request(s: State, u: string, tier: string): seq<Event> {
    [ReadUser(u, tier), ReadPending(|s.calls|), Store(|s.calls|)]
  }

  function Approval(s: State, id: nat, ok: bool): seq<Event> {
    [FindRequest(id, true), SaveReview(|s.visits|), SaveTier(|s.visits|, ok)]
  }

  lemma RequestSteps(s: State, u: string, tier: string)
    requires RequestRefusal(s, u, tier).None? && !HasDue(s.visits, u)
    ensures var row := NewRow(s, u, tier);
            && Run(s, Request(s, u, tier)) == s.(upgrades := s.upgrades + [row], calls := s.calls + [Call(row, |s.upgrades|, Ended)])
            && Charges(s, Request(s, u, tier), u) == 0
  {
    var row, n, c := NewRow(s, u, tier), |s.upgrades|, |s.calls|;
    var s1 := s.(calls := s.calls + [Call(row, n, UserRead)]);
    var s2 := s.(calls := s.calls + [Call(row, n, Checked)]);
    RunThree(s, ReadUser(u, tier), ReadPending(c), Store(c), u);
    assert Step(s, ReadUser(u, tier)) == s1;
    assert Step(s1, ReadPending(c)) == s2;
    assert Move(s2, c, Ended) == s.(calls := s.calls + [Call(row, n, Ended)]);
    assert !Late(s2, c);
  }

  lemma ApprovalSteps(s: State, id: nat, ok: bool, u: string)
    requires IsPending(s.upgrades, id) && s.upgrades[id].userId == u && u in s.users
    ensures var row := s.upgrades[id];
            && Run(s, Approval(s, id, ok)) == State(if ok then s.users[u := Some(row.requestedTier)] else s.users,
                                                    SetReview(s.upgrades, id, Approved), s.calls, s.visits + [Visit(id, row, true, Done)])
            && Charges(s, Approval(s, id, ok), u) == if ok then 0 else 1
  {
    var row, v := s.upgrades[id], |s.visits|;
    var s1 := s.(visits := s.visits + [Visit(id, row, true, Found)]);
    var s2 := s.(visits := s.visits + [Visit(id, row, true, TierDue)], upgrades := SetReview(s.upgrades, id, Approved));
    RunThree(s, FindRequest(id, true), SaveReview(v), SaveTier(v, ok), u);
    assert Step(s, FindRequest(id, true)) == s1;
    assert MoveVisit(s1, v, TierDue).visits == s2.visits;
    assert Step(s1, SaveReview(v)) == s2;
    assert MoveVisit(s2, v, Done).visits == s.visits + [Visit(id, row, true, Done)];
  }

  /** A request and its approval, with nothing in between. */
  function Round(s: State, u: string, tier: string, ok: bool): seq<Event> {
    Request(s, u, tier) + Approval(Run(s, Request(s, u, tier)), |s.upgrades|, ok)
  }

  /** The state after it: one more approved request. */
  function AfterRound(s: State, u: string, row: Upgrade, ok: bool): State {
    var n := |s.upgrades|;
    State(if ok then s.users[u := Some(row.requestedTier)] else s.users, s.upgrades + [row.(review := Approved)],
          s.calls + [Call(row, n, Ended)], s.visits + [Visit(n, row, true, Done)])
  }

  lemma RoundSteps(s: State, u: string, tier: string, ok: bool)
    requires RequestRefusal(s, u, tier).None? && !HasDue(s.visits, u)
    ensures Run(s, Round(s, u, tier, ok)) == AfterRound(s, u, NewRow(s, u, tier), ok)
    ensures Charges(s, Round(s, u, tier, ok), u) == if ok then 0 else 1
  {
    var row, n := NewRow(s, u, tier), |s.upgrades|;
    RequestSteps(s, u, tier);
    var t := s.(upgrades := s.upgrades + [row], calls := s.calls + [Call(row, n, Ended)]);
    ApproveLast(s, t, row, ok, u);
    RunConcat(s, Request(s, u, tier), Approval(t, n, ok), u);
  }

  lemma ApproveLast(s: State, t: State, row: Upgrade, ok: bool, u: string)
    requires row.review.Waiting? && row.userId == u && u in s.users
    requires t == s.(upgrades := s.upgrades + [row], calls := s.calls + [Call(row, |s.upgrades|, Ended)])
    ensures Run(t, Approval(t, |s.upgrades|, ok)) == AfterRound(s, u, row, ok)
    ensures Charges(t, Approval(t, |s.upgrades|, ok), u) == if ok then 0 else 1
  {
    var n := |s.upgrades|;
    assert t.upgrades[n] == row && IsPending(t.upgrades, n);
    ApprovalSteps(t, n, ok, u);
    assert SetReview(t.upgrades, n, Approved) == s.upgrades + [row.(review := Approved)];
  }

  lemma TierFacts()
    ensures Upper("NONE") == "NONE" && Upper("BASIC") == "BASIC" && Upper("ADVANCED") == "ADVANCED" && Upper("VERIFIED") == "VERIFIED"
    ensures CurrentLevel("NONE") == 0 && CurrentLevel("BASIC") == 1 && CurrentLevel("ADVANCED") == 2 && CurrentLevel("VERIFIED") == 3
    ensures TierLevel("BASIC") == Some(1) && TierLevel("ADVANCED") == Some(2) && TierLevel("VERIFIED") == Some(3)
  {
  }

  /** Names of the three levels above none. */
  ghost predicate Names(basic: string, advanced: string, verified: string) {
    && Upper(basic) == basic && Upper(advanced) == advanced && Upper(verified) == verified
    && TierLevel(basic) == Some(1) && TierLevel(advanced) == Some(2) && TierLevel(verified) == Some(3)
    && CurrentLevel(basic) == 1 && CurrentLevel(advanced) == 2 && Level(None) == 0
  }

  lemma TheNames()
    ensures Names("BASIC", "ADVANCED", "VERIFIED")
  {
    TierFacts();
  }

  lemma UpgradeAllowed(s: State, u: string, to: string)
    requires u in s.users && !HasPending(s.upgrades, u) && Upper(to) == to
    requires TierLevel(to).Some? && TierLevel(to).value > Level(s.users[u])
    ensures RequestRefusal(s, u, to).None?
  {
  }

  /** So many requests of u, all approved and reviewed once, and nothing of u in play. */
  ghost predicate AllApproved(s: State, u: string, approvals: nat) {
    && u in s.users && !HasPending(s.upgrades, u) && !HasDue(s.visits, u)
    && Approvals(s.upgrades, u) == |s.upgrades| == |s.visits| == approvals
    && (approvals > 0 ==> s.upgrades[0].userId == u)
  }

  lemma OneMoreApproved(s: State, t: State, u: string, row: Upgrade, approvals: nat)
    requires AllApproved(s, u, approvals) && u in t.users && row.userId == u
    requires t.upgrades == s.upgrades + [row.(review := Approved)] && t.visits == s.visits + [Visit(|s.upgrades|, row, true, Done)]
    ensures AllApproved(t, u, approvals + 1)
  {
    CountAppend(s.upgrades, row.(review := Approved), ApprovedOf(u));
    assert forall i :: IsPending(t.upgrades, i) ==> IsPending(s.upgrades, i) && t.upgrades[i] == s.upgrades[i];
    assert forall v :: IsDue(t.visits, v) ==> IsDue(s.visits, v) && t.visits[v] == s.visits[v];
  }

  /** When the tier of each approval is never written, any number of requests can be approved without a level gained. */
  lemma {:induction false} LostTiersHaveNoBound(u: string, basic: string, advanced: string, verified: string, n: nat)
    returns (events: seq<Event>)
    requires Names(basic, advanced, verified)
    ensures var s := Run(Start(map[u := None]), events);
            AllApproved(s, u, n) && s.users == map[u := None] && Charges(Start(map[u := None]), events, u) == n
    decreases n
  {
    if n == 0 {
      events := [];
    } else {
      events := LostTiersHaveNoBound(u, basic, advanced, verified, n - 1);
      var s := Run(Start(map[u := None]), events);
      UpgradeAllowed(s, u, basic);
      RoundSteps(s, u, basic, false);
      OneMoreApproved(s, AfterRound(s, u, NewRow(s, u, basic), false), u, NewRow(s, u, basic), n - 1);
      RunConcat(Start(map[u := None]), events, Round(s, u, basic, false), u);
      events := events + Round(s, u, basic, false);
    }
  }

  // ---------------------------------------------------------------- overlapping requests

  /** Two requests of u, both past their checks before either is stored. */
  function Overlap(s: State, u: string, a: string, b: string): seq<Event> {
    var c := |s.calls|;
    [ReadUser(u, a), ReadUser(u, b), ReadPending(c)] + [ReadPending(c + 1), Store(c), Store(c + 1)]
  }

  lemma OverlapReads(s: State, u: string, a: string, b: string)
    requires LevelRefusal(s.users, u, a).None? && LevelRefusal(s.users, u, b).None? && !HasPending(s.upgrades, u)
    ensures var (n, c) := (|s.upgrades|, |s.calls|);
            Run(s, [ReadUser(u, a), ReadUser(u, b), ReadPending(c)])
            == s.(calls := s.calls + [Call(NewRow(s, u, a), n, Checked), Call(NewRow(s, u, b), n, UserRead)])
  {
    var ra, rb, n, c := NewRow(s, u, a), NewRow(s, u, b), |s.upgrades|, |s.calls|;
    var s1 := s.(calls := s.calls + [Call(ra, n, UserRead)]);
    var s2 := s.(calls := s.calls + [Call(ra, n, UserRead), Call(rb, n, UserRead)]);
    ReadUserThen(s, [], s, u, a);
    assert [] + [ReadUser(u, a)] == [ReadUser(u, a)];
    ReadUserThen(s, [ReadUser(u, a)], s1, u, b);
    assert s1.calls + [Call(rb, n, UserRead)] == s2.calls;
    assert [ReadUser(u, a)] + [ReadUser(u, b)] == [ReadUser(u, a), ReadUser(u, b)];
    ReadPendingThen(s, [ReadUser(u, a), ReadUser(u, b)], s2, c, u);
    assert [ReadUser(u, a), ReadUser(u, b)] + [ReadPending(c)] == [ReadUser(u, a), ReadUser(u, b), ReadPending(c)];
    assert s2.calls[c := Call(ra, n, Checked)] == s.calls + [Call(ra, n, Checked), Call(rb, n, UserRead)];
  }

  lemma ReadUserThen(s: State, events: seq<Event>, t: State, u: string, tier: string)
    requires Run(s, events) == t && LevelRefusal(t.users, u, tier).None?
    ensures Run(s, events + [ReadUser(u, tier)]) == t.(calls := t.calls + [Call(NewRow(t, u, tier), |t.upgrades|, UserRead)])
  {
    assert (events + [ReadUser(u, tier)])[..|events|] == events;
  }

  lemma ReadPendingThen(s: State, events: seq<Event>, t: State, c: nat, u: string)
    requires Run(s, events) == t && CallAt(t, c, UserRead) && t.calls[c].row.userId == u && !HasPending(t.upgrades, u)
    ensures Run(s, events + [ReadPending(c)]) == t.(calls := t.calls[c := t.calls[c].(at := Checked)])
  {
    assert (events + [ReadPending(c)])[..|events|] == events;
  }

  lemma OverlapSteps(s: State, u: string, a: string, b: string)
    requires RequestRefusal(s, u, a).None? && RequestRefusal(s, u, b).None?
    ensures var (ra, rb, n) := (NewRow(s, u, a), NewRow(s, u, b), |s.upgrades|);
            Run(s, Overlap(s, u, a, b))
            == s.(upgrades := s.upgrades + [ra, rb], calls := s.calls + [Call(ra, n, Ended), Call(rb, n, Ended)])
  {
    var ra, rb, n, c := NewRow(s, u, a), NewRow(s, u, b), |s.upgrades|, |s.calls|;
    OverlapReads(s, u, a, b);
    OverlapStores(s, s.(calls := s.calls + [Call(ra, n, Checked), Call(rb, n, UserRead)]), u, ra, rb);
    RunConcat(s, [ReadUser(u, a), ReadUser(u, b), ReadPending(c)], [ReadPending(c + 1), Store(c), Store(c + 1)], u);
  }

  lemma OverlapStores(s: State, s3: State, u: string, ra: Upgrade, rb: Upgrade)
    requires var n := |s.upgrades|; s3 == s.(calls := s.calls + [Call(ra, n, Checked), Call(rb, n, UserRead)])
    requires !HasPending(s.upgrades, u) && rb.userId == u
    ensures var (n, c) := (|s.upgrades|, |s.calls|);
            Run(s3, [ReadPending(c + 1), Store(c), Store(c + 1)])
            == s.(upgrades := s.upgrades + [ra, rb], calls := s.calls + [Call(ra, n, Ended), Call(rb, n, Ended)])
  {
    var n, c := |s.upgrades|, |s.calls|;
    var s4 := s.(calls := s.calls + [Call(ra, n, Checked), Call(rb, n, Checked)]);
    var s5 := s.(upgrades := s.upgrades + [ra], calls := s.calls + [Call(ra, n, Ended), Call(rb, n, Checked)]);
    RunThree(s3, ReadPending(c + 1), Store(c), Store(c + 1), u);
    assert Move(s3, c + 1, Checked) == s4 && Step(s3, ReadPending(c + 1)) == s4;
    assert Move(s4, c, Ended).calls == s5.calls && Step(s4, Store(c)) == s5;
    assert Move(s5, c + 1, Ended).calls == s.calls + [Call(ra, n, Ended), Call(rb, n, Ended)];
    assert s5.upgrades + [rb] == s.upgrades + [ra, rb];
  }

  /** Two requests that overlap are both pending, and both can be approved: whatever the first gave, the level is then that of the
      second. So the second does not raise the level unless it asked for more than the first, and lowers it if it asked for less. */
  lemma OverlappingRequests(s: State, u: string, a: string, b: string)
    requires RequestRefusal(s, u, a).None? && RequestRefusal(s, u, b).None?
    ensures var n := |s.upgrades|;
            var both := Run(s, Overlap(s, u, a, b));
            var one := Run(both, Approval(both, n, true));
            var two := Run(one, Approval(one, n + 1, true));
            && IsPending(both.upgrades, n) && IsPending(both.upgrades, n + 1)
            && both.upgrades[n].userId == u == both.upgrades[n + 1].userId
            && u in one.users && u in two.users
            && Some(Level(one.users[u])) == TierLevel(Upper(a)) && Some(Level(two.users[u])) == TierLevel(Upper(b))
            && Approvals(two.upgrades, u) == Approvals(s.upgrades, u) + 2
  {
    var n := |s.upgrades|;
    var ra, rb := NewRow(s, u, a), NewRow(s, u, b);
    OverlapSteps(s, u, a, b);
    ApproveBoth(Run(s, Overlap(s, u, a, b)), s.upgrades, ra, rb, u);
    UpperTwice(a);
    UpperTwice(b);
  }

  /** Approving the last two requests, both pending and of u, one after the other. */
  lemma ApproveBoth(s: State, front: seq<Upgrade>, ra: Upgrade, rb: Upgrade, u: string)
    requires s.upgrades == front + [ra, rb] && ra.userId == u == rb.userId && ra.review.Waiting? && rb.review.Waiting? && u in s.users
    ensures var n := |front|;
            var one := Run(s, Approval(s, n, true));
            var two := Run(one, Approval(one, n + 1, true));
            && IsPending(s.upgrades, n) && IsPending(s.upgrades, n + 1) && u in one.users && u in two.users
            && one.users[u] == Some(ra.requestedTier) && two.users[u] == Some(rb.requestedTier)
            && Approvals(two.upgrades, u) == Approvals(front, u) + 2
  {
    var n := |front|;
    ApprovalSteps(s, n, true, u);
    var one := Run(s, Approval(s, n, true));
    assert one.upgrades == front + [ra.(review := Approved)] + [rb];
    ApprovalSteps(one, n + 1, true, u);
    var two := Run(one, Approval(one, n + 1, true));
    assert two.upgrades == front + [ra.(review := Approved)] + [rb.(review := Approved)];
    CountAppend(front, ra.(review := Approved), ApprovedOf(u));
    CountAppend(front + [ra.(review := Approved)], rb.(review := Approved), ApprovedOf(u));
  }

  /** ADVANCED and BASIC, both asked for by a user with no tier: the second approval lowers the level from 2 to 1. */
  lemma SecondApprovalLowers(s: State, u: string, basic: string, advanced: string, verified: string)
    requires Names(basic, advanced, verified) && u in s.users && s.users[u] == None && !HasPending(s.upgrades, u)
    ensures var both := Run(s, Overlap(s, u, advanced, basic));
            var one := Run(both, Approval(both, |s.upgrades|, true));
            var two := Run(one, Approval(one, |s.upgrades| + 1, true));
            u in one.users && u in two.users && Level(one.users[u]) == 2 && Level(two.users[u]) == 1
  {
    UpgradeAllowed(s, u, basic);
    UpgradeAllowed(s, u, advanced);
    OverlappingRequests(s, u, advanced, basic);
  }

  // ---------------------------------------------------------------- overlapping reviews

  /** An approval and a rejection both find request id pending, and the approval is saved. */
  function FindTwice(s: State, id: nat): seq<Event> {
    [FindRequest(id, true), FindRequest(id, false), SaveReview(|s.visits|)]
  }

  /** Its tier is written; then the rejection is saved. */
  function RejectLast(v: nat): seq<Event> { [SaveTier(v, true)] + [SaveReview(v + 1)] }

  lemma FindTwiceSteps(s: State, id: nat, u: string)
    requires IsPending(s.upgrades, id)
    ensures var row := s.upgrades[id];
            && Run(s, FindTwice(s, id)) == s.(visits := s.visits + [Visit(id, row, true, TierDue), Visit(id, row, false, Found)],
                                              upgrades := SetReview(s.upgrades, id, Approved))
            && Charges(s, FindTwice(s, id), u) == 0
  {
    var row, v := s.upgrades[id], |s.visits|;
    var reject := Visit(id, row, false, Found);
    var s1 := s.(visits := s.visits + [Visit(id, row, true, Found)]);
    var s2 := s.(visits := s.visits + [Visit(id, row, true, Found), reject]);
    RunThree(s, FindRequest(id, true), FindRequest(id, false), SaveReview(v), u);
    assert Step(s, FindRequest(id, true)) == s1;
    assert s1.visits + [reject] == s2.visits && Step(s1, FindRequest(id, false)) == s2;
    assert MoveVisit(s2, v, TierDue).visits == s.visits + [Visit(id, row, true, TierDue), reject];
  }

  lemma RejectLastSteps(s: State, v: nat)
    requires VisitAt(s, v, TierDue) && VisitAt(s, v + 1, Found) && !s.visits[v + 1].approve
    requires s.visits[v].row.userId == s.visits[v + 1].row.userId && s.visits[v].row.userId in s.users
    requires s.upgrades[s.visits[v + 1].id].review.Approved?
    ensures var row := s.visits[v].row;
            var t := Run(s, RejectLast(v));
            && t.upgrades == SetReview(s.upgrades, s.visits[v + 1].id, Rejected)
            && t.users == s.users[row.userId := Some(row.requestedTier)] && Charges(s, RejectLast(v), row.userId) == 3
  {
    var u := s.visits[v].row.userId;
    RunOne(s, SaveTier(v, true), u);
    RunOne(Step(s, SaveTier(v, true)), SaveReview(v + 1), u);
    RunConcat(s, [SaveTier(v, true)], [SaveReview(v + 1)], u);
  }

  /** The request is then stored as rejected, and its user has the tier. */
  lemma RejectedYetRaised(s: State, id: nat)
    requires IsPending(s.upgrades, id) && s.upgrades[id].userId in s.users
    ensures var row := s.upgrades[id];
            var events := FindTwice(s, id) + RejectLast(|s.visits|);
            var t := Run(s, events);
            && t.upgrades == SetReview(s.upgrades, id, Rejected)
            && t.users == s.users[row.userId := Some(row.requestedTier)] && Charges(s, events, row.userId) == 3
  {
    var u := s.upgrades[id].userId;
    FindTwiceSteps(s, id, u);
    RejectLastSteps(Run(s, FindTwice(s, id)), |s.visits|);
    RunConcat(s, FindTwice(s, id), RejectLast(|s.visits|), u);
    assert SetReview(SetReview(s.upgrades, id, Approved), id, Rejected) == SetReview(s.upgrades, id, Rejected);
  }

  // ---------------------------------------------------------------- each late request can cost three

  /** A request for the lowest tier, asked for when the user had none. */
  function OldCall(u: string, basic: string): Call { Call(Upgrade(u, "NONE", basic, Waiting), 0, Checked) }

  /** The calls from number k to n wait to store such a request. */
  ghost predicate OldCalls(s: State, u: string, basic: string, n: nat, k: nat) {
    n <= |s.calls| && forall c :: k <= c < n ==> s.calls[c] == OldCall(u, basic)
  }

  /** No tier of this run is never written. */
  ghost predicate TiersWritten(events: seq<Event>) {
    forall e :: e in events && e.SaveTier? ==> e.ok
  }

  lemma {:induction false} AskOften(u: string, basic: string, advanced: string, verified: string, n: nat) returns (events: seq<Event>)
    requires Names(basic, advanced, verified)
    ensures var s := Run(Start(map[u := None]), events);
            && OldCalls(s, u, basic, n, 0) && |s.calls| == n && s.users == map[u := None] && AllApproved(s, u, 0)
            && Charges(Start(map[u := None]), events, u) == 0 && TiersWritten(events)
    decreases n
  {
    if n == 0 {
      events := [];
    } else {
      events := AskOften(u, basic, advanced, verified, n - 1);
      var s := Run(Start(map[u := None]), events);
      UpgradeAllowed(s, u, basic);
      var e1, e2 := ReadUser(u, basic), ReadPending(n - 1);
      var s1 := s.(calls := s.calls + [OldCall(u, basic).(at := UserRead)]);
      assert Step(s, e1) == s1;
      assert Move(s1, n - 1, Checked) == s.(calls := s.calls + [OldCall(u, basic)]);
      RunOne(s, e1, u);
      RunConcat(Start(map[u := None]), events, [e1], u);
      RunOne(s1, e2, u);
      RunConcat(Start(map[u := None]), events + [e1], [e2], u);
      events := events + [e1] + [e2];
    }
  }

  /** One upgrade with nothing in between. */
  lemma GoodRound(s: State, u: string, basic: string, n: nat, k: nat, to: string, approvals: nat) returns (t: State, events: seq<Event>)
    requires AllApproved(s, u, approvals) && OldCalls(s, u, basic, n, k)
    requires Upper(to) == to && TierLevel(to).Some? && TierLevel(to).value > Level(s.users[u])
    ensures t == Run(s, events) && Charges(s, events, u) == 0 && TiersWritten(events)
    ensures AllApproved(t, u, approvals + 1) && OldCalls(t, u, basic, n, k) && t.users[u] == Some(to)
  {
    UpgradeAllowed(s, u, to);
    RoundSteps(s, u, to, true);
    events := Round(s, u, to, true);
    t := AfterRound(s, u, NewRow(s, u, to), true);
    OneMoreApproved(s, t, u, NewRow(s, u, to), approvals);
  }

  /** An old call stores its request, which is approved. */
  lemma LateRound(s: State, u: string, basic: string, n: nat, k: nat, approvals: nat) returns (t: State, events: seq<Event>)
    requires AllApproved(s, u, approvals) && approvals > 0 && k < n && OldCalls(s, u, basic, n, k)
    ensures t == Run(s, events) && Charges(s, events, u) == 3 && TiersWritten(events)
    ensures AllApproved(t, u, approvals + 1) && OldCalls(t, u, basic, n, k + 1) && t.users[u] == Some(basic)
  {
    var row, m := OldCall(u, basic).row, |s.upgrades|;
    assert Overtaken(s, k);
    RunOne(s, Store(k), u);
    var s1 := Step(s, Store(k));
    assert s1.upgrades == s.upgrades + [row] && s1.calls == s.calls[k := OldCall(u, basic).(at := Ended)];
    ApprovalSteps(s1, m, true, u);
    RunConcat(s, [Store(k)], Approval(s1, m, true), u);
    events := [Store(k)] + Approval(s1, m, true);
    t := Run(s, events);
    assert SetReview(s1.upgrades, m, Approved) == s.upgrades + [row.(review := Approved)];
    OneMoreApproved(s, t, u, row, approvals);
  }

  /** Two levels up, and down again by an old request. */
  lemma UpAndDown(s: State, u: string, basic: string, advanced: string, verified: string, n: nat, k: nat, approvals: nat)
    returns (t: State, events: seq<Event>)
    requires Names(basic, advanced, verified) && k < n
    requires AllApproved(s, u, approvals) && OldCalls(s, u, basic, n, k) && s.users[u] == Some(basic)
    ensures t == Run(s, events) && Charges(s, events, u) == 3 && TiersWritten(events)
    ensures AllApproved(t, u, approvals + 3) && OldCalls(t, u, basic, n, k + 1) && t.users[u] == Some(basic)
  {
    var s1, up := GoodRound(s, u, basic, n, k, advanced, approvals);
    var s2, upAgain := GoodRound(s1, u, basic, n, k, verified, approvals + 1);
    var s3, down := LateRound(s2, u, basic, n, k, approvals + 2);
    RunConcat(s, up, upAgain, u);
    RunConcat(s, up + upAgain, down, u);
    t, events := s3, up + upAgain + down;
  }

  /** The bound is reached: k late requests can give a user 3 k + 1 approvals for one level, with each request reviewed once and every
      tier written. */
  lemma {:induction false} LateRequestsCostThreeEach(u: string, basic: string, advanced: string, verified: string, n: nat, k: nat)
    returns (events: seq<Event>)
    requires Names(basic, advanced, verified) && k <= n
    ensures var s := Run(Start(map[u := None]), events);
            && AllApproved(s, u, 3 * k + 1) && OldCalls(s, u, basic, n, k) && s.users[u] == Some(basic)
            && Charges(Start(map[u := None]), events, u) == 3 * k && TiersWritten(events)
    decreases k
  {
    var more: seq<Event>;
    var s, t: State;
    if k == 0 {
      events := AskOften(u, basic, advanced, verified, n);
      s := Run(Start(map[u := None]), events);
      t, more := GoodRound(s, u, basic, n, 0, basic, 0);
    } else {
      events := LateRequestsCostThreeEach(u, basic, advanced, verified, n, k - 1);
      s := Run(Start(map[u := None]), events);
      t, more := UpAndDown(s, u, basic, advanced, verified, n, k - 1, 3 * k - 2);
    }
    RunConcat(Start(map[u := None]), events, more, u);
    events := events + more;
  }

  // ---------------------------------------------------------------- the service

  class KycTiersService {
    var users: map<string, Option<string>>
    var upgrades: seq<Upgrade>
    var calls: seq<Call>
    var visits: seq<Visit>

    function Now(): State
      reads this
    {
      State(users, upgrades, calls, visits)
    }

    constructor (users: map<string, Option<string>>)
      ensures Now() == Start(users)
    {
      this.users, upgrades, calls, visits := users, [], [], [];
    }

    /** The row `findOne` by user and status gives, if any. */
    method FindPending(userId: string) returns (i: Option<nat>)
      ensures i.Some? <==> HasPending(upgrades, userId)
      ensures i.Some? ==> IsPending(upgrades, i.value) && upgrades[i.value].userId == userId
    {
      for k := 0 to |upgrades|
        invariant forall j :: IsPending(upgrades, j) && j < k ==> upgrades[j].userId != userId
      {
        if upgrades[k].userId == userId && upgrades[k].review.Waiting? {
          assert IsPending(upgrades, k);
          return Some(k);
        }
      }
      return None;
    }

    /** requestUpgrade up to its second read: the call that goes on, or why the request is refused. */
    method CheckUser(userId: string, requestedTier: string) returns (r: Result<nat, KycError>)
      modifies this`calls
      ensures r == (match LevelRefusal(users, userId, requestedTier) case Some(e) => Err(e) case None => Ok(old(|calls|)))
      ensures Now() == Step(old(Now()), ReadUser(userId, requestedTier))
    {
      if userId !in users { return Err(UserNotFound); }
      var currentTier := TierName(users[userId]);
      var requestedLevel := TierLevel(Upper(requestedTier));
      var currentLevel := CurrentLevel(currentTier);
      if requestedLevel.None? { return Err(InvalidTier); }
      if requestedLevel.value <= currentLevel { return Err(NotHigher); }
      calls := calls + [Call(Upgrade(userId, currentTier, Upper(requestedTier), Waiting), |upgrades|, UserRead)];
      return Ok(|calls| - 1);
    }

    /** The search for a pending request. */
    method CheckPending(c: nat) returns (ok: bool)
      requires CallAt(Now(), c, UserRead)
      modifies this`calls
      ensures ok <==> !HasPending(upgrades, old(calls)[c].row.userId)
      ensures Now() == Step(old(Now()), ReadPending(c))
    {
      var pending := FindPending(calls[c].row.userId);
      calls := calls[c := calls[c].(at := if pending.Some? then Ended else Checked)];
      ok := pending.None?;
    }

    /** The write of the row: the new row's id. */
    method StoreUpgrade(c: nat) returns (id: nat)
      requires CallAt(Now(), c, Checked)
      modifies this`upgrades, this`calls
      ensures id == |old(upgrades)| && Now() == Step(old(Now()), Store(c))
    {
      id := |upgrades|;
      upgrades := upgrades + [calls[c].row];
      calls := calls[c := calls[c].(at := Ended)];
    }

    /** An uninterrupted request. */
    method RequestUpgrade(userId: string, requestedTier: string) returns (r: Result<nat, KycError>)
      modifies this`upgrades, this`calls
      ensures var refusal := RequestRefusal(old(Now()), userId, requestedTier);
              && r == (match refusal case Some(e) => Err(e) case None => Ok(|old(upgrades)|))
              && upgrades == old(upgrades) + (if refusal.Some? then [] else [NewRow(old(Now()), userId, requestedTier)])
    {
      r := CheckUser(userId, requestedTier);
      if r.Ok? {
        var c := r.value;
        var ok := CheckPending(c);
        if !ok { return Err(AlreadyPending); }
        var id := StoreUpgrade(c);
        r := Ok(id);
      }
    }

    /** The read of a review: the call that goes on, or why it is refused. */
    method FindForReview(id: nat, approve: bool) returns (r: Result<nat, KycError>)
      modifies this`visits
      ensures r == (match ReviewRefusal(old(Now()), id) case Some(e) => Err(e) case None => Ok(|old(visits)|))
      ensures Now() == Step(old(Now()), FindRequest(id, approve))
    {
      if id >= |upgrades| { return Err(RequestNotFound); }
      if !upgrades[id].review.Waiting? { return Err(NotPending); }
      visits := visits + [Visit(id, upgrades[id], approve, Found)];
      return Ok(|visits| - 1);
    }

    /** The save of its decision, whatever the request has become. */
    method SaveDecision(v: nat)
      requires VisitAt(Now(), v, Found)
      modifies this`upgrades, this`visits
      ensures Now() == Step(old(Now()), SaveReview(v))
    {
      var visit := visits[v];
      upgrades := upgrades[visit.id := upgrades[visit.id].(review := if visit.approve then Approved else Rejected)];
      visits := visits[v := visit.(at := if visit.approve then TierDue else Done)];
    }

    /** The write of the user's tier. */
    method WriteTier(v: nat, ok: bool)
      requires VisitAt(Now(), v, TierDue)
      modifies this`users, this`visits
      ensures Now() == Step(old(Now()), SaveTier(v, ok))
    {
      var row := visits[v].row;
      visits := visits[v := visits[v].(at := Done)];
      if ok && row.userId in users { users := users[row.userId := Some(row.requestedTier)]; }
    }

    /** An uninterrupted approval; ok: whether the write of the tier goes through. */
    method ApproveRequest(id: nat, ok: bool) returns (r: Result<Upgrade, KycError>)
      modifies this`users, this`upgrades, this`visits
      ensures var refusal := ReviewRefusal(old(Now()), id);
              if refusal.Some? then r == Err(refusal.value) && upgrades == old(upgrades) && users == old(users)
              else
                var row := old(upgrades)[id];
                && r == Ok(row.(review := Approved)) && upgrades == SetReview(old(upgrades), id, Approved)
                && users == if ok && row.userId in old(users) then old(users)[row.userId := Some(row.requestedTier)] else old(users)
    {
      var found := FindForReview(id, true);
      if found.Err? { return Err(found.error); }
      SaveDecision(found.value);
      r := Ok(upgrades[id]);
      WriteTier(found.value, ok);
    }

    /** An uninterrupted rejection. */
    method RejectRequest(id: nat) returns (r: Result<Upgrade, KycError>)
      modifies this`upgrades, this`visits
      ensures var refusal := ReviewRefusal(old(Now()), id);
              if refusal.Some? then r == Err(refusal.value) && upgrades == old(upgrades)
              else r == Ok(old(upgrades)[id].(review := Rejected)) && upgrades == SetReview(old(upgrades), id, Rejected)
    {
      var found := FindForReview(id, false);
      if found.Err? { return Err(found.error); }
      SaveDecision(found.value);
      r := Ok(upgrades[id]);
    }
  }
}
