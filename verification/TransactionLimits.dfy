/** Daily and monthly USD accumulators. Converting an amount is a step of its own; checking and committing is atomic. */
module TransactionLimits {
  import opened Common

  datatype Limits = Limits(dailyUsd: real, monthlyUsd: real, singleTxUsd: real)

  /** The first ten and the first seven characters of an ISO timestamp. */
  type Day = s: string | |s| == 10 witness "2024-01-01"
  type Month = s: string | |s| == 7 witness "2024-01"

  function MonthOf(day: Day): Month {
    day[..7]
  }

  function DayKey(userId: string, day: Day): string {
    userId + ":" + day
  }

  function MonthKey(userId: string, month: Month): string {
    userId + ":" + month
  }

  /** Whatever characters a user id holds, no two users share a key: the date part has a fixed length. */
  lemma KeysIdentify(u1: string, d1: Day, u2: string, d2: Day)
    ensures DayKey(u1, d1) == DayKey(u2, d2) <==> u1 == u2 && d1 == d2
  {
    if DayKey(u1, d1) == DayKey(u2, d2) {
      assert u1 == DayKey(u1, d1)[..|u1|] && u2 == DayKey(u2, d2)[..|u2|];
      assert d1 == DayKey(u1, d1)[|u1| + 1..] && d2 == DayKey(u2, d2)[|u2| + 1..];
    }
  }

  lemma MonthKeysIdentify(u1: string, m1: Month, u2: string, m2: Month)
    ensures MonthKey(u1, m1) == MonthKey(u2, m2) <==> u1 == u2 && m1 == m2
  {
    if MonthKey(u1, m1) == MonthKey(u2, m2) {
      assert u1 == MonthKey(u1, m1)[..|u1|] && u2 == MonthKey(u2, m2)[..|u2|];
      assert m1 == MonthKey(u1, m1)[|u1| + 1..] && m2 == MonthKey(u2, m2)[|u2| + 1..];
    }
  }

  type Totals = map<string, real>

  function Get(t: Totals, k: string): real {
    if k in t then t[k] else 0.0
  }

  function ToUsd(amount: real, currency: string, rate: real): real {
    if Upper(currency) == "USD" then amount else amount * rate
  }

  datatype LimitError = SingleExceeded | DailyExceeded | MonthlyExceeded

  function Violation(l: Limits, daily: Totals, monthly: Totals, userId: string, usd: real, day: Day, month: Month): Option<LimitError> {
    if usd > l.singleTxUsd then Some(SingleExceeded)
    else if Get(daily, DayKey(userId, day)) + usd > l.dailyUsd then Some(DailyExceeded)
    else if Get(monthly, MonthKey(userId, month)) + usd > l.monthlyUsd then Some(MonthlyExceeded)
    else None
  }

  /** Both accumulators after the check and the commit of one amount. */
  function Commit(l: Limits, daily: Totals, monthly: Totals, userId: string, usd: real, day: Day, month: Month): (Totals, Totals) {
    if Violation(l, daily, monthly, userId, usd, day, month).Some? then (daily, monthly) else
      var dk, mk := DayKey(userId, day), MonthKey(userId, month);
      (daily[dk := Get(daily, dk) + usd], monthly[mk := Get(monthly, mk) + usd])
  }

  // ---------------------------------------------------------------- calls as steps

  /** A call whose amount has been converted and which has not been checked yet. */
  datatype Waiting = Waiting(userId: string, usd: real, checked: bool)

  /** A call that passed, the day and month it was booked under, and whether its transaction has completed. */
  datatype Accepted = Accepted(userId: string, usd: real, day: Day, month: Month, completed: bool)

  datatype State = State(daily: Totals, monthly: Totals, waiting: seq<Waiting>, accepted: seq<Accepted>)

  datatype Event =
    | Convert(userId: string, amount: real, currency: string, rate: real)
    | Check(i: nat, day: Day, month: Month)
    | Complete(j: nat)

  function Step(l: Limits, s: State, e: Event): State {
    match e
    case Convert(userId, amount, currency, rate) =>
      s.(waiting := s.waiting + [Waiting(userId, ToUsd(amount, currency, rate), false)])
    case Check(i, day, month) =>
      if i >= |s.waiting| || s.waiting[i].checked then s else
        var w := s.waiting[i];
        var (daily, monthly) := Commit(l, s.daily, s.monthly, w.userId, w.usd, day, month);
        State(daily, monthly, s.waiting[i := w.(checked := true)],
              s.accepted + (if Violation(l, s.daily, s.monthly, w.userId, w.usd, day, month).Some? then []
                            else [Accepted(w.userId, w.usd, day, month, false)]))
    case Complete(j) =>
      if j < |s.accepted| then s.(accepted := s.accepted[j := s.accepted[j].(completed := true)]) else s
  }

  const EMPTY := State(map[], map[], [], [])

  function Run(l: Limits, events: seq<Event>): State {
    if events == [] then EMPTY else Step(l, Run(l, events[..|events| - 1]), events[|events| - 1])
  }

  // ---------------------------------------------------------------- the accumulators equal the history

  function DaySum(accepted: seq<Accepted>, userId: string, day: Day): real {
    if accepted == [] then 0.0 else
      var a := accepted[|accepted| - 1];
      DaySum(accepted[..|accepted| - 1], userId, day) + (if a.userId == userId && a.day == day then a.usd else 0.0)
  }

  function MonthSum(accepted: seq<Accepted>, userId: string, month: Month): real {
    if accepted == [] then 0.0 else
      var a := accepted[|accepted| - 1];
      MonthSum(accepted[..|accepted| - 1], userId, month) + (if a.userId == userId && a.month == month then a.usd else 0.0)
  }

  /** What completed transactions checked on a day moved. */
  function CompletedSum(accepted: seq<Accepted>, userId: string, day: Day): real {
    if accepted == [] then 0.0 else
      var a := accepted[|accepted| - 1];
      CompletedSum(accepted[..|accepted| - 1], userId, day)
      + (if a.completed && a.userId == userId && a.day == day then a.usd else 0.0)
  }

  /** Each total is the sum of what was accepted under its key, and within its limit. */
  ghost predicate Inv(l: Limits, s: State) {
    (forall u: string, d: Day :: Get(s.daily, DayKey(u, d)) == DaySum(s.accepted, u, d))
    && (forall u: string, m: Month :: Get(s.monthly, MonthKey(u, m)) == MonthSum(s.accepted, u, m))
    && (forall k :: k in s.daily ==> s.daily[k] <= l.dailyUsd)
    && (forall k :: k in s.monthly ==> s.monthly[k] <= l.monthlyUsd)
  }

  lemma {:induction false} CompletionKeepsSums(accepted: seq<Accepted>, j: nat, u: string, d: Day, m: Month)
    requires j < |accepted|
    ensures var after := accepted[j := accepted[j].(completed := true)];
            DaySum(after, u, d) == DaySum(accepted, u, d) && MonthSum(after, u, m) == MonthSum(accepted, u, m)
  {
    var n := |accepted| - 1;
    var after := accepted[j := accepted[j].(completed := true)];
    if j < n {
      CompletionKeepsSums(accepted[..n], j, u, d, m);
      assert after[..n] == accepted[..n][j := accepted[j].(completed := true)];
    } else {
      assert after[..n] == accepted[..n];
    }
  }

  lemma AcceptKeepsInv(l: Limits, s: State, u: string, usd: real, day: Day, month: Month)
    requires Inv(l, s) && Violation(l, s.daily, s.monthly, u, usd, day, month).None?
    ensures var dk, mk := DayKey(u, day), MonthKey(u, month);
            Inv(l, s.(daily := s.daily[dk := Get(s.daily, dk) + usd], monthly := s.monthly[mk := Get(s.monthly, mk) + usd],
                      accepted := s.accepted + [Accepted(u, usd, day, month, false)]))
  {
    var dk, mk := DayKey(u, day), MonthKey(u, month);
    var accepted := s.accepted + [Accepted(u, usd, day, month, false)];
    assert accepted[..|s.accepted|] == s.accepted;
    forall v: string, d: Day ensures Get(s.daily[dk := Get(s.daily, dk) + usd], DayKey(v, d)) == DaySum(accepted, v, d) {
      KeysIdentify(u, day, v, d);
    }
    forall v: string, m: Month ensures Get(s.monthly[mk := Get(s.monthly, mk) + usd], MonthKey(v, m)) == MonthSum(accepted, v, m) {
      MonthKeysIdentify(u, month, v, m);
    }
  }

  lemma CheckKeepsInv(l: Limits, s: State, i: nat, day: Day, month: Month)
    requires Inv(l, s) && i < |s.waiting| && !s.waiting[i].checked
    ensures Inv(l, Step(l, s, Check(i, day, month)))
  {
    var w := s.waiting[i];
    if Violation(l, s.daily, s.monthly, w.userId, w.usd, day, month).None? {
      AcceptKeepsInv(l, s, w.userId, w.usd, day, month);
    } else {
      assert s.accepted + [] == s.accepted;
    }
  }

  lemma CompleteKeepsInv(l: Limits, s: State, j: nat)
    requires Inv(l, s) && j < |s.accepted|
    ensures Inv(l, Step(l, s, Complete(j)))
  {
    var after := s.accepted[j := s.accepted[j].(completed := true)];
    forall u: string, d: Day ensures DaySum(after, u, d) == DaySum(s.accepted, u, d) {
      CompletionKeepsSums(s.accepted, j, u, d, MonthOf(d));
    }
    forall u: string, m: Month ensures MonthSum(after, u, m) == MonthSum(s.accepted, u, m) {
      CompletionKeepsSums(s.accepted, j, u, "2024-01-01", m);
    }
  }

  lemma StepKeepsInv(l: Limits, s: State, e: Event)
    requires Inv(l, s)
    ensures Inv(l, Step(l, s, e))
  {
    match e
    case Convert(_, _, _, _) =>
    case Check(i, day, month) =>
      if i < |s.waiting| && !s.waiting[i].checked { CheckKeepsInv(l, s, i, day, month); }
    case Complete(j) =>
      if j < |s.accepted| { CompleteKeepsInv(l, s, j); }
  }

  /** In every interleaving each total equals the sum of the accepted amounts booked under it and is within its limit. */
  lemma {:induction false} TotalsAreHistory(l: Limits, events: seq<Event>)
    ensures Inv(l, Run(l, events))
  {
    if events != [] {
      TotalsAreHistory(l, events[..|events| - 1]);
      StepKeepsInv(l, Run(l, events[..|events| - 1]), events[|events| - 1]);
    }
  }

  // ---------------------------------------------------------------- months are sums of days

  function DaysTotal(daily: Totals, userId: string, days: seq<Day>): real {
    if days == [] then 0.0 else
      DaysTotal(daily, userId, days[..|days| - 1]) + Get(daily, DayKey(userId, days[|days| - 1]))
  }

  function DaySums(accepted: seq<Accepted>, userId: string, days: seq<Day>): real {
    if days == [] then 0.0 else
      DaySums(accepted, userId, days[..|days| - 1]) + DaySum(accepted, userId, days[|days| - 1])
  }

  lemma {:induction false} DaysTotalIsDaySums(l: Limits, s: State, userId: string, days: seq<Day>)
    requires Inv(l, s)
    ensures DaysTotal(s.daily, userId, days) == DaySums(s.accepted, userId, days)
  {
    if days != [] { DaysTotalIsDaySums(l, s, userId, days[..|days| - 1]); }
  }

  /** One more accepted call adds its amount once, if its day is listed. */
  lemma {:induction false} DaySumsAppend(accepted: seq<Accepted>, a: Accepted, userId: string, days: seq<Day>)
    requires NoDuplicates(days)
    ensures DaySums(accepted + [a], userId, days)
            == DaySums(accepted, userId, days) + (if a.userId == userId && a.day in days then a.usd else 0.0)
  {
    if days != [] {
      var before, last := days[..|days| - 1], days[|days| - 1];
      DaySumsAppend(accepted, a, userId, before);
      assert (accepted + [a])[..|accepted|] == accepted;
      assert days == before + [last] && last !in before;
    }
  }

  lemma {:induction false} DaySumsOfNothing(userId: string, days: seq<Day>)
    ensures DaySums([], userId, days) == 0.0
  {
    if days != [] { DaySumsOfNothing(userId, days[..|days| - 1]); }
  }

  lemma {:induction false} MonthSumIsDaySums(accepted: seq<Accepted>, userId: string, month: Month, days: seq<Day>)
    requires NoDuplicates(days)
    requires forall a :: a in accepted && a.userId == userId ==> (a.month == month <==> a.day in days)
    ensures MonthSum(accepted, userId, month) == DaySums(accepted, userId, days)
  {
    if accepted == [] {
      DaySumsOfNothing(userId, days);
    } else {
      var before, a := accepted[..|accepted| - 1], accepted[|accepted| - 1];
      assert forall x :: x in before ==> x in accepted;
      MonthSumIsDaySums(before, userId, month, days);
      DaySumsAppend(before, a, userId, days);
      assert accepted == before + [a];
      assert a in accepted;
    }
  }

  /** When each call reads its day and its month from one instant, a month's total is the sum of the totals of its days:
      of any list of distinct days of that month that contains every day with an accepted call. */
  lemma MonthIsSumOfDays(l: Limits, events: seq<Event>, userId: string, month: Month, days: seq<Day>)
    requires forall a :: a in Run(l, events).accepted ==> a.month == MonthOf(a.day)
    requires NoDuplicates(days) && forall d :: d in days ==> MonthOf(d) == month
    requires forall a :: a in Run(l, events).accepted && a.userId == userId && a.month == month ==> a.day in days
    ensures Get(Run(l, events).monthly, MonthKey(userId, month)) == DaysTotal(Run(l, events).daily, userId, days)
  {
    var s := Run(l, events);
    TotalsAreHistory(l, events);
    MonthSumIsDaySums(s.accepted, userId, month, days);
    DaysTotalIsDaySums(l, s, userId, days);
  }

  /** Two readings around midnight at the end of a month book a call under the old day and the new month. */
  lemma StraddlingCallSplits(l: Limits)
    requires l.dailyUsd >= 1.0 && l.monthlyUsd >= 1.0 && l.singleTxUsd >= 1.0
    ensures var s := Step(l, Step(l, EMPTY, Convert("u", 1.0, "USD", 0.0)), Check(0, "2024-01-31", "2024-02"));
            Get(s.daily, DayKey("u", "2024-01-31")) == 1.0 && Get(s.monthly, MonthKey("u", MonthOf("2024-01-31"))) == 0.0
  {
    assert Upper("USD") == "USD";
    assert MonthOf("2024-01-31") == "2024-01";
    assert "2024-01"[6] != "2024-02"[6];
    MonthKeysIdentify("u", "2024-01", "u", "2024-02");
  }

  // ---------------------------------------------------------------- what completes is within the total

  /** What transactions checked on a day and not completed stand for. */
  function OpenSum(accepted: seq<Accepted>, userId: string, day: Day): real {
    if accepted == [] then 0.0 else
      var a := accepted[|accepted| - 1];
      OpenSum(accepted[..|accepted| - 1], userId, day)
      + (if !a.completed && a.userId == userId && a.day == day then a.usd else 0.0)
  }

  lemma {:induction false} DaySumSplits(accepted: seq<Accepted>, userId: string, day: Day)
    ensures DaySum(accepted, userId, day) == CompletedSum(accepted, userId, day) + OpenSum(accepted, userId, day)
  {
    if accepted != [] { DaySumSplits(accepted[..|accepted| - 1], userId, day); }
  }

  /** Completed transactions checked on one day sum to no more than that day's total if and only if the accepted amounts not
      completed sum to at least zero; and then they sum to no more than the daily limit. Amounts may have either sign. */
  lemma CompletedWithinDay(l: Limits, events: seq<Event>, userId: string, day: Day)
    requires l.dailyUsd >= 0.0
    ensures var s := Run(l, events);
            && (CompletedSum(s.accepted, userId, day) <= Get(s.daily, DayKey(userId, day)) <==> OpenSum(s.accepted, userId, day) >= 0.0)
            && (OpenSum(s.accepted, userId, day) >= 0.0 ==> CompletedSum(s.accepted, userId, day) <= l.dailyUsd)
  {
    TotalsAreHistory(l, events);
    DaySumSplits(Run(l, events).accepted, userId, day);
  }

  /** The accepted calls with completed set as marks say. */
  function Marked(accepted: seq<Accepted>, marks: seq<bool>): seq<Accepted>
    requires |marks| == |accepted|
  {
    seq(|accepted|, i requires 0 <= i < |accepted| => accepted[i].(completed := marks[i]))
  }

  lemma MarkedFront(accepted: seq<Accepted>, marks: seq<bool>)
    requires |marks| == |accepted| > 0
    ensures var n := |accepted| - 1;
            Marked(accepted, marks)[..n] == Marked(accepted[..n], marks[..n])
            && Marked(accepted, marks)[n] == accepted[n].(completed := marks[n])
  {
  }

  /** Of amounts that are not negative, no choice completes more than the total. */
  lemma {:induction false} ChoiceWithinSum(accepted: seq<Accepted>, marks: seq<bool>, userId: string, day: Day)
    requires |marks| == |accepted|
    requires forall a :: a in accepted && a.userId == userId && a.day == day ==> a.usd >= 0.0
    ensures CompletedSum(Marked(accepted, marks), userId, day) <= DaySum(accepted, userId, day)
  {
    if accepted != [] {
      var n := |accepted| - 1;
      assert forall a :: a in accepted[..n] ==> a in accepted;
      assert accepted[n] in accepted;
      MarkedFront(accepted, marks);
      ChoiceWithinSum(accepted[..n], marks[..n], userId, day);
    }
  }

  /** All but one complete exactly the total less that one. */
  lemma {:induction false} AllButOneSum(accepted: seq<Accepted>, k: int, userId: string, day: Day)
    requires k < |accepted|
    ensures CompletedSum(Marked(accepted, seq(|accepted|, i => i != k)), userId, day)
            == DaySum(accepted, userId, day)
               - (if 0 <= k && accepted[k].userId == userId && accepted[k].day == day then accepted[k].usd else 0.0)
    decreases |accepted|
  {
    if accepted != [] {
      var n := |accepted| - 1;
      var marks := seq(|accepted|, i => i != k);
      MarkedFront(accepted, marks);
      assert marks[..n] == seq(n, i => i != k);
      AllButOneSum(accepted[..n], if k < n then k else -1, userId, day);
      assert k == n ==> seq(n, i => i != k) == seq(n, i => i != -1);
    }
  }

  /** However the accepted calls turn out, those of a day that complete sum to no more than that day's total, if and only if no
      accepted amount of the day is negative. */
  lemma WhateverCompletes(l: Limits, events: seq<Event>, userId: string, day: Day)
    ensures var s := Run(l, events);
            (forall marks: seq<bool> :: |marks| == |s.accepted| ==>
               CompletedSum(Marked(s.accepted, marks), userId, day) <= Get(s.daily, DayKey(userId, day)))
            <==> forall a :: a in s.accepted && a.userId == userId && a.day == day ==> a.usd >= 0.0
  {
    var s := Run(l, events);
    TotalsAreHistory(l, events);
    if forall a :: a in s.accepted && a.userId == userId && a.day == day ==> a.usd >= 0.0 {
      forall marks: seq<bool> | |marks| == |s.accepted|
        ensures CompletedSum(Marked(s.accepted, marks), userId, day) <= Get(s.daily, DayKey(userId, day))
      {
        ChoiceWithinSum(s.accepted, marks, userId, day);
      }
    } else {
      var k :| 0 <= k < |s.accepted| && s.accepted[k].userId == userId && s.accepted[k].day == day && s.accepted[k].usd < 0.0;
      AllButOneSum(s.accepted, k, userId, day);
      var marks := seq(|s.accepted|, i => i != k);
      assert CompletedSum(Marked(s.accepted, marks), userId, day) > Get(s.daily, DayKey(userId, day));
    }
  }

  lemma RunAppend(l: Limits, events: seq<Event>, e: Event)
    ensures Run(l, events + [e]) == Step(l, Run(l, events), e)
  {
    assert (events + [e])[..|events|] == events;
  }

  /** A negative amount is accepted by every check and makes room for as much again. */
  lemma NegativeIsAccepted(l: Limits, daily: Totals, monthly: Totals, userId: string, usd: real, day: Day, month: Month)
    requires usd <= 0.0 && l.singleTxUsd >= 0.0
    requires Get(daily, DayKey(userId, day)) <= l.dailyUsd && Get(monthly, MonthKey(userId, month)) <= l.monthlyUsd
    ensures Violation(l, daily, monthly, userId, usd, day, month).None?
    ensures Get(Commit(l, daily, monthly, userId, usd, day, month).0, DayKey(userId, day)) == Get(daily, DayKey(userId, day)) + usd
  {
  }

  /** After n calls, all accepted, both totals of one user stand at total. */
  ghost predicate OneUser(s: State, userId: string, day: Day, month: Month, n: nat, total: real) {
    && |s.waiting| == n && |s.accepted| == n
    && Get(s.daily, DayKey(userId, day)) == total && Get(s.monthly, MonthKey(userId, month)) == total
  }

  lemma AcceptedStep(l: Limits, s: State, userId: string, usd: real, day: Day, month: Month, n: nat, total: real)
    requires OneUser(s, userId, day, month, n, total)
    requires usd <= l.singleTxUsd && total + usd <= l.dailyUsd && total + usd <= l.monthlyUsd
    ensures var t := Step(l, Step(l, s, Convert(userId, usd, "USD", 1.0)), Check(n, day, month));
            OneUser(t, userId, day, month, n + 1, total + usd)
            && t.accepted == s.accepted + [Accepted(userId, usd, day, month, false)]
  {
    assert Upper("USD") == "USD";
    var c := Step(l, s, Convert(userId, usd, "USD", 1.0));
    assert c.waiting[n] == Waiting(userId, usd, false);
    assert Violation(l, c.daily, c.monthly, userId, usd, day, month).None?;
  }

  /** One user converts and checks -h and then h three times, all on one day. */
  function BackAndForth(userId: string, h: real, day: Day): seq<Event> {
    [Convert(userId, -h, "USD", 1.0)] + [Check(0, day, MonthOf(day))]
    + [Convert(userId, h, "USD", 1.0)] + [Check(1, day, MonthOf(day))]
    + [Convert(userId, h, "USD", 1.0)] + [Check(2, day, MonthOf(day))]
    + [Convert(userId, h, "USD", 1.0)] + [Check(3, day, MonthOf(day))]
  }

  lemma BackAndOnce(l: Limits, userId: string, h: real, day: Day)
    requires 0.0 <= h <= l.singleTxUsd && h <= l.dailyUsd && h <= l.monthlyUsd
    ensures var (a, b) := (Accepted(userId, -h, day, MonthOf(day), false), Accepted(userId, h, day, MonthOf(day), false));
            var s := Run(l, [Convert(userId, -h, "USD", 1.0)] + [Check(0, day, MonthOf(day))]
                            + [Convert(userId, h, "USD", 1.0)] + [Check(1, day, MonthOf(day))]);
            OneUser(s, userId, day, MonthOf(day), 2, 0.0) && s.accepted == [a, b]
  {
    assert [] + [Convert(userId, -h, "USD", 1.0)] == [Convert(userId, -h, "USD", 1.0)];
    TwoSteps(l, [], userId, -h, day, MonthOf(day), 0, 0.0);
    TwoSteps(l, [Convert(userId, -h, "USD", 1.0)] + [Check(0, day, MonthOf(day))], userId, h, day, MonthOf(day), 1, -h);
  }

  lemma OnceAndTwice(l: Limits, events: seq<Event>, userId: string, h: real, day: Day)
    requires 0.0 <= h <= l.singleTxUsd && 2.0 * h <= l.dailyUsd && 2.0 * h <= l.monthlyUsd
    requires OneUser(Run(l, events), userId, day, MonthOf(day), 2, 0.0)
    ensures var b := Accepted(userId, h, day, MonthOf(day), false);
            Run(l, events + [Convert(userId, h, "USD", 1.0)] + [Check(2, day, MonthOf(day))]
                   + [Convert(userId, h, "USD", 1.0)] + [Check(3, day, MonthOf(day))]).accepted
            == Run(l, events).accepted + [b] + [b]
  {
    TwoSteps(l, events, userId, h, day, MonthOf(day), 2, 0.0);
    TwoSteps(l, events + [Convert(userId, h, "USD", 1.0)] + [Check(2, day, MonthOf(day))], userId, h, day, MonthOf(day), 3, h);
  }

  lemma BackAndForthAccepted(l: Limits, userId: string, h: real, day: Day)
    requires 0.0 <= h <= l.singleTxUsd && 2.0 * h <= l.dailyUsd && 2.0 * h <= l.monthlyUsd
    ensures var (a, b) := (Accepted(userId, -h, day, MonthOf(day), false), Accepted(userId, h, day, MonthOf(day), false));
            Run(l, BackAndForth(userId, h, day)).accepted == [a, b, b, b]
  {
    BackAndOnce(l, userId, h, day);
    OnceAndTwice(l, [Convert(userId, -h, "USD", 1.0)] + [Check(0, day, MonthOf(day))]
                    + [Convert(userId, h, "USD", 1.0)] + [Check(1, day, MonthOf(day))], userId, h, day);
  }

  lemma CompleteLastThree(l: Limits, events: seq<Event>, a: Accepted, b: Accepted)
    requires Run(l, events).accepted == [a, b, b, b]
    ensures var c := b.(completed := true);
            Run(l, events + [Complete(1)] + [Complete(2)] + [Complete(3)]).accepted == [a, c, c, c]
  {
    RunAppend(l, events, Complete(1));
    RunAppend(l, events + [Complete(1)], Complete(2));
    RunAppend(l, events + [Complete(1)] + [Complete(2)], Complete(3));
  }

  /** A negative amount lets a day's completed transactions exceed the daily limit by half: half the limit taken back first,
      never completed, and then half the limit spent three times. */
  lemma NegativeAmountBreaksLimit(l: Limits, userId: string, day: Day)
    requires l.dailyUsd > 0.0 && l.monthlyUsd >= l.dailyUsd && l.singleTxUsd >= l.dailyUsd / 2.0
    ensures var s := Run(l, BackAndForth(userId, l.dailyUsd / 2.0, day) + [Complete(1)] + [Complete(2)] + [Complete(3)]);
            CompletedSum(s.accepted, userId, day) == 1.5 * l.dailyUsd
  {
    var h, m := l.dailyUsd / 2.0, MonthOf(day);
    var a, b := Accepted(userId, -h, day, m, false), Accepted(userId, h, day, m, false);
    BackAndForthAccepted(l, userId, h, day);
    CompleteLastThree(l, BackAndForth(userId, h, day), a, b);
    CompletedOfFour(a, b.(completed := true));
  }

  lemma TwoSteps(l: Limits, events: seq<Event>, userId: string, usd: real, day: Day, month: Month, n: nat, total: real)
    requires OneUser(Run(l, events), userId, day, month, n, total)
    requires usd <= l.singleTxUsd && total + usd <= l.dailyUsd && total + usd <= l.monthlyUsd
    ensures var t := Run(l, events + [Convert(userId, usd, "USD", 1.0)] + [Check(n, day, month)]);
            OneUser(t, userId, day, month, n + 1, total + usd)
            && t.accepted == Run(l, events).accepted + [Accepted(userId, usd, day, month, false)]
  {
    RunAppend(l, events, Convert(userId, usd, "USD", 1.0));
    RunAppend(l, events + [Convert(userId, usd, "USD", 1.0)], Check(n, day, month));
    AcceptedStep(l, Run(l, events), userId, usd, day, month, n, total);
  }

  lemma CompletedOfFour(a: Accepted, c: Accepted)
    requires !a.completed && c.completed
    ensures CompletedSum([a, c, c, c], c.userId, c.day) == 3.0 * c.usd
  {
    assert [a, c, c, c][..3] == [a, c, c] && [a, c, c][..2] == [a, c] && [a, c][..1] == [a] && [a][..0] == [];
    assert CompletedSum([a], c.userId, c.day) == 0.0;
    assert CompletedSum([a, c], c.userId, c.day) == c.usd;
    assert CompletedSum([a, c, c], c.userId, c.day) == 2.0 * c.usd;
  }

  // ---------------------------------------------------------------- what one check answers

  /** The answer to an amount, cause by cause: the single limit, the day's, the month's, each allowing the limit itself; and the totals,
      which take the amount when it passes and stay as they are when it does not. An absent total counts as zero. */
  lemma CheckExactly(l: Limits, daily: Totals, monthly: Totals, userId: string, usd: real, day: Day, month: Month)
    ensures var (dk, mk) := (userId + ":" + day, userId + ":" + month);
            var d := (if dk in daily then daily[dk] else 0.0) + usd;
            var m := (if mk in monthly then monthly[mk] else 0.0) + usd;
            var answer := Violation(l, daily, monthly, userId, usd, day, month);
            && (answer == Some(SingleExceeded) <==> usd > l.singleTxUsd)
            && (answer == Some(DailyExceeded) <==> usd <= l.singleTxUsd && d > l.dailyUsd)
            && (answer == Some(MonthlyExceeded) <==> usd <= l.singleTxUsd && d <= l.dailyUsd && m > l.monthlyUsd)
            && (answer == None <==> usd <= l.singleTxUsd && d <= l.dailyUsd && m <= l.monthlyUsd)
            && Commit(l, daily, monthly, userId, usd, day, month)
               == if usd <= l.singleTxUsd && d <= l.dailyUsd && m <= l.monthlyUsd then (daily[dk := d], monthly[mk := m]) else (daily, monthly)
  {
  }

  /** A call converts by the rate of the moment, unless the currency is USD in any case, and is checked later, once, on the day and month
      of that moment. */
  lemma StepExactly(l: Limits, s: State, userId: string, amount: real, currency: string, rate: real, i: nat, day: Day, month: Month)
    requires i < |s.waiting|
    ensures Step(l, s, Convert(userId, amount, currency, rate))
            == s.(waiting := s.waiting + [Waiting(userId, if Upper(currency) == "USD" then amount else amount * rate, false)])
    ensures s.waiting[i].checked ==> Step(l, s, Check(i, day, month)) == s
    ensures !s.waiting[i].checked ==>
              var (w, t) := (s.waiting[i], Step(l, s, Check(i, day, month)));
              && t.waiting == s.waiting[i := w.(checked := true)]
              && (t.daily, t.monthly) == Commit(l, s.daily, s.monthly, w.userId, w.usd, day, month)
              && t.accepted == if Violation(l, s.daily, s.monthly, w.userId, w.usd, day, month) == None
                               then s.accepted + [Accepted(w.userId, w.usd, day, month, false)] else s.accepted
  {
  }

  // ---------------------------------------------------------------- the service

  class TransactionLimitService {
    const limits: Limits
    var dailyTotals: Totals
    var monthlyTotals: Totals

    constructor (limits: Limits)
      ensures this.limits == limits && dailyTotals == EMPTY.daily && monthlyTotals == EMPTY.monthly
    {
      this.limits, dailyTotals, monthlyTotals := limits, map[], map[];
    }

    /** The part of check after the conversion: both totals grow by the amount, or neither does. */
    method CheckAndCommit(userId: string, usd: real, day: Day, month: Month) returns (e: Option<LimitError>)
      modifies this
      ensures e == Violation(limits, old(dailyTotals), old(monthlyTotals), userId, usd, day, month)
      ensures e.Some? ==> dailyTotals == old(dailyTotals) && monthlyTotals == old(monthlyTotals)
      ensures e.None? ==>
                && (forall k :: Get(dailyTotals, k) == Get(old(dailyTotals), k) + (if k == DayKey(userId, day) then usd else 0.0))
                && (forall k :: Get(monthlyTotals, k) == Get(old(monthlyTotals), k) + (if k == MonthKey(userId, month) then usd else 0.0))
      ensures (dailyTotals, monthlyTotals) == Commit(limits, old(dailyTotals), old(monthlyTotals), userId, usd, day, month)
      ensures e == Some(SingleExceeded) <==> usd > limits.singleTxUsd
      ensures e == Some(DailyExceeded) <==>
                usd <= limits.singleTxUsd && Get(old(dailyTotals), userId + ":" + day) + usd > limits.dailyUsd
      ensures e == None ==> Get(dailyTotals, userId + ":" + day) <= limits.dailyUsd && Get(monthlyTotals, userId + ":" + month) <= limits.monthlyUsd
    {
      if usd > limits.singleTxUsd { return Some(SingleExceeded); }
      var dayKey := userId + ":" + day;
      var monKey := userId + ":" + month;
      var dayTotal := Get(dailyTotals, dayKey) + usd;
      var monTotal := Get(monthlyTotals, monKey) + usd;
      if dayTotal > limits.dailyUsd { return Some(DailyExceeded); }
      if monTotal > limits.monthlyUsd { return Some(MonthlyExceeded); }
      dailyTotals := dailyTotals[dayKey := dayTotal];
      monthlyTotals := monthlyTotals[monKey := monTotal];
      e := None;
    }

    /** The whole call: the rate of the moment, then check and commit with nothing in between. */
    method CheckAmount(userId: string, amount: real, currency: string, rate: real, day: Day, month: Month) returns (e: Option<LimitError>)
      modifies this
      ensures var usd := if Upper(currency) == "USD" then amount else amount * rate;
              e == Violation(limits, old(dailyTotals), old(monthlyTotals), userId, usd, day, month)
              && (dailyTotals, monthlyTotals) == Commit(limits, old(dailyTotals), old(monthlyTotals), userId, usd, day, month)
    {
      var usd := ToUsd(amount, currency, rate);
      e := CheckAndCommit(userId, usd, day, month);
    }
  }
}
