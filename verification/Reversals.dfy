/** How often the legs of a row's reversal move, when reversals read, move and save as separate steps. */
module Reversals {
  import opened Common
  import opened Wallets
  import opened Operations
  import opened Conservation
  import Transfers

  // ---------------------------------------------------------------- how often a row is reversed

  function Count(ops: seq<Op>, p: Op -> bool): nat {
    if ops == [] then 0 else Count(ops[..|ops| - 1], p) + (if p(ops[|ops| - 1]) then 1 else 0)
  }

  predicate Reverses(op: Op, t: nat) { op.Reversal? && op.target == t }

  /** Reversals of t: whose legs moved; that marked the row; that saved over a mark; whose rows were lost; not yet saved; and those
      still running. */
  function Moved(t: nat): Op -> bool { (op: Op) => Reverses(op, t) && RMovedBy(op.v) }
  function Marking(t: nat): Op -> bool { (op: Op) => Reverses(op, t) && op.v == RSaved(true) }
  function Repeating(t: nat): Op -> bool { (op: Op) => Reverses(op, t) && op.v == RSaved(false) }
  function Lost(t: nat): Op -> bool { (op: Op) => Reverses(op, t) && op.v == RLost }
  function Unsaved(t: nat): Op -> bool { (op: Op) => Reverses(op, t) && op.v == RMoved }
  function Running(t: nat): Op -> bool { (op: Op) => Reverses(op, t) && op.v in {RPassed, RFirst, RMoved} }

  lemma {:induction false} CountOfUpdate(ops: seq<Op>, i: nat, op: Op, p: Op -> bool)
    requires i < |ops|
    ensures Count(ops[i := op], p) == Count(ops, p) - (if p(ops[i]) then 1 else 0) + (if p(op) then 1 else 0)
  {
    var n := |ops| - 1;
    if i < n {
      CountOfUpdate(ops[..n], i, op, p);
      assert ops[i := op][..n] == ops[..n][i := op];
    } else {
      assert ops[i := op][..n] == ops[..n];
    }
  }

  lemma CountOfAppend(ops: seq<Op>, op: Op, p: Op -> bool)
    ensures Count(ops + [op], p) == Count(ops, p) + (if p(op) then 1 else 0)
  {
    assert (ops + [op])[..|ops|] == ops;
  }

  lemma {:induction false} MovedSplits(ops: seq<Op>, t: nat)
    ensures Count(ops, Moved(t))
            == Count(ops, Marking(t)) + Count(ops, Repeating(t)) + Count(ops, Lost(t)) + Count(ops, Unsaved(t))
  {
    if ops != [] { MovedSplits(ops[..|ops| - 1], t); }
  }

  /** What a step of op means for the counts of row t. */
  lemma GoCounted(b: Balances, op: Op, marked: bool, fault: Fault, ok: bool, t: nat)
    ensures var op' := GoOn(b, op, marked, fault, ok).1;
            && (Marking(t)(op') <==> Marking(t)(op) || (Saves(op) && op.target == t && ok && !marked))
            && (Repeating(t)(op') <==> Repeating(t)(op) || (Saves(op) && op.target == t && ok && marked))
            && (Running(t)(op') ==> Running(t)(op))
            && (Saves(op) && ok ==> !Running(t)(op'))
  {
  }

  /** Counts change only with the operation that steps. */
  lemma GoUpdates(l: Ledger, i: nat, fault: Fault, ok: bool, p: Op -> bool)
    requires i < |l.ops|
    ensures var op' := GoOn(l.balances, l.ops[i], IsMarked(l, l.ops[i]), fault, ok).1;
            Count(Step(l, Go(i, fault, ok)).ops, p)
            == Count(l.ops, p) - (if p(l.ops[i]) then 1 else 0) + (if p(op') then 1 else 0)
  {
    CountOfUpdate(l.ops, i, GoOn(l.balances, l.ops[i], IsMarked(l, l.ops[i]), fault, ok).1, p);
  }

  /** An event that is no step of an operation and changes the ledger adds one operation; a new reversal has just read its row. */
  lemma NewOp(l: Ledger, e: Event)
    requires !e.Go? && Step(l, e) != l
    ensures var m := Step(l, e);
            && |m.ops| == |l.ops| + 1 && m.ops == l.ops + [m.ops[|l.ops|]] && m.reversed == l.reversed
            && (m.ops[|l.ops|].Reversal? ==> m.ops[|l.ops|].v == RPassed && e == Reverse(m.ops[|l.ops|].target))
  {
  }

  lemma StepMarksOnce(l: Ledger, e: Event, t: nat)
    requires Count(l.ops, Marking(t)) == if t in l.reversed then 1 else 0
    ensures var m := Step(l, e); Count(m.ops, Marking(t)) == if t in m.reversed then 1 else 0
  {
    var m := Step(l, e);
    if e.Go? {
      if e.i < |l.ops| {
        GoUpdates(l, e.i, e.fault, e.ok, Marking(t));
        GoCounted(l.balances, l.ops[e.i], IsMarked(l, l.ops[e.i]), e.fault, e.ok, t);
      }
    } else if m != l {
      NewOp(l, e);
      CountOfAppend(l.ops, m.ops[|l.ops|], Marking(t));
    }
  }

  lemma {:induction false} RunMarksOnce(init: Balances, events: seq<Event>, t: nat)
    ensures var l := Run(Start(init), events); Count(l.ops, Marking(t)) == if t in l.reversed then 1 else 0
  {
    if events != [] {
      RunMarksOnce(init, events[..|events| - 1], t);
      StepMarksOnce(Run(Start(init), events[..|events| - 1]), events[|events| - 1], t);
    }
  }

  /** How often the legs of row t's reversal have moved, in every interleaving: once if the row is marked, and once more for every
      reversal that saved over a mark, lost its rows after its legs, or has not saved yet. */
  lemma ReversalsCounted(init: Balances, events: seq<Event>, t: nat)
    ensures var l := Run(Start(init), events);
            Count(l.ops, Moved(t))
            == (if t in l.reversed then 1 else 0) + Count(l.ops, Repeating(t)) + Count(l.ops, Lost(t)) + Count(l.ops, Unsaved(t))
  {
    RunMarksOnce(init, events, t);
    MovedSplits(Run(Start(init), events).ops, t);
  }

  /** No reversal of row t reads it while another one of it runs. */
  ghost predicate Serial(init: Balances, events: seq<Event>, t: nat) {
    forall n :: 0 <= n < |events| && events[n] == Reverse(t) ==> Count(Run(Start(init), events[..n]).ops, Running(t)) == 0
  }

  ghost predicate OneAtATime(l: Ledger, t: nat) {
    && Count(l.ops, Repeating(t)) == 0
    && Count(l.ops, Running(t)) <= (if t in l.reversed then 0 else 1)
  }

  lemma {:induction false} CountPositive(ops: seq<Op>, i: nat, p: Op -> bool)
    requires i < |ops| && p(ops[i])
    ensures Count(ops, p) > 0
  {
    if i < |ops| - 1 { CountPositive(ops[..|ops| - 1], i, p); }
  }

  lemma SerialGo(l: Ledger, i: nat, fault: Fault, ok: bool, t: nat)
    requires OneAtATime(l, t) && i < |l.ops|
    ensures OneAtATime(Step(l, Go(i, fault, ok)), t)
  {
    GoUpdates(l, i, fault, ok, Repeating(t));
    GoUpdates(l, i, fault, ok, Running(t));
    GoCounted(l.balances, l.ops[i], IsMarked(l, l.ops[i]), fault, ok, t);
    if Running(t)(l.ops[i]) { CountPositive(l.ops, i, Running(t)); }
  }

  lemma SerialStep(l: Ledger, e: Event, t: nat)
    requires OneAtATime(l, t) && (e == Reverse(t) ==> Count(l.ops, Running(t)) == 0)
    ensures OneAtATime(Step(l, e), t)
  {
    var m := Step(l, e);
    if e.Go? {
      if e.i < |l.ops| { SerialGo(l, e.i, e.fault, e.ok, t); }
    } else if m != l {
      NewOp(l, e);
      CountOfAppend(l.ops, m.ops[|l.ops|], Repeating(t));
      CountOfAppend(l.ops, m.ops[|l.ops|], Running(t));
    }
  }

  lemma {:induction false} SerialRun(init: Balances, events: seq<Event>, t: nat)
    requires Serial(init, events, t)
    ensures OneAtATime(Run(Start(init), events), t)
  {
    if events != [] {
      var before, e := events[..|events| - 1], events[|events| - 1];
      forall n | 0 <= n < |before| && before[n] == Reverse(t)
        ensures Count(Run(Start(init), before[..n]).ops, Running(t)) == 0
      {
        assert before[..n] == events[..n] && events[n] == Reverse(t);
      }
      SerialRun(init, before, t);
      SerialStep(Run(Start(init), before), e, t);
    }
  }

  /** When the reversals of a row do not overlap, its legs move at most once more than the number of reversals whose rows were lost
      after their legs. */
  lemma SerialReversals(init: Balances, events: seq<Event>, t: nat)
    requires Serial(init, events, t)
    ensures var l := Run(Start(init), events); Count(l.ops, Moved(t)) <= 1 + Count(l.ops, Lost(t))
  {
    ReversalsCounted(init, events, t);
    SerialRun(init, events, t);
    UnsavedRuns(Run(Start(init), events).ops, t);
  }

  lemma {:induction false} UnsavedRuns(ops: seq<Op>, t: nat)
    ensures Count(ops, Unsaved(t)) <= Count(ops, Running(t))
  {
    if ops != [] { UnsavedRuns(ops[..|ops| - 1], t); }
  }

  // ---------------------------------------------------------------- overlapping reversals

  function Copies(op: Op, n: nat): seq<Op> {
    seq(n, i => op)
  }

  function Readings(t: nat, n: nat): seq<Event> {
    seq(n, i => Reverse(t))
  }

  /** Both legs of the operations from number base on, one after the other. */
  function BothLegs(base: nat, n: nat): seq<Event> {
    if n == 0 then [] else BothLegs(base, n - 1) + [Go(base + n - 1, NoFault, true)] + [Go(base + n - 1, NoFault, true)]
  }

  lemma {:induction false} ReadAll(l: Ledger, t: nat, n: nat)
    requires t < |l.ops| && HasRow(l.ops[t]) && t !in l.reversed
    ensures var (s, r, a) := Parties(l.ops[t]);
            Run(l, Readings(t, n)) == l.(ops := l.ops + Copies(Reversal(t, s, r, a, RPassed), n))
  {
    var (s, r, a) := Parties(l.ops[t]);
    var op := Reversal(t, s, r, a, RPassed);
    if n == 0 {
      assert l.ops + Copies(op, 0) == l.ops;
    } else {
      ReadAll(l, t, n - 1);
      assert Readings(t, n)[..n - 1] == Readings(t, n - 1);
      assert l.ops + Copies(op, n - 1) + [op] == l.ops + Copies(op, n);
    }
  }

  lemma RunStep(l: Ledger, events: seq<Event>, e: Event)
    ensures Run(l, events + [e]) == Step(Run(l, events), e)
  {
    assert (events + [e])[..|events|] == events;
  }

  /** The sender's wallet takes the amount and the receiver's can pay it; a wallet that pays itself always can. */
  ghost predicate Payable(b: Balances, s: WalletKey, r: WalletKey, a: real) {
    && NonNegative(b) && s.currency in SUPPORTED_CURRENCIES && r.currency in SUPPORTED_CURRENCIES
    && Bal(b, s) as real + a > -0.5 && (s != r ==> Bal(b, r) as real - a > -0.5)
  }

  lemma FirstLeg(b: Balances, s: WalletKey, r: WalletKey, a: real)
    requires Payable(b, s, r, a)
    ensures Leg(b, s, a, NoFault).Some?
    ensures var b1 := Leg(b, s, a, NoFault).value;
            NonNegative(b1) && MovedBy(b, b1, s, CreditCents(a)) && Bal(b1, r) as real - a > -0.5
  {
    AppliedEffect(b, s, a);
    LegMoves(b, s, a, NoFault);
    assert CreditCents(a) as real > a - 0.5;
    assert Bal(Leg(b, s, a, NoFault).value, r) == Bal(b, r) + (if r == s then CreditCents(a) else 0);
  }

  lemma SecondLeg(b: Balances, r: WalletKey, a: real)
    requires NonNegative(b) && r.currency in SUPPORTED_CURRENCIES && Bal(b, r) as real - a > -0.5
    ensures Leg(b, r, -a, NoFault).Some?
    ensures var c := Leg(b, r, -a, NoFault).value; NonNegative(c) && MovedBy(b, c, r, -DebitCents(a))
  {
    AppliedEffect(b, r, a);
    DebitMoves(b, r, a, NoFault);
  }

  /** A step whose leg goes through. */
  lemma LegStep(l: Ledger, i: nat, k: WalletKey, delta: real, b: Balances)
    requires i < |l.ops| && NextLeg(l.ops[i]) == Some((k, delta)) && Leg(l.balances, k, delta, NoFault) == Some(b) && !Saves(l.ops[i])
    ensures Step(l, Go(i, NoFault, true)) == Ledger(b, l.ops[i := After(l.ops[i], true, IsMarked(l, l.ops[i]))], l.reversed)
  {
  }

  /** Two steps of a reversal that has read its row move both legs, when the receiver can pay. */
  lemma LegsOfOne(l: Ledger, i: nat, x: WalletKey)
    requires i < |l.ops| && l.ops[i].Reversal? && l.ops[i].v == RPassed
    requires Payable(l.balances, l.ops[i].s, l.ops[i].r, l.ops[i].backAmount)
    ensures var op := l.ops[i];
            var m := Step(Step(l, Go(i, NoFault, true)), Go(i, NoFault, true));
            && m.ops == l.ops[i := op.(v := RMoved)] && m.reversed == l.reversed && NonNegative(m.balances)
            && Bal(m.balances, x) == Bal(l.balances, x) + (if x == op.s then CreditCents(op.backAmount) else 0)
                                     - (if x == op.r then DebitCents(op.backAmount) else 0)
  {
    var op := l.ops[i];
    FirstLeg(l.balances, op.s, op.r, op.backAmount);
    var b1 := Leg(l.balances, op.s, op.backAmount, NoFault).value;
    LegStep(l, i, op.s, op.backAmount, b1);
    SecondLeg(b1, op.r, op.backAmount);
    var b2 := Leg(b1, op.r, -op.backAmount, NoFault).value;
    var m := Ledger(b1, l.ops[i := op.(v := RFirst)], l.reversed);
    LegStep(m, i, op.r, -op.backAmount, b2);
    assert m.ops[i := op.(v := RMoved)] == l.ops[i := op.(v := RMoved)];
    assert Bal(b1, x) == Bal(l.balances, x) + (if x == op.s then CreditCents(op.backAmount) else 0);
    assert Bal(b2, x) == Bal(b1, x) + (if x == op.r then -DebitCents(op.backAmount) else 0);
  }

  /** The operations when k of the n reversals behind front have moved. */
  function Halfway(front: seq<Op>, op: Op, n: nat, k: nat): seq<Op>
    requires op.Reversal? && k <= n
  {
    front + Copies(op.(v := RMoved), k) + Copies(op, n - k)
  }

  lemma HalfwayNext(front: seq<Op>, op: Op, n: nat, k: nat)
    requires op.Reversal? && 0 < k <= n
    ensures var i := |front| + k - 1;
            && i < |Halfway(front, op, n, k - 1)| && Halfway(front, op, n, k - 1)[i] == op
            && Halfway(front, op, n, k - 1)[i := op.(v := RMoved)] == Halfway(front, op, n, k)
  {
  }

  ghost predicate CanPay(op: Op) {
    && op.Reversal? && op.v == RPassed && op.s != op.r && op.backAmount >= 0.0
    && op.s.currency in SUPPORTED_CURRENCIES && op.r.currency in SUPPORTED_CURRENCIES
  }

  /** k of the n reversals have moved, out of a receiver that had funds cents at first. */
  ghost predicate MovedSoFar(m: Ledger, front: seq<Op>, op: Op, n: nat, k: nat, funds: int)
    requires CanPay(op) && k <= n
  {
    && m.ops == Halfway(front, op, n, k) && NonNegative(m.balances)
    && Bal(m.balances, op.r) == funds - k * DebitCents(op.backAmount)
  }

  lemma MoveNext(m: Ledger, front: seq<Op>, op: Op, n: nat, k: nat, funds: int)
    requires CanPay(op) && 0 < k <= n && MovedSoFar(m, front, op, n, k - 1, funds) && funds > n * DebitCents(op.backAmount)
    ensures var go := Go(|front| + k - 1, NoFault, true); MovedSoFar(Step(Step(m, go), go), front, op, n, k, funds)
  {
    HalfwayNext(front, op, n, k);
    CentsSign(op.backAmount);
    Enough(n, k - 1, DebitCents(op.backAmount), funds);
    assert DebitCents(op.backAmount) as real >= op.backAmount - 0.5;
    LegsOfOne(m, |front| + k - 1, op.r);
    OneMore(k - 1, DebitCents(op.backAmount));
  }

  lemma {:induction false} MoveAll(l: Ledger, front: seq<Op>, op: Op, n: nat, k: nat)
    requires k <= n && CanPay(op) && l.ops == Halfway(front, op, n, 0) && NonNegative(l.balances)
    requires Bal(l.balances, op.r) > n * DebitCents(op.backAmount)
    ensures MovedSoFar(Run(l, BothLegs(|front|, k)), front, op, n, k, Bal(l.balances, op.r))
  {
    if k > 0 {
      MoveAll(l, front, op, n, k - 1);
      var before, go := BothLegs(|front|, k - 1), Go(|front| + k - 1, NoFault, true);
      MoveNext(Run(l, before), front, op, n, k, Bal(l.balances, op.r));
      RunStep(l, before, go);
      RunStep(l, before + [go], go);
    }
  }

  lemma OneMore(n: int, c: int)
    ensures (n + 1) * c == n * c + c
  {
  }

  lemma Enough(n: nat, k: nat, d: int, b: int)
    requires k < n && d >= 0 && b > n * d
    ensures b - k * d > d
  {
    assert (k + 1) * d <= n * d;
    assert (k + 1) * d == k * d + d;
  }

  /** Any number of overlapping reversals of one row all move their legs: n of them, each of which read the row before any was
      saved, take the amount from the receiver n times. */
  lemma OverlappingReversals(l: Ledger, t: nat, n: nat)
    requires t < |l.ops| && HasRow(l.ops[t]) && t !in l.reversed && NonNegative(l.balances)
    requires var (s, r, a) := Parties(l.ops[t]);
             && s != r && a >= 0.0 && s.currency in SUPPORTED_CURRENCIES && r.currency in SUPPORTED_CURRENCIES
             && Bal(l.balances, r) > n * DebitCents(a)
    ensures var (s, r, a) := Parties(l.ops[t]);
            var m := Run(Run(l, Readings(t, n)), BothLegs(|l.ops|, n));
            && m.ops == l.ops + Copies(Reversal(t, s, r, a, RMoved), n)
            && Bal(m.balances, r) == Bal(l.balances, r) - n * DebitCents(a)
  {
    var (s, r, a) := Parties(l.ops[t]);
    var op := Reversal(t, s, r, a, RPassed);
    ReadAll(l, t, n);
    var m := Run(l, Readings(t, n));
    assert m.ops == Halfway(l.ops, op, n, 0);
    MoveAll(m, l.ops, op, n, n);
    assert Halfway(l.ops, op, n, n) == l.ops + Copies(op.(v := RMoved), n);
  }

  // ---------------------------------------------------------------- what a reversal undoes

  /** The reversal of row t of op, with both legs through. */
  function FullReversal(op: Op, t: nat): Op {
    var (s, r, a) := Parties(op);
    Reversal(t, s, r, a, RMoved)
  }

  /** Together op and its reversal have moved nothing. */
  ghost predicate Undone(op: Op, t: nat) {
    forall x :: Effect(op, x) + Effect(FullReversal(op, t), x) == 0
  }

  /** What was taken of total: nothing, the half cent given in excess by a refund, or its debit. */
  function Taken(total: real, debited: bool, refunded: bool): int {
    if !debited then 0 else if refunded then -HalfCent(total) else DebitCents(total)
  }

  /** A transfer must have been credited, or be of an amount whose debit takes nothing; a withdrawal must have taken nothing or given
      it back; a swap must besides have credited nothing; and no half cent may be left. */
  predicate Undoable(op: Op) {
    match op
    case Transfer(_, _, a, at) => HalfCent(a) == 0 && (Transfers.CreditApplied(at) || DebitCents(a) == 0)
    case Withdrawal(_, a, total, w) => HalfCent(a) == Taken(total, WDebitedBy(w), w == WRefunded)
    case Swap(from, to, a, total, toAmount, p, _, credits) =>
      var credited, taken := Times(credits, CreditCents(toAmount)), Taken(total, SDebitedBy(p), p == SRefunded);
      if from == to then HalfCent(a) + credited == taken else HalfCent(a) == taken && credited == 0
    case Reversal(_, _, _, a, _) => HalfCent(a) == 0
  }

  lemma ReversalShares(op: Op, t: nat, x: WalletKey)
    ensures var (s, r, a) := Parties(op);
            Effect(FullReversal(op, t), x) == (if x == s then CreditCents(a) else 0) - (if x == r then DebitCents(a) else 0)
  {
    Halves(Parties(op).2);
  }

  lemma TransferShares(op: Op, x: WalletKey)
    requires op.Transfer?
    ensures Effect(op, x) == (if x == Parties(op).1 && Transfers.CreditApplied(op.at) then CreditCents(op.sent) else 0)
                             - (if x == Parties(op).0 && Transfers.DebitApplied(op.at) then DebitCents(op.sent) else 0)
  {
    Halves(op.sent);
  }

  lemma WithdrawalShares(op: Op, x: WalletKey)
    requires op.Withdrawal?
    ensures Effect(op, x) == if x == op.k then -Taken(op.total, WDebitedBy(op.w), op.w == WRefunded) else 0
  {
    Halves(op.total);
  }

  lemma SwapShares(op: Op, x: WalletKey)
    requires op.Swap?
    ensures Effect(op, x) == (if x == op.to then Times(op.credits, CreditCents(op.toAmount)) else 0)
                             - (if x == op.from then Taken(op.total, SDebitedBy(op.p), op.p == SRefunded) else 0)
  {
    Halves(op.total);
  }

  lemma SavedShares(op: Op, x: WalletKey)
    requires op.Reversal? && op.v.RSaved?
    ensures Effect(op, x) == (if x == op.s then CreditCents(op.backAmount) else 0) - (if x == op.r then DebitCents(op.backAmount) else 0)
  {
    Halves(op.backAmount);
  }

  lemma TransferUndone(op: Op, t: nat)
    requires op.Transfer? && op.sender.account != op.receiverId
    ensures Undone(op, t) <==> Undoable(op)
  {
    var (s, r, a) := Parties(op);
    Halves(a);
    forall x ensures Effect(op, x) + Effect(FullReversal(op, t), x)
                     == (if x == s then CreditCents(a) - (if Transfers.DebitApplied(op.at) then DebitCents(a) else 0) else 0)
                        + (if x == r then (if Transfers.CreditApplied(op.at) then CreditCents(a) else 0) - DebitCents(a) else 0)
    {
      TransferShares(op, x);
      ReversalShares(op, t, x);
    }
    if Undone(op, t) {
      assert Effect(op, s) + Effect(FullReversal(op, t), s) == 0;
      assert Effect(op, r) + Effect(FullReversal(op, t), r) == 0;
    }
  }

  lemma WithdrawalUndone(op: Op, t: nat)
    requires op.Withdrawal?
    ensures Undone(op, t) <==> Undoable(op)
  {
    Halves(op.amount);
    forall x ensures Effect(op, x) + Effect(FullReversal(op, t), x)
                     == if x == op.k then HalfCent(op.amount) - Taken(op.total, WDebitedBy(op.w), op.w == WRefunded) else 0
    {
      WithdrawalShares(op, x);
      ReversalShares(op, t, x);
    }
    if Undone(op, t) { assert Effect(op, op.k) + Effect(FullReversal(op, t), op.k) == 0; }
  }

  lemma SwapUndone(op: Op, t: nat)
    requires op.Swap?
    ensures Undone(op, t) <==> Undoable(op)
  {
    Halves(op.amount);
    var credited, taken := Times(op.credits, CreditCents(op.toAmount)), Taken(op.total, SDebitedBy(op.p), op.p == SRefunded);
    forall x ensures Effect(op, x) + Effect(FullReversal(op, t), x)
                     == (if x == op.from then HalfCent(op.amount) - taken else 0) + (if x == op.to then credited else 0)
    {
      SwapShares(op, x);
      ReversalShares(op, t, x);
    }
    if Undone(op, t) {
      assert Effect(op, op.from) + Effect(FullReversal(op, t), op.from) == 0;
      assert Effect(op, op.to) + Effect(FullReversal(op, t), op.to) == 0;
    }
  }

  lemma ReversalUndone(op: Op, t: nat)
    requires op.Reversal? && op.v.RSaved?
    ensures Undone(op, t) <==> Undoable(op)
  {
    var a := op.backAmount;
    Halves(a);
    forall x ensures Effect(op, x) + Effect(FullReversal(op, t), x)
                     == (if x == op.s then HalfCent(a) else 0) + (if x == op.r then HalfCent(a) else 0)
    {
      SavedShares(op, x);
      ReversalShares(op, t, x);
    }
    if Undone(op, t) { assert Effect(op, op.s) + Effect(FullReversal(op, t), op.s) == 0; }
  }

  /** A reversal undoes what its operation did if and only if the operation got far enough, for every kind of row: see Undoable. */
  lemma UndoneExactly(op: Op, t: nat)
    requires HasRow(op) && (op.Transfer? ==> op.sender.account != op.receiverId)
    ensures Undone(op, t) <==> Undoable(op)
  {
    match op
    case Transfer(_, _, _, _) => TransferUndone(op, t);
    case Withdrawal(_, _, _, _) => WithdrawalUndone(op, t);
    case Swap(_, _, _, _, _, _, _, _) => SwapUndone(op, t);
    case Reversal(_, _, _, _, _) => ReversalUndone(op, t);
  }

  // ---------------------------------------------------------------- whole reversals

  /** Read, both legs, save, with nothing in between. */
  function WholeReversal(l: Ledger, t: nat): seq<Event> {
    [Reverse(t)] + [Go(|l.ops|, NoFault, true)] + [Go(|l.ops|, NoFault, true)] + [Go(|l.ops|, NoFault, true)]
  }

  lemma WholeSteps(l: Ledger, t: nat, x: WalletKey)
    requires t < |l.ops| && HasRow(l.ops[t]) && t !in l.reversed
    requires var (s, r, a) := Parties(l.ops[t]); Payable(l.balances, s, r, a)
    ensures var (s, r, a) := Parties(l.ops[t]);
            var go := Go(|l.ops|, NoFault, true);
            var m := Step(Step(Step(Step(l, Reverse(t)), go), go), go);
            && m.reversed == l.reversed + {t} && m.ops == l.ops + [Reversal(t, s, r, a, RSaved(true))]
            && Bal(m.balances, x) == Bal(l.balances, x) + (if x == s then CreditCents(a) else 0) - (if x == r then DebitCents(a) else 0)
  {
    var (s, r, a) := Parties(l.ops[t]);
    var i, go := |l.ops|, Go(|l.ops|, NoFault, true);
    var op := Reversal(t, s, r, a, RPassed);
    var l1 := Ledger(l.balances, l.ops + [op], l.reversed);
    assert Step(l, Reverse(t)) == l1 && l1.ops[i] == op;
    LegsOfOne(l1, i, x);
    var l3 := Step(Step(l1, go), go);
    assert l3.ops == l.ops + [op.(v := RMoved)];
    SaveStep(l3, l.ops, op.(v := RMoved));
  }

  lemma SaveStep(l: Ledger, front: seq<Op>, op: Op)
    requires l.ops == front + [op] && op.Reversal? && op.v == RMoved && op.target !in l.reversed
    ensures Step(l, Go(|front|, NoFault, true)) == Ledger(l.balances, front + [op.(v := RSaved(true))], l.reversed + {op.target})
  {
  }

  /** A reversal that nothing stops marks its row, gives the sender its cents and takes them from the receiver, whatever the operation
      of that row had moved. */
  lemma ReversalPays(l: Ledger, t: nat, x: WalletKey)
    requires t < |l.ops| && HasRow(l.ops[t]) && t !in l.reversed
    requires var (s, r, a) := Parties(l.ops[t]); Payable(l.balances, s, r, a)
    ensures var (s, r, a) := Parties(l.ops[t]);
            var m := Run(l, WholeReversal(l, t));
            && t in m.reversed
            && Bal(m.balances, x) == Bal(l.balances, x) + (if x == s then CreditCents(a) else 0) - (if x == r then DebitCents(a) else 0)
  {
    WholeSteps(l, t, x);
    var go := Go(|l.ops|, NoFault, true);
    RunStep(l, [], Reverse(t));
    assert [] + [Reverse(t)] == [Reverse(t)];
    RunStep(l, [Reverse(t)], go);
    RunStep(l, [Reverse(t)] + [go], go);
    RunStep(l, [Reverse(t)] + [go] + [go], go);
  }

  /** A transfer that was never debited can be reversed: its receiver, who got nothing, pays the amount. */
  lemma UndebitedTransferCosts(l: Ledger, t: nat)
    requires t < |l.ops| && l.ops[t].Transfer? && !Transfers.DebitApplied(l.ops[t].at) && t !in l.reversed
    requires var (s, r, a) := Parties(l.ops[t]); Payable(l.balances, s, r, a) && s != r
    ensures var (s, r, a) := Parties(l.ops[t]);
            var m := Run(l, WholeReversal(l, t));
            && Effect(l.ops[t], r) == 0 && t in m.reversed
            && Bal(m.balances, r) == Bal(l.balances, r) - DebitCents(a) && Bal(m.balances, s) == Bal(l.balances, s) + CreditCents(a)
  {
    var (s, r, a) := Parties(l.ops[t]);
    ReversalPays(l, t, r);
    ReversalPays(l, t, s);
    TransferShares(l.ops[t], r);
  }

  /** A withdrawal, completed or not, can be reversed: its row is marked, and its wallet gets nothing back but the half cent. */
  lemma ReversedWithdrawalGivesNothing(l: Ledger, t: nat, x: WalletKey)
    requires t < |l.ops| && l.ops[t].Withdrawal? && t !in l.reversed
    requires Payable(l.balances, l.ops[t].k, l.ops[t].k, l.ops[t].amount)
    ensures var m := Run(l, WholeReversal(l, t));
            t in m.reversed && Bal(m.balances, x) == Bal(l.balances, x) + (if x == l.ops[t].k then HalfCent(l.ops[t].amount) else 0)
  {
    ReversalPays(l, t, x);
    Halves(l.ops[t].amount);
  }
}
