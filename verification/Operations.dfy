/** Transfers, withdrawals, swaps and reversals in one ledger, cut at their awaits and interleaved in any way. An operation starts
    here when its row has been saved, past its guards; what the guards let through is a part of what may start here. */
module Operations {
  import opened Common
  import opened Wallets
  import Transactions
  import Transfers

  datatype WithdrawalAt = WReady | WStopped | WDebited | WDone | WCaught | WRefunded | WKept

  datatype SwapAt = SReady | SStopped | STrying | SCredited | SCaught | SDone | SThrown | SGivingBack | SRefunded | SKept

  /** Lost: the rows were not written. Saved: they were; first tells whether the mark was new. */
  datatype ReversalAt = RPassed | RFirst | RMoved | RStopped | RStoppedBetween | RLost | RSaved(first: bool)

  /** Both wallets of a transfer are in the sender's currency; total is amount plus fee; a reversal keeps what it read of its
      target. */
  datatype Op =
    | Transfer(sender: WalletKey, receiverId: string, sent: real, at: Transfers.Phase)
    | Withdrawal(k: WalletKey, amount: real, total: real, w: WithdrawalAt)
    | Swap(from: WalletKey, to: WalletKey, amount: real, total: real, toAmount: real, p: SwapAt, attempt: nat, credits: nat)
    | Reversal(target: nat, s: WalletKey, r: WalletKey, backAmount: real, v: ReversalAt)

  /** reversed holds the rows marked as reversed. */
  datatype Ledger = Ledger(balances: Balances, ops: seq<Op>, reversed: set<nat>)

  /** Go is the next step of operation i; fault is what happens to a leg, ok whether a write goes through. */
  datatype Event =
    | Begin(op: Op)
    | Reverse(target: nat)
    | Go(i: nat, fault: Fault, ok: bool)

  // ---------------------------------------------------------------- steps

  predicate Fresh(op: Op) {
    match op
    case Transfer(_, _, _, at) => at == Transfers.Numbered
    case Withdrawal(_, _, _, w) => w == WReady
    case Swap(_, _, _, _, _, p, attempt, credits) => p == SReady && attempt == 0 && credits == 0
    case Reversal(_, _, _, _, _) => false
  }

  /** Whether an operation has a row a reversal can find. */
  predicate HasRow(op: Op) {
    op.Reversal? ==> op.v.RSaved?
  }

  /** Sender, receiver and amount of an operation's row. */
  function Parties(op: Op): (WalletKey, WalletKey, real) {
    match op
    case Transfer(sender, receiverId, amount, _) => (sender, WalletKey(receiverId, sender.currency), amount)
    case Withdrawal(k, amount, _, _) => (k, k, amount)
    case Swap(from, _, amount, _, _, _, _, _) => (from, from, amount)
    case Reversal(_, s, r, amount, _) => (r, s, amount)
  }

  /** The leg an operation runs next, if its next step is one: the wallet and the signed amount. */
  function NextLeg(op: Op): Option<(WalletKey, real)> {
    match op
    case Transfer(sender, receiverId, amount, at) =>
      if at == Transfers.Numbered then Some((sender, -amount))
      else if at == Transfers.Debited then Some((WalletKey(receiverId, sender.currency), amount))
      else None
    case Withdrawal(k, _, total, w) =>
      if w == WReady then Some((k, -total)) else if w == WCaught then Some((k, total)) else None
    case Swap(from, to, _, total, toAmount, p, _, _) =>
      if p == SReady then Some((from, -total))
      else if p == STrying then Some((to, toAmount))
      else if p == SGivingBack then Some((from, total))
      else None
    case Reversal(_, s, r, amount, v) =>
      if v == RPassed then Some((s, amount)) else if v == RFirst then Some((r, -amount)) else None
  }

  /** Where a step leaves an operation: done tells whether its leg went through, or its write. marked: whether the target of a
      reversal is already marked when its rows are written. */
  function After(op: Op, done: bool, marked: bool): Op {
    match op
    case Transfer(_, _, _, at) =>
      op.(at := match at
                case Numbered => if done then Transfers.Debited else Transfers.StoppedBeforeDebit
                case Debited => if done then Transfers.Credited else Transfers.StoppedBetween
                case Credited => if done then Transfers.Confirmed else Transfers.StoppedAfterCredit
                case _ => at)
    case Withdrawal(_, _, _, w) =>
      op.(w := match w
               case WReady => if done then WDebited else WStopped
               case WDebited => if done then WDone else WCaught
               case WCaught => if done then WRefunded else WKept
               case _ => w)
    case Swap(_, _, _, _, _, p, attempt, credits) =>
      (match p
       case SReady => op.(p := if done then STrying else SStopped)
       case STrying => if done then op.(p := SCredited, credits := credits + 1) else op.(p := SCaught)
       case SCredited => op.(p := if done then SDone else SCaught)
       case SCaught =>
         if !done then op.(p := SThrown)
         else op.(attempt := attempt + 1, p := if attempt + 1 < Transactions.MAX_RETRIES then STrying else SGivingBack)
       case SGivingBack => op.(p := if done then SRefunded else SKept)
       case _ => op)
    case Reversal(_, _, _, _, v) =>
      op.(v := match v
               case RPassed => if done then RFirst else RStopped
               case RFirst => if done then RMoved else RStoppedBetween
               case RMoved => if done then RSaved(!marked) else RLost
               case _ => v)
  }

  /** One step: the leg, if the step is one, and otherwise the write. */
  function GoOn(b: Balances, op: Op, marked: bool, fault: Fault, ok: bool): (Balances, Op) {
    match NextLeg(op)
    case None => (b, After(op, ok, marked))
    case Some(leg) =>
      match Leg(b, leg.0, leg.1, fault)
      case None => (b, After(op, false, marked))
      case Some(c) => (c, After(op, true, marked))
  }

  predicate IsMarked(l: Ledger, op: Op) {
    op.Reversal? && op.target in l.reversed
  }

  /** The next step writes the rows of a reversal. */
  predicate Saves(op: Op) {
    op.Reversal? && op.v == RMoved
  }

  /** A reversal whose row is missing or marked is refused and leaves nothing behind. */
  function Step(l: Ledger, e: Event): Ledger {
    match e
    case Begin(op) => if Fresh(op) then l.(ops := l.ops + [op]) else l
    case Reverse(target) =>
      if target >= |l.ops| || !HasRow(l.ops[target]) || target in l.reversed then l else
        var (s, r, amount) := Parties(l.ops[target]);
        l.(ops := l.ops + [Reversal(target, s, r, amount, RPassed)])
    case Go(i, fault, ok) =>
      if i >= |l.ops| then l else
        var (b, op) := GoOn(l.balances, l.ops[i], IsMarked(l, l.ops[i]), fault, ok);
        Ledger(b, l.ops[i := op], if Saves(l.ops[i]) && ok then l.reversed + {l.ops[i].target} else l.reversed)
  }

  /** An operation begins at its first leg with nothing moved and, a swap, with no attempt made; a reversal does not begin by itself. */
  lemma BeginExactly(l: Ledger, op: Op)
    ensures var first := match op
                         case Transfer(s, r, a, _) => op == Transfer(s, r, a, Transfers.Numbered)
                         case Withdrawal(k, a, total, _) => op == Withdrawal(k, a, total, WReady)
                         case Swap(from, to, a, total, toAmount, _, _, _) => op == Swap(from, to, a, total, toAmount, SReady, 0, 0)
                         case Reversal(_, _, _, _, _) => false;
            Step(l, Begin(op)) == if first then l.(ops := l.ops + [op]) else l
  {
  }

  /** A reversal starts for a row that is there and not marked. It gives the row's sender the amount back and takes it from the receiver:
      of a transfer those two, of a withdrawal and of a swap the user on both sides, of a reversal the other way round. */
  lemma ReverseExactly(l: Ledger, t: nat)
    ensures var there := t < |l.ops| && (l.ops[t].Reversal? ==> l.ops[t].v == RSaved(true) || l.ops[t].v == RSaved(false));
            && (!there || t in l.reversed ==> Step(l, Reverse(t)) == l)
            && (there && t !in l.reversed ==>
                  Step(l, Reverse(t)) == l.(ops := l.ops + [match l.ops[t]
                                                            case Transfer(s, r, a, _) => Reversal(t, s, WalletKey(r, s.currency), a, RPassed)
                                                            case Withdrawal(k, a, _, _) => Reversal(t, k, k, a, RPassed)
                                                            case Swap(from, _, a, _, _, _, _, _) => Reversal(t, from, from, a, RPassed)
                                                            case Reversal(_, s, r, a, _) => Reversal(t, r, s, a, RPassed)]))
  {
  }

  /** The save of a reversal marks its target when it goes through, and tells whether the mark was new; it moves no money. */
  lemma SaveReversalExactly(l: Ledger, i: nat, fault: Fault, ok: bool)
    requires i < |l.ops| && l.ops[i].Reversal? && l.ops[i].v == RMoved
    ensures var op := l.ops[i];
            Step(l, Go(i, fault, ok)) == if ok then Ledger(l.balances, l.ops[i := op.(v := RSaved(op.target !in l.reversed))], l.reversed + {op.target})
                                         else l.(ops := l.ops[i := op.(v := RLost)])
  {
  }

  function Run(l: Ledger, events: seq<Event>): Ledger {
    if events == [] then l else Step(Run(l, events[..|events| - 1]), events[|events| - 1])
  }

  function Start(init: Balances): Ledger {
    Ledger(init, [], {})
  }

  // ---------------------------------------------------------------- what each operation has moved

  datatype Move = Move(k: WalletKey, cents: int)

  predicate WDebitedBy(w: WithdrawalAt) { w != WReady && w != WStopped }
  predicate SDebitedBy(p: SwapAt) { p != SReady && p != SStopped }
  predicate RFirstBy(v: ReversalAt) { v != RPassed && v != RStopped }
  predicate RMovedBy(v: ReversalAt) { v in {RMoved, RLost} || v.RSaved? }

  function If(cond: bool, cents: int): int {
    if cond then cents else 0
  }

  /** c added up n times. */
  function Times(n: nat, c: int): int {
    if n == 0 then 0 else Times(n - 1, c) + c
  }

  /** The legs of an operation that went through, each kind as one move; cents turns signed amounts into cents. */
  function LegsBy(cents: real -> int, op: Op): (Move, Move, Move) {
    match op
    case Transfer(sender, receiverId, amount, at) =>
      (Move(sender, If(Transfers.DebitApplied(at), cents(-amount))),
       Move(WalletKey(receiverId, sender.currency), If(Transfers.CreditApplied(at), cents(amount))),
       Move(sender, 0))
    case Withdrawal(k, _, total, w) =>
      (Move(k, If(WDebitedBy(w), cents(-total))), Move(k, If(w == WRefunded, cents(total))), Move(k, 0))
    case Swap(from, to, _, total, toAmount, p, _, credits) =>
      (Move(from, If(SDebitedBy(p), cents(-total))), Move(to, Times(credits, cents(toAmount))),
       Move(from, If(p == SRefunded, cents(total))))
    case Reversal(_, s, r, amount, v) =>
      (Move(s, If(RFirstBy(v), cents(amount))), Move(r, If(RMovedBy(v), cents(-amount))), Move(s, 0))
  }

  function Share(m: Move, x: WalletKey): int {
    if m.k == x then m.cents else 0
  }

  function EffectBy(cents: real -> int, op: Op, x: WalletKey): int {
    Share(LegsBy(cents, op).0, x) + Share(LegsBy(cents, op).1, x) + Share(LegsBy(cents, op).2, x)
  }

  function Legs(op: Op): (Move, Move, Move) {
    LegsBy(CreditCents, op)
  }

  function Effect(op: Op, x: WalletKey): int {
    EffectBy(CreditCents, op, x)
  }

  /** One step of one operation moves the balances by the change of its effect. */
  ghost predicate Explained(b: Balances, c: Balances, op: Op, op': Op) {
    NonNegative(c) && forall x :: Bal(c, x) - Bal(b, x) == Effect(op', x) - Effect(op, x)
  }

  /** What the next step of op moves in wallet x, if done: the cents of its leg, if it is one. */
  function Moves(cents: real -> int, op: Op, done: bool, x: WalletKey): int {
    match NextLeg(op)
    case None => 0
    case Some(leg) => If(done && leg.0 == x, cents(leg.1))
  }

  lemma SwapMoves(cents: real -> int, op: Op, done: bool, marked: bool, x: WalletKey)
    requires op.Swap?
    ensures EffectBy(cents, After(op, done, marked), x) - EffectBy(cents, op, x) == Moves(cents, op, done, x)
  {
    if op.p == STrying && done {
      assert Times(op.credits + 1, cents(op.toAmount)) == Times(op.credits, cents(op.toAmount)) + cents(op.toAmount);
    } else {
      assert After(op, done, marked).credits == op.credits;
    }
  }

  lemma TransferMoves(cents: real -> int, op: Op, done: bool, marked: bool, x: WalletKey)
    requires op.Transfer?
    ensures EffectBy(cents, After(op, done, marked), x) - EffectBy(cents, op, x) == Moves(cents, op, done, x)
  {
  }

  /** A leg that went through adds its cents to the effect; a step with no leg, or whose leg did not, adds nothing. */
  lemma AfterMoves(cents: real -> int, op: Op, done: bool, marked: bool, x: WalletKey)
    ensures EffectBy(cents, After(op, done, marked), x) - EffectBy(cents, op, x) == Moves(cents, op, done, x)
  {
    if op.Swap? { SwapMoves(cents, op, done, marked, x); }
    if op.Transfer? { TransferMoves(cents, op, done, marked, x); }
  }

  lemma StepExplained(b: Balances, op: Op, marked: bool, fault: Fault, ok: bool)
    requires NonNegative(b)
    ensures Explained(b, GoOn(b, op, marked, fault, ok).0, op, GoOn(b, op, marked, fault, ok).1)
  {
    var (c, op') := GoOn(b, op, marked, fault, ok);
    if NextLeg(op).Some? && Leg(b, NextLeg(op).value.0, NextLeg(op).value.1, fault).Some? {
      LegMoves(b, NextLeg(op).value.0, NextLeg(op).value.1, fault);
      forall x ensures Bal(c, x) - Bal(b, x) == Effect(op', x) - Effect(op, x) { AfterMoves(CreditCents, op, true, marked, x); }
    } else {
      forall x ensures Effect(op', x) == Effect(op, x) {
        AfterMoves(CreditCents, op, false, marked, x);
        AfterMoves(CreditCents, op, ok, marked, x);
      }
    }
  }

  function Effects(ops: seq<Op>, x: WalletKey): int {
    if ops == [] then 0 else Effects(ops[..|ops| - 1], x) + Effect(ops[|ops| - 1], x)
  }

  /** No balance is negative, and each is its initial value plus what the operations have moved. */
  ghost predicate Inv(init: Balances, l: Ledger) {
    NonNegative(l.balances) && forall x :: Bal(l.balances, x) == Bal(init, x) + Effects(l.ops, x)
  }

  lemma {:induction false} EffectsOfUpdate(ops: seq<Op>, i: nat, op: Op, x: WalletKey)
    requires i < |ops|
    ensures Effects(ops[i := op], x) == Effects(ops, x) - Effect(ops[i], x) + Effect(op, x)
  {
    var n := |ops| - 1;
    if i < n {
      EffectsOfUpdate(ops[..n], i, op, x);
      assert ops[i := op][..n] == ops[..n][i := op];
    } else {
      assert ops[i := op][..n] == ops[..n];
    }
  }

  lemma NewHasMovedNothing(ops: seq<Op>, op: Op, x: WalletKey)
    requires Fresh(op) || (op.Reversal? && op.v == RPassed)
    ensures Effects(ops + [op], x) == Effects(ops, x)
  {
    assert (ops + [op])[..|ops|] == ops;
  }

  lemma GoKeepsInv(init: Balances, l: Ledger, i: nat, fault: Fault, ok: bool)
    requires Inv(init, l) && i < |l.ops|
    ensures Inv(init, Step(l, Go(i, fault, ok)))
  {
    var (b, op) := GoOn(l.balances, l.ops[i], IsMarked(l, l.ops[i]), fault, ok);
    StepExplained(l.balances, l.ops[i], IsMarked(l, l.ops[i]), fault, ok);
    forall x ensures Bal(b, x) == Bal(init, x) + Effects(l.ops[i := op], x) {
      EffectsOfUpdate(l.ops, i, op, x);
    }
  }

  lemma StepKeepsInv(init: Balances, l: Ledger, e: Event)
    requires Inv(init, l)
    ensures Inv(init, Step(l, e))
  {
    var m := Step(l, e);
    if e.Go? {
      if e.i < |l.ops| { GoKeepsInv(init, l, e.i, e.fault, e.ok); }
    } else if m != l {
      forall x ensures Effects(m.ops, x) == Effects(l.ops, x) { NewHasMovedNothing(l.ops, m.ops[|l.ops|], x); }
    }
  }

  lemma {:induction false} InvFromAnyLedger(init: Balances, l: Ledger, events: seq<Event>)
    requires Inv(init, l)
    ensures Inv(init, Run(l, events))
  {
    if events != [] {
      InvFromAnyLedger(init, l, events[..|events| - 1]);
      StepKeepsInv(init, Run(l, events[..|events| - 1]), events[|events| - 1]);
    }
  }

  /** Whatever operations run, however they interleave and fail: no balance is negative, and each is its initial value plus what
      the operations have moved. */
  lemma BalancesAreLegs(init: Balances, events: seq<Event>, x: WalletKey)
    requires NonNegative(init)
    ensures var l := Run(Start(init), events);
            NonNegative(l.balances) && 0 <= Bal(l.balances, x) == Bal(init, x) + Effects(l.ops, x)
  {
    InvFromAnyLedger(init, Start(init), events);
  }
}
