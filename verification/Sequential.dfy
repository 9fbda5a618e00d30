/** Each operation of the ledger, left alone, ends as the sequential description of it: the two models of one program agree. */
module Sequential {
  import opened Common
  import opened Wallets
  import opened Operations
  import Transactions
  import Transfers

  /** Taken without interruption, the steps of a transfer are those of the transfer ledger. */
  lemma TransferAgrees(l: Transfers.Ledger, i: nat, fault: Fault, ok: bool)
    requires i < |l.transfers|
    ensures var t := l.transfers[i];
            var e := if t.phase == Transfers.Numbered then Transfers.Debit(i, fault)
                     else if t.phase == Transfers.Debited then Transfers.Credit(i, fault)
                     else Transfers.Confirm(i, ok);
            var (b, op) := GoOn(l.balances, Transfer(t.dto.SenderKey(), t.dto.receiverId, t.dto.amount, t.phase), false, fault, ok);
            op.Transfer? && Transfers.Step(l, e).balances == b && Transfers.Step(l, e).transfers[i].phase == op.at
  {
  }

  /** A withdrawal left alone ends as the sequential one does. */
  lemma WithdrawalAgrees(b: Balances, k: WalletKey, amount: real, total: real, f: Transactions.WithdrawalFaults)
    requires f.saveOk && f.numberOk
    ensures var e := Transactions.Withdraw(b, k, total, f);
            var (b1, o1) := GoOn(b, Withdrawal(k, amount, total, WReady), false, f.debit, true);
            var (b2, o2) := GoOn(b1, o1, false, NoFault, f.completeOk && f.cacheOk);
            var (b3, o3) := GoOn(b2, o2, false, f.refund, true);
            && b3 == e.balances && o3.Withdrawal?
            && (WDebitedBy(o3.w) <==> e.debited) && (o3.w == WRefunded <==> e.refunded) && (o3.w == WDone <==> e.returned)
  {
    var op := Withdrawal(k, amount, total, WReady);
    var leg := Leg(b, k, -total, f.debit);
    if leg.Some? {
      assert GoOn(b, op, false, f.debit, true) == (leg.value, op.(w := WDebited));
      if !(f.completeOk && f.cacheOk) {
        assert GoOn(leg.value, op.(w := WDebited), false, NoFault, false) == (leg.value, op.(w := WCaught));
      }
    } else {
      assert GoOn(b, op, false, f.debit, true) == (b, op.(w := WStopped));
    }
  }

  /** Both legs of a reversal left alone are those of the sequential one. */
  lemma ReversalAgrees(b: Balances, t: nat, s: WalletKey, r: WalletKey, a: real, marked: bool, first: Fault, second: Fault)
    ensures var (b1, o1) := GoOn(b, Reversal(t, s, r, a, RPassed), marked, first, true);
            var (b2, o2) := if o1 == Reversal(t, s, r, a, RFirst) then GoOn(b1, o1, marked, second, true) else (b1, o1);
            (b2, o2 == Reversal(t, s, r, a, RMoved)) == Transactions.BackLegs(b, s, r, a, first, second)
  {
  }

  /** One attempt of a swap: the credit, the writes after it, and the catch block, as far as each is reached. */
  function AttemptAlone(b: Balances, op: Op, f: Transactions.AttemptFaults): (Balances, Op)
    requires op.Swap?
    ensures AttemptAlone(b, op, f).1.Swap?
  {
    var (b1, o1) := GoOn(b, op, false, f.credit, true);
    var (b2, o2) := if o1.p == SCredited then GoOn(b1, o1, false, NoFault, f.completeOk && f.feeOk) else (b1, o1);
    if o2.p == SCaught then GoOn(b2, o2, false, NoFault, f.retryOk) else (b2, o2)
  }

  function AttemptsAlone(b: Balances, op: Op, fs: seq<Transactions.AttemptFaults>): (Balances, Op)
    requires op.Swap?
    ensures AttemptsAlone(b, op, fs).1.Swap?
    decreases |fs|
  {
    if fs == [] || op.p != STrying then (b, op) else
      var (c, op') := AttemptAlone(b, op, fs[0]);
      AttemptsAlone(c, op', fs[1..])
  }

  /** A swap under way and the state of the sequential one. */
  ghost predicate Matches(op: Op, e: Transactions.SwapEnd) {
    && op.Swap? && op.credits == e.s.credits
    && (op.p == SDone <==> e.how == Transactions.Success) && (op.p == SThrown <==> e.how == Transactions.Thrown)
    && (op.p in {STrying, SGivingBack} <==> e.how == Transactions.Exhausted) && op.p in {SDone, SThrown, STrying, SGivingBack}
  }

  lemma AttemptAgrees(s: Transactions.SwapState, op: Op, f: Transactions.AttemptFaults)
    requires op.Swap? && op.p == STrying && op.credits == s.credits
    ensures var e := Transactions.Attempt(s, op.to, op.toAmount, op.attempt, f);
            var (b, op') := AttemptAlone(s.balances, op, f);
            && b == e.s.balances && Matches(op', e) && op' == op.(p := op'.p, attempt := op'.attempt, credits := op'.credits)
            && (e.how == Transactions.Exhausted ==>
                  op'.attempt == op.attempt + 1 && (op'.p == STrying <==> op'.attempt < Transactions.MAX_RETRIES))
  {
    var leg := Leg(s.balances, op.to, op.toAmount, f.credit);
    if leg.Some? {
      var o1 := op.(p := SCredited, credits := op.credits + 1);
      assert GoOn(s.balances, op, false, f.credit, true) == (leg.value, o1);
      var wrote := f.completeOk && f.feeOk;
      assert GoOn(leg.value, o1, false, NoFault, wrote) == (leg.value, o1.(p := if wrote then SDone else SCaught));
    } else {
      assert GoOn(s.balances, op, false, f.credit, true) == (s.balances, op.(p := SCaught));
    }
  }

  lemma {:induction false} AttemptsAgree(s: Transactions.SwapState, op: Op, attempt: nat, fs: seq<Transactions.AttemptFaults>)
    requires op.Swap? && op.credits == s.credits && op.attempt == attempt <= |fs| == Transactions.MAX_RETRIES
    requires op.p == if attempt < |fs| then STrying else SGivingBack
    ensures var e := Transactions.Attempts(s, op.to, op.toAmount, attempt, fs);
            var (b, op') := AttemptsAlone(s.balances, op, fs[attempt..]);
            b == e.s.balances && Matches(op', e) && op' == op.(p := op'.p, attempt := op'.attempt, credits := op'.credits)
            && op'.p != STrying
    decreases |fs| - attempt
  {
    if attempt < |fs| {
      AttemptAgrees(s, op, fs[attempt]);
      var e := Transactions.Attempt(s, op.to, op.toAmount, attempt, fs[attempt]);
      var (b, op') := AttemptAlone(s.balances, op, fs[attempt]);
      assert fs[attempt..][0] == fs[attempt] && fs[attempt..][1..] == fs[attempt + 1..];
      if e.how == Transactions.Exhausted {
        AttemptsAgree(e.s, op', attempt + 1, fs);
      }
    }
  }

  /** The whole of a swap left alone. */
  function SwapAlone(b: Balances, op: Op, f: Transactions.SwapFaults): (Balances, Op)
    requires op.Swap?
    ensures SwapAlone(b, op, f).1.Swap?
  {
    var (b1, o1) := GoOn(b, op, false, f.debit, true);
    var (b2, o2) := AttemptsAlone(b1, o1, f.attempts);
    if o2.p == SGivingBack then GoOn(b2, o2, false, f.refund, true) else (b2, o2)
  }

  /** A swap left alone ends as the sequential one does: same balances, same credits, debited and given back alike. */
  lemma SwapAgrees(b: Balances, row: Transactions.TxRow, from: WalletKey, to: WalletKey, amount: real, total: real, toAmount: real,
                   f: Transactions.SwapFaults)
    requires f.saveOk && |f.attempts| == Transactions.MAX_RETRIES
    ensures var s := Transactions.Swap(b, row, from, to, total, toAmount, f).s;
            var (c, op) := SwapAlone(b, Swap(from, to, amount, total, toAmount, SReady, 0, 0), f);
            && c == s.balances && op.credits == s.credits
            && (SDebitedBy(op.p) <==> s.debited) && (op.p == SRefunded <==> s.refunded)
  {
    var op := Swap(from, to, amount, total, toAmount, SReady, 0, 0);
    var s0 := Transactions.SwapState(b, row, [], 0, 0, false, false);
    var leg := Leg(b, from, -total, f.debit);
    if leg.Some? {
      var s1 := Transactions.Save(s0).(balances := leg.value, debited := true);
      assert GoOn(b, op, false, f.debit, true) == (leg.value, op.(p := STrying));
      assert f.attempts[0..] == f.attempts;
      AttemptsAgree(s1, op.(p := STrying), 0, f.attempts);
      Transactions.AttemptsFlags(s1, to, toAmount, 0, f.attempts);
      GivingBackAgrees(Transactions.Attempts(s1, to, toAmount, 0, f.attempts).s,
                       AttemptsAlone(leg.value, op.(p := STrying), f.attempts).1, f.refund, f.failOk);
    } else {
      assert GoOn(b, op, false, f.debit, true) == (b, op.(p := SStopped));
    }
  }

  lemma GivingBackAgrees(s: Transactions.SwapState, op: Op, refund: Fault, failOk: bool)
    requires op.Swap? && op.credits == s.credits && s.debited && !s.refunded
    ensures op.p == SGivingBack ==>
              var e := Transactions.GiveBack(s, op.from, op.total, refund, failOk).s;
              var (c, op') := GoOn(s.balances, op, false, refund, true);
              && c == e.balances && op'.Swap? && op'.credits == e.credits && e.debited && SDebitedBy(op'.p)
              && (op'.p == SRefunded <==> e.refunded)
  {
  }
}
