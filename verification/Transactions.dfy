/** Withdrawals, swaps, cancellation and reversal over the wallet store. Every write may fail; a fault record says which do.
    Amounts are real numbers of cents. */
module Transactions {
  import opened Common
  import opened Wallets

  const MAX_RETRIES := 3

  datatype TxRow = TxRow(senderId: string, receiverId: string, amount: real, currency: string, fee: real,
                         status: Status, retryCount: nat, reversed: bool)

  datatype TxError =
    | TermsMissing | DestinationMissing | LimitExceeded | BadCurrency | ReadFailed | InsufficientFunds
    | WriteFailed | NotFound | NotCancellable | AlreadyReversed

  function KeyOf(account: string, currency: string): WalletKey {
    WalletKey(account, NormalizeCurrencyCode(currency))
  }

  // ---------------------------------------------------------------- withdrawals

  /** The guards of a withdrawal that did not answer "go on", in the order they are tried. */
  function WithdrawalPreflight(b: Balances, k: WalletKey, total: real, termsOk: bool, destinationOk: bool, limitOk: bool,
                               readOk: bool): Option<TxError>
  {
    if !termsOk then Some(TermsMissing)
    else if !destinationOk then Some(DestinationMissing)
    else if !limitOk then Some(LimitExceeded)
    else if k.currency !in SUPPORTED_CURRENCIES then Some(BadCurrency)
    else if !readOk then Some(ReadFailed)
    else if Bal(b, k) as real < total then Some(InsufficientFunds)
    else None
  }

  datatype WithdrawalFaults = WithdrawalFaults(saveOk: bool, numberOk: bool, debit: Fault, completeOk: bool, cacheOk: bool,
                                               refund: Fault, failOk: bool)

  /** The end of a withdrawal past its guards: balances, stored status, and which of its two money moves happened. */
  datatype WithdrawalEnd = WithdrawalEnd(balances: Balances, stored: Option<Status>, debited: bool, refunded: bool, returned: bool)

  function Withdraw(b: Balances, k: WalletKey, total: real, f: WithdrawalFaults): WithdrawalEnd {
    if !f.saveOk then WithdrawalEnd(b, None, false, false, false)
    else if !f.numberOk then WithdrawalEnd(b, Some(Pending), false, false, false)
    else match Leg(b, k, -total, f.debit)
      case None => WithdrawalEnd(b, Some(Pending), false, false, false)
      case Some(b1) =>
        if f.completeOk && f.cacheOk then WithdrawalEnd(b1, Some(Completed), true, false, true) else
          var stored := if f.completeOk then Completed else Pending;
          match Leg(b1, k, total, f.refund)
          case None => WithdrawalEnd(b1, Some(stored), true, false, false)
          case Some(b2) => WithdrawalEnd(b2, Some(if f.failOk then Failed else stored), true, true, false)
  }

  /** A leg that goes through moves exactly its own wallet by its cents, whatever the sign of the amount. */
  lemma LegEffect(b: Balances, k: WalletKey, a: real, fault: Fault)
    requires NonNegative(b)
    ensures Leg(b, k, -a, fault).Some? ==>
              NonNegative(Leg(b, k, -a, fault).value) &&
              forall x :: Bal(Leg(b, k, -a, fault).value, x) == Bal(b, x) - (if x == k then DebitCents(a) else 0)
    ensures Leg(b, k, a, fault).Some? ==>
              NonNegative(Leg(b, k, a, fault).value) &&
              forall x :: Bal(Leg(b, k, a, fault).value, x) == Bal(b, x) + (if x == k then CreditCents(a) else 0)
  {
    AppliedEffect(b, k, a);
  }

  lemma HalfCentGap(a: real)
    ensures CreditCents(a) - DebitCents(a) == if SubCent(a) == 0.5 then 1 else 0
  {
  }

  /** Whatever fails and whatever the sign of the total, a withdrawal takes its cents at most once, gives them back at most
      once, and touches no other wallet; refunded, it leaves the balance where it was, or one cent higher for an exact half
      cent. Not refunded, it does not raise the balance if and only if the total is above minus half a cent. */
  lemma WithdrawalMoney(b: Balances, k: WalletKey, total: real, f: WithdrawalFaults)
    requires NonNegative(b)
    ensures var e := Withdraw(b, k, total, f);
            && NonNegative(e.balances)
            && (e.refunded ==> e.debited)
            && (forall x :: x != k ==> Bal(e.balances, x) == Bal(b, x))
            && (!e.debited ==> Bal(e.balances, k) == Bal(b, k))
            && (e.debited && !e.refunded ==>
                  && Bal(e.balances, k) == Bal(b, k) - DebitCents(total)
                  && (Bal(e.balances, k) <= Bal(b, k) <==> total > -0.5))
            && (e.refunded ==> Bal(e.balances, k) == Bal(b, k) + (if SubCent(total) == 0.5 then 1 else 0))
  {
    LegEffect(b, k, total, f.debit);
    CentsSign(total);
    match Leg(b, k, -total, f.debit) {
      case None =>
      case Some(b1) =>
        LegEffect(b1, k, total, f.refund);
        HalfCentGap(total);
    }
  }

  /** A total of minus half a cent or less passes the balance guard of any wallet, and a withdrawal of it on which nothing
      fails is COMPLETED and pays its absolute value into the wallet. */
  lemma NegativeWithdrawalPays(b: Balances, k: WalletKey, total: real)
    requires NonNegative(b) && total <= -0.5 && k.currency in SUPPORTED_CURRENCIES
    ensures WithdrawalPreflight(b, k, total, true, true, true, true).None?
    ensures var e := Withdraw(b, k, total, WithdrawalFaults(true, true, NoFault, true, true, NoFault, true));
            e.returned && e.stored == Some(Completed) && Bal(e.balances, k) == Bal(b, k) + CreditCents(-total) > Bal(b, k)
  {
    WithdrawalMoney(b, k, total, WithdrawalFaults(true, true, NoFault, true, true, NoFault, true));
    AppliedEffect(b, k, total);
    CentsSign(total);
  }

  /** Whether the debit of a withdrawal goes through, and whether the refund would after it. */
  predicate DebitHolds(b: Balances, k: WalletKey, total: real, f: WithdrawalFaults) {
    f.saveOk && f.numberOk && Leg(b, k, -total, f.debit).Some?
  }

  predicate RefundHolds(b: Balances, k: WalletKey, total: real, f: WithdrawalFaults) {
    DebitHolds(b, k, total, f) && Leg(Leg(b, k, -total, f.debit).value, k, total, f.refund).Some?
  }

  /** When the money moved and what the stored row then says, for every failure, in terms of what failed. The money is taken when the
      debit holds, and given back when besides the first save or the cache call fails and the refund holds. COMPLETED: taken, the
      first save held, and not both given back and saved as FAILED. FAILED: given back and saved. PENDING: untouched, or taken with
      the first save lost and not saved as FAILED. */
  lemma WithdrawalStatus(b: Balances, k: WalletKey, total: real, f: WithdrawalFaults)
    ensures var e := Withdraw(b, k, total, f);
            var (debit, refund) := (DebitHolds(b, k, total, f), RefundHolds(b, k, total, f));
            var caught := !(f.completeOk && f.cacheOk);
            && (e.debited <==> debit) && (e.refunded <==> caught && refund) && (e.returned <==> debit && !caught)
            && (e.stored.None? <==> !f.saveOk)
            && (e.stored == Some(Failed) <==> caught && refund && f.failOk)
            && (e.stored == Some(Completed) <==> debit && f.completeOk && (f.cacheOk || !refund || !f.failOk))
            && (e.stored == Some(Pending) <==> f.saveOk && (!debit || (!f.completeOk && (!refund || !f.failOk))))
  {
  }

  /** A leg that the balance allows goes through: a zero amount only reads, any other needs the whole unit. */
  predicate Carried(amount: real, fault: Fault) {
    if amount == 0.0 then fault != FindFails else fault == NoFault
  }

  /** The refusals of a withdrawal, cause by cause. */
  lemma WithdrawalRefusals(b: Balances, k: WalletKey, total: real, termsOk: bool, destinationOk: bool, limitOk: bool, readOk: bool)
    ensures var refusal := WithdrawalPreflight(b, k, total, termsOk, destinationOk, limitOk, readOk);
            var (asked, known) := (termsOk && destinationOk && limitOk, k.currency in SUPPORTED_CURRENCIES);
            && (refusal == Some(TermsMissing) <==> !termsOk)
            && (refusal == Some(DestinationMissing) <==> termsOk && !destinationOk)
            && (refusal == Some(LimitExceeded) <==> termsOk && destinationOk && !limitOk)
            && (refusal == Some(BadCurrency) <==> asked && !known)
            && (refusal == Some(ReadFailed) <==> asked && known && !readOk)
            && (refusal == Some(InsufficientFunds) <==> asked && known && readOk && Bal(b, k) as real < total)
            && (refusal == None <==> asked && known && readOk && Bal(b, k) as real >= total)
  {
  }

  /** When the two legs of a withdrawal go through. A debit needs its row, its number, and a balance that is left with at least minus
      half a cent; the refund after it finds room for the total in any case. */
  lemma WithdrawalLegs(b: Balances, k: WalletKey, total: real, f: WithdrawalFaults)
    ensures DebitHolds(b, k, total, f) <==>
              && f.saveOk && f.numberOk && k.currency in SUPPORTED_CURRENCIES && Carried(total, f.debit)
              && (total == 0.0 || Bal(b, k) as real - total > -0.5)
    ensures NonNegative(b) ==> (RefundHolds(b, k, total, f) <==> DebitHolds(b, k, total, f) && Carried(total, f.refund))
  {
    LegExactly(b, k, -total, f.debit);
    if DebitHolds(b, k, total, f) && NonNegative(b) {
      var b1 := Leg(b, k, -total, f.debit).value;
      DebitMoves(b, k, total, f.debit);
      LegExactly(b1, k, total, f.refund);
      assert DebitCents(total) as real < total + 0.5;
      assert Bal(b1, k) == Bal(b, k) - DebitCents(total);
    }
  }

  // ---------------------------------------------------------------- swaps

  function SwapPreflight(b: Balances, from: WalletKey, total: real, termsOk: bool, limitOk: bool, readOk: bool): Option<TxError> {
    if !termsOk then Some(TermsMissing)
    else if !limitOk then Some(LimitExceeded)
    else if from.currency !in SUPPORTED_CURRENCIES then Some(BadCurrency)
    else if !readOk then Some(ReadFailed)
    else if Bal(b, from) as real < total then Some(InsufficientFunds)
    else None
  }

  /** The refusals of a swap, cause by cause. */
  lemma SwapRefusals(b: Balances, from: WalletKey, total: real, termsOk: bool, limitOk: bool, readOk: bool)
    ensures var refusal := SwapPreflight(b, from, total, termsOk, limitOk, readOk);
            var (asked, known) := (termsOk && limitOk, from.currency in SUPPORTED_CURRENCIES);
            && (refusal == Some(TermsMissing) <==> !termsOk)
            && (refusal == Some(LimitExceeded) <==> termsOk && !limitOk)
            && (refusal == Some(BadCurrency) <==> asked && !known)
            && (refusal == Some(ReadFailed) <==> asked && known && !readOk)
            && (refusal == Some(InsufficientFunds) <==> asked && known && readOk && Bal(b, from) as real < total)
            && (refusal == None <==> asked && known && readOk && Bal(b, from) as real >= total)
  {
  }

  /** What fails in one attempt: the credit, the save of COMPLETED, the fee record, the save in the catch block. */
  datatype AttemptFaults = AttemptFaults(credit: Fault, completeOk: bool, feeOk: bool, retryOk: bool)

  datatype SwapFaults = SwapFaults(saveOk: bool, debit: Fault, attempts: seq<AttemptFaults>, refund: Fault, failOk: bool)

  /** memory is the entity object, saved every state of its row that was written, in order. credits counts the credit
      legs that returned, lost those of them followed by a failing write. */
  datatype SwapState = SwapState(balances: Balances, memory: TxRow, saved: seq<TxRow>, credits: nat, lost: nat,
                                 debited: bool, refunded: bool)

  datatype Ending = Success | Thrown | Exhausted

  datatype SwapEnd = SwapEnd(how: Ending, s: SwapState)

  function Save(s: SwapState): SwapState {
    s.(saved := s.saved + [s.memory])
  }

  /** The catch block: count the attempt, and write whatever the entity now holds. */
  function Catch(s: SwapState, attempt: nat, retryOk: bool): SwapEnd {
    var m := s.(memory := s.memory.(retryCount := attempt + 1));
    if retryOk then SwapEnd(Exhausted, Save(m)) else SwapEnd(Thrown, m)
  }

  /** One attempt. Exhausted means: caught, go on. */
  function Attempt(s: SwapState, to: WalletKey, toAmount: real, attempt: nat, f: AttemptFaults): SwapEnd {
    match Leg(s.balances, to, toAmount, f.credit)
    case None => Catch(s, attempt, f.retryOk)
    case Some(b) =>
      var c := s.(balances := b, credits := s.credits + 1, memory := s.memory.(status := Completed, retryCount := attempt));
      if f.completeOk && f.feeOk then SwapEnd(Success, Save(c))
      else Catch((if f.completeOk then Save(c) else c).(lost := s.lost + 1), attempt, f.retryOk)
  }

  function Attempts(s: SwapState, to: WalletKey, toAmount: real, attempt: nat, fs: seq<AttemptFaults>): SwapEnd
    requires attempt <= |fs|
    decreases |fs| - attempt
  {
    if attempt == |fs| then SwapEnd(Exhausted, s) else
      var e := Attempt(s, to, toAmount, attempt, fs[attempt]);
      if e.how == Exhausted then Attempts(e.s, to, toAmount, attempt + 1, fs) else e
  }

  /** After the loop: refund, then FAILED. */
  function GiveBack(s: SwapState, from: WalletKey, total: real, refund: Fault, failOk: bool): SwapEnd {
    match Leg(s.balances, from, total, refund)
    case None => SwapEnd(Thrown, s)
    case Some(b) =>
      var m := s.(balances := b, refunded := true, memory := s.memory.(status := Failed));
      if failOk then SwapEnd(Exhausted, Save(m)) else SwapEnd(Thrown, m)
  }

  function Swap(b: Balances, row: TxRow, from: WalletKey, to: WalletKey, total: real, toAmount: real, f: SwapFaults): SwapEnd {
    var s := SwapState(b, row, [], 0, 0, false, false);
    if !f.saveOk then SwapEnd(Thrown, s) else
      match Leg(b, from, -total, f.debit)
      case None => SwapEnd(Thrown, Save(s))
      case Some(b1) =>
        var e := Attempts(Save(s).(balances := b1, debited := true), to, toAmount, 0, f.attempts);
        if e.how == Exhausted then GiveBack(e.s, from, total, f.refund, f.failOk) else e
  }

  /** b2 is b1 with n credits of toAmount in the target wallet, and no other change. */
  ghost predicate CreditsApplied(b1: Balances, b2: Balances, to: WalletKey, toAmount: real, n: int) {
    forall x :: Bal(b2, x) == Bal(b1, x) + (if x == to then n * CreditCents(toAmount) else 0)
  }

  lemma CreditedChain(b1: Balances, b2: Balances, b3: Balances, to: WalletKey, toAmount: real, n: int, m: int)
    requires CreditsApplied(b1, b2, to, toAmount, n) && CreditsApplied(b2, b3, to, toAmount, m)
    ensures CreditsApplied(b1, b3, to, toAmount, n + m)
  {
    assert (n + m) * CreditCents(toAmount) == n * CreditCents(toAmount) + m * CreditCents(toAmount);
  }

  lemma CreditedOnce(b: Balances, to: WalletKey, toAmount: real, fault: Fault)
    requires NonNegative(b)
    ensures CreditsApplied(b, b, to, toAmount, 0)
    ensures Leg(b, to, toAmount, fault).Some? ==>
              NonNegative(Leg(b, to, toAmount, fault).value) && CreditsApplied(b, Leg(b, to, toAmount, fault).value, to, toAmount, 1)
  {
    LegEffect(b, to, toAmount, fault);
  }

  /** One attempt either credits nothing or runs the credit leg once. */
  lemma AttemptShape(s: SwapState, to: WalletKey, toAmount: real, attempt: nat, f: AttemptFaults)
    ensures var e := Attempt(s, to, toAmount, attempt, f);
            match Leg(s.balances, to, toAmount, f.credit)
            case None => e.s.balances == s.balances && e.s.credits == s.credits
            case Some(b) => e.s.balances == b && e.s.credits == s.credits + 1
  {
  }

  /** One attempt, by the outcome of its credit leg. */
  lemma AttemptCases(s: SwapState, to: WalletKey, toAmount: real, attempt: nat, f: AttemptFaults, leg: Option<Balances>)
    requires leg == Leg(s.balances, to, toAmount, f.credit)
    ensures var e := Attempt(s, to, toAmount, attempt, f);
            var m := if leg.None? then s.memory else s.memory.(status := Completed, retryCount := attempt);
            var saved := if leg.Some? && f.completeOk then s.saved + [m] else s.saved;
            && e.s.balances == (if leg.Some? then leg.value else s.balances)
            && (if leg.Some? && f.completeOk && f.feeOk then e.how == Success && e.s.memory == m && e.s.saved == saved
                else
                  var last := m.(retryCount := attempt + 1);
                  && e.s.memory == last
                  && e.how == (if f.retryOk then Exhausted else Thrown)
                  && e.s.saved == (if f.retryOk then saved + [last] else saved))
  {
  }

  lemma AttemptMoney(s: SwapState, to: WalletKey, toAmount: real, attempt: nat, f: AttemptFaults)
    requires NonNegative(s.balances)
    ensures var e := Attempt(s, to, toAmount, attempt, f);
            NonNegative(e.s.balances) && s.credits <= e.s.credits <= s.credits + 1
            && CreditsApplied(s.balances, e.s.balances, to, toAmount, e.s.credits - s.credits)
  {
    AttemptShape(s, to, toAmount, attempt, f);
    CreditedOnce(s.balances, to, toAmount, f.credit);
  }

  /** The attempts move the target wallet by one rounded amount per credit leg that returned, and nothing else. */
  lemma {:induction false} AttemptsMoney(s: SwapState, to: WalletKey, toAmount: real, attempt: nat, fs: seq<AttemptFaults>)
    requires attempt <= |fs| && NonNegative(s.balances)
    ensures var e := Attempts(s, to, toAmount, attempt, fs);
            NonNegative(e.s.balances) && s.credits <= e.s.credits <= s.credits + (|fs| - attempt)
            && CreditsApplied(s.balances, e.s.balances, to, toAmount, e.s.credits - s.credits)
    decreases |fs| - attempt
  {
    if attempt < |fs| {
      AttemptMoney(s, to, toAmount, attempt, fs[attempt]);
      var e := Attempt(s, to, toAmount, attempt, fs[attempt]);
      if e.how == Exhausted {
        AttemptsMoney(e.s, to, toAmount, attempt + 1, fs);
        var last := Attempts(e.s, to, toAmount, attempt + 1, fs);
        CreditedChain(s.balances, e.s.balances, last.s.balances, to, toAmount,
                      e.s.credits - s.credits, last.s.credits - e.s.credits);
      }
    }
  }

  /** Whatever fails and whatever the signs: the source is debited at most once and refunded at most once, the target changes by
      the rounded amount times the credit legs that returned, at most one per attempt, and no other wallet moves. */
  lemma SwapMoney(b: Balances, row: TxRow, from: WalletKey, to: WalletKey, total: real, toAmount: real, f: SwapFaults)
    requires NonNegative(b)
    ensures var s := Swap(b, row, from, to, total, toAmount, f).s;
            && NonNegative(s.balances) && s.credits <= |f.attempts|
            && forall x :: Bal(s.balances, x) ==
                 Bal(b, x) - (if s.debited && x == from then DebitCents(total) else 0)
                 + (if x == to then s.credits * CreditCents(toAmount) else 0)
                 + (if s.refunded && x == from then CreditCents(total) else 0)
  {
    LegEffect(b, from, total, f.debit);
    match Leg(b, from, -total, f.debit) {
      case None =>
      case Some(b1) =>
        var s := Save(SwapState(b, row, [], 0, 0, false, false)).(balances := b1, debited := true);
        AttemptsMoney(s, to, toAmount, 0, f.attempts);
        AttemptsFlags(s, to, toAmount, 0, f.attempts);
        LegEffect(Attempts(s, to, toAmount, 0, f.attempts).s.balances, from, total, f.refund);
    }
  }

  lemma {:induction false} AttemptsCredits(s: SwapState, to: WalletKey, toAmount: real, attempt: nat, fs: seq<AttemptFaults>)
    requires attempt <= |fs|
    ensures var e := Attempts(s, to, toAmount, attempt, fs);
            (e.s.credits - e.s.lost) - (s.credits - s.lost) == (if e.how == Success then 1 else 0)
    ensures (forall i :: attempt <= i < |fs| ==> fs[i].completeOk && fs[i].feeOk) ==>
              Attempts(s, to, toAmount, attempt, fs).s.lost == s.lost
    decreases |fs| - attempt
  {
    if attempt < |fs| {
      var e := Attempt(s, to, toAmount, attempt, fs[attempt]);
      if e.how == Exhausted { AttemptsCredits(e.s, to, toAmount, attempt + 1, fs); }
    }
  }

  /** The target is credited once by a successful swap and not at all by any other, plus once more for every attempt
      whose credit returned and whose later write failed; so exactly those lost writes multiply the money. */
  lemma SwapCredits(b: Balances, row: TxRow, from: WalletKey, to: WalletKey, total: real, toAmount: real, f: SwapFaults)
    ensures var e := Swap(b, row, from, to, total, toAmount, f);
            e.s.credits == e.s.lost + (if e.how == Success then 1 else 0)
    ensures (forall i :: 0 <= i < |f.attempts| ==> f.attempts[i].completeOk && f.attempts[i].feeOk) ==>
              Swap(b, row, from, to, total, toAmount, f).s.lost == 0
  {
    if f.saveOk && Leg(b, from, -total, f.debit).Some? {
      var s := Save(SwapState(b, row, [], 0, 0, false, false));
      AttemptsCredits(s.(balances := Leg(b, from, -total, f.debit).value, debited := true), to, toAmount, 0, f.attempts);
    }
  }

  /** No row state written so far is FAILED, and neither is the entity. */
  ghost predicate NoFailure(s: SwapState) {
    s.memory.status != Failed && forall i :: 0 <= i < |s.saved| ==> s.saved[i].status != Failed
  }

  lemma {:induction false} AttemptsNeverFail(s: SwapState, to: WalletKey, toAmount: real, attempt: nat, fs: seq<AttemptFaults>)
    requires attempt <= |fs| && NoFailure(s) && s.saved != []
    ensures NoFailure(Attempts(s, to, toAmount, attempt, fs).s)
    ensures Attempts(s, to, toAmount, attempt, fs).s.saved != []
    ensures var e := Attempts(s, to, toAmount, attempt, fs);
            e.how == Exhausted && attempt < |fs| ==> e.s.memory.retryCount == |fs|
    ensures var e := Attempts(s, to, toAmount, attempt, fs);
            e.how == Success ==> e.s.saved[|e.s.saved| - 1].status == Completed
    decreases |fs| - attempt
  {
    if attempt < |fs| {
      var e := Attempt(s, to, toAmount, attempt, fs[attempt]);
      assert NoFailure(e.s);
      if e.how == Exhausted { AttemptsNeverFail(e.s, to, toAmount, attempt + 1, fs); }
    }
  }

  /** FAILED is written at most once, as the very last state of the row, after all attempts and after the refund;
      a successful swap leaves COMPLETED. */
  lemma SwapHistory(b: Balances, row: TxRow, from: WalletKey, to: WalletKey, total: real, toAmount: real, f: SwapFaults)
    requires row.status == Pending && |f.attempts| == 3
    ensures var e := Swap(b, row, from, to, total, toAmount, f);
            && (forall i :: 0 <= i < |e.s.saved| && e.s.saved[i].status == Failed ==>
                  i == |e.s.saved| - 1 && e.s.saved[i].retryCount == 3 && e.s.refunded && e.how == Exhausted)
            && (e.how == Exhausted ==> e.s.saved != [] && e.s.saved[|e.s.saved| - 1].status == Failed && e.s.refunded && e.s.debited)
            && (e.how == Success ==> e.s.saved != [] && e.s.saved[|e.s.saved| - 1].status == Completed && !e.s.refunded && e.s.debited)
  {
    if f.saveOk && Leg(b, from, -total, f.debit).Some? {
      var s := Save(SwapState(b, row, [], 0, 0, false, false))
               .(balances := Leg(b, from, -total, f.debit).value, debited := true);
      AttemptsNeverFail(s, to, toAmount, 0, f.attempts);
      AttemptsFlags(s, to, toAmount, 0, f.attempts);
    }
  }

  lemma {:induction false} AttemptsFlags(s: SwapState, to: WalletKey, toAmount: real, attempt: nat, fs: seq<AttemptFaults>)
    requires attempt <= |fs|
    ensures var e := Attempts(s, to, toAmount, attempt, fs); e.s.debited == s.debited && e.s.refunded == s.refunded
    decreases |fs| - attempt
  {
    if attempt < |fs| {
      var e := Attempt(s, to, toAmount, attempt, fs[attempt]);
      if e.how == Exhausted { AttemptsFlags(e.s, to, toAmount, attempt + 1, fs); }
    }
  }

  ghost predicate AllPending(s: SwapState) {
    s.memory.status == Pending && forall i :: 0 <= i < |s.saved| ==> s.saved[i].status == Pending
  }

  /** Attempts that never got a credit through leave the row PENDING. */
  lemma {:induction false} AttemptsUncredited(s: SwapState, to: WalletKey, toAmount: real, attempt: nat, fs: seq<AttemptFaults>)
    requires attempt <= |fs| && AllPending(s)
    ensures var e := Attempts(s, to, toAmount, attempt, fs); e.s.credits >= s.credits && (e.s.credits == s.credits ==> AllPending(e.s))
    decreases |fs| - attempt
  {
    if attempt < |fs| {
      var e := Attempt(s, to, toAmount, attempt, fs[attempt]);
      AttemptShape(s, to, toAmount, attempt, fs[attempt]);
      if e.how == Exhausted {
        if e.s.credits == s.credits {
          AttemptsUncredited(e.s, to, toAmount, attempt + 1, fs);
        } else {
          AttemptsMonotone(e.s, to, toAmount, attempt + 1, fs);
        }
      }
    }
  }

  lemma {:induction false} AttemptsMonotone(s: SwapState, to: WalletKey, toAmount: real, attempt: nat, fs: seq<AttemptFaults>)
    requires attempt <= |fs|
    ensures Attempts(s, to, toAmount, attempt, fs).s.credits >= s.credits
    decreases |fs| - attempt
  {
    if attempt < |fs| {
      var e := Attempt(s, to, toAmount, attempt, fs[attempt]);
      if e.how == Exhausted { AttemptsMonotone(e.s, to, toAmount, attempt + 1, fs); }
    }
  }

  /** When no write after a credit fails, the row is stored COMPLETED exactly on success, with one credit; FAILED means
      no credit, three counted attempts and the source wallet back where it was (one cent higher for an exact half cent). */
  lemma SwapWithGoodWrites(b: Balances, row: TxRow, from: WalletKey, to: WalletKey, total: real, toAmount: real, f: SwapFaults)
    requires NonNegative(b) && row.status == Pending && |f.attempts| == 3
    requires forall i :: 0 <= i < |f.attempts| ==> f.attempts[i].completeOk && f.attempts[i].feeOk
    ensures var e := Swap(b, row, from, to, total, toAmount, f);
            && (e.s.saved != [] && e.s.saved[|e.s.saved| - 1].status == Completed <==> e.how == Success)
            && (e.how == Success ==> e.s.credits == 1)
            && (e.how == Exhausted ==>
                  e.s.credits == 0 && e.s.saved[|e.s.saved| - 1].retryCount == 3 &&
                  forall x :: Bal(e.s.balances, x) == Bal(b, x) + (if x == from && SubCent(total) == 0.5 then 1 else 0))
  {
    SwapMoney(b, row, from, to, total, toAmount, f);
    SwapCredits(b, row, from, to, total, toAmount, f);
    SwapHistory(b, row, from, to, total, toAmount, f);
    HalfCentGap(total);
    if f.saveOk && Leg(b, from, -total, f.debit).Some? {
      var s := Save(SwapState(b, row, [], 0, 0, false, false))
               .(balances := Leg(b, from, -total, f.debit).value, debited := true);
      AttemptsUncredited(s, to, toAmount, 0, f.attempts);
    }
  }

  /** Between two wallets a swap that took its debit and did not give it back leaves the source no higher if and only if the
      total is above minus half a cent, and one that was credited leaves the target no lower if and only if the target amount
      is at least minus half a cent. */
  lemma SwapDirection(b: Balances, row: TxRow, from: WalletKey, to: WalletKey, total: real, toAmount: real, f: SwapFaults)
    requires NonNegative(b) && from != to
    ensures var s := Swap(b, row, from, to, total, toAmount, f).s;
            && (s.debited && !s.refunded ==> (Bal(s.balances, from) <= Bal(b, from) <==> total > -0.5))
            && (s.credits > 0 ==> (Bal(s.balances, to) >= Bal(b, to) <==> toAmount >= -0.5))
  {
    SwapMoney(b, row, from, to, total, toAmount, f);
    CentsSign(total);
    CentsSign(toAmount);
    var s := Swap(b, row, from, to, total, toAmount, f).s;
    if s.credits > 0 { SignOfProduct(s.credits, CreditCents(toAmount)); }
  }

  lemma SignOfProduct(n: int, c: int)
    requires n > 0
    ensures n * c >= 0 <==> c >= 0
  {
    if c < 0 { assert n * c <= n * -1; }
  }

  /** A swap of a negative source amount passes the balance guard, and when nothing fails it raises both wallets. */
  lemma NegativeSwapPaysBoth(b: Balances, row: TxRow, from: WalletKey, to: WalletKey, total: real, toAmount: real, rest: seq<AttemptFaults>)
    requires NonNegative(b) && from != to && total <= -0.5 && toAmount >= 0.5
    requires from.currency in SUPPORTED_CURRENCIES && to.currency in SUPPORTED_CURRENCIES
    ensures SwapPreflight(b, from, total, true, true, true).None?
    ensures var f := SwapFaults(true, NoFault, [AttemptFaults(NoFault, true, true, true)] + rest, NoFault, true);
            var e := Swap(b, row, from, to, total, toAmount, f);
            e.how == Success && Bal(e.s.balances, from) > Bal(b, from) && Bal(e.s.balances, to) > Bal(b, to)
  {
    var a := AttemptFaults(NoFault, true, true, true);
    var f := SwapFaults(true, NoFault, [a] + rest, NoFault, true);
    AppliedEffect(b, from, total);
    var b1 := Leg(b, from, -total, NoFault).value;
    AppliedEffect(b1, to, toAmount);
    var s := Save(SwapState(b, row, [], 0, 0, false, false)).(balances := b1, debited := true);
    assert f.attempts[0] == a;
    assert Attempts(s, to, toAmount, 0, f.attempts) == Attempt(s, to, toAmount, 0, a);
    CentsSign(total);
  }

  /** An attempt whose credit returns and whose save fails. */
  lemma LostAttempt(s: SwapState, to: WalletKey, toAmount: real, attempt: nat)
    requires NonNegative(s.balances) && toAmount >= 0.0 && to.currency in SUPPORTED_CURRENCIES
    ensures var e := Attempt(s, to, toAmount, attempt, AttemptFaults(NoFault, false, true, true));
            e.how == Exhausted && e.s.credits == s.credits + 1 && NonNegative(e.s.balances)
  {
    AppliedEffect(s.balances, to, toAmount);
  }

  lemma LostAttempts(s: SwapState, to: WalletKey, toAmount: real)
    requires NonNegative(s.balances) && toAmount >= 0.0 && to.currency in SUPPORTED_CURRENCIES
    ensures var a := AttemptFaults(NoFault, false, true, true);
            var e := Attempts(s, to, toAmount, 0, [a, a, a]);
            e.how == Exhausted && e.s.credits == s.credits + 3 && NonNegative(e.s.balances)
  {
    var a := AttemptFaults(NoFault, false, true, true);
    var e1 := Attempt(s, to, toAmount, 0, a);
    var e2 := Attempt(e1.s, to, toAmount, 1, a);
    var e3 := Attempt(e2.s, to, toAmount, 2, a);
    LostAttempt(s, to, toAmount, 0);
    LostAttempt(e1.s, to, toAmount, 1);
    LostAttempt(e2.s, to, toAmount, 2);
    assert Attempts(e3.s, to, toAmount, 3, [a, a, a]) == SwapEnd(Exhausted, e3.s);
    assert Attempts(e2.s, to, toAmount, 2, [a, a, a]) == SwapEnd(Exhausted, e3.s);
    assert Attempts(e1.s, to, toAmount, 1, [a, a, a]) == SwapEnd(Exhausted, e3.s);
  }

  /** A lost save after the credit multiplies it: three attempts whose save fails pay three times and refund the source. */
  lemma LostSavesPayThreeTimes(b: Balances, row: TxRow, from: WalletKey, to: WalletKey, total: real, toAmount: real)
    requires NonNegative(b) && from != to && toAmount >= 0.0
    requires from.currency in SUPPORTED_CURRENCIES && to.currency in SUPPORTED_CURRENCIES && Bal(b, from) as real >= total
    ensures var a := AttemptFaults(NoFault, false, true, true);
            var e := Swap(b, row, from, to, total, toAmount, SwapFaults(true, NoFault, [a, a, a], NoFault, true));
            e.how == Exhausted && Bal(e.s.balances, to) == Bal(b, to) + 3 * CreditCents(toAmount) &&
            Bal(e.s.balances, from) >= Bal(b, from)
  {
    var a := AttemptFaults(NoFault, false, true, true);
    var f := SwapFaults(true, NoFault, [a, a, a], NoFault, true);
    AppliedEffect(b, from, total);
    var b1 := Leg(b, from, -total, NoFault).value;
    var s := Save(SwapState(b, row, [], 0, 0, false, false)).(balances := b1, debited := true);
    LostAttempts(s, to, toAmount);
    var c := Attempts(s, to, toAmount, 0, f.attempts).s;
    AttemptsMoney(s, to, toAmount, 0, f.attempts);
    AttemptsFlags(s, to, toAmount, 0, f.attempts);
    assert CreditsApplied(b1, c.balances, to, toAmount, 3);
    RefundAccepted(b, c.balances, from, total);
    SwapMoney(b, row, from, to, total, toAmount, f);
    HalfCentGap(total);
  }

  /** A wallet that holds at least what a debit left of b can be refunded. */
  lemma RefundAccepted(b: Balances, c: Balances, k: WalletKey, total: real)
    requires NonNegative(b) && NonNegative(c) && k.currency in SUPPORTED_CURRENCIES && Bal(c, k) == Bal(b, k) - DebitCents(total)
    ensures Leg(c, k, total, NoFault).Some?
  {
    assert DebitCents(total) as real < total + 0.5;
    AppliedEffect(c, k, total);
  }

  // ---------------------------------------------------------------- how a swap ends, by its failures

  /** The attempt is the last: everything in it goes through. */
  predicate Succeeds(toAmount: real, f: AttemptFaults) {
    Carried(toAmount, f.credit) && f.completeOk && f.feeOk
  }

  /** The attempt fails, and the catch block records it. */
  predicate Caught(toAmount: real, f: AttemptFaults) {
    !Succeeds(toAmount, f) && f.retryOk
  }

  /** A credit above minus half a cent is one that no wallet refuses. */
  lemma AttemptEnds(s: SwapState, to: WalletKey, toAmount: real, attempt: nat, f: AttemptFaults)
    requires NonNegative(s.balances) && to.currency in SUPPORTED_CURRENCIES && toAmount > -0.5
    ensures var e := Attempt(s, to, toAmount, attempt, f);
            && NonNegative(e.s.balances) && (forall x :: Bal(e.s.balances, x) >= Bal(s.balances, x))
            && (e.how == Success <==> Succeeds(toAmount, f)) && (e.how == Exhausted <==> Caught(toAmount, f))
            && (e.how == Success ==> e.s.memory == s.memory.(status := Completed, retryCount := attempt) && e.s.saved != []
                                     && e.s.saved[|e.s.saved| - 1] == e.s.memory)
            && e.s.memory.(status := Completed, retryCount := 0) == s.memory.(status := Completed, retryCount := 0)
  {
    LegExactly(s.balances, to, toAmount, f.credit);
    if Leg(s.balances, to, toAmount, f.credit).Some? { LegMoves(s.balances, to, toAmount, f.credit); }
    CentsSign(toAmount);
  }

  lemma {:induction false} AttemptsEnd(s: SwapState, to: WalletKey, toAmount: real, attempt: nat, fs: seq<AttemptFaults>)
    requires NonNegative(s.balances) && to.currency in SUPPORTED_CURRENCIES && toAmount > -0.5 && attempt <= |fs|
    ensures var e := Attempts(s, to, toAmount, attempt, fs);
            && NonNegative(e.s.balances) && (forall x :: Bal(e.s.balances, x) >= Bal(s.balances, x))
            && (e.how == Success <==> exists i :: EndsAt(toAmount, fs, attempt, i))
            && (forall i :: EndsAt(toAmount, fs, attempt, i) ==>
                  e.s.saved != [] && e.s.saved[|e.s.saved| - 1] == s.memory.(status := Completed, retryCount := i))
            && (e.how == Exhausted <==> forall j :: attempt <= j < |fs| ==> Caught(toAmount, fs[j]))
    decreases |fs| - attempt
  {
    if attempt < |fs| {
      var e := Attempt(s, to, toAmount, attempt, fs[attempt]);
      AttemptEnds(s, to, toAmount, attempt, fs[attempt]);
      if e.how == Exhausted {
        AttemptsEnd(e.s, to, toAmount, attempt + 1, fs);
        var n := attempt + 1;
        forall i ensures EndsAt(toAmount, fs, attempt, i) <==> EndsAt(toAmount, fs, n, i) { OneMore(toAmount, fs, attempt, attempt + 1, i); }
        LaterEnds(toAmount, fs, attempt, attempt + 1);
      } else {
        assert e.how == Success ==> EndsAt(toAmount, fs, attempt, attempt);
      }
    }
  }

  /** Attempt i is the first from number n on that succeeds, and each before it was caught. */
  predicate EndsAt(toAmount: real, fs: seq<AttemptFaults>, n: nat, i: int) {
    n <= i < |fs| && Succeeds(toAmount, fs[i]) && forall j :: n <= j < i ==> Caught(toAmount, fs[j])
  }

  lemma OneMore(toAmount: real, fs: seq<AttemptFaults>, n: nat, m: nat, i: int)
    requires n < |fs| && Caught(toAmount, fs[n]) && m == n + 1
    ensures EndsAt(toAmount, fs, n, i) <==> EndsAt(toAmount, fs, m, i)
  {
  }

  lemma LaterEnds(toAmount: real, fs: seq<AttemptFaults>, n: nat, m: nat)
    requires n < |fs| && Caught(toAmount, fs[n]) && m == n + 1
    ensures (exists i :: EndsAt(toAmount, fs, n, i)) <==> exists i :: EndsAt(toAmount, fs, m, i)
  {
    if i :| EndsAt(toAmount, fs, n, i) { OneMore(toAmount, fs, n, m, i); }
    if i :| EndsAt(toAmount, fs, m, i) { OneMore(toAmount, fs, n, m, i); }
  }

  /** How a swap past its guards ends, in its failures alone. It is debited when its row is saved and the debit carried. It succeeds at
      the first of three attempts that succeeds, if each before was caught, and its row then counts those before. It is given back when
      all three are caught and the refund is carried, and ends as FAILED, counting three, when that is then saved. */
  lemma SwapEnds(b: Balances, row: TxRow, from: WalletKey, to: WalletKey, total: real, toAmount: real, f: SwapFaults)
    requires NonNegative(b) && |f.attempts| == 3 && toAmount > -0.5
    requires from.currency in SUPPORTED_CURRENCIES && to.currency in SUPPORTED_CURRENCIES && Bal(b, from) as real >= total
    ensures var e := Swap(b, row, from, to, total, toAmount, f);
            var exhausted := Caught(toAmount, f.attempts[0]) && Caught(toAmount, f.attempts[1]) && Caught(toAmount, f.attempts[2]);
            && (e.s.debited <==> f.saveOk && Carried(total, f.debit))
            && (e.how == Success <==> e.s.debited && exists i :: EndsAt(toAmount, f.attempts, 0, i))
            && (e.s.refunded <==> e.s.debited && exhausted && Carried(total, f.refund))
            && (e.how == Exhausted <==> e.s.refunded && f.failOk)
            && (forall i :: e.s.debited && EndsAt(toAmount, f.attempts, 0, i) ==>
                  e.s.saved != [] && e.s.saved[|e.s.saved| - 1] == row.(status := Completed, retryCount := i))
            && (!f.saveOk ==> e.s.saved == []) && (f.saveOk && !e.s.debited ==> e.s.saved == [row])
  {
    LegExactly(b, from, -total, f.debit);
    if f.saveOk && Leg(b, from, -total, f.debit).Some? {
      DebitMoves(b, from, total, f.debit);
      var b1 := Leg(b, from, -total, f.debit).value;
      var s := Save(SwapState(b, row, [], 0, 0, false, false)).(balances := b1, debited := true);
      AttemptsEnd(s, to, toAmount, 0, f.attempts);
      AttemptsFlags(s, to, toAmount, 0, f.attempts);
      var c := Attempts(s, to, toAmount, 0, f.attempts).s.balances;
      RoomForRefund(b, c, from, total, f.refund);
    }
  }

  /** A wallet that holds at least what a debit left takes the refund, if that is carried. */
  lemma RoomForRefund(b: Balances, c: Balances, k: WalletKey, total: real, fault: Fault)
    requires NonNegative(b) && NonNegative(c) && k.currency in SUPPORTED_CURRENCIES && Bal(c, k) >= Bal(b, k) - DebitCents(total)
    ensures Leg(c, k, total, fault).Some? <==> Carried(total, fault)
  {
    LegExactly(c, k, total, fault);
    assert DebitCents(total) as real < total + 0.5;
  }

  // ---------------------------------------------------------------- reversal

  /** Both legs of a reversal, each in its own unit: the rows after them and whether the second went through. */
  function BackLegs(b: Balances, s: WalletKey, r: WalletKey, amount: real, first: Fault, second: Fault): (Balances, bool) {
    match Leg(b, s, amount, first)
    case None => (b, false)
    case Some(b1) =>
      match Leg(b1, r, -amount, second)
      case None => (b1, false)
      case Some(b2) => (b2, true)
  }

  function ReverseLegs(b: Balances, row: TxRow, first: Fault, second: Fault): (Balances, bool) {
    BackLegs(b, KeyOf(row.senderId, row.currency), KeyOf(row.receiverId, row.currency), row.amount, first, second)
  }

  /** What the legs of a reversal do depends on the row alone: whatever the balances, the sign and the parties, a first leg that
      went through gives the sender its cents and a second one takes them from the receiver. */
  lemma ReversalEffect(b: Balances, s: WalletKey, r: WalletKey, amount: real, first: Fault, second: Fault, x: WalletKey)
    requires NonNegative(b)
    ensures var (b2, both) := BackLegs(b, s, r, amount, first, second);
            && NonNegative(b2)
            && (both <==> Leg(b, s, amount, first).Some? && Leg(Leg(b, s, amount, first).value, r, -amount, second).Some?)
            && Bal(b2, x) == Bal(b, x)
                 + (if Leg(b, s, amount, first).Some? && x == s then CreditCents(amount) else 0)
                 - (if both && x == r then DebitCents(amount) else 0)
  {
    if Leg(b, s, amount, first).Some? {
      LegMoves(b, s, amount, first);
      var b1 := Leg(b, s, amount, first).value;
      if Leg(b1, r, -amount, second).Some? { DebitMoves(b1, r, amount, second); }
    }
  }

  /** Both legs of a transfer. */
  function ForthLegs(b: Balances, s: WalletKey, r: WalletKey, amount: real): Option<Balances> {
    match Leg(b, s, -amount, NoFault)
    case None => None
    case Some(b1) => Leg(b1, r, amount, NoFault)
  }

  lemma ForthEffect(b: Balances, s: WalletKey, r: WalletKey, amount: real, x: WalletKey)
    requires NonNegative(b) && ForthLegs(b, s, r, amount).Some?
    ensures Bal(ForthLegs(b, s, r, amount).value, x)
            == Bal(b, x) - (if x == s then DebitCents(amount) else 0) + (if x == r then CreditCents(amount) else 0)
  {
    DebitMoves(b, s, amount, NoFault);
    LegMoves(Leg(b, s, -amount, NoFault).value, r, amount, NoFault);
  }

  /** Whenever it happens, a reversal of a transfer undoes what the transfer did, up to one cent for each party when the amount
      ends in exactly half a cent: b is what the transfer found, c what the reversal found. */
  lemma ReversalUndoesTransfer(b: Balances, c: Balances, row: TxRow, first: Fault, second: Fault, x: WalletKey)
    requires NonNegative(b) && NonNegative(c) && ReverseLegs(c, row, first, second).1
    requires ForthLegs(b, KeyOf(row.senderId, row.currency), KeyOf(row.receiverId, row.currency), row.amount).Some?
    ensures var (s, r) := (KeyOf(row.senderId, row.currency), KeyOf(row.receiverId, row.currency));
            Bal(ForthLegs(b, s, r, row.amount).value, x) - Bal(b, x) + Bal(ReverseLegs(c, row, first, second).0, x) - Bal(c, x)
            == if SubCent(row.amount) != 0.5 then 0 else (if x == s then 1 else 0) + (if x == r then 1 else 0)
  {
    var s, r := KeyOf(row.senderId, row.currency), KeyOf(row.receiverId, row.currency);
    ForthEffect(b, s, r, row.amount, x);
    ReversalEffect(c, s, r, row.amount, first, second, x);
    HalfCentGap(row.amount);
  }

  // ---------------------------------------------------------------- the service

  class TransactionsService {
    const wallets: WalletsService
    var rows: seq<TxRow>

    constructor (wallets: WalletsService)
      ensures this.wallets == wallets && rows == []
    {
      this.wallets, rows := wallets, [];
    }

    /** A withdrawal past its guards: record, number, debit, COMPLETED and the cache call; when one of the last two fails, the refund
        and FAILED. */
    method PayOut(row: TxRow, total: real, f: WithdrawalFaults) returns (r: Result<TxRow, TxError>)
      requires row.status == Pending
      modifies this`rows, wallets.db
      ensures var e := Withdraw(old(wallets.db.tables), KeyOf(row.senderId, row.currency), total, f);
              && wallets.db.tables == e.balances
              && rows == old(rows) + (if e.stored.None? then [] else [row.(status := e.stored.value)])
              && r == (if e.returned then Ok(row.(status := Completed)) else Err(WriteFailed))
    {
      var id, tx := |rows|, row;
      if !f.saveOk { return Err(WriteFailed); }
      rows := rows + [tx];
      if !f.numberOk { return Err(WriteFailed); }

      var debit := wallets.AdjustBalance(row.senderId, row.currency, -total, f.debit);
      if debit.Err? { return Err(WriteFailed); }
      tx := tx.(status := Completed);
      if f.completeOk {
        rows := rows[id := tx];
        if f.cacheOk { return Ok(tx); }
      }
      var refund := wallets.AdjustBalance(row.senderId, row.currency, total, f.refund);
      if refund.Err? { return Err(WriteFailed); }
      tx := tx.(status := Failed);
      if f.failOk { rows := rows[id := tx]; }
      r := Err(WriteFailed);
    }

    method CreateWithdrawal(userId: string, amount: real, fee: real, currency: string, termsOk: bool, destinationOk: bool,
                            limitOk: bool, readOk: bool, f: WithdrawalFaults)
      returns (r: Result<TxRow, TxError>)
      modifies this`rows, wallets.db
      ensures var k := WalletKey(userId, NormalizeCurrencyCode(currency));
              var (asked, known) := (termsOk && destinationOk && limitOk, k.currency in SUPPORTED_CURRENCIES);
              var enough := Bal(old(wallets.db.tables), k) as real >= amount + fee;
              && (r == Err(TermsMissing) <==> !termsOk)
              && (r == Err(DestinationMissing) <==> termsOk && !destinationOk)
              && (r == Err(LimitExceeded) <==> termsOk && destinationOk && !limitOk)
              && (r == Err(BadCurrency) <==> asked && !known)
              && (r == Err(ReadFailed) <==> asked && known && !readOk)
              && (r == Err(InsufficientFunds) <==> asked && known && readOk && !enough)
              && (rows != old(rows) || wallets.db.tables != old(wallets.db.tables) ==> asked && known && readOk && enough)
              && (r.Ok? <==> asked && known && readOk && enough && f.saveOk && f.numberOk && Carried(amount + fee, f.debit)
                             && f.completeOk && f.cacheOk)
      ensures var k := KeyOf(userId, currency);
              var refusal := WithdrawalPreflight(old(wallets.db.tables), k, amount + fee, termsOk, destinationOk, limitOk, readOk);
              var e := Withdraw(old(wallets.db.tables), k, amount + fee, f);
              if refusal.Some? then r == Err(refusal.value) && rows == old(rows) && wallets.db.tables == old(wallets.db.tables)
              else
                && wallets.db.tables == e.balances
                && rows == old(rows) + (if e.stored.None? then []
                                        else [TxRow(userId, userId, amount, currency, fee, e.stored.value, 0, false)])
                && r == (if e.returned then Ok(TxRow(userId, userId, amount, currency, fee, Completed, 0, false)) else Err(WriteFailed))
    {
      var total := amount + fee;
      ghost var k := KeyOf(userId, currency);
      WithdrawalRefusals(wallets.db.tables, k, total, termsOk, destinationOk, limitOk, readOk);
      WithdrawalLegs(wallets.db.tables, k, total, f);
      if !termsOk { return Err(TermsMissing); }
      if !destinationOk { return Err(DestinationMissing); }
      if !limitOk { return Err(LimitExceeded); }
      var balance := wallets.GetBalance(userId, currency, readOk);
      if balance.Err? { return Err(if balance.error == UnsupportedCurrency then BadCurrency else ReadFailed); }
      if balance.value as real < total { return Err(InsufficientFunds); }
      r := PayOut(TxRow(userId, userId, amount, currency, fee, Pending, 0, false), total, f);
    }

    /** The body of the retry loop: credit, COMPLETED, fee, or the catch clause. Exhausted means: caught, go on. */
    method TryCredit(id: nat, row: TxRow, userId: string, toCurrency: string, toAmount: real, attempt: nat, f: AttemptFaults,
                     ghost s0: SwapState)
      returns (how: Ending, tx: TxRow, ghost s: SwapState)
      requires s0.balances == wallets.db.tables && s0.memory == row
      requires id < |rows| && s0.saved != [] && rows[id] == s0.saved[|s0.saved| - 1]
      modifies this`rows, wallets.db
      ensures Attempt(s0, KeyOf(userId, toCurrency), toAmount, attempt, f) == SwapEnd(how, s)
      ensures wallets.db.tables == s.balances && tx == s.memory
      ensures s.saved != [] && rows == old(rows)[id := s.saved[|s.saved| - 1]]
      ensures how == Success ==> tx == s.saved[|s.saved| - 1]
    {
      ghost var e := Attempt(s0, KeyOf(userId, toCurrency), toAmount, attempt, f);
      tx, s := row, e.s;
      var credit := wallets.AdjustBalance(userId, toCurrency, toAmount, f.credit);
      AttemptCases(s0, KeyOf(userId, toCurrency), toAmount, attempt, f, if credit.Ok? then Some(wallets.db.tables) else None);
      if credit.Ok? {
        tx := tx.(status := Completed, retryCount := attempt);
        if f.completeOk {
          rows := rows[id := tx];
          if f.feeOk { how := Success; return; }
        }
      }
      tx := tx.(retryCount := attempt + 1);
      if !f.retryOk { how := Thrown; return; }
      rows := rows[id := tx];
      how := Exhausted;
    }

    /** The retry loop of a swap whose row id has been saved and whose source has been debited. */
    method RetryCredit(id: nat, row: TxRow, userId: string, toCurrency: string, toAmount: real, fs: seq<AttemptFaults>,
                       ghost s0: SwapState)
      returns (how: Ending, tx: TxRow, ghost s: SwapState)
      requires |fs| == MAX_RETRIES && id < |rows|
      requires s0.balances == wallets.db.tables && s0.memory == row
      requires s0.saved != [] && rows[id] == s0.saved[|s0.saved| - 1]
      modifies this`rows, wallets.db
      ensures Attempts(s0, KeyOf(userId, toCurrency), toAmount, 0, fs) == SwapEnd(how, s)
      ensures wallets.db.tables == s.balances && tx == s.memory
      ensures s.saved != [] && rows == old(rows)[id := s.saved[|s.saved| - 1]]
      ensures how == Success ==> tx == s.saved[|s.saved| - 1]
    {
      ghost var to := KeyOf(userId, toCurrency);
      tx, s := row, s0;
      var attempt := 0;
      while attempt < MAX_RETRIES
        invariant 0 <= attempt <= MAX_RETRIES
        invariant s.balances == wallets.db.tables && s.memory == tx
        invariant s.saved != [] && rows == old(rows)[id := s.saved[|s.saved| - 1]]
        invariant Attempts(s, to, toAmount, attempt, fs) == Attempts(s0, to, toAmount, 0, fs)
      {
        how, tx, s := TryCredit(id, tx, userId, toCurrency, toAmount, attempt, fs[attempt], s);
        if how != Exhausted { return; }
        attempt := attempt + 1;
      }
      how := Exhausted;
    }

    /** After the loop: the refund of the source, then FAILED. */
    method RefundSource(id: nat, row: TxRow, userId: string, currency: string, total: real, refund: Fault, failOk: bool,
                        ghost s0: SwapState)
      returns (ghost s: SwapState)
      requires s0.balances == wallets.db.tables && s0.memory == row
      requires id < |rows| && s0.saved != [] && rows[id] == s0.saved[|s0.saved| - 1]
      modifies this`rows, wallets.db
      ensures s == GiveBack(s0, KeyOf(userId, currency), total, refund, failOk).s
      ensures wallets.db.tables == s.balances && s.saved != [] && rows == old(rows)[id := s.saved[|s.saved| - 1]]
    {
      s := GiveBack(s0, KeyOf(userId, currency), total, refund, failOk).s;
      var credit := wallets.AdjustBalance(userId, currency, total, refund);
      if credit.Ok? && failOk { rows := rows[id := row.(status := Failed)]; }
    }

    /** A swap past its guards: record, debit, retry loop, and the refund when every attempt was caught.
        saved is every state of the new row that was written, in order. */
    method RunSwap(row: TxRow, total: real, toAmount: real, toCurrency: string, f: SwapFaults)
      returns (r: Result<TxRow, TxError>, ghost saved: seq<TxRow>)
      requires |f.attempts| == MAX_RETRIES
      modifies this`rows, wallets.db
      ensures var e := Swap(old(wallets.db.tables), row, KeyOf(row.senderId, row.currency), KeyOf(row.senderId, toCurrency),
                            total, toAmount, f);
              && wallets.db.tables == e.s.balances && saved == e.s.saved
              && rows == old(rows) + (if saved == [] then [] else [saved[|saved| - 1]])
              && (e.how == Success ==> saved != [] && r == Ok(saved[|saved| - 1]))
              && (e.how != Success ==> r == Err(WriteFailed))
    {
      r, saved := Err(WriteFailed), [];
      var id, tx := |rows|, row;
      if !f.saveOk { return; }
      rows, saved := rows + [tx], [tx];
      ghost var before := SwapState(wallets.db.tables, tx, [], 0, 0, false, false);
      assert Save(before).saved == saved;
      var debit := wallets.AdjustBalance(row.senderId, row.currency, -total, f.debit);
      if debit.Err? { return; }

      var how: Ending;
      ghost var s: SwapState;
      how, tx, s := RetryCredit(id, tx, row.senderId, toCurrency, toAmount, f.attempts,
                                Save(before).(balances := wallets.db.tables, debited := true));
      saved := s.saved;
      if how != Exhausted {
        if how == Success { r := Ok(tx); }
        return;
      }

      s := RefundSource(id, tx, row.senderId, row.currency, total, f.refund, f.failOk, s);
      saved := s.saved;
    }

    method CreateSwap(userId: string, fromAmount: real, fee: real, fromCurrency: string, toAmount: real, toCurrency: string,
                      termsOk: bool, limitOk: bool, readOk: bool, f: SwapFaults)
      returns (r: Result<TxRow, TxError>, ghost saved: seq<TxRow>)
      requires |f.attempts| == 3
      modifies this`rows, wallets.db
      ensures var from := WalletKey(userId, NormalizeCurrencyCode(fromCurrency));
              var (asked, known) := (termsOk && limitOk, from.currency in SUPPORTED_CURRENCIES);
              var enough := Bal(old(wallets.db.tables), from) as real >= fromAmount + fee;
              && (r == Err(TermsMissing) <==> !termsOk)
              && (r == Err(LimitExceeded) <==> termsOk && !limitOk)
              && (r == Err(BadCurrency) <==> asked && !known)
              && (r == Err(ReadFailed) <==> asked && known && !readOk)
              && (r == Err(InsufficientFunds) <==> asked && known && readOk && !enough)
              && (rows != old(rows) || wallets.db.tables != old(wallets.db.tables) || r.Ok? ==> asked && known && readOk && enough)
      ensures var from, to := KeyOf(userId, fromCurrency), KeyOf(userId, toCurrency);
              var refusal := SwapPreflight(old(wallets.db.tables), from, fromAmount + fee, termsOk, limitOk, readOk);
              var row := TxRow(userId, userId, fromAmount, fromCurrency, fee, Pending, 0, false);
              var e := Swap(old(wallets.db.tables), row, from, to, fromAmount + fee, toAmount, f);
              if refusal.Some? then
                r == Err(refusal.value) && rows == old(rows) && wallets.db.tables == old(wallets.db.tables) && saved == []
              else
                && wallets.db.tables == e.s.balances && saved == e.s.saved
                && rows == old(rows) + (if saved == [] then [] else [saved[|saved| - 1]])
                && (e.how == Success ==> saved != [] && r == Ok(saved[|saved| - 1]))
                && (e.how != Success ==> r == Err(WriteFailed))
    {
      saved := [];
      if !termsOk { r := Err(TermsMissing); return; }
      if !limitOk { r := Err(LimitExceeded); return; }
      var balance := wallets.GetBalance(userId, fromCurrency, readOk);
      if balance.Err? { r := Err(if balance.error == UnsupportedCurrency then BadCurrency else ReadFailed); return; }
      if balance.value as real < fromAmount + fee { r := Err(InsufficientFunds); return; }
      r, saved := RunSwap(TxRow(userId, userId, fromAmount, fromCurrency, fee, Pending, 0, false),
                          fromAmount + fee, toAmount, toCurrency, f);
    }

    /** The read of a cancellation: only a row stored PENDING at this moment goes on. */
    method FindPending(id: nat) returns (r: Result<TxRow, TxError>)
      ensures |rows| <= id <==> r == Err(NotFound)
      ensures id < |rows| && rows[id].status != Pending <==> r == Err(NotCancellable)
      ensures r.Err? ==> r.error in {NotFound, NotCancellable}
      ensures r.Ok? ==> id < |rows| && r.value == rows[id]
    {
      if id >= |rows| { return Err(NotFound); }
      if rows[id].status != Pending { return Err(NotCancellable); }
      r := Ok(rows[id]);
    }

    /** The save of a cancellation, which may come later: it writes CANCELLED whatever the row has become. */
    method SaveCancelled(id: nat, tx: TxRow, saveOk: bool) returns (r: Result<TxRow, TxError>)
      requires id < |rows|
      modifies this`rows
      ensures r == if saveOk then Ok(tx.(status := Cancelled)) else Err(WriteFailed)
      ensures rows == if saveOk then old(rows)[id := tx.(status := Cancelled)] else old(rows)
    {
      if !saveOk { return Err(WriteFailed); }
      rows := rows[id := tx.(status := Cancelled)];
      r := Ok(rows[id]);
    }

    /** An uninterrupted cancellation: only a row stored PENDING is cancelled; nothing but its status changes. */
    method CancelTransaction(id: nat, saveOk: bool) returns (r: Result<TxRow, TxError>)
      modifies this`rows
      ensures |old(rows)| <= id ==> r == Err(NotFound)
      ensures id < |old(rows)| && old(rows)[id].status != Pending ==> r == Err(NotCancellable)
      ensures r.Ok? <==> id < |old(rows)| && old(rows)[id].status == Pending && saveOk
      ensures r.Ok? ==> r.value == old(rows)[id].(status := Cancelled) && rows == old(rows)[id := r.value]
      ensures r.Err? ==> rows == old(rows)
    {
      r := FindPending(id);
      if r.Ok? { r := SaveCancelled(id, r.value, saveOk); }
    }

    /** The read of a reversal: the row, unless it is marked reversed at this moment. */
    method FindUnreversed(id: nat) returns (r: Result<TxRow, TxError>)
      ensures |rows| <= id <==> r == Err(NotFound)
      ensures id < |rows| && rows[id].reversed <==> r == Err(AlreadyReversed)
      ensures r.Err? ==> r.error in {NotFound, AlreadyReversed}
      ensures r.Ok? ==> id < |rows| && r.value == rows[id]
    {
      if id >= |rows| { return Err(NotFound); }
      if rows[id].reversed { return Err(AlreadyReversed); }
      r := Ok(rows[id]);
    }

    /** Both legs of a reversal, each committed on its own. */
    method MoveBack(t: TxRow, first: Fault, second: Fault) returns (moved: bool)
      modifies wallets.db
      ensures (wallets.db.tables, moved) == ReverseLegs(old(wallets.db.tables), t, first, second)
    {
      var back := wallets.AdjustBalance(t.senderId, t.currency, t.amount, first);
      if back.Err? { return false; }
      var taken := wallets.AdjustBalance(t.receiverId, t.currency, -t.amount, second);
      moved := taken.Ok?;
    }

    /** The save of a reversal, of the row as it was read: a new row, and the mark. */
    method SaveReversal(id: nat, t: TxRow, commitOk: bool) returns (r: Result<TxRow, TxError>)
      requires id < |rows|
      modifies this`rows
      ensures r == if commitOk then Ok(t.(status := Reversed, reversed := true)) else Err(WriteFailed)
      ensures rows == if !commitOk then old(rows)
                      else old(rows)[id := t.(status := Reversed, reversed := true)]
                           + [TxRow(t.receiverId, t.senderId, t.amount, t.currency, 0.0, Reversed, 0, false)]
    {
      if !commitOk { return Err(WriteFailed); }
      var reversal := TxRow(t.receiverId, t.senderId, t.amount, t.currency, 0.0, Reversed, 0, false);
      rows := rows[id := t.(status := Reversed, reversed := true)] + [reversal];
      r := Ok(t.(status := Reversed, reversed := true));
    }

    /** An uninterrupted reversal: a row marked reversed is refused with nothing moved, a successful one marks its row, and the
        legs stay moved even when the rows are not written. */
    method ReverseTransaction(id: nat, first: Fault, second: Fault, commitOk: bool) returns (r: Result<TxRow, TxError>)
      modifies this`rows, wallets.db
      ensures |old(rows)| <= id ==> r == Err(NotFound)
      ensures id < |old(rows)| && old(rows)[id].reversed ==> r == Err(AlreadyReversed)
      ensures id >= |old(rows)| || old(rows)[id].reversed ==> wallets.db.tables == old(wallets.db.tables)
      ensures id < |old(rows)| && !old(rows)[id].reversed ==>
                var legs := ReverseLegs(old(wallets.db.tables), old(rows)[id], first, second);
                wallets.db.tables == legs.0 && (r.Ok? <==> legs.1 && commitOk)
      ensures r.Err? ==> rows == old(rows)
      ensures r.Ok? ==>
                var t := old(rows)[id];
                && r.value == t.(status := Reversed, reversed := true)
                && rows == old(rows)[id := r.value]
                           + [TxRow(t.receiverId, t.senderId, t.amount, t.currency, 0.0, Reversed, 0, false)]
    {
      r := FindUnreversed(id);
      if r.Err? { return; }
      var moved := MoveBack(r.value, first, second);
      if !moved { return Err(WriteFailed); }
      r := SaveReversal(id, r.value, commitOk);
    }
  }
}
