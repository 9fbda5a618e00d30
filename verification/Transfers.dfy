/** Transfers as steps. Every await of `transfer` is a step boundary, each leg commits on its own, and between two
    steps of one transfer any step of another transfer, a cancellation or the timeout job may run. */
module Transfers {
  import opened Common
  import opened Wallets

  datatype TransferDto = TransferDto(senderId: string, receiverId: string, amount: real, currency: string) {
    function Currency(): string { NormalizeCurrencyCode(currency) }
    function SenderKey(): WalletKey { WalletKey(senderId, Currency()) }
    function ReceiverKey(): WalletKey { WalletKey(receiverId, Currency()) }
  }

  datatype TransferError =
    TermsNotAccepted | Deactivated | NotPositive | SameParty | CurrencyNotSupported | BalanceUnread | Insufficient | NotSaved

  /** How far one call of `transfer` has got. Refused and NotNumbered threw; the three stops are the error path that
      logs and returns the record. */
  datatype Phase =
    | Refused(error: TransferError)
    | Checked
    | Stored
    | Numbered
    | Debited
    | Credited
    | Confirmed
    | NotNumbered
    | StoppedBeforeDebit
    | StoppedBetween
    | StoppedAfterCredit

  /** One call: its request, its progress, and the status of its row in the transaction table, if there is one. */
  datatype Transfer = Transfer(dto: TransferDto, phase: Phase, stored: Option<Status>)

  /** seen holds, once for each reader, the transfers cancellers and the timeout job have read as PENDING and may yet overwrite. */
  datatype Ledger = Ledger(balances: Balances, transfers: seq<Transfer>, seen: multiset<nat>)

  datatype Event =
    | Check(dto: TransferDto, termsAccepted: bool, deactivated: bool, readOk: bool)
    | Persist(i: nat, ok: bool)
    | Number(i: nat, ok: bool)
    | Debit(i: nat, fault: Fault)
    | Credit(i: nat, fault: Fault)
    | Confirm(i: nat, ok: bool)
    | SeePending(i: nat)
    | Overwrite(i: nat, status: Status)

  // ---------------------------------------------------------------- one step

  function Preflight(b: Balances, dto: TransferDto, termsAccepted: bool, deactivated: bool, readOk: bool): Option<TransferError> {
    if !termsAccepted then Some(TermsNotAccepted)
    else if deactivated then Some(Deactivated)
    else if dto.amount <= 0.0 then Some(NotPositive)
    else if dto.senderId == dto.receiverId then Some(SameParty)
    else if dto.Currency() !in SUPPORTED_CURRENCIES then Some(CurrencyNotSupported)
    else if !readOk then Some(BalanceUnread)
    else if Bal(b, dto.SenderKey()) as real < dto.amount then Some(Insufficient)
    else None
  }

  function At(l: Ledger, i: nat, phase: Phase): bool {
    i < |l.transfers| && l.transfers[i].phase == phase
  }

  function Move(l: Ledger, i: nat, phase: Phase, stored: Option<Status>): Ledger
    requires i < |l.transfers|
  {
    l.(transfers := l.transfers[i := Transfer(l.transfers[i].dto, phase, stored)])
  }

  /** One step; an event that is not enabled changes nothing. */
  function Step(l: Ledger, e: Event): Ledger {
    match e
    case Check(dto, terms, deactivated, readOk) =>
      var p := Preflight(l.balances, dto, terms, deactivated, readOk);
      l.(transfers := l.transfers + [Transfer(dto, if p.Some? then Refused(p.value) else Checked, None)])
    case Persist(i, ok) =>
      if !At(l, i, Checked) then l
      else if ok then Move(l, i, Stored, Some(Pending)) else Move(l, i, Refused(NotSaved), None)
    case Number(i, ok) =>
      if !At(l, i, Stored) then l
      else if ok then Move(l, i, Numbered, Some(Pending)) else Move(l, i, NotNumbered, l.transfers[i].stored)
    case Debit(i, fault) =>
      if !At(l, i, Numbered) then l else
        var t := l.transfers[i];
        (match Leg(l.balances, t.dto.SenderKey(), -t.dto.amount, fault)
         case None => Move(l, i, StoppedBeforeDebit, t.stored)
         case Some(b) => Move(l, i, Debited, t.stored).(balances := b))
    case Credit(i, fault) =>
      if !At(l, i, Debited) then l else
        var t := l.transfers[i];
        (match Leg(l.balances, t.dto.ReceiverKey(), t.dto.amount, fault)
         case None => Move(l, i, StoppedBetween, t.stored)
         case Some(b) => Move(l, i, Credited, t.stored).(balances := b))
    case Confirm(i, ok) =>
      if !At(l, i, Credited) then l
      else if ok then Move(l, i, Confirmed, Some(Completed))
      else Move(l, i, StoppedAfterCredit, l.transfers[i].stored)
    case SeePending(i) =>
      if i < |l.transfers| && l.transfers[i].stored == Some(Pending) then l.(seen := l.seen + multiset{i}) else l
    case Overwrite(i, status) =>
      if i in l.seen && i < |l.transfers| && status in {Failed, Cancelled}
      then Move(l, i, l.transfers[i].phase, Some(status)).(seen := l.seen - multiset{i})
      else l
  }

  function Run(l: Ledger, events: seq<Event>): Ledger {
    if events == [] then l else Step(Run(l, events[..|events| - 1]), events[|events| - 1])
  }

  function Start(balances: Balances): Ledger {
    Ledger(balances, [], multiset{})
  }

  // ---------------------------------------------------------------- what each leg did

  predicate DebitApplied(p: Phase) {
    p in {Debited, Credited, Confirmed, StoppedBetween, StoppedAfterCredit}
  }

  predicate CreditApplied(p: Phase) {
    p in {Credited, Confirmed, StoppedAfterCredit}
  }

  predicate BetweenLegs(p: Phase) {
    p in {Debited, StoppedBetween}
  }

  /** The change one transfer has made to one wallet: each leg counted once if it was applied, not at all otherwise. */
  function Effect(t: Transfer, k: WalletKey): int {
    (if CreditApplied(t.phase) && k == t.dto.ReceiverKey() then CreditCents(t.dto.amount) else 0)
    - (if DebitApplied(t.phase) && k == t.dto.SenderKey() then DebitCents(t.dto.amount) else 0)
  }

  function Effects(ts: seq<Transfer>, k: WalletKey): int {
    if ts == [] then 0 else Effects(ts[..|ts| - 1], k) + Effect(ts[|ts| - 1], k)
  }

  ghost predicate Sound(t: Transfer) {
    (!t.phase.Refused? ==>
       t.dto.amount > 0.0 && t.dto.senderId != t.dto.receiverId && t.dto.Currency() in SUPPORTED_CURRENCIES)
    && (t.stored == Some(Completed) ==> t.phase == Confirmed)
    && (t.stored.None? <==> t.phase.Refused? || t.phase == Checked)
  }

  /** The ledger equation: no balance is negative, and each one is its initial value plus the legs applied to it. */
  ghost predicate Inv(init: Balances, l: Ledger) {
    NonNegative(l.balances)
    && (forall i :: 0 <= i < |l.transfers| ==> Sound(l.transfers[i]))
    && (forall i :: i in l.seen ==> i < |l.transfers| && l.transfers[i].stored.Some?)
    && (forall k :: Bal(l.balances, k) == Bal(init, k) + Effects(l.transfers, k))
  }

  lemma {:induction false} EffectsOfUpdate(ts: seq<Transfer>, i: nat, t: Transfer, k: WalletKey)
    requires i < |ts|
    ensures Effects(ts[i := t], k) == Effects(ts, k) - Effect(ts[i], k) + Effect(t, k)
  {
    var u := ts[i := t];
    if i < |ts| - 1 {
      EffectsOfUpdate(ts[..|ts| - 1], i, t, k);
      assert u[..|ts| - 1] == ts[..|ts| - 1][i := t];
    } else {
      assert u[..|ts| - 1] == ts[..|ts| - 1];
    }
  }

  /** A move between phases with the same legs applied changes no effect. */
  lemma MoveKeepsInv(init: Balances, l: Ledger, i: nat, phase: Phase, stored: Option<Status>)
    requires Inv(init, l) && i < |l.transfers|
    requires var t := Transfer(l.transfers[i].dto, phase, stored);
             Sound(t) && (i in l.seen ==> stored.Some?)
             && CreditApplied(phase) == CreditApplied(l.transfers[i].phase)
             && DebitApplied(phase) == DebitApplied(l.transfers[i].phase)
    ensures Inv(init, Move(l, i, phase, stored))
  {
    var t := Transfer(l.transfers[i].dto, phase, stored);
    forall k ensures Effects(l.transfers[i := t], k) == Effects(l.transfers, k) {
      EffectsOfUpdate(l.transfers, i, t, k);
    }
  }

  /** Replacing one transfer and its balances keeps the equation when the balances move by the change of its effect. */
  lemma ReplaceKeepsInv(init: Balances, l: Ledger, i: nat, t: Transfer, b: Balances)
    requires Inv(init, l) && i < |l.transfers| && Sound(t) && NonNegative(b) && (i in l.seen ==> t.stored.Some?)
    requires forall k :: Bal(b, k) - Bal(l.balances, k) == Effect(t, k) - Effect(l.transfers[i], k)
    ensures Inv(init, l.(transfers := l.transfers[i := t], balances := b))
  {
    forall k ensures Bal(b, k) == Bal(init, k) + Effects(l.transfers[i := t], k) {
      EffectsOfUpdate(l.transfers, i, t, k);
    }
  }

  lemma DebitEffectOf(t: Transfer, x: WalletKey)
    requires t.phase == Numbered
    ensures Effect(t.(phase := Debited), x) - Effect(t, x) == if x == t.dto.SenderKey() then -DebitCents(t.dto.amount) else 0
  {
  }

  lemma CreditEffectOf(t: Transfer, x: WalletKey)
    requires t.phase == Debited
    ensures Effect(t.(phase := Credited), x) - Effect(t, x) == if x == t.dto.ReceiverKey() then CreditCents(t.dto.amount) else 0
  {
  }

  lemma DebitedKeepsInv(init: Balances, l: Ledger, i: nat, b: Balances)
    requires Inv(init, l) && At(l, i, Numbered) && NonNegative(b)
    requires MovedBy(l.balances, b, l.transfers[i].dto.SenderKey(), -DebitCents(l.transfers[i].dto.amount))
    ensures Inv(init, Move(l, i, Debited, l.transfers[i].stored).(balances := b))
  {
    var t := l.transfers[i];
    forall x ensures Bal(b, x) - Bal(l.balances, x) == Effect(t.(phase := Debited), x) - Effect(t, x) { DebitEffectOf(t, x); }
    ReplaceKeepsInv(init, l, i, t.(phase := Debited), b);
  }

  lemma CreditedKeepsInv(init: Balances, l: Ledger, i: nat, b: Balances)
    requires Inv(init, l) && At(l, i, Debited) && NonNegative(b)
    requires MovedBy(l.balances, b, l.transfers[i].dto.ReceiverKey(), CreditCents(l.transfers[i].dto.amount))
    ensures Inv(init, Move(l, i, Credited, l.transfers[i].stored).(balances := b))
  {
    var t := l.transfers[i];
    forall x ensures Bal(b, x) - Bal(l.balances, x) == Effect(t.(phase := Credited), x) - Effect(t, x) { CreditEffectOf(t, x); }
    ReplaceKeepsInv(init, l, i, t.(phase := Credited), b);
  }

  lemma DebitLegKeepsInv(init: Balances, l: Ledger, i: nat, k: WalletKey, a: real, fault: Fault, leg: Option<Balances>)
    requires Inv(init, l) && At(l, i, Numbered) && k == l.transfers[i].dto.SenderKey() && a == l.transfers[i].dto.amount
    requires leg == Leg(l.balances, k, -a, fault)
    ensures leg.None? ==> Inv(init, Move(l, i, StoppedBeforeDebit, l.transfers[i].stored))
    ensures leg.Some? ==> Inv(init, Move(l, i, Debited, l.transfers[i].stored).(balances := leg.value))
  {
    if leg.None? {
      MoveKeepsInv(init, l, i, StoppedBeforeDebit, l.transfers[i].stored);
    } else {
      DebitMoves(l.balances, k, a, fault);
      DebitedKeepsInv(init, l, i, leg.value);
    }
  }

  lemma CreditLegKeepsInv(init: Balances, l: Ledger, i: nat, k: WalletKey, a: real, fault: Fault, leg: Option<Balances>)
    requires Inv(init, l) && At(l, i, Debited) && k == l.transfers[i].dto.ReceiverKey() && a == l.transfers[i].dto.amount
    requires leg == Leg(l.balances, k, a, fault)
    ensures leg.None? ==> Inv(init, Move(l, i, StoppedBetween, l.transfers[i].stored))
    ensures leg.Some? ==> Inv(init, Move(l, i, Credited, l.transfers[i].stored).(balances := leg.value))
  {
    if leg.None? {
      MoveKeepsInv(init, l, i, StoppedBetween, l.transfers[i].stored);
    } else {
      LegMoves(l.balances, k, a, fault);
      CreditedKeepsInv(init, l, i, leg.value);
    }
  }

  lemma StepDebit(l: Ledger, i: nat, fault: Fault, leg: Option<Balances>)
    requires At(l, i, Numbered)
    requires leg == Leg(l.balances, l.transfers[i].dto.SenderKey(), -l.transfers[i].dto.amount, fault)
    ensures Step(l, Debit(i, fault)) == if leg.None? then Move(l, i, StoppedBeforeDebit, l.transfers[i].stored)
                                        else Move(l, i, Debited, l.transfers[i].stored).(balances := leg.value)
  {
  }

  lemma StepCredit(l: Ledger, i: nat, fault: Fault, leg: Option<Balances>)
    requires At(l, i, Debited)
    requires leg == Leg(l.balances, l.transfers[i].dto.ReceiverKey(), l.transfers[i].dto.amount, fault)
    ensures Step(l, Credit(i, fault)) == if leg.None? then Move(l, i, StoppedBetween, l.transfers[i].stored)
                                         else Move(l, i, Credited, l.transfers[i].stored).(balances := leg.value)
  {
  }

  lemma DebitKeepsInv(init: Balances, l: Ledger, i: nat, fault: Fault)
    requires Inv(init, l) && At(l, i, Numbered)
    ensures Inv(init, Step(l, Debit(i, fault)))
  {
    var dto := l.transfers[i].dto;
    var leg := Leg(l.balances, dto.SenderKey(), -dto.amount, fault);
    StepDebit(l, i, fault, leg);
    DebitLegKeepsInv(init, l, i, dto.SenderKey(), dto.amount, fault, leg);
  }

  lemma CreditKeepsInv(init: Balances, l: Ledger, i: nat, fault: Fault)
    requires Inv(init, l) && At(l, i, Debited)
    ensures Inv(init, Step(l, Credit(i, fault)))
  {
    var dto := l.transfers[i].dto;
    var leg := Leg(l.balances, dto.ReceiverKey(), dto.amount, fault);
    StepCredit(l, i, fault, leg);
    CreditLegKeepsInv(init, l, i, dto.ReceiverKey(), dto.amount, fault, leg);
  }

  lemma CheckKeepsInv(init: Balances, l: Ledger, e: Event)
    requires Inv(init, l) && e.Check?
    ensures Inv(init, Step(l, e))
  {
    var l' := Step(l, e);
    assert l'.transfers[..|l.transfers|] == l.transfers;
  }

  lemma PersistKeepsInv(init: Balances, l: Ledger, i: nat, ok: bool)
    requires Inv(init, l)
    ensures Inv(init, Step(l, Persist(i, ok)))
  {
    if At(l, i, Checked) { MoveKeepsInv(init, l, i, if ok then Stored else Refused(NotSaved), if ok then Some(Pending) else None); }
  }

  lemma NumberKeepsInv(init: Balances, l: Ledger, i: nat, ok: bool)
    requires Inv(init, l)
    ensures Inv(init, Step(l, Number(i, ok)))
  {
    if At(l, i, Stored) {
      MoveKeepsInv(init, l, i, if ok then Numbered else NotNumbered, if ok then Some(Pending) else l.transfers[i].stored);
    }
  }

  lemma ConfirmKeepsInv(init: Balances, l: Ledger, i: nat, ok: bool)
    requires Inv(init, l)
    ensures Inv(init, Step(l, Confirm(i, ok)))
  {
    if At(l, i, Credited) {
      MoveKeepsInv(init, l, i, if ok then Confirmed else StoppedAfterCredit, if ok then Some(Completed) else l.transfers[i].stored);
    }
  }

  lemma SweepKeepsInv(init: Balances, l: Ledger, e: Event)
    requires Inv(init, l) && (e.SeePending? || e.Overwrite?)
    ensures Inv(init, Step(l, e))
  {
    if e.Overwrite? && e.i in l.seen && e.i < |l.transfers| && e.status in {Failed, Cancelled} {
      MoveKeepsInv(init, l, e.i, l.transfers[e.i].phase, Some(e.status));
    }
  }

  lemma StepKeepsInv(init: Balances, l: Ledger, e: Event)
    requires Inv(init, l)
    ensures Inv(init, Step(l, e))
  {
    match e
    case Check(_, _, _, _) => CheckKeepsInv(init, l, e);
    case Persist(i, ok) => PersistKeepsInv(init, l, i, ok);
    case Number(i, ok) => NumberKeepsInv(init, l, i, ok);
    case Debit(i, fault) => if At(l, i, Numbered) { DebitKeepsInv(init, l, i, fault); }
    case Credit(i, fault) => if At(l, i, Debited) { CreditKeepsInv(init, l, i, fault); }
    case Confirm(i, ok) => ConfirmKeepsInv(init, l, i, ok);
    case SeePending(_) => SweepKeepsInv(init, l, e);
    case Overwrite(_, _) => SweepKeepsInv(init, l, e);
  }

  /** The ledger equation holds after every interleaving, whatever fails. */
  lemma {:induction false} RunKeepsInv(init: Balances, events: seq<Event>)
    requires NonNegative(init)
    ensures Inv(init, Run(Start(init), events))
  {
    if events != [] {
      RunKeepsInv(init, events[..|events| - 1]);
      StepKeepsInv(init, Run(Start(init), events[..|events| - 1]), events[|events| - 1]);
    }
  }

  /** No balance is ever negative, and a row stored COMPLETED had each of its two legs applied exactly once. */
  lemma CompletedMeansBothLegs(init: Balances, events: seq<Event>, i: nat)
    requires NonNegative(init)
    requires var l := Run(Start(init), events); i < |l.transfers| && l.transfers[i].stored == Some(Completed)
    ensures var l := Run(Start(init), events);
            NonNegative(l.balances) &&
            var t := l.transfers[i];
            t.dto.SenderKey() != t.dto.ReceiverKey() &&
            Effect(t, t.dto.SenderKey()) == -DebitCents(t.dto.amount) &&
            Effect(t, t.dto.ReceiverKey()) == CreditCents(t.dto.amount)
  {
    RunKeepsInv(init, events);
    var l := Run(Start(init), events);
    assert Sound(l.transfers[i]);
  }

  // ---------------------------------------------------------------- conservation

  function AccountsTotal(b: Balances, accounts: seq<string>, currency: string): int {
    if accounts == [] then 0 else
      AccountsTotal(b, accounts[..|accounts| - 1], currency) + Bal(b, WalletKey(accounts[|accounts| - 1], currency))
  }

  /** What transfers stopped or paused between their legs have taken and not yet given. */
  function InFlight(ts: seq<Transfer>, currency: string): int {
    if ts == [] then 0 else
      var t := ts[|ts| - 1];
      InFlight(ts[..|ts| - 1], currency)
      + (if BetweenLegs(t.phase) && t.dto.Currency() == currency then DebitCents(t.dto.amount) else 0)
  }

  /** How many fully applied transfers moved an amount ending in exactly half a cent. */
  function HalfCents(ts: seq<Transfer>, currency: string): int {
    if ts == [] then 0 else
      var t := ts[|ts| - 1];
      HalfCents(ts[..|ts| - 1], currency)
      + (if CreditApplied(t.phase) && t.dto.Currency() == currency && SubCent(t.dto.amount) == 0.5 then 1 else 0)
  }

  function EffectTotal(t: Transfer, accounts: seq<string>, currency: string): int {
    if accounts == [] then 0 else
      EffectTotal(t, accounts[..|accounts| - 1], currency) + Effect(t, WalletKey(accounts[|accounts| - 1], currency))
  }

  function EffectsTotal(ts: seq<Transfer>, accounts: seq<string>, currency: string): int {
    if accounts == [] then 0 else
      EffectsTotal(ts, accounts[..|accounts| - 1], currency) + Effects(ts, WalletKey(accounts[|accounts| - 1], currency))
  }

  lemma {:induction false} EffectsTotalSplits(ts: seq<Transfer>, accounts: seq<string>, currency: string)
    ensures ts == [] ==> EffectsTotal(ts, accounts, currency) == 0
    ensures ts != [] ==>
              EffectsTotal(ts, accounts, currency)
              == EffectsTotal(ts[..|ts| - 1], accounts, currency) + EffectTotal(ts[|ts| - 1], accounts, currency)
  {
    if accounts != [] { EffectsTotalSplits(ts, accounts[..|accounts| - 1], currency); }
  }

  /** Over accounts without repetition, one transfer contributes each applied leg of that currency once. */
  lemma {:induction false} EffectTotalValue(t: Transfer, accounts: seq<string>, currency: string)
    requires NoDuplicates(accounts)
    ensures EffectTotal(t, accounts, currency) ==
              (if CreditApplied(t.phase) && t.dto.Currency() == currency && t.dto.receiverId in accounts
               then CreditCents(t.dto.amount) else 0)
              - (if DebitApplied(t.phase) && t.dto.Currency() == currency && t.dto.senderId in accounts
                 then DebitCents(t.dto.amount) else 0)
  {
    if accounts != [] {
      var before, last := accounts[..|accounts| - 1], accounts[|accounts| - 1];
      EffectTotalValue(t, before, currency);
      assert accounts == before + [last];
      assert last !in before;
    }
  }

  lemma {:induction false} TotalOfEffects(init: Balances, l: Ledger, accounts: seq<string>, currency: string)
    requires Inv(init, l)
    ensures AccountsTotal(l.balances, accounts, currency) ==
              AccountsTotal(init, accounts, currency) + EffectsTotal(l.transfers, accounts, currency)
  {
    if accounts != [] { TotalOfEffects(init, l, accounts[..|accounts| - 1], currency); }
  }

  lemma {:induction false} EffectsTotalValue(ts: seq<Transfer>, accounts: seq<string>, currency: string)
    requires NoDuplicates(accounts)
    requires forall t :: t in ts && !t.phase.Refused? ==> t.dto.senderId in accounts && t.dto.receiverId in accounts
    ensures EffectsTotal(ts, accounts, currency) == HalfCents(ts, currency) - InFlight(ts, currency)
  {
    EffectsTotalSplits(ts, accounts, currency);
    if ts != [] {
      var before, t := ts[..|ts| - 1], ts[|ts| - 1];
      assert forall x :: x in before ==> x in ts;
      EffectsTotalValue(before, accounts, currency);
      EffectTotalValue(t, accounts, currency);
      assert t in ts;
    }
  }

  /** Conservation in every interleaving: the balances of a currency plus what is between the legs is the initial total,
      except for one cent created by each completed pair of legs whose amount ends in exactly half a cent. */
  lemma Conservation(init: Balances, events: seq<Event>, accounts: seq<string>, currency: string)
    requires NonNegative(init) && NoDuplicates(accounts)
    requires forall t :: t in Run(Start(init), events).transfers && !t.phase.Refused? ==>
               t.dto.senderId in accounts && t.dto.receiverId in accounts
    ensures var l := Run(Start(init), events);
            AccountsTotal(l.balances, accounts, currency) + InFlight(l.transfers, currency)
            == AccountsTotal(init, accounts, currency) + HalfCents(l.transfers, currency)
  {
    RunKeepsInv(init, events);
    var l := Run(Start(init), events);
    TotalOfEffects(init, l, accounts, currency);
    EffectsTotalValue(l.transfers, accounts, currency);
  }

  /** The sum of the amounts between the legs, as real numbers of cents. */
  function AmountInFlight(ts: seq<Transfer>, currency: string): real {
    if ts == [] then 0.0 else
      var t := ts[|ts| - 1];
      AmountInFlight(ts[..|ts| - 1], currency)
      + (if BetweenLegs(t.phase) && t.dto.Currency() == currency then t.dto.amount else 0.0)
  }

  lemma {:induction false} WholeCentsInFlight(ts: seq<Transfer>, currency: string)
    requires forall t :: t in ts ==> SubCent(t.dto.amount) == 0.0
    ensures HalfCents(ts, currency) == 0 && InFlight(ts, currency) as real == AmountInFlight(ts, currency)
  {
    if ts != [] {
      var before := ts[..|ts| - 1];
      assert forall t :: t in before ==> t in ts;
      WholeCentsInFlight(before, currency);
      assert ts[|ts| - 1] in ts;
    }
  }

  /** With whole-cent amounts nothing is created or lost. */
  lemma WholeCentConservation(init: Balances, events: seq<Event>, accounts: seq<string>, currency: string)
    requires NonNegative(init) && NoDuplicates(accounts)
    requires forall t :: t in Run(Start(init), events).transfers ==> SubCent(t.dto.amount) == 0.0
    requires forall t :: t in Run(Start(init), events).transfers && !t.phase.Refused? ==>
               t.dto.senderId in accounts && t.dto.receiverId in accounts
    ensures var l := Run(Start(init), events);
            AccountsTotal(l.balances, accounts, currency) as real + AmountInFlight(l.transfers, currency)
            == AccountsTotal(init, accounts, currency) as real
  {
    Conservation(init, events, accounts, currency);
    WholeCentsInFlight(Run(Start(init), events).transfers, currency);
  }

  // ---------------------------------------------------------------- what the stored status tells

  /** A canceller or the timeout job reads or overwrites row i. */
  predicate Sweeps(e: Event, i: nat) {
    (e.SeePending? || e.Overwrite?) && e.i == i
  }

  /** The stored status says exactly how far transfer i got: COMPLETED when confirmed, PENDING at every other point after the
      first save, between the legs included. */
  ghost predicate StatusFits(l: Ledger, i: nat) {
    i !in l.seen &&
    (i < |l.transfers| ==>
       l.transfers[i].stored == if l.transfers[i].phase.Refused? || l.transfers[i].phase == Checked then None
                                else if l.transfers[i].phase == Confirmed then Some(Completed) else Some(Pending))
  }

  lemma StepKeepsStatusFit(l: Ledger, e: Event, i: nat)
    requires StatusFits(l, i) && !Sweeps(e, i)
    ensures StatusFits(Step(l, e), i)
  {
  }

  /** So it is in every interleaving in which no cancellation and no timeout job touches this row, whatever they do to others. */
  lemma {:induction false} StatusWithoutSweeps(init: Balances, events: seq<Event>, i: nat)
    requires forall e :: e in events ==> !Sweeps(e, i)
    ensures StatusFits(Run(Start(init), events), i)
  {
    if events != [] {
      var before, e := events[..|events| - 1], events[|events| - 1];
      assert forall x :: x in before ==> x in events;
      assert e in events;
      StatusWithoutSweeps(init, before, i);
      StepKeepsStatusFit(Run(Start(init), before), e, i);
    }
  }

  /** What the call hands back: the in-memory record, whose status is set just before the last save. */
  function Returned(t: Transfer): Option<Result<Status, TransferError>> {
    match t.phase
    case Refused(e) => Some(Err(e))
    case NotNumbered => Some(Err(NotSaved))
    case StoppedBeforeDebit | StoppedBetween => Some(Ok(Pending))
    case StoppedAfterCredit | Confirmed => Some(Ok(Completed))
    case _ => None
  }

  /** The record handed back agrees with the stored row in every case but one: when only the last save failed,
      the caller sees COMPLETED and the table keeps PENDING. */
  lemma ReturnedVersusStored(init: Balances, events: seq<Event>, i: nat)
    requires forall e :: e in events ==> !Sweeps(e, i)
    requires i < |Run(Start(init), events).transfers|
    requires Returned(Run(Start(init), events).transfers[i]).Some?
    requires Returned(Run(Start(init), events).transfers[i]).value.Ok?
    ensures var t := Run(Start(init), events).transfers[i];
            t.stored == Some(Returned(t).value.value) <==> t.phase != StoppedAfterCredit
    ensures var t := Run(Start(init), events).transfers[i];
            t.phase == StoppedAfterCredit ==> Returned(t) == Some(Ok(Completed)) && t.stored == Some(Pending)
  {
    StatusWithoutSweeps(init, events, i);
  }

  // ---------------------------------------------------------------- the service

  datatype TransferFaults = TransferFaults(persistOk: bool, numberOk: bool, debit: Fault, credit: Fault, confirmOk: bool)

  /** The steps of one call that nothing interrupts. A step whose predecessor threw is not enabled. */
  function Recorded(l: Ledger, i: nat, dto: TransferDto, terms: bool, deactivated: bool, readOk: bool, f: TransferFaults): Ledger {
    Step(Step(Step(l, Check(dto, terms, deactivated, readOk)), Persist(i, f.persistOk)), Number(i, f.numberOk))
  }

  function Moved(l: Ledger, i: nat, f: TransferFaults): Ledger {
    Step(Step(Step(l, Debit(i, f.debit)), Credit(i, f.credit)), Confirm(i, f.confirmOk))
  }

  function Called(l: Ledger, dto: TransferDto, terms: bool, deactivated: bool, readOk: bool, f: TransferFaults): Ledger {
    var i := |l.transfers|;
    var recorded := Recorded(l, i, dto, terms, deactivated, readOk, f);
    if At(recorded, i, Numbered) then Moved(recorded, i, f) else recorded
  }

  const GOOD := TransferFaults(true, true, NoFault, NoFault, true)

  /** A transfer past its guards in a ledger with room for it. */
  ghost predicate Allowed(b: Balances, dto: TransferDto) {
    NonNegative(b) && Preflight(b, dto, true, false, true).None?
  }

  lemma RecordedAll(l: Ledger, dto: TransferDto)
    requires Allowed(l.balances, dto)
    ensures Recorded(l, |l.transfers|, dto, true, false, true, GOOD)
            == l.(transfers := l.transfers + [Transfer(dto, Numbered, Some(Pending))])
  {
  }

  lemma LegsOfTransfer(b: Balances, s: WalletKey, r: WalletKey, a: real)
    requires NonNegative(b) && a > 0.0 && Bal(b, s) as real >= a && s.currency in SUPPORTED_CURRENCIES && r.currency in SUPPORTED_CURRENCIES
    ensures Leg(b, s, -a, NoFault).Some?
    ensures var b1 := Leg(b, s, -a, NoFault).value;
            NonNegative(b1) && MovedBy(b, b1, s, -DebitCents(a)) && Leg(b1, r, a, NoFault).Some?
    ensures var b1 := Leg(b, s, -a, NoFault).value;
            var b2 := Leg(b1, r, a, NoFault).value;
            NonNegative(b2) && MovedBy(b1, b2, r, CreditCents(a))
  {
    AppliedEffect(b, s, a);
    DebitMoves(b, s, a, NoFault);
    var b1 := Leg(b, s, -a, NoFault).value;
    AppliedEffect(b1, r, a);
    LegMoves(b1, r, a, NoFault);
  }

  /** From its number on, a transfer of a sender who has the amount moves both legs and is confirmed, if nothing fails. */
  lemma MovedAll(l: Ledger, i: nat, x: WalletKey)
    requires At(l, i, Numbered) && Allowed(l.balances, l.transfers[i].dto)
    ensures var dto := l.transfers[i].dto;
            var m := Moved(l, i, GOOD);
            && m.transfers == l.transfers[i := Transfer(dto, Confirmed, Some(Completed))] && m.seen == l.seen && NonNegative(m.balances)
            && Bal(m.balances, x) == Bal(l.balances, x) - (if x == dto.SenderKey() then DebitCents(dto.amount) else 0)
                                     + (if x == dto.ReceiverKey() then CreditCents(dto.amount) else 0)
  {
    var dto, stored := l.transfers[i].dto, l.transfers[i].stored;
    LegsOfTransfer(l.balances, dto.SenderKey(), dto.ReceiverKey(), dto.amount);
    var b1 := Leg(l.balances, dto.SenderKey(), -dto.amount, NoFault).value;
    var b2 := Leg(b1, dto.ReceiverKey(), dto.amount, NoFault).value;
    var l1 := Step(l, Debit(i, NoFault));
    assert l1 == Ledger(b1, l.transfers[i := Transfer(dto, Debited, stored)], l.seen);
    var l2 := Step(l1, Credit(i, NoFault));
    assert l2 == Ledger(b2, l.transfers[i := Transfer(dto, Credited, stored)], l.seen);
    assert Bal(b1, x) == Bal(l.balances, x) + (if x == dto.SenderKey() then -DebitCents(dto.amount) else 0);
    assert Bal(b2, x) == Bal(b1, x) + (if x == dto.ReceiverKey() then CreditCents(dto.amount) else 0);
  }

  /** A transfer that a sweep reads as PENDING before its legs, and overwrites after its confirmation. */
  function Hidden(l: Ledger, dto: TransferDto, status: Status): Ledger {
    var i := |l.transfers|;
    var seen := Step(Recorded(l, i, dto, true, false, true, GOOD), SeePending(i));
    Step(Moved(seen, i, GOOD), Overwrite(i, status))
  }

  /** FAILED and CANCELLED say nothing about the money: in any ledger, any transfer the sender can pay may complete, both legs
      applied, and be stored as FAILED or CANCELLED. */
  lemma SweepCanHideCompletion(l: Ledger, dto: TransferDto, status: Status, x: WalletKey)
    requires Allowed(l.balances, dto) && status in {Failed, Cancelled}
    ensures var m := Hidden(l, dto, status);
            && m.transfers == l.transfers + [Transfer(dto, Confirmed, Some(status))]
            && Bal(m.balances, x) == Bal(l.balances, x) - (if x == dto.SenderKey() then DebitCents(dto.amount) else 0)
                                     + (if x == dto.ReceiverKey() then CreditCents(dto.amount) else 0)
  {
    var i := |l.transfers|;
    RecordedAll(l, dto);
    var seen := Step(Recorded(l, i, dto, true, false, true, GOOD), SeePending(i));
    assert seen == Ledger(l.balances, l.transfers + [Transfer(dto, Numbered, Some(Pending))], l.seen + multiset{i});
    MovedAll(seen, i, x);
    OverwriteLast(Moved(seen, i, GOOD), l.transfers, dto, status);
  }

  lemma OverwriteLast(m: Ledger, front: seq<Transfer>, dto: TransferDto, status: Status)
    requires m.transfers == front + [Transfer(dto, Confirmed, Some(Completed))] && |front| in m.seen && status in {Failed, Cancelled}
    ensures Step(m, Overwrite(|front|, status)).transfers == front + [Transfer(dto, Confirmed, Some(status))]
    ensures Step(m, Overwrite(|front|, status)).balances == m.balances
  {
  }

  /** n uninterrupted transfers alike. */
  function Repeated(l: Ledger, dto: TransferDto, n: nat): Ledger {
    if n == 0 then l else
      var m := Repeated(l, dto, n - 1);
      Moved(Recorded(m, |m.transfers|, dto, true, false, true, GOOD), |m.transfers|, GOOD)
  }

  lemma OneTransfer(l: Ledger, dto: TransferDto, x: WalletKey)
    requires Allowed(l.balances, dto)
    ensures var m := Moved(Recorded(l, |l.transfers|, dto, true, false, true, GOOD), |l.transfers|, GOOD);
            && NonNegative(m.balances)
            && Bal(m.balances, x) == Bal(l.balances, x) - (if x == dto.SenderKey() then DebitCents(dto.amount) else 0)
                                     + (if x == dto.ReceiverKey() then CreditCents(dto.amount) else 0)
  {
    RecordedAll(l, dto);
    MovedAll(Recorded(l, |l.transfers|, dto, true, false, true, GOOD), |l.transfers|, x);
  }

  /** A transfer of exactly half a cent takes nothing and gives a cent: n of them create n cents. */
  lemma {:induction false} HalfCentsAddUp(l: Ledger, dto: TransferDto, n: nat)
    requires Allowed(l.balances, dto) && dto.amount == 0.5
    ensures var m := Repeated(l, dto, n);
            && Allowed(m.balances, dto)
            && Bal(m.balances, dto.SenderKey()) == Bal(l.balances, dto.SenderKey())
            && Bal(m.balances, dto.ReceiverKey()) == Bal(l.balances, dto.ReceiverKey()) + n
  {
    if n > 0 {
      HalfCentsAddUp(l, dto, n - 1);
      var m := Repeated(l, dto, n - 1);
      OneTransfer(m, dto, dto.SenderKey());
      OneTransfer(m, dto, dto.ReceiverKey());
      HalfCent();
      Parties(l.balances, dto);
      AllowedAgain(m.balances, Repeated(l, dto, n).balances, dto);
    }
  }

  lemma Parties(b: Balances, dto: TransferDto)
    requires Allowed(b, dto)
    ensures dto.SenderKey() != dto.ReceiverKey()
  {
  }

  lemma AllowedAgain(b: Balances, c: Balances, dto: TransferDto)
    requires Allowed(b, dto) && NonNegative(c) && Bal(c, dto.SenderKey()) >= Bal(b, dto.SenderKey())
    ensures Allowed(c, dto)
  {
  }

  lemma HalfCent()
    ensures DebitCents(0.5) == 0 && CreditCents(0.5) == 1
  {
    assert (0.5).Floor == 0;
  }

  class TransferService {
    const wallets: WalletsService
    var transfers: seq<Transfer>
    var seen: multiset<nat>

    constructor (wallets: WalletsService)
      ensures this.wallets == wallets && Now() == Start(wallets.db.tables)
    {
      this.wallets := wallets;
      transfers, seen := [], multiset{};
    }

    ghost function Now(): Ledger
      reads this, wallets.db
    {
      Ledger(wallets.db.tables, transfers, seen)
    }

    /** Guards and the unlocked balance read, up to the creation of the record. */
    method CheckRequest(dto: TransferDto, terms: bool, deactivated: bool, readOk: bool) returns (i: nat)
      modifies this`transfers
      ensures i == |old(transfers)| && Now() == Step(old(Now()), Check(dto, terms, deactivated, readOk))
    {
      i := |transfers|;
      var refusal: Option<TransferError> := None;
      if !terms {
        refusal := Some(TermsNotAccepted);
      } else if deactivated {
        refusal := Some(Deactivated);
      } else if dto.amount <= 0.0 {
        refusal := Some(NotPositive);
      } else if dto.senderId == dto.receiverId {
        refusal := Some(SameParty);
      } else {
        var balance := wallets.GetBalance(dto.senderId, dto.currency, readOk);
        if balance.Err? {
          refusal := Some(if balance.error == UnsupportedCurrency then CurrencyNotSupported else BalanceUnread);
        } else if balance.value as real < dto.amount {
          refusal := Some(Insufficient);
        }
      }
      transfers := transfers + [Transfer(dto, if refusal.Some? then Refused(refusal.value) else Checked, None)];
    }

    method SavePending(i: nat, ok: bool)
      requires At(Now(), i, Checked)
      modifies this`transfers
      ensures Now() == Step(old(Now()), Persist(i, ok))
    {
      var t := transfers[i];
      transfers := transfers[i := if ok then t.(phase := Stored, stored := Some(Pending)) else t.(phase := Refused(NotSaved), stored := None)];
    }

    /** The number and the save of the record, which writes the PENDING it was created with. */
    method GenerateReceiptNumber(i: nat, ok: bool)
      requires At(Now(), i, Stored)
      modifies this`transfers
      ensures Now() == Step(old(Now()), Number(i, ok))
    {
      var t := transfers[i];
      transfers := transfers[i := if ok then t.(phase := Numbered, stored := Some(Pending)) else t.(phase := NotNumbered)];
    }

    method DebitSender(i: nat, fault: Fault)
      requires At(Now(), i, Numbered)
      modifies this`transfers, wallets.db
      ensures Now() == Step(old(Now()), Debit(i, fault))
    {
      var dto := transfers[i].dto;
      var r := wallets.AdjustBalance(dto.senderId, dto.currency, -dto.amount, fault);
      transfers := transfers[i := transfers[i].(phase := if r.Ok? then Debited else StoppedBeforeDebit)];
    }

    method CreditReceiver(i: nat, fault: Fault)
      requires At(Now(), i, Debited)
      modifies this`transfers, wallets.db
      ensures Now() == Step(old(Now()), Credit(i, fault))
    {
      var dto := transfers[i].dto;
      var r := wallets.AdjustBalance(dto.receiverId, dto.currency, dto.amount, fault);
      transfers := transfers[i := transfers[i].(phase := if r.Ok? then Credited else StoppedBetween)];
    }

    method SaveCompleted(i: nat, ok: bool)
      requires At(Now(), i, Credited)
      modifies this`transfers
      ensures Now() == Step(old(Now()), Confirm(i, ok))
    {
      var t := transfers[i];
      transfers := transfers[i := if ok then t.(phase := Confirmed, stored := Some(Completed)) else t.(phase := StoppedAfterCredit)];
    }

    method Record(dto: TransferDto, terms: bool, deactivated: bool, readOk: bool, f: TransferFaults) returns (i: nat)
      modifies this`transfers
      ensures i == |old(transfers)| && |transfers| == i + 1
      ensures transfers[i].phase in {Numbered, NotNumbered} || transfers[i].phase.Refused?
      ensures Now() == Recorded(old(Now()), i, dto, terms, deactivated, readOk, f)
    {
      i := CheckRequest(dto, terms, deactivated, readOk);
      if transfers[i].phase == Checked { SavePending(i, f.persistOk); }
      if transfers[i].phase == Stored { GenerateReceiptNumber(i, f.numberOk); }
    }

    method MoveMoney(i: nat, f: TransferFaults)
      requires At(Now(), i, Numbered)
      modifies this`transfers, wallets.db
      ensures |transfers| == |old(transfers)|
      ensures Now() == Moved(old(Now()), i, f)
      ensures Returned(transfers[i]) in {Some(Ok(Pending)), Some(Ok(Completed))}
    {
      DebitSender(i, f.debit);
      if transfers[i].phase == Debited { CreditReceiver(i, f.credit); }
      if transfers[i].phase == Credited { SaveCompleted(i, f.confirmOk); }
    }

    /** One uninterrupted call of transfer takes exactly its steps, and hands back what they say. */
    method Execute(dto: TransferDto, terms: bool, deactivated: bool, readOk: bool, f: TransferFaults)
      returns (r: Result<Status, TransferError>)
      modifies this`transfers, wallets.db
      ensures |transfers| == |old(transfers)| + 1 && Returned(transfers[|old(transfers)|]) == Some(r)
      ensures Now() == Called(old(Now()), dto, terms, deactivated, readOk, f)
    {
      var i := Record(dto, terms, deactivated, readOk, f);
      if transfers[i].phase == Numbered {
        MoveMoney(i, f);
      }
      r := Returned(transfers[i]).value;
    }
  }
}
