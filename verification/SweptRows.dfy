/** What a row overwritten by the timeout job or by a cancellation says about its transfer: FAILED and CANCELLED promise that no money
    of it has moved and none ever will. */
module SweptRows {
  import opened Common
  import opened Wallets
  import opened Transfers

  // ---------------------------------------------------------------- transfers go one way

  /** The phases in which a transfer has ended with no leg applied. */
  predicate EndedEmpty(p: Phase) {
    p.Refused? || p in {NotNumbered, StoppedBeforeDebit}
  }

  /** A transfer keeps its request; one that ended with no leg applied, or between the legs, never goes on; an applied debit stays
      applied. */
  ghost predicate Onward(t: Transfer, u: Transfer) {
    u.dto == t.dto && (EndedEmpty(t.phase) || t.phase == StoppedBetween ==> u.phase == t.phase)
    && (DebitApplied(t.phase) ==> DebitApplied(u.phase))
  }

  lemma MoveGoesOnward(l: Ledger, j: nat, phase: Phase, stored: Option<Status>, i: nat)
    requires i < |l.transfers| && j < |l.transfers| && Onward(l.transfers[j], l.transfers[j].(phase := phase))
    ensures i < |Move(l, j, phase, stored).transfers| && Onward(l.transfers[i], Move(l, j, phase, stored).transfers[i])
  {
  }

  lemma StepGoesOnward(l: Ledger, e: Event, i: nat)
    requires i < |l.transfers|
    ensures i < |Step(l, e).transfers| && Onward(l.transfers[i], Step(l, e).transfers[i])
  {
    match e
    case Check(_, _, _, _) =>
    case Persist(j, ok) =>
      if At(l, j, Checked) { MoveGoesOnward(l, j, if ok then Stored else Refused(NotSaved), if ok then Some(Pending) else None, i); }
    case Number(j, ok) =>
      if At(l, j, Stored) { MoveGoesOnward(l, j, if ok then Numbered else NotNumbered, if ok then Some(Pending) else l.transfers[j].stored, i); }
    case Debit(j, _) =>
      if At(l, j, Numbered) {
        MoveGoesOnward(l, j, StoppedBeforeDebit, l.transfers[j].stored, i);
        MoveGoesOnward(l, j, Debited, l.transfers[j].stored, i);
      }
    case Credit(j, _) =>
      if At(l, j, Debited) {
        MoveGoesOnward(l, j, StoppedBetween, l.transfers[j].stored, i);
        MoveGoesOnward(l, j, Credited, l.transfers[j].stored, i);
      }
    case Confirm(j, ok) =>
      if At(l, j, Credited) {
        MoveGoesOnward(l, j, if ok then Confirmed else StoppedAfterCredit, if ok then Some(Completed) else l.transfers[j].stored, i);
      }
    case SeePending(_) =>
    case Overwrite(j, status) => if j < |l.transfers| { MoveGoesOnward(l, j, l.transfers[j].phase, Some(status), i); }
  }

  lemma {:induction false} RunGoesOnward(l: Ledger, events: seq<Event>, i: nat)
    requires i < |l.transfers|
    ensures i < |Run(l, events).transfers| && Onward(l.transfers[i], Run(l, events).transfers[i])
  {
    if events != [] {
      RunGoesOnward(l, events[..|events| - 1], i);
      StepGoesOnward(Run(l, events[..|events| - 1]), events[|events| - 1], i);
    }
  }

  // ---------------------------------------------------------------- which transfers never move money

  function EffectIn(l: Ledger, i: nat, k: WalletKey): int {
    if i < |l.transfers| then Effect(l.transfers[i], k) else 0
  }

  /** No continuation of l moves money for transfer i, nor has anything moved so far. */
  ghost predicate NeverMoves(l: Ledger, i: nat) {
    forall events: seq<Event>, k: WalletKey {:trigger EffectIn(Run(l, events), i, k)} :: EffectIn(Run(l, events), i, k) == 0
  }

  /** No wallet has a cent of this currency, and none is on its way between two legs. */
  ghost predicate Dry(l: Ledger, currency: string) {
    && (forall k: WalletKey {:trigger Bal(l.balances, k)} :: k.currency == currency ==> Bal(l.balances, k) == 0)
    && (forall j: nat {:trigger At(l, j, Debited)} :: At(l, j, Debited) && l.transfers[j].dto.Currency() == currency ==>
          CreditCents(l.transfers[j].dto.amount) == 0)
  }

  /** The transfer ended before its debit; or its amount is below half a cent; or it is half a cent, which a debit does not take, and
      stopped between the legs; or it is still before its debit and there is no money of its currency at all. */
  ghost predicate Settled(l: Ledger, i: nat)
    requires i < |l.transfers|
  {
    var t := l.transfers[i];
    || EndedEmpty(t.phase)
    || t.dto.amount < 0.5
    || (t.dto.amount == 0.5 && t.phase == StoppedBetween)
    || (!DebitApplied(t.phase) && Dry(l, t.dto.Currency()))
  }

  ghost predicate Healthy(l: Ledger) {
    NonNegative(l.balances) && forall j :: 0 <= j < |l.transfers| ==> Sound(l.transfers[j])
  }

  lemma CentsOf(a: real)
    requires a > 0.0
    ensures 0 <= DebitCents(a) <= CreditCents(a)
    ensures DebitCents(a) == 0 <==> a <= 0.5
    ensures CreditCents(a) == 0 <==> a < 0.5
  {
    assert a.Floor as real <= a < a.Floor as real + 1.0;
  }

  // ---------------------------------------------------------------- a settled transfer never moves money

  /** Out of an empty wallet only amounts below half a cent are taken. */
  lemma NothingToTake(b: Balances, k: WalletKey, a: real, fault: Fault)
    requires NonNegative(b) && Bal(b, k) == 0 && a >= 0.5
    ensures Leg(b, k, -a, fault).None?
  {
    AppliedEffect(b, k, a);
  }

  lemma DryAfterDebit(l: Ledger, i: nat, fault: Fault, currency: string)
    requires Healthy(l) && Dry(l, currency)
    ensures Dry(Step(l, Debit(i, fault)), currency)
  {
    var m := Step(l, Debit(i, fault));
    if At(l, i, Numbered) {
      var k, a := l.transfers[i].dto.SenderKey(), l.transfers[i].dto.amount;
      CentsOf(a);
      if k.currency == currency && a >= 0.5 { NothingToTake(l.balances, k, a, fault); }
      if Leg(l.balances, k, -a, fault).Some? {
        DebitMoves(l.balances, k, a, fault);
        assert MovedBy(l.balances, m.balances, k, -DebitCents(a));
        assert k.currency == currency ==> DebitCents(a) == 0;
        forall x: WalletKey | x.currency == currency ensures Bal(m.balances, x) == 0 { assert Bal(l.balances, x) == 0; }
      }
      forall j: nat | At(m, j, Debited) && m.transfers[j].dto.Currency() == currency
        ensures CreditCents(m.transfers[j].dto.amount) == 0
      {
        if j != i { assert At(l, j, Debited); }
      }
    }
  }

  lemma DryAfterCredit(l: Ledger, i: nat, fault: Fault, currency: string)
    requires Healthy(l) && Dry(l, currency)
    ensures Dry(Step(l, Credit(i, fault)), currency)
  {
    var m := Step(l, Credit(i, fault));
    if At(l, i, Debited) {
      var k, a := l.transfers[i].dto.ReceiverKey(), l.transfers[i].dto.amount;
      if Leg(l.balances, k, a, fault).Some? {
        LegMoves(l.balances, k, a, fault);
        assert MovedBy(l.balances, m.balances, k, CreditCents(a));
        assert k.currency == currency ==> CreditCents(a) == 0;
        forall x: WalletKey | x.currency == currency ensures Bal(m.balances, x) == 0 { assert Bal(l.balances, x) == 0; }
      }
      forall j: nat | At(m, j, Debited) && m.transfers[j].dto.Currency() == currency
        ensures CreditCents(m.transfers[j].dto.amount) == 0
      {
        assert At(l, j, Debited);
      }
    }
  }

  lemma DryStays(l: Ledger, e: Event, currency: string)
    requires Healthy(l) && Dry(l, currency)
    ensures Dry(Step(l, e), currency)
  {
    match e
    case Debit(i, fault) => DryAfterDebit(l, i, fault, currency);
    case Credit(i, fault) => DryAfterCredit(l, i, fault, currency);
    case _ =>
      var m := Step(l, e);
      QuietStep(l, e, 0);
      forall j: nat | At(m, j, Debited) && m.transfers[j].dto.Currency() == currency
        ensures CreditCents(m.transfers[j].dto.amount) == 0
      {
        QuietStep(l, e, j);
      }
  }

  lemma MoveIsQuiet(l: Ledger, i: nat, phase: Phase, stored: Option<Status>, j: nat)
    requires i < |l.transfers| && (phase == Debited ==> l.transfers[i].phase == Debited)
    ensures At(Move(l, i, phase, stored), j, Debited) ==>
              At(l, j, Debited) && Move(l, i, phase, stored).transfers[j].dto == l.transfers[j].dto
  {
  }

  lemma CheckIsQuiet(l: Ledger, t: Transfer, j: nat)
    requires t.phase != Debited
    ensures At(l.(transfers := l.transfers + [t]), j, Debited) ==> At(l, j, Debited) && (l.transfers + [t])[j] == l.transfers[j]
  {
  }

  /** Only the legs change balances, and only a debit takes a transfer between its legs. */
  lemma QuietStep(l: Ledger, e: Event, j: nat)
    requires !e.Debit? && !e.Credit?
    ensures Step(l, e).balances == l.balances
    ensures At(Step(l, e), j, Debited) ==> At(l, j, Debited) && Step(l, e).transfers[j].dto == l.transfers[j].dto
  {
    match e
    case Check(dto, terms, deactivated, readOk) =>
      var p := Preflight(l.balances, dto, terms, deactivated, readOk);
      CheckIsQuiet(l, Transfer(dto, if p.Some? then Refused(p.value) else Checked, None), j);
    case Persist(i, ok) =>
      if At(l, i, Checked) { MoveIsQuiet(l, i, if ok then Stored else Refused(NotSaved), if ok then Some(Pending) else None, j); }
    case Number(i, ok) =>
      if At(l, i, Stored) { MoveIsQuiet(l, i, if ok then Numbered else NotNumbered, if ok then Some(Pending) else l.transfers[i].stored, j); }
    case Confirm(i, ok) =>
      if At(l, i, Credited) {
        MoveIsQuiet(l, i, if ok then Confirmed else StoppedAfterCredit, if ok then Some(Completed) else l.transfers[i].stored, j);
      }
    case SeePending(_) =>
    case Overwrite(i, status) => if i < |l.transfers| { MoveIsQuiet(l, i, l.transfers[i].phase, Some(status), j); }
  }

  /** A transfer of at least half a cent that is not yet debited. */
  ghost predicate Waits(l: Ledger, i: nat) {
    i < |l.transfers| && !DebitApplied(l.transfers[i].phase) && l.transfers[i].dto.amount >= 0.5
  }

  lemma WaitsOn(l: Ledger, e: Event, i: nat)
    requires Healthy(l) && Waits(l, i) && Dry(l, l.transfers[i].dto.Currency())
    ensures Waits(Step(l, e), i) && Step(l, e).transfers[i].dto == l.transfers[i].dto
  {
    StepGoesOnward(l, e, i);
    if e.Debit? && e.i == i && At(l, i, Numbered) {
      NothingToTake(l.balances, l.transfers[i].dto.SenderKey(), l.transfers[i].dto.amount, e.fault);
    }
  }

  lemma {:induction false} DryRun(init: Balances, l: Ledger, events: seq<Event>, i: nat)
    requires Inv(init, l) && Waits(l, i) && Dry(l, l.transfers[i].dto.Currency())
    ensures var m := Run(l, events);
            Inv(init, m) && Waits(m, i) && m.transfers[i].dto == l.transfers[i].dto && Dry(m, m.transfers[i].dto.Currency())
    decreases |events|
  {
    if events != [] {
      var before, e := events[..|events| - 1], events[|events| - 1];
      DryRun(init, l, before, i);
      var m := Run(l, before);
      StepKeepsInv(init, m, e);
      WaitsOn(m, e, i);
      DryStays(m, e, m.transfers[i].dto.Currency());
    }
  }

  lemma SettledNeverMoves(init: Balances, l: Ledger, i: nat)
    requires Inv(init, l) && i < |l.transfers| && l.transfers[i].stored.Some? && Settled(l, i)
    ensures NeverMoves(l, i)
  {
    var t := l.transfers[i];
    forall events: seq<Event>, k: WalletKey ensures EffectIn(Run(l, events), i, k) == 0 {
      RunGoesOnward(l, events, i);
      if !t.phase.Refused? { CentsOf(t.dto.amount); }
      if Waits(l, i) && Dry(l, t.dto.Currency()) { DryRun(init, l, events, i); }
    }
  }

  // ---------------------------------------------------------------- any other can

  ghost predicate Reaches(l: Ledger, m: Ledger) {
    exists events: seq<Event> :: Run(l, events) == m
  }

  lemma ReachesStep(l: Ledger, m: Ledger, e: Event)
    requires Reaches(l, m)
    ensures Reaches(l, Step(m, e))
  {
    var events: seq<Event> :| Run(l, events) == m;
    assert (events + [e])[..|events|] == events;
    assert Run(l, events + [e]) == Step(m, e);
  }

  lemma ReachedEffect(l: Ledger, m: Ledger, i: nat, k: WalletKey)
    requires Reaches(l, m) && EffectIn(m, i, k) != 0
    ensures !NeverMoves(l, i)
  {
    var events: seq<Event> :| Run(l, events) == m;
    assert EffectIn(Run(l, events), i, k) != 0;
  }

  lemma ReachesThree(l: Ledger, m: Ledger, e1: Event, e2: Event, e3: Event)
    requires Reaches(l, m)
    ensures Reaches(l, Step(Step(Step(m, e1), e2), e3))
  {
    ReachesStep(l, m, e1);
    ReachesStep(l, Step(m, e1), e2);
    ReachesStep(l, Step(Step(m, e1), e2), e3);
  }

  /** m follows on l, and transfer i is where it was. */
  ghost predicate Beside(l: Ledger, m: Ledger, i: nat) {
    Reaches(l, m) && i < |l.transfers| && i < |m.transfers| && m.transfers[i] == l.transfers[i] && NonNegative(m.balances)
  }

  lemma Record(l: Ledger, m: Ledger, dto: TransferDto, i: nat) returns (m': Ledger)
    requires Beside(l, m, i) && Allowed(m.balances, dto)
    ensures Reaches(l, m') && m' == m.(transfers := m.transfers + [Transfer(dto, Numbered, Some(Pending))])
  {
    var j := |m.transfers|;
    m' := Recorded(m, j, dto, true, false, true, GOOD);
    RecordedAll(m, dto);
    ReachesThree(l, m, Check(dto, true, false, true), Persist(j, true), Number(j, true));
  }

  lemma Complete(l: Ledger, m: Ledger, j: nat) returns (m': Ledger)
    requires Reaches(l, m) && At(m, j, Numbered) && Allowed(m.balances, m.transfers[j].dto)
    ensures Reaches(l, m') && NonNegative(m'.balances)
    ensures var dto := m.transfers[j].dto;
            && m'.transfers == m.transfers[j := Transfer(dto, Confirmed, Some(Completed))]
            && Bal(m'.balances, dto.SenderKey()) == Bal(m.balances, dto.SenderKey()) - DebitCents(dto.amount)
            && Bal(m'.balances, dto.ReceiverKey()) == Bal(m.balances, dto.ReceiverKey()) + CreditCents(dto.amount)
  {
    m' := Moved(m, j, GOOD);
    MovedAll(m, j, m.transfers[j].dto.SenderKey());
    MovedAll(m, j, m.transfers[j].dto.ReceiverKey());
    ReachesThree(l, m, Debit(j, NoFault), Credit(j, NoFault), Confirm(j, true));
  }

  /** One cent is enough to give another account any number of cents, half a cent at a time. */
  lemma {:induction false} Fund(l: Ledger, m: Ledger, dto: TransferDto, n: nat, i: nat) returns (m': Ledger)
    requires Beside(l, m, i) && Allowed(m.balances, dto) && dto.amount == 0.5
    ensures Beside(l, m', i) && Allowed(m'.balances, dto) && Bal(m'.balances, dto.ReceiverKey()) >= n
    decreases n
  {
    if n == 0 {
      m' := m;
    } else {
      var m0 := Fund(l, m, dto, n - 1, i);
      var m1 := Record(l, m0, dto, i);
      m' := Complete(l, m1, |m0.transfers|);
      HalfCent();
      AllowedAgain(m0.balances, m'.balances, dto);
    }
  }

  /** A wallet of the currency that has a cent, now or once a credit under way has gone through. */
  lemma FindCent(l: Ledger, i: nat) returns (m: Ledger, k: WalletKey)
    requires Healthy(l) && i < |l.transfers| && l.transfers[i].phase in {Stored, Numbered}
    requires !Dry(l, l.transfers[i].dto.Currency())
    ensures Beside(l, m, i) && k.currency == l.transfers[i].dto.Currency() && Bal(m.balances, k) >= 1
  {
    var currency := l.transfers[i].dto.Currency();
    assert Run(l, []) == l;
    if k0: WalletKey :| k0.currency == currency && Bal(l.balances, k0) != 0 {
      m, k := l, k0;
    } else {
      var j: nat :| At(l, j, Debited) && l.transfers[j].dto.Currency() == currency && CreditCents(l.transfers[j].dto.amount) != 0;
      var a := l.transfers[j].dto.amount;
      m, k := Step(l, Credit(j, NoFault)), l.transfers[j].dto.ReceiverKey();
      ReachesStep(l, l, Credit(j, NoFault));
      CentsOf(a);
      AppliedEffect(l.balances, k, a);
      LegMoves(l.balances, k, a, NoFault);
      assert MovedBy(l.balances, m.balances, k, CreditCents(a));
    }
  }

  /** While there is a cent of its currency, the sender of a waiting transfer can come to have the amount. */
  lemma FundSender(l: Ledger, i: nat) returns (m: Ledger)
    requires Healthy(l) && i < |l.transfers| && l.transfers[i].phase in {Stored, Numbered}
    requires !Dry(l, l.transfers[i].dto.Currency())
    ensures Beside(l, m, i) && Bal(m.balances, l.transfers[i].dto.SenderKey()) as real >= l.transfers[i].dto.amount
  {
    var dto := l.transfers[i].dto;
    var k: WalletKey;
    m, k := FindCent(l, i);
    var from := k.account;
    assert k == WalletKey(from, dto.Currency());
    if from == dto.senderId {
      from := dto.receiverId;
      m := Fund(l, m, TransferDto(dto.senderId, dto.receiverId, 0.5, dto.currency), 1, i);
    }
    m := Fund(l, m, TransferDto(from, dto.senderId, 0.5, dto.currency), dto.amount.Floor + 1, i);
  }

  lemma CreditedHasMoved(l: Ledger, m: Ledger, i: nat)
    requires Reaches(l, m) && i < |m.transfers| && Sound(m.transfers[i]) && CreditApplied(m.transfers[i].phase)
    requires m.transfers[i].dto.amount >= 0.5
    ensures !NeverMoves(l, i)
  {
    CentsOf(m.transfers[i].dto.amount);
    ReachedEffect(l, m, i, m.transfers[i].dto.ReceiverKey());
  }

  lemma DebitedCanMove(l: Ledger, m: Ledger, i: nat)
    requires Reaches(l, m) && NonNegative(m.balances) && At(m, i, Debited) && Sound(m.transfers[i])
    requires m.transfers[i].dto.amount >= 0.5
    ensures !NeverMoves(l, i)
  {
    var dto := m.transfers[i].dto;
    AppliedEffect(m.balances, dto.ReceiverKey(), dto.amount);
    ReachesStep(l, m, Credit(i, NoFault));
    CreditedHasMoved(l, Step(m, Credit(i, NoFault)), i);
  }

  lemma NumberedCanMove(l: Ledger, m: Ledger, i: nat)
    requires Reaches(l, m) && NonNegative(m.balances) && At(m, i, Numbered) && Sound(m.transfers[i])
    requires m.transfers[i].dto.amount >= 0.5 && Bal(m.balances, m.transfers[i].dto.SenderKey()) as real >= m.transfers[i].dto.amount
    ensures !NeverMoves(l, i)
  {
    var dto := m.transfers[i].dto;
    LegsOfTransfer(m.balances, dto.SenderKey(), dto.ReceiverKey(), dto.amount);
    ReachesStep(l, m, Debit(i, NoFault));
    DebitedCanMove(l, Step(m, Debit(i, NoFault)), i);
  }

  lemma UnsettledCanMove(l: Ledger, i: nat)
    requires Healthy(l) && i < |l.transfers| && l.transfers[i].stored.Some? && !Settled(l, i)
    ensures !NeverMoves(l, i)
  {
    var t := l.transfers[i];
    assert Run(l, []) == l;
    if t.phase in {Stored, Numbered} {
      var m := FundSender(l, i);
      if t.phase == Stored {
        ReachesStep(l, m, Number(i, true));
        m := Step(m, Number(i, true));
      }
      NumberedCanMove(l, m, i);
    } else if t.phase == Debited {
      DebitedCanMove(l, l, i);
    } else if CreditApplied(t.phase) {
      CreditedHasMoved(l, l, i);
    } else {
      CentsOf(t.dto.amount);
      ReachedEffect(l, l, i, t.dto.SenderKey());
    }
  }

  // ---------------------------------------------------------------- when a swept row tells the truth

  /** A sweep of row i is enabled: the row was read as PENDING, and the write is still to come. */
  ghost predicate Sweepable(init: Balances, before: seq<Event>, i: nat, status: Status) {
    NonNegative(init) && i in Run(Start(init), before).seen && status in {Failed, Cancelled}
  }

  /** A transfer with a row never moves money, whatever else happens, if and only if it has settled. */
  lemma SettledExactly(init: Balances, l: Ledger, i: nat)
    requires Inv(init, l) && i < |l.transfers| && l.transfers[i].stored.Some?
    ensures NeverMoves(l, i) <==> Settled(l, i)
  {
    if Settled(l, i) { SettledNeverMoves(init, l, i); } else { UnsettledCanMove(l, i); }
  }

  lemma SameDry(l: Ledger, m: Ledger, currency: string)
    requires m.balances == l.balances && |m.transfers| == |l.transfers|
    requires forall j :: 0 <= j < |l.transfers| ==> m.transfers[j].dto == l.transfers[j].dto && m.transfers[j].phase == l.transfers[j].phase
    ensures Dry(m, currency) <==> Dry(l, currency)
  {
    assert forall j: nat :: At(m, j, Debited) <==> At(l, j, Debited);
  }

  lemma OverwriteSettles(init: Balances, l: Ledger, i: nat, status: Status)
    requires Inv(init, l) && i in l.seen && i < |l.transfers| && status in {Failed, Cancelled}
    ensures var m := Step(l, Overwrite(i, status));
            m.transfers[i].stored == Some(status) && (NeverMoves(m, i) <==> Settled(l, i))
  {
    var m := Step(l, Overwrite(i, status));
    StepKeepsInv(init, l, Overwrite(i, status));
    assert m.transfers == l.transfers[i := l.transfers[i].(stored := Some(status))] && m.balances == l.balances;
    SameDry(l, m, l.transfers[i].dto.Currency());
    SettledExactly(init, m, i);
  }

  /** When a sweep overwrites a row with FAILED or CANCELLED, in any reachable ledger, the row tells the truth, no money of it has moved
      or ever will, if and only if the transfer had settled. */
  lemma SweptRowIsHonest(init: Balances, before: seq<Event>, i: nat, status: Status)
    requires Sweepable(init, before, i, status) && i < |Run(Start(init), before).transfers|
    ensures var l := Run(Start(init), before);
            && Step(l, Overwrite(i, status)).transfers[i].stored == Some(status)
            && (NeverMoves(Step(l, Overwrite(i, status)), i) <==> Settled(l, i))
  {
    RunKeepsInv(init, before);
    OverwriteSettles(init, Run(Start(init), before), i, status);
  }
}
