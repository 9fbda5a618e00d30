/** What each step of a transfer does, and what an uninterrupted call answers, cause by cause, in terms of its inputs. */
module TransferAnswers {
  import opened Common
  import opened Wallets
  import opened Transfers

  // ---------------------------------------------------------------- the guards

  /** The answer of the check, cause by cause: terms, deactivation, sign, parties, currency, the read, the balance. Whatever it answers,
      it adds one transfer without a row and changes nothing else. */
  lemma CheckExactly(l: Ledger, dto: TransferDto, terms: bool, deactivated: bool, readOk: bool)
    ensures var m := Step(l, Check(dto, terms, deactivated, readOk));
            |m.transfers| == |l.transfers| + 1 &&
            var t := m.transfers[|l.transfers|];
            var (user, sums, parties) := (terms && !deactivated, dto.amount > 0.0, dto.senderId != dto.receiverId);
            var known := NormalizeCurrencyCode(dto.currency) in SUPPORTED_CURRENCIES;
            var enough := Bal(l.balances, WalletKey(dto.senderId, NormalizeCurrencyCode(dto.currency))) as real >= dto.amount;
            && m == l.(transfers := l.transfers + [t]) && t.dto == dto && t.stored.None?
            && (t.phase == Refused(TermsNotAccepted) <==> !terms)
            && (t.phase == Refused(Deactivated) <==> terms && deactivated)
            && (t.phase == Refused(NotPositive) <==> user && !sums)
            && (t.phase == Refused(SameParty) <==> user && sums && !parties)
            && (t.phase == Refused(CurrencyNotSupported) <==> user && sums && parties && !known)
            && (t.phase == Refused(BalanceUnread) <==> user && sums && parties && known && !readOk)
            && (t.phase == Refused(Insufficient) <==> user && sums && parties && known && readOk && !enough)
            && (t.phase == Checked <==> user && sums && parties && known && readOk && enough)
  {
  }

  // ---------------------------------------------------------------- the writes, the legs, the sweeps

  /** Transfer i becomes t, and nothing else changes but the balances. */
  ghost predicate Only(l: Ledger, m: Ledger, i: nat, t: Transfer) {
    i < |l.transfers| && m == Ledger(m.balances, l.transfers[i := t], l.seen)
  }

  /** A write moves a transfer that waits for it, by whether it goes through, and changes no other; and it changes no balance. */
  lemma WritesExactly(l: Ledger, i: nat, ok: bool)
    requires i < |l.transfers|
    ensures var t := l.transfers[i];
            && (t.phase == Checked ==>
                  Only(l, Step(l, Persist(i, ok)), i, if ok then Transfer(t.dto, Stored, Some(Pending)) else Transfer(t.dto, Refused(NotSaved), None)))
            && (t.phase == Stored ==>
                  Only(l, Step(l, Number(i, ok)), i, if ok then Transfer(t.dto, Numbered, Some(Pending)) else Transfer(t.dto, NotNumbered, t.stored)))
            && (t.phase == Credited ==>
                  Only(l, Step(l, Confirm(i, ok)), i,
                       if ok then Transfer(t.dto, Confirmed, Some(Completed)) else Transfer(t.dto, StoppedAfterCredit, t.stored)))
            && (t.phase != Checked ==> Step(l, Persist(i, ok)) == l)
            && (t.phase != Stored ==> Step(l, Number(i, ok)) == l)
            && (t.phase != Credited ==> Step(l, Confirm(i, ok)) == l)
    ensures Step(l, Persist(i, ok)).balances == Step(l, Number(i, ok)).balances == Step(l, Confirm(i, ok)).balances == l.balances
  {
  }

  /** The debit goes through if and only if nothing fails and the balance then leaves at least minus half a cent; the credit, of a
      positive amount, if and only if nothing fails. Neither runs for a transfer that does not wait for it. */
  lemma LegsExactly(l: Ledger, i: nat, fault: Fault)
    requires i < |l.transfers| && NonNegative(l.balances) && l.transfers[i].dto.amount > 0.0
    requires l.transfers[i].phase in {Numbered, Debited} ==> l.transfers[i].dto.Currency() in SUPPORTED_CURRENCIES
    ensures var t := l.transfers[i];
            var enough := Bal(l.balances, WalletKey(t.dto.senderId, NormalizeCurrencyCode(t.dto.currency))) as real - t.dto.amount > -0.5;
            var (d, c) := (Step(l, Debit(i, fault)), Step(l, Credit(i, fault)));
            && (t.phase == Numbered ==> Only(l, d, i, t.(phase := if fault == NoFault && enough then Debited else StoppedBeforeDebit)))
            && (t.phase == Debited ==> Only(l, c, i, t.(phase := if fault == NoFault then Credited else StoppedBetween)))
            && (d.balances != l.balances ==> t.phase == Numbered && fault == NoFault && enough)
            && (c.balances != l.balances ==> t.phase == Debited && fault == NoFault)
            && (t.phase != Numbered ==> d == l) && (t.phase != Debited ==> c == l)
  {
    var dto := l.transfers[i].dto;
    AppliedEffect(l.balances, dto.SenderKey(), dto.amount);
    AppliedEffect(l.balances, dto.ReceiverKey(), dto.amount);
  }

  /** A row is noted if and only if it is PENDING when it is read; it is then overwritten once for each time it was noted, by FAILED or
      CANCELLED and whatever it has become. Neither moves money or touches another row. */
  lemma SweepsExactly(l: Ledger, i: nat, status: Status)
    requires i < |l.transfers|
    ensures Step(l, SeePending(i)) == if l.transfers[i].stored == Some(Pending) then l.(seen := l.seen + multiset{i}) else l
    ensures Step(l, Overwrite(i, status))
            == if i in l.seen && (status == Failed || status == Cancelled)
               then l.(transfers := l.transfers[i := l.transfers[i].(stored := Some(status))], seen := l.seen - multiset{i})
               else l
  {
  }

  // ---------------------------------------------------------------- every run

  /** Event n of the run checked this request with every guard holding, and made transfer i of it. */
  ghost predicate CheckedAt(init: Balances, events: seq<Event>, n: nat, i: nat, dto: TransferDto) {
    n < |events| && events[n] == Check(dto, true, false, true) &&
    var l := Run(Start(init), events[..n]);
    && |l.transfers| == i && dto.amount > 0.0 && dto.senderId != dto.receiverId && NormalizeCurrencyCode(dto.currency) in SUPPORTED_CURRENCIES
    && Bal(l.balances, WalletKey(dto.senderId, NormalizeCurrencyCode(dto.currency))) as real >= dto.amount
  }

  ghost predicate PastCheck(p: Phase) {
    p.Refused? ==> p.error == NotSaved
  }

  lemma StepKeepsCheck(l: Ledger, e: Event, i: nat)
    requires i < |l.transfers|
    ensures i < |Step(l, e).transfers| && Step(l, e).transfers[i].dto == l.transfers[i].dto
    ensures PastCheck(Step(l, e).transfers[i].phase) <==> PastCheck(l.transfers[i].phase)
  {
  }

  lemma NewTransfer(l: Ledger, e: Event)
    ensures |l.transfers| <= |Step(l, e).transfers| <= |l.transfers| + (if e.Check? then 1 else 0)
  {
  }

  /** Over every run: a transfer that got past its check was checked with the terms accepted, the sender not deactivated, a positive
      amount, two parties, a known currency, and a balance of at least the amount at that moment. */
  lemma {:induction false} PastGuards(init: Balances, events: seq<Event>, i: nat)
    requires i < |Run(Start(init), events).transfers| && PastCheck(Run(Start(init), events).transfers[i].phase)
    ensures exists n: nat :: CheckedAt(init, events, n, i, Run(Start(init), events).transfers[i].dto)
  {
    var before, e := events[..|events| - 1], events[|events| - 1];
    var l := Run(Start(init), before);
    NewTransfer(l, e);
    if i < |l.transfers| {
      StepKeepsCheck(l, e, i);
      PastGuards(init, before, i);
      var n: nat :| CheckedAt(init, before, n, i, l.transfers[i].dto);
      assert before[..n] == events[..n];
      assert CheckedAt(init, events, n, i, l.transfers[i].dto);
    } else {
      CheckExactly(l, e.dto, e.termsAccepted, e.deactivated, e.readOk);
      assert CheckedAt(init, events, |before|, i, e.dto);
    }
  }

  // ---------------------------------------------------------------- one uninterrupted call

  /** A refused call hands back why, and nothing else happens. */
  lemma RefusedCall(l: Ledger, dto: TransferDto, terms: bool, deactivated: bool, readOk: bool, f: TransferFaults)
    requires Step(l, Check(dto, terms, deactivated, readOk)).transfers[|l.transfers|].phase.Refused?
    ensures var t := Step(l, Check(dto, terms, deactivated, readOk)).transfers[|l.transfers|];
            && Called(l, dto, terms, deactivated, readOk, f) == l.(transfers := l.transfers + [t])
            && Returned(t) == Some(Err(t.phase.error))
  {
  }

  /** The first step that fails decides how a call past its guards ends, what its row says and what it answers. */
  ghost predicate EndsAs(t: Transfer, f: TransferFaults) {
    if !f.persistOk then t.phase == Refused(NotSaved) && t.stored == None && Returned(t) == Some(Err(NotSaved))
    else if !f.numberOk then t.phase == NotNumbered && t.stored == Some(Pending) && Returned(t) == Some(Err(NotSaved))
    else if f.debit != NoFault then t.phase == StoppedBeforeDebit && t.stored == Some(Pending) && Returned(t) == Some(Ok(Pending))
    else if f.credit != NoFault then t.phase == StoppedBetween && t.stored == Some(Pending) && Returned(t) == Some(Ok(Pending))
    else if !f.confirmOk then t.phase == StoppedAfterCredit && t.stored == Some(Pending) && Returned(t) == Some(Ok(Completed))
    else t.phase == Confirmed && t.stored == Some(Completed) && Returned(t) == Some(Ok(Completed))
  }

  /** An uninterrupted call of a request whose guards hold adds one transfer, which ends so. */
  lemma CallExactly(l: Ledger, dto: TransferDto, f: TransferFaults)
    requires NonNegative(l.balances) && dto.amount > 0.0 && dto.senderId != dto.receiverId && dto.Currency() in SUPPORTED_CURRENCIES
    requires Bal(l.balances, WalletKey(dto.senderId, NormalizeCurrencyCode(dto.currency))) as real >= dto.amount
    ensures exists t :: EndsAs(t, f) && t.dto == dto && Called(l, dto, true, false, true, f).transfers == l.transfers + [t]
    ensures Called(l, dto, true, false, true, f).seen == l.seen
  {
    var i := |l.transfers|;
    RecordedExactly(l, dto, f);
    if f.persistOk && f.numberOk {
      var l3 := l.(transfers := l.transfers + [Transfer(dto, Numbered, Some(Pending))]);
      LegsOfCall(l3, i, f);
      LegsEndAs(l, l3, dto, f);
    } else {
      var t := if !f.persistOk then Transfer(dto, Refused(NotSaved), None) else Transfer(dto, NotNumbered, Some(Pending));
      assert EndsAs(t, f);
    }
  }

  lemma LegsEndAs(l: Ledger, l3: Ledger, dto: TransferDto, f: TransferFaults)
    requires l3 == l.(transfers := l.transfers + [Transfer(dto, Numbered, Some(Pending))]) && f.persistOk && f.numberOk
    requires Allowed(l.balances, dto)
    ensures Moved(l3, |l.transfers|, f).seen == l.seen
    ensures exists t :: EndsAs(t, f) && t.dto == dto && Moved(l3, |l.transfers|, f).transfers == l.transfers + [t]
  {
    LegsOfCall(l3, |l.transfers|, f);
    var t := Moved(l3, |l.transfers|, f).transfers[|l.transfers|];
    assert EndsAs(t, f);
    assert Moved(l3, |l.transfers|, f).transfers == l.transfers + [t];
  }

  /** The record of a request past its guards: saved and numbered, or stopped at the write that fails. */
  lemma RecordedExactly(l: Ledger, dto: TransferDto, f: TransferFaults)
    requires Allowed(l.balances, dto)
    ensures Recorded(l, |l.transfers|, dto, true, false, true, f)
            == l.(transfers := l.transfers + [if !f.persistOk then Transfer(dto, Refused(NotSaved), None)
                                              else if !f.numberOk then Transfer(dto, NotNumbered, Some(Pending))
                                              else Transfer(dto, Numbered, Some(Pending))])
  {
    var i := |l.transfers|;
    var l1 := l.(transfers := l.transfers + [Transfer(dto, Checked, None)]);
    assert Step(l, Check(dto, true, false, true)) == l1;
    WritesExactly(l1, i, f.persistOk);
    var l2 := Step(l1, Persist(i, f.persistOk));
    WritesExactly(l2, i, f.numberOk);
  }

  lemma LegsOfCall(l: Ledger, i: nat, f: TransferFaults)
    requires At(l, i, Numbered) && Allowed(l.balances, l.transfers[i].dto)
    ensures var t := l.transfers[i];
            var (end, stored) := (if f.debit != NoFault then StoppedBeforeDebit else if f.credit != NoFault then StoppedBetween
                                  else if !f.confirmOk then StoppedAfterCredit else Confirmed,
                                  if f.debit == NoFault == f.credit && f.confirmOk then Some(Completed) else t.stored);
            Only(l, Moved(l, i, f), i, Transfer(t.dto, end, stored))
  {
    var dto := l.transfers[i].dto;
    LegsExactly(l, i, f.debit);
    var l1 := Step(l, Debit(i, f.debit));
    if f.debit == NoFault {
      DebitMoves(l.balances, dto.SenderKey(), dto.amount, NoFault);
      LegsExactly(l1, i, f.credit);
    }
    var l2 := Step(l1, Credit(i, f.credit));
    WritesExactly(l2, i, f.confirmOk);
  }
}
