/** Conservation of money over transfers, withdrawals, swaps and reversals that interleave in any way. */
module Conservation {
  import opened Common
  import opened Wallets
  import opened Operations
  import Transfers

  function HalfCent(a: real): int {
    If(SubCent(a) == 0.5, 1)
  }

  /** What an operation has added to a currency as a whole. Done or undone, a transfer, a withdrawal given back and a swap given back
      add nothing but the half cent; between its legs a transfer has taken its debit; a reversal is both its legs. */
  function Net(op: Op, currency: string): int {
    match op
    case Transfer(sender, _, amount, at) =>
      if sender.currency != currency then 0
      else if Transfers.CreditApplied(at) then HalfCent(amount)
      else if Transfers.DebitApplied(at) then -DebitCents(amount)
      else 0
    case Withdrawal(k, _, total, w) =>
      if k.currency != currency then 0
      else if w == WRefunded then HalfCent(total)
      else if WDebitedBy(w) then -DebitCents(total)
      else 0
    case Swap(from, to, _, total, toAmount, p, _, credits) =>
      (if from.currency != currency then 0
       else if p == SRefunded then HalfCent(total)
       else if SDebitedBy(p) then -DebitCents(total)
       else 0)
      + If(to.currency == currency, Times(credits, CreditCents(toAmount)))
    case Reversal(_, s, r, amount, v) =>
      If(s.currency == currency && RFirstBy(v), CreditCents(amount)) - If(r.currency == currency && RMovedBy(v), DebitCents(amount))
  }

  function Nets(ops: seq<Op>, currency: string): int {
    if ops == [] then 0 else Nets(ops[..|ops| - 1], currency) + Net(ops[|ops| - 1], currency)
  }

  ghost predicate Touches(op: Op, accounts: seq<string>) {
    Legs(op).0.k.account in accounts && Legs(op).1.k.account in accounts && Legs(op).2.k.account in accounts
  }

  function OpTotal(op: Op, accounts: seq<string>, currency: string): int {
    if accounts == [] then 0 else
      OpTotal(op, accounts[..|accounts| - 1], currency) + Effect(op, WalletKey(accounts[|accounts| - 1], currency))
  }

  function OpsTotal(ops: seq<Op>, accounts: seq<string>, currency: string): int {
    if accounts == [] then 0 else
      OpsTotal(ops, accounts[..|accounts| - 1], currency) + Effects(ops, WalletKey(accounts[|accounts| - 1], currency))
  }

  function InCurrency(m: Move, accounts: seq<string>, currency: string): int {
    If(m.k.currency == currency && m.k.account in accounts, m.cents)
  }

  lemma {:induction false} OpTotalValue(op: Op, accounts: seq<string>, currency: string)
    requires NoDuplicates(accounts)
    ensures OpTotal(op, accounts, currency)
            == InCurrency(Legs(op).0, accounts, currency) + InCurrency(Legs(op).1, accounts, currency)
               + InCurrency(Legs(op).2, accounts, currency)
  {
    if accounts != [] {
      var before, last := accounts[..|accounts| - 1], accounts[|accounts| - 1];
      OpTotalValue(op, before, currency);
      assert accounts == before + [last] && last !in before;
      OneAccountMore(Legs(op).0, before, last, currency);
      OneAccountMore(Legs(op).1, before, last, currency);
      OneAccountMore(Legs(op).2, before, last, currency);
    }
  }

  lemma OneAccountMore(m: Move, before: seq<string>, last: string, currency: string)
    requires last !in before
    ensures InCurrency(m, before + [last], currency) == InCurrency(m, before, currency) + Share(m, WalletKey(last, currency))
  {
    assert m.k == WalletKey(last, currency) <==> m.k.account == last && m.k.currency == currency;
  }

  lemma Halves(a: real)
    ensures CreditCents(-a) == -DebitCents(a) && CreditCents(a) == DebitCents(a) + HalfCent(a)
  {
    CentsSign(a);
  }

  lemma NetOfTransfer(op: Op, accounts: seq<string>, currency: string)
    requires op.Transfer? && Touches(op, accounts)
    ensures InCurrency(Legs(op).0, accounts, currency) + InCurrency(Legs(op).1, accounts, currency)
            + InCurrency(Legs(op).2, accounts, currency) == Net(op, currency)
  {
    Halves(op.sent);
  }

  lemma NetIsTotal(op: Op, accounts: seq<string>, currency: string)
    requires NoDuplicates(accounts) && Touches(op, accounts)
    ensures OpTotal(op, accounts, currency) == Net(op, currency)
  {
    OpTotalValue(op, accounts, currency);
    match op
    case Transfer(_, _, _, _) => NetOfTransfer(op, accounts, currency);
    case Withdrawal(_, _, total, _) => Halves(total);
    case Swap(_, _, _, total, _, _, _, _) => Halves(total);
    case Reversal(_, _, _, amount, _) => Halves(amount);
  }

  lemma {:induction false} OpsTotalSplits(ops: seq<Op>, accounts: seq<string>, currency: string)
    ensures ops == [] ==> OpsTotal(ops, accounts, currency) == 0
    ensures ops != [] ==>
              OpsTotal(ops, accounts, currency)
              == OpsTotal(ops[..|ops| - 1], accounts, currency) + OpTotal(ops[|ops| - 1], accounts, currency)
  {
    if accounts != [] { OpsTotalSplits(ops, accounts[..|accounts| - 1], currency); }
  }

  lemma {:induction false} NetsAreTotal(ops: seq<Op>, accounts: seq<string>, currency: string)
    requires NoDuplicates(accounts) && forall op :: op in ops ==> Touches(op, accounts)
    ensures OpsTotal(ops, accounts, currency) == Nets(ops, currency)
  {
    OpsTotalSplits(ops, accounts, currency);
    if ops != [] {
      assert forall op :: op in ops[..|ops| - 1] ==> op in ops;
      NetsAreTotal(ops[..|ops| - 1], accounts, currency);
      NetIsTotal(ops[|ops| - 1], accounts, currency);
    }
  }

  lemma {:induction false} TotalOfEffects(init: Balances, l: Ledger, accounts: seq<string>, currency: string)
    requires Inv(init, l)
    ensures Transfers.AccountsTotal(l.balances, accounts, currency)
            == Transfers.AccountsTotal(init, accounts, currency) + OpsTotal(l.ops, accounts, currency)
  {
    if accounts != [] { TotalOfEffects(init, l, accounts[..|accounts| - 1], currency); }
  }

  /** Conservation over every interleaving of all four kinds: the balances of a currency are the initial total plus what each
      operation has added to the currency. */
  lemma MoneyIsConserved(init: Balances, events: seq<Event>, accounts: seq<string>, currency: string)
    requires NonNegative(init) && NoDuplicates(accounts)
    requires forall op :: op in Run(Start(init), events).ops ==> Touches(op, accounts)
    ensures var l := Run(Start(init), events);
            Transfers.AccountsTotal(l.balances, accounts, currency)
            == Transfers.AccountsTotal(init, accounts, currency) + Nets(l.ops, currency)
  {
    InvFromAnyLedger(init, Start(init), events);
    TotalOfEffects(init, Run(Start(init), events), accounts, currency);
    NetsAreTotal(Run(Start(init), events).ops, accounts, currency);
  }
}
