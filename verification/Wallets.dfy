/** The wallet balance store: cent rounding, the non-negativity guard, and one independent database unit per adjustment.
    Amounts are real numbers of cents; stored balances are whole cents. */
module Wallets {
  import opened Common

  // ---------------------------------------------------------------- rounding

  /** big.js `toFixed(2)` on an amount in cents: nearest whole cent, halves away from zero. */
  function Round(x: real): int {
    if x >= 0.0 then (x + 0.5).Floor else -((-x + 0.5).Floor)
  }

  /** The part of an amount below one cent. */
  function SubCent(x: real): real {
    x - x.Floor as real
  }

  /** What a debit of a takes from a balance, in whole cents: an exact half cent is dropped. */
  function DebitCents(a: real): int {
    a.Floor + (if SubCent(a) > 0.5 then 1 else 0)
  }

  /** What a credit of a adds to a balance, in whole cents: an exact half cent becomes a cent. */
  function CreditCents(a: real): int {
    a.Floor + (if SubCent(a) >= 0.5 then 1 else 0)
  }

  /** Rounding is to the nearest cent, and a tie goes to the cent farther from zero. */
  lemma RoundIsNearest(x: real, n: int)
    ensures Round(x) == n <==>
            if x >= 0.0 then n as real - 0.5 <= x < n as real + 0.5
            else n as real - 0.5 < x <= n as real + 0.5
  {
    if x < 0.0 {
      var f := (-x + 0.5).Floor;
      assert f as real <= -x + 0.5 < f as real + 1.0;
    }
  }

  /** An adjustment is accepted exactly when the exact result is above minus half a cent. */
  lemma RoundNonNegative(x: real)
    ensures Round(x) >= 0 <==> x > -0.5
  {
    RoundIsNearest(x, Round(x));
  }

  /** An accepted debit of any amount, of either sign, takes exactly DebitCents from a non-negative balance. */
  lemma DebitEffect(b: int, a: real)
    requires b >= 0 && b as real - a > -0.5
    ensures Round(b as real - a) == b - DebitCents(a)
  {
    RoundIsNearest(b as real - a, b - DebitCents(a));
  }

  /** An accepted credit of any amount, of either sign, adds exactly CreditCents to a non-negative balance. */
  lemma CreditEffect(b: int, a: real)
    requires b >= 0 && b as real + a > -0.5
    ensures Round(b as real + a) == b + CreditCents(a)
  {
    RoundIsNearest(b as real + a, b + CreditCents(a));
  }

  /** A debit does not raise a balance exactly for amounts above minus half a cent, a credit does not lower it exactly for
      amounts from there on; and debiting an amount is crediting its opposite. */
  lemma CentsSign(a: real)
    ensures DebitCents(a) >= 0 <==> a > -0.5
    ensures CreditCents(a) >= 0 <==> a >= -0.5
    ensures DebitCents(a) == -CreditCents(-a)
  {
    assert a.Floor as real <= a < a.Floor as real + 1.0;
    assert (-a).Floor as real <= -a < (-a).Floor as real + 1.0;
  }

  /** A debit of t followed by a refund of t restores the balance, except that an exact half cent leaves one cent more. */
  lemma DebitThenRefund(b: int, t: real)
    requires b >= 0 && Round(b as real - t) >= 0
    ensures Round(Round(b as real - t) as real + t) == b + (if SubCent(t) == 0.5 then 1 else 0)
  {
    RoundNonNegative(b as real - t);
    DebitEffect(b, t);
    assert DebitCents(t) as real < t + 0.5;
    CreditEffect(b - DebitCents(t), t);
  }

  // ---------------------------------------------------------------- currencies and balances

  function IsSpace(c: char): bool {
    c == ' ' || c == '\t' || c == '\n' || c == '\r'
  }

  function TrimStart(s: string): string {
    if s != [] && IsSpace(s[0]) then TrimStart(s[1..]) else s
  }

  function TrimEnd(s: string): string {
    if s != [] && IsSpace(s[|s| - 1]) then TrimEnd(s[..|s| - 1]) else s
  }

  function NormalizeCurrencyCode(currency: string): string {
    Upper(TrimEnd(TrimStart(currency)))
  }

  const SUPPORTED_CURRENCIES: set<string> := {"USD", "EUR", "GBP", "NGN"}

  datatype WalletKey = WalletKey(account: string, currency: string)

  /** The committed rows of the wallet table; an absent row counts as zero. */
  type Balances = map<WalletKey, int>

  function Bal(b: Balances, k: WalletKey): int {
    if k in b then b[k] else 0
  }

  ghost predicate NonNegative(b: Balances) {
    forall k :: k in b ==> b[k] >= 0
  }

  datatype AdjustError = UnsupportedCurrency | InsufficientBalance | StorageFailure

  /** Where the storage layer fails during one unit, if anywhere. */
  datatype Fault = NoFault | ConnectFails | StartFails | FindFails | SaveFails | CommitFails

  /** The callback adjustBalance runs inside its unit: the rows it leaves in the unit and how it ends. */
  function AdjustUnit(b: Balances, k: WalletKey, delta: real, fault: Fault): (Balances, Result<int, AdjustError>) {
    if fault == FindFails then (b, Err(StorageFailure)) else
      var newBalance := Round(Bal(b, k) as real + delta);
      if newBalance < 0 then (b, Err(InsufficientBalance))
      else if fault == SaveFails then (b, Err(StorageFailure))
      else (b[k := newBalance], Ok(newBalance))
  }

  /** The rows after one adjustment that the storage layer carries through, or None when it is refused. */
  function Applied(b: Balances, k: WalletKey, delta: real): Option<Balances> {
    if delta == 0.0 then Some(b)
    else if Round(Bal(b, k) as real + delta) < 0 then None
    else Some(b[k := Round(Bal(b, k) as real + delta)])
  }

  /** One whole call of adjustBalance: the committed rows after it, or None when it throws. */
  function Leg(b: Balances, k: WalletKey, delta: real, fault: Fault): Option<Balances> {
    if k.currency !in SUPPORTED_CURRENCIES then None
    else if delta == 0.0 then if fault == FindFails then None else Some(b)
    else if fault == NoFault then Applied(b, k, delta)
    else None
  }

  /** An accepted adjustment, of either sign, moves the one balance by the credit or debit cents and leaves every other alone;
      it is accepted exactly when the exact result is above minus half a cent. */
  lemma AppliedEffect(b: Balances, k: WalletKey, a: real)
    requires NonNegative(b)
    ensures Applied(b, k, -a).Some? <==> Bal(b, k) as real - a > -0.5
    ensures Applied(b, k, -a).Some? ==>
              NonNegative(Applied(b, k, -a).value) &&
              forall x :: Bal(Applied(b, k, -a).value, x) == Bal(b, x) - (if x == k then DebitCents(a) else 0)
    ensures Applied(b, k, a).Some? <==> Bal(b, k) as real + a > -0.5
    ensures Applied(b, k, a).Some? ==>
              NonNegative(Applied(b, k, a).value) &&
              forall x :: Bal(Applied(b, k, a).value, x) == Bal(b, x) + (if x == k then CreditCents(a) else 0)
  {
    RoundNonNegative(Bal(b, k) as real - a);
    RoundNonNegative(Bal(b, k) as real + a);
    if Bal(b, k) as real + a > -0.5 { CreditEffect(Bal(b, k), a); }
    if Bal(b, k) as real - a > -0.5 { DebitEffect(Bal(b, k), a); }
    assert -a + Bal(b, k) as real == Bal(b, k) as real - a;
  }

  /** The rows differ by n cents in one wallet. */
  ghost predicate MovedBy(b: Balances, c: Balances, k: WalletKey, n: int) {
    forall x {:trigger Bal(c, x)} :: Bal(c, x) == Bal(b, x) + (if x == k then n else 0)
  }

  /** A leg that goes through, of either sign, adds the credit cents of its amount to its own wallet. */
  lemma LegMoves(b: Balances, k: WalletKey, delta: real, fault: Fault)
    requires NonNegative(b) && Leg(b, k, delta, fault).Some?
    ensures NonNegative(Leg(b, k, delta, fault).value) && MovedBy(b, Leg(b, k, delta, fault).value, k, CreditCents(delta))
  {
    AppliedEffect(b, k, delta);
  }

  lemma DebitMoves(b: Balances, k: WalletKey, a: real, fault: Fault)
    requires NonNegative(b) && Leg(b, k, -a, fault).Some?
    ensures NonNegative(Leg(b, k, -a, fault).value) && MovedBy(b, Leg(b, k, -a, fault).value, k, -DebitCents(a))
  {
    LegMoves(b, k, -a, fault);
    CentsSign(a);
  }

  /** What one call of adjustBalance does, for every amount and every fault. It goes through if and only if the currency is one of the
      four and, for a zero amount, the balance can be read, or, for any other, nothing fails and the exact result is above minus half a
      cent. A zero amount changes no row; any other writes the one row, with the exact result rounded to the nearest cent. */
  lemma LegExactly(b: Balances, k: WalletKey, delta: real, fault: Fault)
    ensures var held := if k in b then b[k] else 0;
            var leg := Leg(b, k, delta, fault);
            && (leg.Some? <==>
                  && (k.currency == "USD" || k.currency == "EUR" || k.currency == "GBP" || k.currency == "NGN")
                  && (if delta == 0.0 then fault != FindFails else fault == NoFault && held as real + delta > -0.5))
            && (leg.Some? && delta == 0.0 ==> leg.value == b)
            && (leg.Some? && delta != 0.0 ==>
                  && k in leg.value && leg.value.Keys == b.Keys + {k} && (forall x :: x in b && x != k ==> leg.value[x] == b[x])
                  && (held >= 0 ==> leg.value[k] >= 0 && -0.5 <= leg.value[k] as real - (held as real + delta) <= 0.5))
  {
    var held := if k in b then b[k] else 0;
    RoundNonNegative(held as real + delta);
    RoundIsNearest(held as real + delta, Round(held as real + delta));
  }

  /** Spaces around a code and the case of its letters do not matter. */
  lemma NormalizeExactly(before: string, code: string, after: string)
    requires forall c :: c in before || c in after ==> c == ' ' || c == '\t' || c == '\n' || c == '\r'
    requires code != "" && code[0] !in {' ', '\t', '\n', '\r'} && code[|code| - 1] !in {' ', '\t', '\n', '\r'}
    ensures NormalizeCurrencyCode(before + code + after) == Upper(code)
  {
    TrimsStart(before, code + after);
    assert before + code + after == before + (code + after);
    TrimsEnd(code, after);
  }

  lemma {:induction false} TrimsStart(before: string, rest: string)
    requires (forall c :: c in before ==> IsSpace(c)) && rest != "" && !IsSpace(rest[0])
    ensures TrimStart(before + rest) == rest
  {
    if before == "" {
      assert before + rest == rest;
    } else {
      assert (before + rest)[1..] == before[1..] + rest;
      TrimsStart(before[1..], rest);
    }
  }

  lemma {:induction false} TrimsEnd(rest: string, after: string)
    requires (forall c :: c in after ==> IsSpace(c)) && rest != "" && !IsSpace(rest[|rest| - 1])
    ensures TrimEnd(rest + after) == rest
  {
    if after == "" {
      assert rest + after == rest;
    } else {
      assert (rest + after)[..|rest + after| - 1] == rest + after[..|after| - 1];
      TrimsEnd(rest, after[..|after| - 1]);
    }
  }

  // ---------------------------------------------------------------- long runs of adjustments of one wallet

  /** The rows after a list of adjustments, or None when one of them is refused. */
  function AppliedAll(b: Balances, k: WalletKey, deltas: seq<real>): Option<Balances> {
    if deltas == [] then Some(b) else
      match AppliedAll(b, k, deltas[..|deltas| - 1])
      case None => None
      case Some(c) => Applied(c, k, deltas[|deltas| - 1])
  }

  function ExactSum(deltas: seq<real>): real {
    if deltas == [] then 0.0 else ExactSum(deltas[..|deltas| - 1]) + deltas[|deltas| - 1]
  }

  /** After n accepted adjustments the balance is non-negative and within n half-cents of the exact sum. */
  lemma {:induction false} DriftBound(b: Balances, k: WalletKey, deltas: seq<real>)
    requires NonNegative(b) && AppliedAll(b, k, deltas).Some?
    ensures var c := AppliedAll(b, k, deltas).value;
            NonNegative(c) &&
            -(|deltas| as real) * 0.5 <= Bal(c, k) as real - (Bal(b, k) as real + ExactSum(deltas)) <= |deltas| as real * 0.5
  {
    if deltas != [] {
      var before := deltas[..|deltas| - 1];
      DriftBound(b, k, before);
      var x := Bal(AppliedAll(b, k, before).value, k) as real + deltas[|deltas| - 1];
      RoundIsNearest(x, Round(x));
    }
  }

  /** Whole-cent adjustments are exact. */
  lemma {:induction false} WholeCentsAreExact(b: Balances, k: WalletKey, deltas: seq<real>)
    requires AppliedAll(b, k, deltas).Some?
    requires forall d :: d in deltas ==> SubCent(d) == 0.0
    ensures Bal(AppliedAll(b, k, deltas).value, k) as real == Bal(b, k) as real + ExactSum(deltas)
  {
    if deltas != [] {
      var before := deltas[..|deltas| - 1];
      assert forall d :: d in before ==> d in deltas;
      WholeCentsAreExact(b, k, before);
      var n, d := Bal(AppliedAll(b, k, before).value, k), deltas[|deltas| - 1];
      assert d in deltas;
      RoundIsNearest(n as real + d, n + d.Floor);
    }
  }

  // ---------------------------------------------------------------- the classes

  /** A database whose tables are T; `tables` is what has been committed. */
  class Database<T> {
    var tables: T
    var openConnections: nat

    constructor (tables: T)
      ensures this.tables == tables && openConnections == 0
    {
      this.tables, openConnections := tables, 0;
    }

    /** Runs fn in a unit of its own. All of fn's writes take effect or none do; the connection is given back
        unless opening the transaction itself fails. */
    method WithTransaction<R, E>(fn: T -> (T, Result<R, E>), fault: Fault, storageError: E) returns (r: Result<R, E>)
      modifies this
      ensures r.Err? ==> tables == old(tables)
      ensures r.Ok? ==> fn(old(tables)) == (tables, r)
      ensures r == if fault in {ConnectFails, StartFails} then Err(storageError)
                   else if fn(old(tables)).1.Ok? && fault == CommitFails then Err(storageError)
                   else fn(old(tables)).1
      ensures openConnections == old(openConnections) + (if fault == StartFails then 1 else 0)
    {
      if fault == ConnectFails { return Err(storageError); }
      openConnections := openConnections + 1;
      if fault == StartFails { return Err(storageError); }
      var (staged, result) := fn(tables);
      if result.Err? {
        r := result;                       // rollback: the staged rows are dropped
      } else if fault == CommitFails {
        r := Err(storageError);            // rollback again
      } else {
        tables := staged;
        r := result;
      }
      openConnections := openConnections - 1;
    }
  }

  class WalletsService {
    const db: Database<Balances>

    constructor (db: Database<Balances>)
      ensures this.db == db
    {
      this.db := db;
    }

    /** Either the whole adjustment is committed or nothing changes, and each refusal has its own cause. */
    method AdjustBalance(account: string, currency: string, delta: real, fault: Fault)
      returns (r: Result<int, AdjustError>)
      modifies db
      ensures var k := WalletKey(account, NormalizeCurrencyCode(currency));
              && (r.Err? ==> db.tables == old(db.tables))
              && Leg(old(db.tables), k, delta, fault) == (if r.Ok? then Some(db.tables) else None)
              && (r.Ok? ==> r.value == if k in db.tables then db.tables[k] else 0)
              && (r == Err(UnsupportedCurrency) <==> k.currency !in SUPPORTED_CURRENCIES)
              && (r == Err(InsufficientBalance) <==>
                    k.currency in SUPPORTED_CURRENCIES && delta != 0.0 && fault !in {ConnectFails, StartFails, FindFails}
                    && Applied(old(db.tables), k, delta).None?)
      ensures old(NonNegative(db.tables)) ==> NonNegative(db.tables)
    {
      var k := WalletKey(account, NormalizeCurrencyCode(currency));
      if k.currency !in SUPPORTED_CURRENCIES { return Err(UnsupportedCurrency); }
      if delta == 0.0 {
        r := if fault == FindFails then Err(StorageFailure) else Ok(Bal(db.tables, k));
        return;
      }
      r := db.WithTransaction(b => AdjustUnit(b, k, delta, fault), fault, StorageFailure);
    }

    /** readOk: whether the query goes through. */
    method GetBalance(account: string, currency: string, readOk: bool) returns (r: Result<int, AdjustError>)
      ensures var k := WalletKey(account, NormalizeCurrencyCode(currency));
              && (r == Err(UnsupportedCurrency) <==> k.currency !in SUPPORTED_CURRENCIES)
              && (r.Ok? <==> k.currency in SUPPORTED_CURRENCIES && readOk)
              && r != Err(InsufficientBalance)
              && (r.Ok? ==> r.value == if k in db.tables then db.tables[k] else 0)
    {
      var k := WalletKey(account, NormalizeCurrencyCode(currency));
      if k.currency !in SUPPORTED_CURRENCIES { return Err(UnsupportedCurrency); }
      if !readOk { return Err(StorageFailure); }
      r := Ok(Bal(db.tables, k));
    }
  }
}
