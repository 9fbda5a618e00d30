/** Account statements over a fixed history of transactions and FX trades. A date is a count of milliseconds; amounts are exact.
    The status of a transaction plays no part: the queries do not look at it. */
module Statements {
  import opened Common
  import opened Sorting

  datatype Tx = Tx(senderId: string, receiverId: string, currency: string, amount: real, createdAt: int, reference: string)

  datatype Trade = Trade(id: string, userId: string, fromCurrency: string, toCurrency: string, fromAmount: real, toAmount: real,
                         executedAt: int)

  datatype History = History(txs: seq<Tx>, trades: seq<Trade>)

  datatype Source = Transaction | Fx

  datatype Line = Line(date: int, description: string, amount: real, reference: string, source: Source)

  datatype Statement = Statement(currency: string, openingBalance: real, closingBalance: real, lines: seq<Line>)

  const DATE_OF := (l: Line) => l.date
  const AMOUNT_OF := (l: Line) => l.amount
  const CREATED_AT := (t: Tx) => t.createdAt
  const EXECUTED_AT := (t: Trade) => t.executedAt

  // ---------------------------------------------------------------- the statement

  function Concerns(u: string, c: string): Tx -> bool { (t: Tx) => t.currency == c && (t.senderId == u || t.receiverId == u) }
  function TradesOf(u: string): Trade -> bool { (t: Trade) => t.userId == u }

  function TxText(t: Tx, u: string, described: bool): string {
    if !described then "" else if t.senderId == u then "Transfer to " + t.receiverId else "Transfer from " + t.senderId
  }

  function TradeText(t: Trade, described: bool): string {
    if described then "FX trade: " + t.fromCurrency + " -> " + t.toCurrency else ""
  }

  function TxLine(u: string, described: bool): Tx -> seq<Line> {
    (t: Tx) => [Line(t.createdAt, TxText(t, u, described), if t.senderId == u then -t.amount else t.amount, t.reference, Transaction)]
  }

  /** The line for the currency given and the line for the currency got, as far as they are in c. */
  function Sides(t: Trade, c: string, description: string): seq<Line> {
    var sold := if t.fromCurrency == c then [Line(t.executedAt, description, -t.fromAmount, t.id, Fx)] else [];
    if t.toCurrency == c then sold + [Line(t.executedAt, description, t.toAmount, t.id, Fx)] else sold
  }

  function TradeLines(c: string, described: bool): Trade -> seq<Line> {
    (t: Trade) => Sides(t, c, TradeText(t, described))
  }

  /** Every line of this user in this currency: transactions in order of creation, then trades in order of execution. */
  function AllLines(h: History, u: string, c: string, described: bool): seq<Line> {
    FlatMap(SortBy(Filter(h.txs, Concerns(u, c)), CREATED_AT), TxLine(u, described))
    + FlatMap(SortBy(Filter(h.trades, TradesOf(u)), EXECUTED_AT), TradeLines(c, described))
  }

  function InPeriod(from: int, to: int): Line -> bool { (l: Line) => from <= l.date <= to }
  function DatedBefore(t: int): Line -> bool { (l: Line) => l.date < t }

  /** The lines of a period, both ends included, merged by date. */
  function CollectLines(h: History, u: string, c: string, from: int, to: int): seq<Line> {
    SortBy(Filter(AllLines(h, u, c, true), InPeriod(from, to)), DATE_OF)
  }

  function BalanceBefore(h: History, u: string, c: string, before: int): real {
    Total(Filter(AllLines(h, u, c, false), DatedBefore(before)), AMOUNT_OF)
  }

  function BuildStatement(h: History, u: string, c: string, from: int, to: int): Statement {
    var lines := CollectLines(h, u, c, from, to);
    var opening := BalanceBefore(h, u, c, from);
    Statement(Upper(c), opening, opening + Total(lines, AMOUNT_OF), lines)
  }

  // ---------------------------------------------------------------- what the history says

  function Earlier(t: int): int -> bool { (d: int) => d < t }
  function Within(from: int, to: int): int -> bool { (d: int) => from <= d <= to }

  /** What one transaction moved for u in currency c, if its date is in the window. */
  function TxEffect(u: string, c: string, window: int -> bool): Tx -> real {
    (t: Tx) =>
      if t.currency != c || !window(t.createdAt) then 0.0
      else if t.senderId == u then -t.amount
      else if t.receiverId == u then t.amount
      else 0.0
  }

  function TradeEffect(u: string, c: string, window: int -> bool): Trade -> real {
    (t: Trade) =>
      if t.userId != u || !window(t.executedAt) then 0.0
      else (if t.toCurrency == c then t.toAmount else 0.0) - (if t.fromCurrency == c then t.fromAmount else 0.0)
  }

  /** The sum over both tables as they stand, in any order. */
  function Net(h: History, u: string, c: string, window: int -> bool): real {
    Total(h.txs, TxEffect(u, c, window)) + Total(h.trades, TradeEffect(u, c, window))
  }

  function AmountIn(window: int -> bool): Line -> real { (l: Line) => if window(l.date) then l.amount else 0.0 }

  function SenderEffect(u: string, window: int -> bool): Tx -> real {
    (t: Tx) => if !window(t.createdAt) then 0.0 else if t.senderId == u then -t.amount else t.amount
  }

  function TradeAmounts(c: string, window: int -> bool): Trade -> real {
    (t: Trade) =>
      if !window(t.executedAt) then 0.0
      else (if t.toCurrency == c then t.toAmount else 0.0) - (if t.fromCurrency == c then t.fromAmount else 0.0)
  }

  lemma {:induction false} TxLinesTotal(txs: seq<Tx>, u: string, c: string, described: bool, window: int -> bool)
    ensures Total(FlatMap(SortBy(Filter(txs, Concerns(u, c)), CREATED_AT), TxLine(u, described)), AmountIn(window))
            == Total(txs, TxEffect(u, c, window))
  {
    var mine := Filter(txs, Concerns(u, c));
    forall t ensures SenderEffect(u, window)(t) == Total(TxLine(u, described)(t), AmountIn(window)) {
      assert TxLine(u, described)(t)[..0] == [];
    }
    TotalFlatMap(SortBy(mine, CREATED_AT), TxLine(u, described), AmountIn(window), SenderEffect(u, window));
    TotalSort(mine, CREATED_AT, SenderEffect(u, window));
    TotalFilter(txs, Concerns(u, c), SenderEffect(u, window), TxEffect(u, c, window));
  }

  lemma SidesAmount(t: Trade, c: string, description: string, window: int -> bool)
    ensures Total(Sides(t, c, description), AmountIn(window)) == TradeAmounts(c, window)(t)
  {
    var v := AmountIn(window);
    var out := Line(t.executedAt, description, -t.fromAmount, t.id, Fx);
    var into := Line(t.executedAt, description, t.toAmount, t.id, Fx);
    TotalOne(out, v);
    TotalOne(into, v);
    TotalConcat([out], [into], v);
    assert Sides(t, c, description) == (if t.fromCurrency == c then [out] else []) + (if t.toCurrency == c then [into] else []);
  }

  lemma {:induction false} TradeLinesTotal(trades: seq<Trade>, u: string, c: string, described: bool, window: int -> bool)
    ensures Total(FlatMap(SortBy(Filter(trades, TradesOf(u)), EXECUTED_AT), TradeLines(c, described)), AmountIn(window))
            == Total(trades, TradeEffect(u, c, window))
  {
    var mine := Filter(trades, TradesOf(u));
    forall t ensures TradeAmounts(c, window)(t) == Total(TradeLines(c, described)(t), AmountIn(window)) {
      SidesAmount(t, c, TradeText(t, described), window);
    }
    TotalFlatMap(SortBy(mine, EXECUTED_AT), TradeLines(c, described), AmountIn(window), TradeAmounts(c, window));
    TotalSort(mine, EXECUTED_AT, TradeAmounts(c, window));
    TotalFilter(trades, TradesOf(u), TradeAmounts(c, window), TradeEffect(u, c, window));
  }

  lemma LinesTotal(h: History, u: string, c: string, described: bool, window: int -> bool)
    ensures Total(AllLines(h, u, c, described), AmountIn(window)) == Net(h, u, c, window)
  {
    TxLinesTotal(h.txs, u, c, described, window);
    TradeLinesTotal(h.trades, u, c, described, window);
    TotalConcat(FlatMap(SortBy(Filter(h.txs, Concerns(u, c)), CREATED_AT), TxLine(u, described)),
                FlatMap(SortBy(Filter(h.trades, TradesOf(u)), EXECUTED_AT), TradeLines(c, described)), AmountIn(window));
  }

  /** The opening balance is the net of everything before the period. */
  lemma OpeningIsNet(h: History, u: string, c: string, before: int)
    ensures BalanceBefore(h, u, c, before) == Net(h, u, c, Earlier(before))
  {
    TotalFilter(AllLines(h, u, c, false), DatedBefore(before), AMOUNT_OF, AmountIn(Earlier(before)));
    LinesTotal(h, u, c, false, Earlier(before));
  }

  /** The merged, sorted lines of a period sum to the net of the period. */
  lemma LinesAreNet(h: History, u: string, c: string, from: int, to: int)
    ensures Total(CollectLines(h, u, c, from, to), AMOUNT_OF) == Net(h, u, c, Within(from, to))
  {
    TotalSort(Filter(AllLines(h, u, c, true), InPeriod(from, to)), DATE_OF, AMOUNT_OF);
    TotalFilter(AllLines(h, u, c, true), InPeriod(from, to), AMOUNT_OF, AmountIn(Within(from, to)));
    LinesTotal(h, u, c, true, Within(from, to));
  }

  // ---------------------------------------------------------------- statements chain

  lemma NetSplits(h: History, u: string, c: string, v: int -> bool, w: int -> bool, both: int -> bool)
    requires forall d: int :: both(d) == (v(d) || w(d)) && !(v(d) && w(d))
    ensures Net(h, u, c, both) == Net(h, u, c, v) + Net(h, u, c, w)
  {
    TotalSum(h.txs, TxEffect(u, c, v), TxEffect(u, c, w), TxEffect(u, c, both));
    TotalSum(h.trades, TradeEffect(u, c, v), TradeEffect(u, c, w), TradeEffect(u, c, both));
  }

  /** The closing balance is the net of everything up to the end of the period, or up to its start when it ends before that. */
  lemma ClosingIsNet(h: History, u: string, c: string, from: int, to: int)
    ensures BuildStatement(h, u, c, from, to).closingBalance == Net(h, u, c, Earlier(Max(from, to + 1)))
  {
    OpeningIsNet(h, u, c, from);
    LinesAreNet(h, u, c, from, to);
    NetSplits(h, u, c, Earlier(from), Within(from, to), Earlier(Max(from, to + 1)));
  }

  /** A statement opens with what the one before it closed with: the one whose last instant is just before its first. */
  lemma StatementsChain(h: History, u: string, c: string, from: int, to: int, next: int)
    requires from <= to + 1
    ensures BuildStatement(h, u, c, to + 1, next).openingBalance == BuildStatement(h, u, c, from, to).closingBalance
  {
    ClosingIsNet(h, u, c, from, to);
    OpeningIsNet(h, u, c, to + 1);
  }

  lemma FilterLines(h: History, u: string, c: string, from: int, to: int, keep: Line -> bool, part: Line -> bool)
    requires forall l :: part(l) <==> InPeriod(from, to)(l) && keep(l)
    ensures Filter(CollectLines(h, u, c, from, to), keep) == SortBy(Filter(AllLines(h, u, c, true), part), DATE_OF)
  {
    SortFilter(Filter(AllLines(h, u, c, true), InPeriod(from, to)), DATE_OF, keep);
    FilterFilter(AllLines(h, u, c, true), InPeriod(from, to), keep, part);
  }

  /** Cutting a period in two cuts its statement in two: the lines of the parts follow each other, the first opens and the second
      closes with the balances of the whole. */
  lemma ConsecutiveStatementsJoin(h: History, u: string, c: string, from: int, mid: int, to: int)
    requires from <= mid <= to + 1
    ensures var (first, second, whole) :=
              (BuildStatement(h, u, c, from, mid - 1), BuildStatement(h, u, c, mid, to), BuildStatement(h, u, c, from, to));
            && whole.lines == first.lines + second.lines
            && first.openingBalance == whole.openingBalance
            && first.closingBalance == second.openingBalance
            && second.closingBalance == whole.closingBalance
  {
    var lines := CollectLines(h, u, c, from, to);
    SortFacts(Filter(AllLines(h, u, c, true), InPeriod(from, to)), DATE_OF);
    SplitAscending(lines, DATE_OF, mid);
    FilterLines(h, u, c, from, to, Below(DATE_OF, mid), InPeriod(from, mid - 1));
    FilterLines(h, u, c, from, to, AtLeast(DATE_OF, mid), InPeriod(mid, to));
    StatementsChain(h, u, c, from, mid - 1, to);
    ClosingIsNet(h, u, c, mid, to);
    ClosingIsNet(h, u, c, from, to);
  }

  /** Balances do not depend on the order the tables are read in. */
  lemma {:induction false} OrderOfRowsIsIrrelevant(h: History, k: History, u: string, c: string, from: int, to: int)
    requires multiset(h.txs) == multiset(k.txs) && multiset(h.trades) == multiset(k.trades)
    ensures BuildStatement(h, u, c, from, to).openingBalance == BuildStatement(k, u, c, from, to).openingBalance
    ensures BuildStatement(h, u, c, from, to).closingBalance == BuildStatement(k, u, c, from, to).closingBalance
  {
    OpeningIsNet(h, u, c, from);
    OpeningIsNet(k, u, c, from);
    ClosingIsNet(h, u, c, from, to);
    ClosingIsNet(k, u, c, from, to);
    SameNet(h, k, u, c, Earlier(from));
    SameNet(h, k, u, c, Earlier(Max(from, to + 1)));
  }

  lemma SameNet(h: History, k: History, u: string, c: string, window: int -> bool)
    requires multiset(h.txs) == multiset(k.txs) && multiset(h.trades) == multiset(k.trades)
    ensures Net(h, u, c, window) == Net(k, u, c, window)
  {
    TotalOfBag(h.txs, k.txs, TxEffect(u, c, window));
    TotalOfBag(h.trades, k.trades, TradeEffect(u, c, window));
  }

  // ---------------------------------------------------------------- what the lines are

  /** The line of transaction t for user u: the sender's side comes first. */
  ghost predicate TxGives(t: Tx, u: string, c: string, l: Line) {
    && t.currency == c && l.date == t.createdAt && l.reference == t.reference && l.source == Transaction
    && ((t.senderId == u && l.amount == -t.amount && l.description == "Transfer to " + t.receiverId)
        || (t.senderId != u && t.receiverId == u && l.amount == t.amount && l.description == "Transfer from " + t.senderId))
  }

  /** A line of FX trade t: one for the currency given, one for the currency got. */
  ghost predicate TradeGives(t: Trade, u: string, c: string, l: Line) {
    && t.userId == u && l.date == t.executedAt && l.reference == t.id && l.source == Fx
    && l.description == "FX trade: " + t.fromCurrency + " -> " + t.toCurrency
    && ((t.fromCurrency == c && l.amount == -t.fromAmount) || (t.toCurrency == c && l.amount == t.toAmount))
  }

  lemma TxGivesItsLine(t: Tx, u: string, c: string, l: Line)
    requires Concerns(u, c)(t)
    ensures l in TxLine(u, true)(t) <==> TxGives(t, u, c, l)
  {
  }

  lemma TxLinesMembers(mine: seq<Tx>, txs: seq<Tx>, u: string, c: string, l: Line)
    requires forall t :: t in mine <==> t in txs && Concerns(u, c)(t)
    ensures l in FlatMap(mine, TxLine(u, true)) <==> exists t :: t in txs && TxGives(t, u, c, l)
  {
    FlatMapMembers(mine, TxLine(u, true), l);
    forall t | t in mine ensures l in TxLine(u, true)(t) <==> TxGives(t, u, c, l) { TxGivesItsLine(t, u, c, l); }
    if t :| t in txs && TxGives(t, u, c, l) {
      assert t in mine && l in TxLine(u, true)(t);
    }
  }

  lemma TradeGivesItsLines(t: Trade, u: string, c: string, l: Line)
    requires t.userId == u
    ensures l in TradeLines(c, true)(t) <==> TradeGives(t, u, c, l)
  {
  }

  lemma TradeLinesMembers(mine: seq<Trade>, trades: seq<Trade>, u: string, c: string, l: Line)
    requires forall t :: t in mine <==> t in trades && t.userId == u
    ensures l in FlatMap(mine, TradeLines(c, true)) <==> exists t :: t in trades && TradeGives(t, u, c, l)
  {
    FlatMapMembers(mine, TradeLines(c, true), l);
    forall t | t in mine ensures l in TradeLines(c, true)(t) <==> TradeGives(t, u, c, l) { TradeGivesItsLines(t, u, c, l); }
    if t :| t in trades && TradeGives(t, u, c, l) {
      assert t in mine && l in TradeLines(c, true)(t);
    }
  }

  /** What a query selects, sorted. */
  lemma SelectedMembers<T>(rows: seq<T>, keep: T -> bool, key: T -> int, x: T)
    ensures x in SortBy(Filter(rows, keep), key) <==> x in rows && keep(x)
  {
    SortMembers(Filter(rows, keep), key);
    FilterMembers(rows, keep);
    assert x in Filter(rows, keep) <==> x in rows && keep(x);
  }

  /** A statement holds exactly the lines that the rows of the period give, in order of date. */
  lemma LinesAreExactly(h: History, u: string, c: string, from: int, to: int, l: Line)
    ensures l in CollectLines(h, u, c, from, to)
            <==> from <= l.date <= to
                 && ((exists t :: t in h.txs && TxGives(t, u, c, l)) || (exists t :: t in h.trades && TradeGives(t, u, c, l)))
    ensures Ascending(CollectLines(h, u, c, from, to), DATE_OF)
  {
    var all := AllLines(h, u, c, true);
    SortFacts(Filter(all, InPeriod(from, to)), DATE_OF);
    SortMembers(Filter(all, InPeriod(from, to)), DATE_OF);
    FilterMembers(all, InPeriod(from, to));
    assert l in CollectLines(h, u, c, from, to) <==> l in Filter(all, InPeriod(from, to));
    var txs, trades := SortBy(Filter(h.txs, Concerns(u, c)), CREATED_AT), SortBy(Filter(h.trades, TradesOf(u)), EXECUTED_AT);
    forall t ensures t in txs <==> t in h.txs && Concerns(u, c)(t) { SelectedMembers(h.txs, Concerns(u, c), CREATED_AT, t); }
    forall t ensures t in trades <==> t in h.trades && t.userId == u { SelectedMembers(h.trades, TradesOf(u), EXECUTED_AT, t); }
    TxLinesMembers(txs, h.txs, u, c, l);
    TradeLinesMembers(trades, h.trades, u, c, l);
  }

  function CreatedOn(d: int): Tx -> bool { (t: Tx) => t.createdAt == d }
  function ExecutedOn(d: int): Trade -> bool { (t: Trade) => t.executedAt == d }
  function DatedOn(d: int): Line -> bool { (l: Line) => l.date == d }

  /** Of the lines that the rows of a table give, those of one date are those of its rows of that date. */
  lemma {:induction false} LinesOfDate<T>(rows: seq<T>, f: T -> seq<Line>, d: int, keep: T -> bool)
    requires forall x :: forall l :: l in f(x) ==> (l.date == d <==> keep(x))
    ensures Filter(FlatMap(rows, f), DatedOn(d)) == FlatMap(Filter(rows, keep), f)
  {
    if rows != [] {
      var n := |rows| - 1;
      LinesOfDate(rows[..n], f, d, keep);
      FilterConcat(FlatMap(rows[..n], f), f(rows[n]), DatedOn(d));
      assert forall i :: 0 <= i < |f(rows[n])| ==> f(rows[n])[i] in f(rows[n]);
      if keep(rows[n]) {
        FilterAll(f(rows[n]), DatedOn(d));
      } else {
        FilterNone(f(rows[n]), DatedOn(d));
      }
    }
  }

  lemma TxLinesOfDate(h: History, u: string, c: string, d: int)
    ensures Filter(FlatMap(SortBy(Filter(h.txs, Concerns(u, c)), CREATED_AT), TxLine(u, true)), DatedOn(d))
            == FlatMap(Filter(Filter(h.txs, Concerns(u, c)), CreatedOn(d)), TxLine(u, true))
  {
    LinesOfDate(SortBy(Filter(h.txs, Concerns(u, c)), CREATED_AT), TxLine(u, true), d, CreatedOn(d));
    SortKeepsTies(Filter(h.txs, Concerns(u, c)), CREATED_AT, d, CreatedOn(d));
  }

  lemma TradeLinesOfDate(h: History, u: string, c: string, d: int)
    ensures Filter(FlatMap(SortBy(Filter(h.trades, TradesOf(u)), EXECUTED_AT), TradeLines(c, true)), DatedOn(d))
            == FlatMap(Filter(Filter(h.trades, TradesOf(u)), ExecutedOn(d)), TradeLines(c, true))
  {
    LinesOfDate(SortBy(Filter(h.trades, TradesOf(u)), EXECUTED_AT), TradeLines(c, true), d, ExecutedOn(d));
    SortKeepsTies(Filter(h.trades, TradesOf(u)), EXECUTED_AT, d, ExecutedOn(d));
  }

  /** The lines of one instant of the period: first those of the transactions of that instant, then those of the trades, each in the
      order of its table and none twice. With the order of dates this leaves no choice. */
  lemma LinesOfInstant(h: History, u: string, c: string, from: int, to: int, d: int)
    requires from <= d <= to
    ensures Filter(CollectLines(h, u, c, from, to), DatedOn(d))
            == FlatMap(Filter(Filter(h.txs, Concerns(u, c)), CreatedOn(d)), TxLine(u, true))
               + FlatMap(Filter(Filter(h.trades, TradesOf(u)), ExecutedOn(d)), TradeLines(c, true))
  {
    var all := AllLines(h, u, c, true);
    SortKeepsTies(Filter(all, InPeriod(from, to)), DATE_OF, d, DatedOn(d));
    FilterFilter(all, InPeriod(from, to), DatedOn(d), DatedOn(d));
    FilterConcat(FlatMap(SortBy(Filter(h.txs, Concerns(u, c)), CREATED_AT), TxLine(u, true)),
                 FlatMap(SortBy(Filter(h.trades, TradesOf(u)), EXECUTED_AT), TradeLines(c, true)), DatedOn(d));
    TxLinesOfDate(h, u, c, d);
    TradeLinesOfDate(h, u, c, d);
  }

  /** What one row gives: a transaction the one line with its side's text, a trade one line for each side in the currency, the side sold
      first. */
  lemma RowLines(t: Tx, f: Trade, u: string, c: string)
    ensures TxLine(u, true)(t)
            == [if t.senderId == u then Line(t.createdAt, "Transfer to " + t.receiverId, -t.amount, t.reference, Transaction)
                else Line(t.createdAt, "Transfer from " + t.senderId, t.amount, t.reference, Transaction)]
    ensures TradeLines(c, true)(f)
            == (if f.fromCurrency == c
                then [Line(f.executedAt, "FX trade: " + f.fromCurrency + " -> " + f.toCurrency, -f.fromAmount, f.id, Fx)] else [])
               + (if f.toCurrency == c
                  then [Line(f.executedAt, "FX trade: " + f.fromCurrency + " -> " + f.toCurrency, f.toAmount, f.id, Fx)] else [])
    ensures Concerns(u, c)(t) <==> t.currency == c && (t.senderId == u || t.receiverId == u)
    ensures TradesOf(u)(f) <==> f.userId == u
  {
  }

  // ---------------------------------------------------------------- two sides of a transfer

  /** A transfer between two users moves their statements by opposite amounts; a transaction a user makes with itself, as a deposit
      is recorded, counts as money sent. */
  lemma SidesOfTransaction(h: History, t: Tx, u: string, before: int)
    requires t.createdAt < before && (t.senderId == u || t.receiverId == u)
    ensures BalanceBefore(h.(txs := h.txs + [t]), u, t.currency, before)
            == BalanceBefore(h, u, t.currency, before) + (if t.senderId == u then -t.amount else t.amount)
  {
    OpeningIsNet(h, u, t.currency, before);
    OpeningIsNet(h.(txs := h.txs + [t]), u, t.currency, before);
    assert (h.txs + [t])[..|h.txs|] == h.txs;
  }

  // ---------------------------------------------------------------- the heading and the query

  /** The statement is headed by the currency in capitals but the rows are matched by the text as given: over rows with
      capital currencies, any other spelling gives an empty statement under the right heading. */
  lemma OtherSpellingIsEmpty(h: History, u: string, c: string, from: int, to: int)
    requires forall t :: t in h.txs ==> t.currency == Upper(t.currency)
    requires forall t :: t in h.trades ==> t.fromCurrency == Upper(t.fromCurrency) && t.toCurrency == Upper(t.toCurrency)
    requires c != Upper(c)
    ensures BuildStatement(h, u, c, from, to) == Statement(Upper(c), 0.0, 0.0, [])
  {
    NoLines(h, u, c, true);
    NoLines(h, u, c, false);
  }

  lemma NoLines(h: History, u: string, c: string, described: bool)
    requires forall t :: t in h.txs ==> t.currency != c
    requires forall t :: t in h.trades ==> t.fromCurrency != c && t.toCurrency != c
    ensures AllLines(h, u, c, described) == []
  {
    assert forall i :: 0 <= i < |h.txs| ==> h.txs[i] in h.txs;
    FilterNone(h.txs, Concerns(u, c));
    var trades := SortBy(Filter(h.trades, TradesOf(u)), EXECUTED_AT);
    forall t | t in trades ensures TradeLines(c, described)(t) == [] {
      SortMembers(Filter(h.trades, TradesOf(u)), EXECUTED_AT);
      FilterMembers(h.trades, TradesOf(u));
      assert t in Filter(h.trades, TradesOf(u));
    }
    FlatMapOfNothing(trades, TradeLines(c, described));
  }

  // ---------------------------------------------------------------- direct or queued

  const DAY_MS := 86_400_000
  const ASYNC_RANGE_DAYS := 31

  datatype Outcome = Queued | Ready(statement: Statement)

  /** Whole days from one date to the other, rounded up. */
  function DateDiffInDays(from: int, to: int): int {
    -((from - to) / DAY_MS)
  }

  function GenerateStatement(h: History, u: string, c: string, from: int, to: int): Outcome {
    if DateDiffInDays(from, to) > ASYNC_RANGE_DAYS then Queued else Ready(BuildStatement(h, u, c, from, to))
  }

  /** A period longer than 31 days, by as little as a millisecond, is queued; any other is answered at once, and chains. */
  lemma ReadyStatements(h: History, u: string, c: string, from: int, to: int)
    ensures GenerateStatement(h, u, c, from, to).Queued? <==> to - from > 31 * 86_400_000
    ensures to - from <= 31 * 86_400_000 ==>
              var s := GenerateStatement(h, u, c, from, to).statement;
              && s.currency == Upper(c) && s.lines == CollectLines(h, u, c, from, to) && s.openingBalance == BalanceBefore(h, u, c, from)
              && (from <= to ==> s.closingBalance == BalanceBefore(h, u, c, to + 1))
  {
    ClosingIsNet(h, u, c, from, to);
    OpeningIsNet(h, u, c, to + 1);
  }
}
