/**
 * The holdings normaliser: parsed spreadsheet rows become an aggregated list of
 * (ticker, quantity) positions. Both the chat page and the chat route carry a
 * copy; the two differ only in how a running total is started.
 */
module Holdings {
  import opened Wrappers
  import opened Text
  import opened JsObject

  /** A cell as the parsers hand it over: text (CSV, most XLSX cells) or a number (numeric XLSX cells). */
  datatype Cell = Str(text: string) | Num(value: int)

  /** One parsed row: the row object's properties in creation (column) order. */
  type Row = seq<(string, Cell)>

  datatype Holding = Holding(ticker: string, qty: int)

  /** `Number(text)` for a text cell, supplied by the caller; `None` stands for NaN. */
  type NumberParser = string -> Option<int>

  /** `String(v)`. */
  function CellString(c: Cell): string {
    match c
    case Str(t) => t
    case Num(n) => IntToString(n)
  }

  /** `Number(v)`; `None` is NaN. */
  function CellNumber(c: Cell, num: NumberParser): Option<int> {
    match c
    case Str(t) => num(t)
    case Num(n) => Some(n)
  }

  /** The cell the ticker is read from: column `ticker`, else `symbol`, else the first listed column. */
  function TickerCell(r: Row): Option<Cell> {
    if "ticker" in KeysOf(r) then Get(r, "ticker")
    else if "symbol" in KeysOf(r) then Get(r, "symbol")
    else if |OwnOrder(r)| >= 1 then Some(OwnOrder(r)[0].1)
    else None
  }

  /** The cell the quantity is read from: column `qty`, else `quantity`, else the second listed column. */
  function QtyCell(r: Row): Option<Cell> {
    if "qty" in KeysOf(r) then Get(r, "qty")
    else if "quantity" in KeysOf(r) then Get(r, "quantity")
    else if |OwnOrder(r)| >= 2 then Some(OwnOrder(r)[1].1)
    else None
  }

  /** The row's ticker text after trimming; empty when no column supplies one. */
  function TickerText(r: Row): string {
    match TickerCell(r)
    case None => ""
    case Some(c) => Trim(CellString(c))
  }

  /** Lenient quantity: a missing column or a NaN counts as zero. */
  function Quantity(r: Row, num: NumberParser): int {
    match QtyCell(r)
    case None => 0
    case Some(c) => CellNumber(c, num).GetOr(0)
  }

  /** A canonical ticker: non-empty, trimmed and upper-case. */
  predicate Canonical(t: string) {
    t != "" && IsTrimmed(t) && IsUpper(t)
  }

  /** The normalised ticker a row contributes to, or `None` when the row is dropped. */
  function Resolve(r: Row): (t: Option<string>)
    ensures t.Some? ==> Canonical(t.value)
    ensures t.None? <==> TickerText(r) == ""
    ensures t.Some? ==> ToLower(t.value) == ToLower(TickerText(r))
  {
    var s := TickerText(r);
    if s == "" then None
    else
      UpperProperties(s);
      LowerOfUpper(s);
      Some(ToUpper(s))
  }

  /** Which ticker a row contributes to (`None`: dropped), and how much. */
  type Resolver = Row -> Option<string>
  type Counter = Row -> int

  /** Running totals, keyed by ticker in creation order. */
  type Totals = seq<(string, int)>

  /** One loop iteration of the page's normaliser: start a missing total at 0, then add. */
  function Step(res: Resolver, q: Counter, out: Totals, r: Row): Totals {
    match res(r)
    case None => out
    case Some(t) =>
      var o := if t in KeysOf(out) then out else Put(out, t, 0);
      Put(o, t, Get(o, t).value + q(r))
  }

  /** One loop iteration of the route's copy: `out[t] = (out[t] || 0) + qty`. */
  function StepRoute(res: Resolver, q: Counter, out: Totals, r: Row): Totals {
    match res(r)
    case None => out
    case Some(t) => Put(out, t, Get(out, t).GetOr(0) + q(r))
  }

  /** The totals after running the page's loop over `rows`. */
  function Fold(res: Resolver, q: Counter, rows: seq<Row>): Totals
    decreases |rows|
  {
    if rows == [] then [] else Step(res, q, Fold(res, q, rows[..|rows| - 1]), rows[|rows| - 1])
  }

  /** The totals after running the route's loop over `rows`. */
  function FoldRoute(res: Resolver, q: Counter, rows: seq<Row>): Totals
    decreases |rows|
  {
    if rows == [] then [] else StepRoute(res, q, FoldRoute(res, q, rows[..|rows| - 1]), rows[|rows| - 1])
  }

  function ToHoldings(e: Totals): (h: seq<Holding>)
    ensures |h| == |e|
    ensures forall i :: 0 <= i < |e| ==> h[i] == Holding(e[i].0, e[i].1)
  {
    seq(|e|, i requires 0 <= i < |e| => Holding(e[i].0, e[i].1))
  }

  /** The quantity counter for a given `Number` coercion. */
  function QuantityBy(num: NumberParser): Counter {
    r => Quantity(r, num)
  }

  /** `normalizeRowsToHoldings` of the chat page: `Object.entries` of the totals. */
  function Normalize(rows: seq<Row>, num: NumberParser): seq<Holding> {
    ToHoldings(OwnOrder(Fold(Resolve, QuantityBy(num), rows)))
  }

  /** `normalizeRowsToHoldings` of the chat route. */
  function NormalizeRoute(rows: seq<Row>, num: NumberParser): seq<Holding> {
    ToHoldings(OwnOrder(FoldRoute(Resolve, QuantityBy(num), rows)))
  }

  // ---------------------------------------------------------------------------
  // Reference definitions, independent of the fold.

  /** Every ticker some row resolves to. */
  function Tickers(res: Resolver, rows: seq<Row>): set<string> {
    set i | 0 <= i < |rows| && res(rows[i]).Some? :: res(rows[i]).value
  }

  /** Sum of the quantities of the rows resolving to `t`. */
  function Total(res: Resolver, q: Counter, rows: seq<Row>, t: string): int
    decreases |rows|
  {
    if rows == [] then 0
    else Total(res, q, rows[..|rows| - 1], t) + (if res(rows[|rows| - 1]) == Some(t) then q(rows[|rows| - 1]) else 0)
  }

  /** Position of the first row resolving to `t`; `|rows|` when there is none. */
  function FirstRow(res: Resolver, rows: seq<Row>, t: string): (k: nat)
    ensures k <= |rows|
    ensures k < |rows| <==> t in Tickers(res, rows)
    ensures k < |rows| ==> res(rows[k]) == Some(t)
    ensures forall j :: 0 <= j < k ==> res(rows[j]) != Some(t)
  {
    if rows == [] then 0
    else if res(rows[0]) == Some(t) then 0
    else
      var k := 1 + FirstRow(res, rows[1..], t);
      assert forall j :: 1 <= j < |rows| ==> rows[j] == rows[1..][j - 1];
      assert t in Tickers(res, rows) ==> t in Tickers(res, rows[1..]) by {
        if t in Tickers(res, rows) {
          var i :| 0 <= i < |rows| && res(rows[i]) == Some(t);
          assert rows[1..][i - 1] == rows[i];
        }
      }
      k
  }

  // ---------------------------------------------------------------------------
  // Facts about one more row.

  lemma TickersSnoc(res: Resolver, rows: seq<Row>)
    requires rows != []
    ensures var p := rows[..|rows| - 1];
            var r := rows[|rows| - 1];
            Tickers(res, rows) == Tickers(res, p) + (if res(r).Some? then {res(r).value} else {})
  {
    var p := rows[..|rows| - 1];
    forall t | t in Tickers(res, p) ensures t in Tickers(res, rows) {
      var i :| 0 <= i < |p| && res(p[i]) == Some(t);
      assert rows[i] == p[i];
    }
    forall t | t in Tickers(res, rows) && t !in Tickers(res, p) ensures res(rows[|rows| - 1]) == Some(t) {
      var i :| 0 <= i < |rows| && res(rows[i]) == Some(t);
    }
  }

  lemma FirstRowSnoc(res: Resolver, rows: seq<Row>, t: string)
    requires rows != []
    ensures t in Tickers(res, rows[..|rows| - 1]) ==> FirstRow(res, rows, t) == FirstRow(res, rows[..|rows| - 1], t)
    ensures t !in Tickers(res, rows[..|rows| - 1]) && res(rows[|rows| - 1]) == Some(t) ==> FirstRow(res, rows, t) == |rows| - 1
  {
    var p := rows[..|rows| - 1];
    var a := FirstRow(res, rows, t);
    var b := FirstRow(res, p, t);
    TickersSnoc(res, rows);
    assert forall j :: 0 <= j < |p| ==> p[j] == rows[j];
  }

  lemma KeysOf1(P: Totals, t: string, v: int)
    ensures KeysOf([(t, v)]) == {t}
    ensures KeysOf(P + [(t, v)]) == KeysOf(P) + {t}
  {
    var e := P + [(t, v)];
    assert e[|P|].0 == t;
    forall k | k in KeysOf(e) ensures k in KeysOf(P) + {t} {
      var j :| 0 <= j < |e| && e[j].0 == k;
      if j < |P| { assert e[j] == P[j]; }
    }
    forall k | k in KeysOf(P) ensures k in KeysOf(e) {
      var j :| 0 <= j < |P| && P[j].0 == k;
      assert e[j] == P[j];
    }
  }

  lemma {:induction false} TotalAbsent(res: Resolver, q: Counter, rows: seq<Row>, t: string)
    requires t !in Tickers(res, rows)
    ensures Total(res, q, rows, t) == 0
  {
    if rows != [] {
      TickersSnoc(res, rows);
      TotalAbsent(res, q, rows[..|rows| - 1], t);
    }
  }

  /** What the loop keeps true: one entry per ticker, each holding its row total, in first-seen order. */
  predicate FoldInvariant(res: Resolver, q: Counter, rows: seq<Row>, e: Totals) {
    && DistinctKeys(e)
    && KeysOf(e) == Tickers(res, rows)
    && (forall i :: 0 <= i < |e| ==> e[i].1 == Total(res, q, rows, e[i].0))
    && IncreasingBy(k => FirstRow(res, rows, k), e)
  }

  lemma StepNone(res: Resolver, q: Counter, P: Totals, r: Row)
    requires res(r).None?
    ensures Step(res, q, P, r) == P
  {
  }

  lemma StepNewShape(res: Resolver, q: Counter, P: Totals, r: Row, t: string)
    requires res(r) == Some(t) && t !in KeysOf(P)
    ensures Step(res, q, P, r) == P + [(t, q(r))]
  {
    var o := Put(P, t, 0);
    assert o == P + [(t, 0)];
    GetAppendNew(P, t, 0);
    PutLast(P, t, 0, q(r));
  }

  lemma StepExistingShape(res: Resolver, q: Counter, P: Totals, r: Row, t: string, i: nat)
    requires res(r) == Some(t) && DistinctKeys(P) && i < |P| && P[i].0 == t
    ensures |Step(res, q, P, r)| == |P|
    ensures forall j :: 0 <= j < |P| ==> Step(res, q, P, r)[j].0 == P[j].0
    ensures forall j :: 0 <= j < |P| ==> Step(res, q, P, r)[j].1 == P[j].1 + (if j == i then q(r) else 0)
  {
    GetAt(P, i);
    assert t in KeysOf(P);
  }

  lemma TotalSnoc(res: Resolver, q: Counter, rows: seq<Row>, k: string)
    requires rows != []
    ensures Total(res, q, rows, k) ==
            Total(res, q, rows[..|rows| - 1], k) + (if res(rows[|rows| - 1]) == Some(k) then q(rows[|rows| - 1]) else 0)
  {
  }

  /** Facts about the older entries that hold whatever the new row is. */
  predicate SnocFacts(res: Resolver, q: Counter, rows: seq<Row>, P: Totals)
    requires rows != []
  {
    var p := rows[..|rows| - 1];
    var r := rows[|rows| - 1];
    && (forall i :: 0 <= i < |P| ==> FirstRow(res, rows, P[i].0) == FirstRow(res, p, P[i].0))
    && (forall i :: 0 <= i < |P| ==>
          Total(res, q, rows, P[i].0) == Total(res, q, p, P[i].0) + (if res(r) == Some(P[i].0) then q(r) else 0))
    && Tickers(res, rows) == Tickers(res, p) + (if res(r).Some? then {res(r).value} else {})
  }

  lemma SnocFactsHold(res: Resolver, q: Counter, rows: seq<Row>, P: Totals)
    requires rows != []
    requires FoldInvariant(res, q, rows[..|rows| - 1], P)
    ensures SnocFacts(res, q, rows, P)
  {
    var p := rows[..|rows| - 1];
    TickersSnoc(res, rows);
    forall i | 0 <= i < |P| ensures FirstRow(res, rows, P[i].0) == FirstRow(res, p, P[i].0) {
      assert P[i].0 in KeysOf(P);
      FirstRowSnoc(res, rows, P[i].0);
    }
    forall i | 0 <= i < |P| ensures
      Total(res, q, rows, P[i].0) == Total(res, q, p, P[i].0) + (if res(rows[|rows| - 1]) == Some(P[i].0) then q(rows[|rows| - 1]) else 0) {
      TotalSnoc(res, q, rows, P[i].0);
    }
  }

  lemma StepNoneInvariant(res: Resolver, q: Counter, rows: seq<Row>, P: Totals)
    requires rows != [] && res(rows[|rows| - 1]).None?
    requires FoldInvariant(res, q, rows[..|rows| - 1], P) && SnocFacts(res, q, rows, P)
    ensures FoldInvariant(res, q, rows, Step(res, q, P, rows[|rows| - 1]))
  {
    StepNone(res, q, P, rows[|rows| - 1]);
  }

  lemma {:induction false} ExistingInvariant(res: Resolver, q: Counter, rows: seq<Row>, P: Totals, e: Totals, t: string, i: nat)
    requires rows != [] && res(rows[|rows| - 1]) == Some(t) && i < |P| && P[i].0 == t
    requires FoldInvariant(res, q, rows[..|rows| - 1], P) && SnocFacts(res, q, rows, P)
    requires |e| == |P|
    requires forall j :: 0 <= j < |P| ==> e[j].0 == P[j].0
    requires forall j :: 0 <= j < |P| ==> e[j].1 == P[j].1 + (if j == i then q(rows[|rows| - 1]) else 0)
    ensures FoldInvariant(res, q, rows, e)
  {
    SameKeysAt(e, P);
    forall j | 0 <= j < |e| ensures e[j].1 == Total(res, q, rows, e[j].0) {
      if j != i { assert P[j].0 != t; }
    }
    assert IncreasingBy(k => FirstRow(res, rows, k), e) by {
      forall a, b | 0 <= a < b < |e| ensures FirstRow(res, rows, e[a].0) < FirstRow(res, rows, e[b].0) {
        assert FirstRow(res, rows[..|rows| - 1], P[a].0) < FirstRow(res, rows[..|rows| - 1], P[b].0);
      }
    }
  }

  lemma StepExistingInvariant(res: Resolver, q: Counter, rows: seq<Row>, P: Totals, t: string)
    requires rows != [] && res(rows[|rows| - 1]) == Some(t) && t in KeysOf(P)
    requires FoldInvariant(res, q, rows[..|rows| - 1], P) && SnocFacts(res, q, rows, P)
    ensures FoldInvariant(res, q, rows, Step(res, q, P, rows[|rows| - 1]))
  {
    var r := rows[|rows| - 1];
    var i :| 0 <= i < |P| && P[i].0 == t;
    StepExistingShape(res, q, P, r, t, i);
    ExistingInvariant(res, q, rows, P, Step(res, q, P, r), t, i);
  }

  lemma {:induction false} NewInvariant(res: Resolver, q: Counter, rows: seq<Row>, P: Totals, t: string)
    requires rows != [] && res(rows[|rows| - 1]) == Some(t) && t !in KeysOf(P)
    requires FoldInvariant(res, q, rows[..|rows| - 1], P) && SnocFacts(res, q, rows, P)
    ensures FoldInvariant(res, q, rows, P + [(t, q(rows[|rows| - 1]))])
  {
    var p := rows[..|rows| - 1];
    var r := rows[|rows| - 1];
    var e := P + [(t, q(r))];
    TotalAbsent(res, q, p, t);
    TotalSnoc(res, q, rows, t);
    FirstRowSnoc(res, rows, t);
    KeysOf1(P, t, q(r));
    DistinctAppend(P, [(t, q(r))]);
    assert forall i :: 0 <= i < |P| ==> e[i] == P[i];
    assert forall i :: 0 <= i < |e| ==> e[i].1 == Total(res, q, rows, e[i].0);
    assert IncreasingBy(k => FirstRow(res, rows, k), e) by {
      var f := k => FirstRow(res, rows, k);
      IncreasingAgree(f, k => FirstRow(res, p, k), P);
      forall i | 0 <= i < |P| ensures f(P[i].0) < f(t) {
        assert P[i].0 in KeysOf(P);
      }
      IncreasingSnoc(f, P, t, q(r));
    }
  }

  lemma StepNewInvariant(res: Resolver, q: Counter, rows: seq<Row>, P: Totals, t: string)
    requires rows != [] && res(rows[|rows| - 1]) == Some(t) && t !in KeysOf(P)
    requires FoldInvariant(res, q, rows[..|rows| - 1], P) && SnocFacts(res, q, rows, P)
    ensures FoldInvariant(res, q, rows, Step(res, q, P, rows[|rows| - 1]))
  {
    StepNewShape(res, q, P, rows[|rows| - 1], t);
    NewInvariant(res, q, rows, P, t);
  }

  lemma StepKeepsInvariant(res: Resolver, q: Counter, rows: seq<Row>, P: Totals)
    requires rows != []
    requires FoldInvariant(res, q, rows[..|rows| - 1], P)
    ensures FoldInvariant(res, q, rows, Step(res, q, P, rows[|rows| - 1]))
  {
    var r := rows[|rows| - 1];
    SnocFactsHold(res, q, rows, P);
    if res(r).None? {
      StepNoneInvariant(res, q, rows, P);
    } else if res(r).value in KeysOf(P) {
      StepExistingInvariant(res, q, rows, P, res(r).value);
    } else {
      StepNewInvariant(res, q, rows, P, res(r).value);
    }
  }

  lemma {:induction false} FoldKeepsInvariant(res: Resolver, q: Counter, rows: seq<Row>)
    ensures FoldInvariant(res, q, rows, Fold(res, q, rows))
  {
    if rows != [] {
      FoldKeepsInvariant(res, q, rows[..|rows| - 1]);
      StepKeepsInvariant(res, q, rows, Fold(res, q, rows[..|rows| - 1]));
    }
  }

  /** The route's way of starting a total gives the same loop step as the page's. */
  lemma {:induction false} StepAgrees(res: Resolver, q: Counter, out: Totals, r: Row)
    ensures StepRoute(res, q, out, r) == Step(res, q, out, r)
  {
    match res(r)
    case None =>
    case Some(t) =>
      var x := q(r);
      var route := Put(out, t, Get(out, t).GetOr(0) + x);
      assert StepRoute(res, q, out, r) == route by {
        StepRouteSome(res, q, out, r, t);
      }
      if t in KeysOf(out) {
        assert Step(res, q, out, r) == route by {
          StepPresent(res, q, out, r, t);
          AddExisting(out, t, x);
        }
      } else {
        assert route == out + [(t, x)];
        StepNewShape(res, q, out, r, t);
      }
  }

  lemma {:induction false} StepPresent(res: Resolver, q: Counter, out: Totals, r: Row, t: string)
    requires res(r) == Some(t) && t in KeysOf(out)
    ensures Step(res, q, out, r) == Put(out, t, Get(out, t).value + q(r))
  {
  }

  lemma {:induction false} StepRouteSome(res: Resolver, q: Counter, out: Totals, r: Row, t: string)
    requires res(r) == Some(t)
    ensures StepRoute(res, q, out, r) == Put(out, t, Get(out, t).GetOr(0) + q(r))
  {
  }

  /** Both loops add to a present total in place. */
  lemma {:induction false} AddExisting(out: Totals, t: string, x: int)
    requires t in KeysOf(out)
    ensures Put(out, t, Get(out, t).GetOr(0) + x) == Put(out, t, Get(out, t).value + x)
  {
  }

  lemma {:induction false} FoldRouteAgrees(res: Resolver, q: Counter, rows: seq<Row>)
    ensures FoldRoute(res, q, rows) == Fold(res, q, rows)
  {
    if rows != [] {
      FoldRouteAgrees(res, q, rows[..|rows| - 1]);
      StepAgrees(res, q, Fold(res, q, rows[..|rows| - 1]), rows[|rows| - 1]);
    }
  }

  /** The route's copy of the normaliser computes exactly what the page's does. */
  lemma RouteNormalizerAgrees(rows: seq<Row>, num: NumberParser)
    ensures NormalizeRoute(rows, num) == Normalize(rows, num)
  {
    FoldRouteAgrees(Resolve, QuantityBy(num), rows);
  }

  lemma TickersCanonical(rows: seq<Row>)
    ensures forall t :: t in Tickers(Resolve, rows) ==> Canonical(t)
  {
    forall t | t in Tickers(Resolve, rows) ensures Canonical(t) {
      var i :| 0 <= i < |rows| && Resolve(rows[i]).Some? && Resolve(rows[i]).value == t;
    }
  }

  /**
   * The normaliser's contract: one entry per ticker that some row resolves to,
   * each canonical and holding the sum of its rows' quantities; array-index-like
   * tickers come first in ascending numeric order, the others in the order of
   * the first row naming them.
   */
  lemma {:induction false} NormalizeSpec(rows: seq<Row>, num: NumberParser)
    ensures var h := Normalize(rows, num);
            forall i, j :: 0 <= i < j < |h| ==> h[i].ticker != h[j].ticker
    ensures var h := Normalize(rows, num);
            forall i :: 0 <= i < |h| ==> Canonical(h[i].ticker)
    ensures var h := Normalize(rows, num);
            (set i | 0 <= i < |h| :: h[i].ticker) == Tickers(Resolve, rows)
    ensures var h := Normalize(rows, num);
            forall i :: 0 <= i < |h| ==> h[i].qty == Total(Resolve, QuantityBy(num), rows, h[i].ticker)
    ensures var h := Normalize(rows, num);
            forall i, j :: 0 <= i < j < |h| && IsArrayIndex(h[j].ticker) ==>
              IsArrayIndex(h[i].ticker) && DigitsValue(h[i].ticker) <= DigitsValue(h[j].ticker)
    ensures var h := Normalize(rows, num);
            forall i, j :: 0 <= i < j < |h| && !IsArrayIndex(h[i].ticker) && !IsArrayIndex(h[j].ticker) ==>
              FirstRow(Resolve, rows, h[i].ticker) < FirstRow(Resolve, rows, h[j].ticker)
    ensures rows == [] ==> Normalize(rows, num) == []
  {
    var q := QuantityBy(num);
    var e := Fold(Resolve, q, rows);
    assert Normalize(rows, num) == ToHoldings(OwnOrder(e));
    FoldKeepsInvariant(Resolve, q, rows);
    ListingFacts(Resolve, q, rows, e);
    ListingOrder(Resolve, q, rows, e);
    TickersCanonical(rows);
  }

  /**
   * What `Object.entries` of the finished totals lists, for any row resolver
   * and counter: one entry per ticker, each with that ticker's total.
   */
  lemma ListingFacts(res: Resolver, q: Counter, rows: seq<Row>, e: Totals)
    requires FoldInvariant(res, q, rows, e)
    ensures var h := ToHoldings(OwnOrder(e));
            forall i, j :: 0 <= i < j < |h| ==> h[i].ticker != h[j].ticker
    ensures var h := ToHoldings(OwnOrder(e));
            (set i | 0 <= i < |h| :: h[i].ticker) == Tickers(res, rows)
    ensures var h := ToHoldings(OwnOrder(e));
            forall i :: 0 <= i < |h| ==> h[i].qty == Total(res, q, rows, h[i].ticker)
    ensures e == [] ==> ToHoldings(OwnOrder(e)) == []
  {
    var o := OwnOrder(e);
    var h := ToHoldings(o);
    assert multiset(o) == multiset(e) && KeysOf(o) == KeysOf(e) && DistinctKeys(o) by {
      OwnOrderSpec(e);
    }
    assert (set i | 0 <= i < |h| :: h[i].ticker) == KeysOf(o) by {
      assert forall i :: 0 <= i < |h| ==> h[i].ticker == o[i].0;
    }
    PermutedValues(k => Total(res, q, rows, k), e, o);
    if e == [] {
      assert multiset(o) == multiset{};
    }
  }

  /** Reordering the entries keeps every value equal to its key's image. */
  lemma PermutedValues(f: string -> int, e: Totals, o: Totals)
    requires multiset(o) == multiset(e)
    requires forall i :: 0 <= i < |e| ==> e[i].1 == f(e[i].0)
    ensures forall i :: 0 <= i < |o| ==> o[i].1 == f(o[i].0)
  {
    forall i | 0 <= i < |o| ensures o[i].1 == f(o[i].0) {
      assert o[i] in multiset(o);
      var k :| 0 <= k < |e| && e[k] == o[i];
    }
  }

  /**
   * The order of that listing: array-index tickers first and ascending, the
   * others in the order of the first row naming them.
   */
  lemma ListingOrder(res: Resolver, q: Counter, rows: seq<Row>, e: Totals)
    requires FoldInvariant(res, q, rows, e)
    ensures var h := ToHoldings(OwnOrder(e));
            forall i, j :: 0 <= i < j < |h| && IsArrayIndex(h[j].ticker) ==>
              IsArrayIndex(h[i].ticker) && DigitsValue(h[i].ticker) <= DigitsValue(h[j].ticker)
    ensures var h := ToHoldings(OwnOrder(e));
            forall i, j :: 0 <= i < j < |h| && !IsArrayIndex(h[i].ticker) && !IsArrayIndex(h[j].ticker) ==>
              FirstRow(res, rows, h[i].ticker) < FirstRow(res, rows, h[j].ticker)
  {
    var o := OwnOrder(e);
    var h := ToHoldings(o);
    OwnOrderSpec(e);
    OwnOrderKeepsNamedOrder(k => FirstRow(res, rows, k), e);
    assert forall i :: 0 <= i < |h| ==> h[i].ticker == o[i].0;
  }

  /** A holdings list fed back as `{ticker, qty}` rows. */
  function AsRows(h: seq<Holding>): (rows: seq<Row>)
    ensures |rows| == |h|
  {
    seq(|h|, i requires 0 <= i < |h| => [("ticker", Str(h[i].ticker)), ("qty", Num(h[i].qty))])
  }

  function Pairs(h: seq<Holding>): (e: Totals)
    ensures |e| == |h|
    ensures forall i :: 0 <= i < |h| ==> e[i] == (h[i].ticker, h[i].qty)
  {
    seq(|h|, i requires 0 <= i < |h| => (h[i].ticker, h[i].qty))
  }

  lemma FedBackCells(t: string, c: Cell)
    ensures TickerCell([("ticker", Str(t)), ("qty", c)]) == Some(Str(t))
    ensures QtyCell([("ticker", Str(t)), ("qty", c)]) == Some(c)
  {
    var r: Row := [("ticker", Str(t)), ("qty", c)];
    assert r[0].0 == "ticker" && r[1].0 == "qty";
    assert "ticker" in KeysOf(r) && "qty" in KeysOf(r);
    assert r[1..] == [("qty", c)];
    assert Get(r, "qty") == Get(r[1..], "qty");
  }

  /** A row resolves to the upper-cased text of its ticker cell when that text needs no trimming. */
  lemma ResolveTrimmed(r: Row, t: string)
    requires TickerCell(r) == Some(Str(t)) && t != "" && IsTrimmed(t)
    ensures Resolve(r) == Some(ToUpper(t))
  {
    assert Trim(t) == t;
  }

  lemma CanonicalRow(t: string, v: int, num: NumberParser)
    requires Canonical(t)
    ensures Resolve([("ticker", Str(t)), ("qty", Num(v))]) == Some(t)
    ensures Quantity([("ticker", Str(t)), ("qty", Num(v))], num) == v
  {
    FedBackCells(t, Num(v));
    UpperProperties(t);
    ResolveTrimmed([("ticker", Str(t)), ("qty", Num(v))], t);
  }

  lemma PairsSnoc(h: seq<Holding>)
    requires h != []
    ensures Pairs(h) == Pairs(h[..|h| - 1]) + [(h[|h| - 1].ticker, h[|h| - 1].qty)]
  {
    var e, f := Pairs(h[..|h| - 1]) + [(h[|h| - 1].ticker, h[|h| - 1].qty)], Pairs(h);
    forall i | 0 <= i < |e| ensures e[i] == f[i] {
      if i < |h| - 1 { assert e[i] == Pairs(h[..|h| - 1])[i]; }
    }
  }

  lemma PairsFresh(h: seq<Holding>, t: string)
    requires forall i :: 0 <= i < |h| ==> h[i].ticker != t
    ensures t !in KeysOf(Pairs(h))
  {
    var P := Pairs(h);
    forall i | 0 <= i < |P| ensures P[i].0 != t { assert P[i].0 == h[i].ticker; }
  }

  lemma {:induction false} FoldOfDistinct(res: Resolver, q: Counter, rows: seq<Row>, h: seq<Holding>)
    requires |rows| == |h|
    requires forall i :: 0 <= i < |h| ==> res(rows[i]) == Some(h[i].ticker) && q(rows[i]) == h[i].qty
    requires forall i, j :: 0 <= i < j < |h| ==> h[i].ticker != h[j].ticker
    ensures Fold(res, q, rows) == Pairs(h)
  {
    if h != [] {
      var n := |h|;
      var rs, hs := rows[..n - 1], h[..n - 1];
      assert Fold(res, q, rs) == Pairs(hs) by {
        assert forall i :: 0 <= i < |hs| ==> rs[i] == rows[i] && hs[i] == h[i];
        FoldOfDistinct(res, q, rs, hs);
      }
      FoldDistinctStep(res, q, rows, h);
    }
  }

  lemma FoldDistinctStep(res: Resolver, q: Counter, rows: seq<Row>, h: seq<Holding>)
    requires |rows| == |h| > 0
    requires Fold(res, q, rows[..|h| - 1]) == Pairs(h[..|h| - 1])
    requires forall i :: 0 <= i < |h| - 1 ==> h[i].ticker != h[|h| - 1].ticker
    requires res(rows[|h| - 1]) == Some(h[|h| - 1].ticker) && q(rows[|h| - 1]) == h[|h| - 1].qty
    ensures Fold(res, q, rows) == Pairs(h)
  {
    var n := |h|;
    var t := h[n - 1].ticker;
    var hs := h[..n - 1];
    assert forall i :: 0 <= i < |hs| ==> hs[i] == h[i];
    PairsFresh(hs, t);
    calc {
      Fold(res, q, rows);
      Step(res, q, Fold(res, q, rows[..n - 1]), rows[n - 1]);
      Step(res, q, Pairs(hs), rows[n - 1]);
      { StepNewShape(res, q, Pairs(hs), rows[n - 1], t); }
      Pairs(hs) + [(t, h[n - 1].qty)];
      { PairsSnoc(h); }
      Pairs(h);
    }
  }

  /** One resolving row gives one total. */
  lemma FoldOne(res: Resolver, q: Counter, r: Row, t: string)
    requires res(r) == Some(t)
    ensures Fold(res, q, [r]) == [(t, q(r))]
  {
    var h := [Holding(t, q(r))];
    FoldOfDistinct(res, q, [r], h);
    assert Pairs(h) == [(t, q(r))];
  }

  /** The listing of one resolving row whose ticker is not an array index. */
  lemma ListingOne(res: Resolver, q: Counter, r: Row, t: string)
    requires res(r) == Some(t) && !IsArrayIndex(t)
    ensures ToHoldings(OwnOrder(Fold(res, q, [r]))) == [Holding(t, q(r))]
  {
    var e := [(t, q(r))];
    FoldOne(res, q, r, t);
    assert OwnOrder(e) == e by {
      OwnOrderNoIndices(e);
    }
  }

  /** A single row naming a ticker that is not an array index normalises to that ticker and its quantity. */
  lemma SingleRow(row: Row, t: string, num: NumberParser)
    requires Resolve(row) == Some(t) && !IsArrayIndex(t)
    ensures Normalize([row], num) == [Holding(t, Quantity(row, num))]
  {
    ListingOne(Resolve, QuantityBy(num), row, t);
  }

  lemma FoldAsRows(h: seq<Holding>, num: NumberParser)
    requires forall i :: 0 <= i < |h| ==> Canonical(h[i].ticker)
    requires forall i, j :: 0 <= i < j < |h| ==> h[i].ticker != h[j].ticker
    ensures Fold(Resolve, QuantityBy(num), AsRows(h)) == Pairs(h)
  {
    var rows := AsRows(h);
    forall i | 0 <= i < |h| ensures Resolve(rows[i]) == Some(h[i].ticker) && QuantityBy(num)(rows[i]) == h[i].qty {
      CanonicalRow(h[i].ticker, h[i].qty, num);
    }
    FoldOfDistinct(Resolve, QuantityBy(num), rows, h);
  }

  /** Feeding the normaliser its own output, as `{ticker, qty}` rows, reproduces that output. */
  lemma NormalizeIdempotent(rows: seq<Row>, num: NumberParser)
    ensures Normalize(AsRows(Normalize(rows, num)), num) == Normalize(rows, num)
  {
    var h := Normalize(rows, num);
    var o := OwnOrder(Fold(Resolve, QuantityBy(num), rows));
    NormalizeSpec(rows, num);
    FoldAsRows(h, num);
    assert Pairs(h) == o;
    OwnOrderIdempotent(Fold(Resolve, QuantityBy(num), rows));
  }

  /**
   * Alias precedence for the ticker column. A `ticker` column wins even when it
   * is blank (the row is then dropped, whatever `symbol` holds); `symbol` is
   * read only without a `ticker` column; otherwise the first listed column.
   */
  lemma TickerAliases(r: Row)
    ensures "ticker" in KeysOf(r) ==> TickerText(r) == Trim(CellString(Get(r, "ticker").value))
    ensures "ticker" in KeysOf(r) && AllSpace(CellString(Get(r, "ticker").value)) ==> Resolve(r) == None
    ensures "ticker" !in KeysOf(r) && "symbol" in KeysOf(r) ==> TickerText(r) == Trim(CellString(Get(r, "symbol").value))
    ensures |OwnOrder(r)| == |r|
    ensures "ticker" !in KeysOf(r) && "symbol" !in KeysOf(r) && |OwnOrder(r)| >= 1 ==> TickerText(r) == Trim(CellString(OwnOrder(r)[0].1))
    ensures r == [] ==> Resolve(r) == None
  {
    OwnOrderSpec(r);
    assert |multiset(OwnOrder(r))| == |multiset(r)|;
  }

  /** Alias precedence for the quantity column: `qty`, else `quantity`, else the second listed column, else zero. */
  lemma QtyAliases(r: Row, num: NumberParser)
    ensures "qty" in KeysOf(r) ==> Quantity(r, num) == CellNumber(Get(r, "qty").value, num).GetOr(0)
    ensures "qty" !in KeysOf(r) && "quantity" in KeysOf(r) ==> Quantity(r, num) == CellNumber(Get(r, "quantity").value, num).GetOr(0)
    ensures |OwnOrder(r)| == |r|
    ensures "qty" !in KeysOf(r) && "quantity" !in KeysOf(r) && |OwnOrder(r)| >= 2 ==> Quantity(r, num) == CellNumber(OwnOrder(r)[1].1, num).GetOr(0)
    ensures "qty" !in KeysOf(r) && "quantity" !in KeysOf(r) && |r| < 2 ==> Quantity(r, num) == 0
  {
    OwnOrderSpec(r);
    assert |multiset(OwnOrder(r))| == |multiset(r)|;
  }

  lemma {:induction false} FoldSnoc(res: Resolver, q: Counter, p: seq<Row>, r: Row)
    ensures Fold(res, q, p + [r]) == Step(res, q, Fold(res, q, p), r)
  {
    assert (p + [r])[..|p|] == p;
  }

  /** A row naming a ticker not seen before appends a fresh total. */
  lemma {:induction false} FoldSnocNew(res: Resolver, q: Counter, p: seq<Row>, r: Row, t: string)
    requires res(r) == Some(t) && t !in KeysOf(Fold(res, q, p))
    ensures Fold(res, q, p + [r]) == Fold(res, q, p) + [(t, q(r))]
  {
    FoldSnoc(res, q, p, r);
    StepNewShape(res, q, Fold(res, q, p), r, t);
  }

  lemma {:induction false} FoldTwo(res: Resolver, q: Counter, a: Row, b: Row, x: string)
    requires res(a) == Some(x) && res(b) == Some(x)
    ensures Fold(res, q, [a, b]) == [(x, q(a) + q(b))]
  {
    FoldSnocNew(res, q, [], a, x);
    assert [] + [a] == [a];
    FoldSnoc(res, q, [a], b);
    assert [a] + [b] == [a, b];
    StepExistingShape(res, q, [(x, q(a))], b, x, 0);
  }

  /** Three rows, the first two naming one ticker and the third another, fold to two totals. */
  lemma {:induction false} FoldThree(res: Resolver, q: Counter, a: Row, b: Row, c: Row, x: string, y: string)
    requires res(a) == Some(x) && res(b) == Some(x) && res(c) == Some(y) && x != y
    ensures Fold(res, q, [a, b, c]) == [(x, q(a) + q(b)), (y, q(c))]
  {
    FoldTwo(res, q, a, b, x);
    assert y !in KeysOf([(x, q(a) + q(b))]);
    FoldSnocNew(res, q, [a, b], c, y);
    assert [a, b] + [c] == [a, b, c];
  }

  lemma SymbolRow(t: string, c: Cell)
    ensures TickerCell([("symbol", Str(t)), ("quantity", c)]) == Some(Str(t))
    ensures QtyCell([("symbol", Str(t)), ("quantity", c)]) == Some(c)
  {
    var r: Row := [("symbol", Str(t)), ("quantity", c)];
    assert r[0].0 == "symbol" && r[1].0 == "quantity";
    assert "ticker" !in KeysOf(r) && "qty" !in KeysOf(r);
    assert "symbol" in KeysOf(r) && "quantity" in KeysOf(r);
    assert r[1..] == [("quantity", c)];
    assert Get(r, "quantity") == Get(r[1..], "quantity");
  }

  lemma {:induction false} ExampleRows(num: NumberParser)
    requires num("3") == Some(3) && num("x") == None
    ensures var r: Row := [("ticker", Str("aapl")), ("qty", Str("3"))]; Resolve(r) == Some("AAPL") && Quantity(r, num) == 3
    ensures var r: Row := [("symbol", Str("AAPL")), ("quantity", Num(2))]; Resolve(r) == Some("AAPL") && Quantity(r, num) == 2
    ensures var r: Row := [("ticker", Str("msft")), ("qty", Str("x"))]; Resolve(r) == Some("MSFT") && Quantity(r, num) == 0
  {
    ExampleUpper();
    assert IsTrimmed("aapl") && IsTrimmed("AAPL") && IsTrimmed("msft");
    TickerQtyRow("aapl", Str("3"), num);
    SymbolQuantityRow("AAPL", Num(2), num);
    TickerQtyRow("msft", Str("x"), num);
  }

  /** A `ticker`/`qty` row resolves to its upper-cased ticker and counts its `qty` cell. */
  lemma TickerQtyRow(t: string, c: Cell, num: NumberParser)
    requires t != "" && IsTrimmed(t)
    ensures Resolve([("ticker", Str(t)), ("qty", c)]) == Some(ToUpper(t))
    ensures Quantity([("ticker", Str(t)), ("qty", c)], num) == CellNumber(c, num).GetOr(0)
  {
    FedBackCells(t, c);
    ResolveTrimmed([("ticker", Str(t)), ("qty", c)], t);
  }

  /** A `symbol`/`quantity` row resolves to its upper-cased symbol and counts its `quantity` cell. */
  lemma SymbolQuantityRow(t: string, c: Cell, num: NumberParser)
    requires t != "" && IsTrimmed(t)
    ensures Resolve([("symbol", Str(t)), ("quantity", c)]) == Some(ToUpper(t))
    ensures Quantity([("symbol", Str(t)), ("quantity", c)], num) == CellNumber(c, num).GetOr(0)
  {
    SymbolRow(t, c);
    ResolveTrimmed([("symbol", Str(t)), ("quantity", c)], t);
  }

  lemma ExampleUpper()
    ensures ToUpper("aapl") == "AAPL" && ToUpper("AAPL") == "AAPL" && ToUpper("msft") == "MSFT"
  {
    var a, m := ToUpper("aapl"), ToUpper("msft");
    assert UpperChar('a') == 'A' && UpperChar('p') == 'P' && UpperChar('l') == 'L';
    assert UpperChar('m') == 'M' && UpperChar('s') == 'S' && UpperChar('f') == 'F' && UpperChar('t') == 'T';
    assert a[0] == 'A' && a[1] == 'A' && a[2] == 'P' && a[3] == 'L';
    assert m[0] == 'M' && m[1] == 'S' && m[2] == 'F' && m[3] == 'T';
    UpperProperties("AAPL");
  }

  lemma ExampleTotals(num: NumberParser, r0: Row, r1: Row, r2: Row)
    requires num("3") == Some(3) && num("x") == None
    requires r0 == [("ticker", Str("aapl")), ("qty", Str("3"))]
    requires r1 == [("symbol", Str("AAPL")), ("quantity", Num(2))]
    requires r2 == [("ticker", Str("msft")), ("qty", Str("x"))]
    ensures Fold(Resolve, QuantityBy(num), [r0, r1, r2]) == [("AAPL", 5), ("MSFT", 0)]
  {
    ExampleRows(num);
    FoldThree(Resolve, QuantityBy(num), r0, r1, r2, "AAPL", "MSFT");
  }

  /**
   * A worked case: `aapl`/"3", `AAPL`/2 under the `symbol`/`quantity` aliases and
   * `msft`/"x" aggregate to AAPL 5 and MSFT 0.
   */
  lemma NormalizeExample(num: NumberParser, r0: Row, r1: Row, r2: Row)
    requires num("3") == Some(3) && num("x") == None
    requires r0 == [("ticker", Str("aapl")), ("qty", Str("3"))]
    requires r1 == [("symbol", Str("AAPL")), ("quantity", Num(2))]
    requires r2 == [("ticker", Str("msft")), ("qty", Str("x"))]
    ensures Normalize([r0, r1, r2], num) == [Holding("AAPL", 5), Holding("MSFT", 0)]
  {
    ExampleTotals(num, r0, r1, r2);
    NamedExample([r0, r1, r2], num);
  }

  lemma NamedExample(rows: seq<Row>, num: NumberParser)
    requires Fold(Resolve, QuantityBy(num), rows) == [("AAPL", 5), ("MSFT", 0)]
    ensures Normalize(rows, num) == [Holding("AAPL", 5), Holding("MSFT", 0)]
  {
    NamedPair("AAPL", "MSFT", 5, 0);
    NormalizeNamed(rows, num, [("AAPL", 5), ("MSFT", 0)]);
  }

  lemma NamedPair(a: string, b: string, x: int, y: int)
    requires a != [] && b != [] && !IsDigit(a[0]) && !IsDigit(b[0])
    ensures forall i :: 0 <= i < 2 ==> !IsArrayIndex([(a, x), (b, y)][i].0)
    ensures ToHoldings([(a, x), (b, y)]) == [Holding(a, x), Holding(b, y)]
  {
  }

  /** When no total is keyed by an array index, the list is the totals in creation order. */
  lemma NormalizeNamed(rows: seq<Row>, num: NumberParser, e: Totals)
    requires Fold(Resolve, QuantityBy(num), rows) == e
    requires forall i :: 0 <= i < |e| ==> !IsArrayIndex(e[i].0)
    ensures Normalize(rows, num) == ToHoldings(e)
  {
    OwnOrderNoIndices(e);
  }
}
