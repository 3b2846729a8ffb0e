/**
 * Enrichment of an uploaded portfolio: web-search snippets for the first few
 * tickers and a price map for the first few symbols, each turned into one
 * extra user message. Provider calls are inputs: a search outcome per query,
 * a quote outcome per symbol.
 */
module Enrichment {
  import opened Wrappers
  import opened Text
  import opened JsObject
  import opened Holdings
  import opened Json
  import opened Messages

  const MaxSearchTickers: nat := 6
  const MaxHits: nat := 3
  const MaxPriceSymbols: nat := 5

  /** `s.slice(0, n)`. */
  function Take<T>(s: seq<T>, n: nat): (r: seq<T>)
    ensures |r| <= n && |r| <= |s|
    ensures r == s[..|r|]
    ensures |s| <= n ==> r == s
  {
    if |s| <= n then s else s[..n]
  }

  /** `slice(0, n)` keeps exactly the first `min(n, |s|)` elements. */
  lemma TakeLength<T>(s: seq<T>, n: nat)
    ensures |Take(s, n)| == if |s| <= n then |s| else n
    ensures Take(s, n) == s[..|Take(s, n)|]
  {
  }

  /** One search result as the provider returns it; any field may be missing. */
  datatype Item = Item(
    title: Option<string>, headline: Option<string>,
    snippet: Option<string>, summary: Option<string>, excerpt: Option<string>,
    url: Option<string>, link: Option<string>)

  /** The provider's response object. */
  datatype SearchResponse = SearchResponse(items: Option<seq<Item>>, results: Option<seq<Item>>)

  datatype Hit = Hit(title: string, snippet: string, url: Option<string>)

  /** The hits found for one ticker. */
  datatype Snippet = Snippet(ticker: string, hits: seq<Hit>)

  /** The query sent for a ticker. */
  function Query(t: string): string {
    t + " stock news"
  }

  /** `res?.items ?? res?.results ?? []`: `items` wins whenever present, even when empty. */
  function ItemsOf(res: SearchResponse): seq<Item> {
    match res.items
    case Some(xs) => xs
    case None => res.results.GetOr([])
  }

  /** The first non-empty of two optional strings, else the empty string. */
  function FirstText(a: Option<string>, b: Option<string>): (r: string)
    ensures Truthy(a) ==> r == a.value
    ensures !Truthy(a) && Truthy(b) ==> r == b.value
    ensures !Truthy(a) && !Truthy(b) ==> r == ""
  {
    OrElse(a, b).GetOr("")
  }

  /** A hit: title falls back to headline, snippet to summary then excerpt, url to link. */
  function ToHit(it: Item): Hit {
    Hit(FirstText(it.title, it.headline),
        FirstText(it.snippet, OrElse(it.summary, it.excerpt)),
        OrElse(it.url, it.link))
  }

  lemma ToHitFallbacks(it: Item)
    ensures ToHit(it).title == (if Truthy(it.title) then it.title.value else if Truthy(it.headline) then it.headline.value else "")
    ensures ToHit(it).snippet ==
      (if Truthy(it.snippet) then it.snippet.value
       else if Truthy(it.summary) then it.summary.value
       else if Truthy(it.excerpt) then it.excerpt.value else "")
    ensures Truthy(it.url) ==> ToHit(it).url == it.url
    ensures !Truthy(it.url) ==> ToHit(it).url == it.link
  {
  }

  /** The hits kept from one response: its first three items, mapped. */
  function Hits(res: SearchResponse): (r: seq<Hit>)
    ensures |r| <= MaxHits
    ensures |r| == |Take(ItemsOf(res), MaxHits)|
    ensures forall i :: 0 <= i < |r| ==> r[i] == ToHit(ItemsOf(res)[i])
  {
    var xs := Take(ItemsOf(res), MaxHits);
    seq(|xs|, i requires 0 <= i < |xs| => ToHit(xs[i]))
  }

  /** The loop body of `fetchWebContextForTickers` over a list of tickers; a throwing search is skipped. */
  function Collect(ts: seq<string>, search: string -> Outcome<SearchResponse>): seq<Snippet> {
    if ts == [] then []
    else
      (match search(Query(ts[0]))
       case Failure => []
       case Success(res) => [Snippet(ts[0], Hits(res))])
      + Collect(ts[1..], search)
  }

  /** `fetchWebContextForTickers`, written as the standalone helper it is meant to be. */
  function WebContext(ts: seq<string>, search: string -> Outcome<SearchResponse>): seq<Snippet> {
    Collect(Take(ts, MaxSearchTickers), search)
  }

  function SnippetTickers(ws: seq<Snippet>): (r: seq<string>)
    ensures |r| == |ws| && forall i :: 0 <= i < |ws| ==> r[i] == ws[i].ticker
  {
    seq(|ws|, i requires 0 <= i < |ws| => ws[i].ticker)
  }

  /** `a` is `b` with some elements left out, the rest kept in order. */
  predicate IsSubsequence(a: seq<string>, b: seq<string>)
    decreases |b|
  {
    if a == [] then true
    else if b == [] then false
    else if a[0] == b[0] then IsSubsequence(a[1..], b[1..])
    else IsSubsequence(a, b[1..])
  }

  lemma {:induction false} CollectSpec(ts: seq<string>, search: string -> Outcome<SearchResponse>)
    ensures |Collect(ts, search)| <= |ts|
    ensures IsSubsequence(SnippetTickers(Collect(ts, search)), ts)
    ensures forall t :: t in SnippetTickers(Collect(ts, search)) <==> t in ts && search(Query(t)).Success?
    ensures forall i :: 0 <= i < |Collect(ts, search)| ==>
              var w := Collect(ts, search)[i];
              search(Query(w.ticker)).Success? && w.hits == Hits(search(Query(w.ticker)).data)
  {
    if ts != [] {
      CollectSpec(ts[1..], search);
      var rest := Collect(ts[1..], search);
      var r := Collect(ts, search);
      match search(Query(ts[0]))
      case Failure =>
        assert r == rest;
        SubsequenceSkip(SnippetTickers(rest), ts);
        forall t ensures t in SnippetTickers(r) <==> t in ts && search(Query(t)).Success? {
          assert t in ts <==> t == ts[0] || t in ts[1..] by { assert ts == [ts[0]] + ts[1..]; }
        }
      case Success(res) =>
        var w := Snippet(ts[0], Hits(res));
        assert r == [w] + rest;
        assert SnippetTickers(r) == [ts[0]] + SnippetTickers(rest);
        assert SnippetTickers(r)[1..] == SnippetTickers(rest);
        forall t ensures t in SnippetTickers(r) <==> t in ts && search(Query(t)).Success? {
          assert t in ts <==> t == ts[0] || t in ts[1..] by { assert ts == [ts[0]] + ts[1..]; }
        }
        forall i | 0 <= i < |r| ensures r[i].hits == Hits(search(Query(r[i].ticker)).data) {
          if i > 0 { assert r[i] == rest[i - 1]; }
        }
    }
  }

  /** Putting an element in front of the longer list keeps a subsequence a subsequence. */
  lemma SubsequenceSkip(a: seq<string>, b: seq<string>)
    requires b != [] && IsSubsequence(a, b[1..])
    ensures IsSubsequence(a, b)
    decreases |b|, 0
  {
    if a != [] && a[0] == b[0] {
      SubsequenceDrop(a, b[1..]);
    }
  }

  /** Dropping the head of a subsequence keeps it a subsequence. */
  lemma SubsequenceDrop(a: seq<string>, b: seq<string>)
    requires a != [] && IsSubsequence(a, b)
    ensures IsSubsequence(a[1..], b)
    decreases |b|, 1
  {
    if a[1..] != [] {
      if a[0] == b[0] {
        SubsequenceSkip(a[1..], b);
      } else {
        SubsequenceDrop(a, b[1..]);
        SubsequenceSkip(a[1..], b);
      }
    }
  }

  /**
   * Web context covers at most the first six tickers, each with at most three
   * hits; a ticker whose search threw is left out and the rest keep their order.
   */
  lemma WebContextSpec(ts: seq<string>, search: string -> Outcome<SearchResponse>)
    ensures |WebContext(ts, search)| <= MaxSearchTickers
    ensures forall i :: 0 <= i < |WebContext(ts, search)| ==> |WebContext(ts, search)[i].hits| <= MaxHits
    ensures IsSubsequence(SnippetTickers(WebContext(ts, search)), Take(ts, MaxSearchTickers))
    ensures forall t :: t in SnippetTickers(WebContext(ts, search)) <==>
              t in Take(ts, MaxSearchTickers) && search(Query(t)).Success?
    ensures forall i :: 0 <= i < |WebContext(ts, search)| ==>
              var w := WebContext(ts, search)[i];
              search(Query(w.ticker)).Success? && w.hits == Hits(search(Query(w.ticker)).data)
  {
    CollectSpec(Take(ts, MaxSearchTickers), search);
  }

  /** A price-map value: `null`, or the JSON text of `Number(price)`. */
  datatype PriceValue = Null | Price(json: string)

  /**
   * `out[s] = price ? Number(price) : null`, or `null` when the lookup threw.
   * `render` gives the JSON text of the number a price string coerces to.
   */
  function PriceOf(o: Outcome<Option<string>>, render: string -> string): PriceValue {
    match o
    case Failure => Null
    case Success(p) => if Truthy(p) then Price(render(p.value)) else Null
  }

  /** The price map after the loop has visited `ss`, keyed by symbol in creation order. */
  function Prices(ss: seq<string>, fetch: string -> Outcome<Option<string>>, render: string -> string): seq<(string, PriceValue)>
    decreases |ss|
  {
    if ss == [] then []
    else
      var s := ss[|ss| - 1];
      Put(Prices(ss[..|ss| - 1], fetch, render), s, PriceOf(fetch(s), render))
  }

  /** `fetchPricesAlphaVantage`: `{}` without a configured key, else one entry per symbol among the first five. */
  function PriceMap(ss: seq<string>, key: Option<string>, fetch: string -> Outcome<Option<string>>, render: string -> string)
    : seq<(string, PriceValue)>
  {
    if !Truthy(key) then [] else Prices(Take(ss, MaxPriceSymbols), fetch, render)
  }

  function Elements(ss: seq<string>): set<string> {
    set i | 0 <= i < |ss| :: ss[i]
  }

  predicate Distinct(ss: seq<string>) {
    forall i, j :: 0 <= i < j < |ss| ==> ss[i] != ss[j]
  }

  lemma ElementsSnoc(ss: seq<string>)
    requires ss != []
    ensures Elements(ss) == Elements(ss[..|ss| - 1]) + {ss[|ss| - 1]}
  {
    var p := ss[..|ss| - 1];
    forall x | x in Elements(ss) ensures x in Elements(p) + {ss[|ss| - 1]} {
      var i :| 0 <= i < |ss| && ss[i] == x;
      if i < |ss| - 1 { assert p[i] == x; }
    }
    forall x | x in Elements(p) ensures x in Elements(ss) {
      var i :| 0 <= i < |p| && p[i] == x;
      assert ss[i] == x;
    }
  }

  /** One key per symbol visited, each holding that symbol's price or `null`. */
  lemma {:induction false} PricesSpec(ss: seq<string>, fetch: string -> Outcome<Option<string>>, render: string -> string)
    ensures KeysOf(Prices(ss, fetch, render)) == Elements(ss)
    ensures DistinctKeys(Prices(ss, fetch, render))
    ensures forall i :: 0 <= i < |Prices(ss, fetch, render)| ==>
              Prices(ss, fetch, render)[i].1 == PriceOf(fetch(Prices(ss, fetch, render)[i].0), render)
    decreases |ss|
  {
    if ss != [] {
      var p := ss[..|ss| - 1];
      var s := ss[|ss| - 1];
      var m := Prices(p, fetch, render);
      var v := PriceOf(fetch(s), render);
      PricesSpec(p, fetch, render);
      PutKeys(m, s, v);
      ElementsSnoc(ss);
      var r := Put(m, s, v);
      assert r == Prices(ss, fetch, render);
      if s !in KeysOf(m) {
        forall i | 0 <= i < |r| ensures r[i].1 == PriceOf(fetch(r[i].0), render) {
          if i < |m| { assert r[i] == m[i]; }
        }
      }
    }
  }

  /** For distinct symbols the map lists them in the order visited. */
  lemma {:induction false} PricesInOrder(ss: seq<string>, fetch: string -> Outcome<Option<string>>, render: string -> string)
    requires Distinct(ss)
    ensures |Prices(ss, fetch, render)| == |ss|
    ensures forall i :: 0 <= i < |ss| ==> Prices(ss, fetch, render)[i] == (ss[i], PriceOf(fetch(ss[i]), render))
    decreases |ss|
  {
    if ss != [] {
      var p := ss[..|ss| - 1];
      var s := ss[|ss| - 1];
      PricesInOrder(p, fetch, render);
      PricesSpec(p, fetch, render);
      var m := Prices(p, fetch, render);
      assert s !in KeysOf(m) by {
        forall i | 0 <= i < |p| ensures p[i] != s {
          assert p[i] == ss[i];
        }
      }
      var r := Prices(ss, fetch, render);
      assert r == m + [(s, PriceOf(fetch(s), render))];
      forall i | 0 <= i < |ss| ensures r[i] == (ss[i], PriceOf(fetch(ss[i]), render)) {
        if i < |p| { assert r[i] == m[i] && p[i] == ss[i]; }
      }
    }
  }

  /**
   * The price map is `{}` without a key; with one, its keys are exactly the
   * first (at most five) symbols, each with its price or `null`.
   */
  lemma PriceMapSpec(ss: seq<string>, key: Option<string>, fetch: string -> Outcome<Option<string>>, render: string -> string)
    ensures !Truthy(key) ==> PriceMap(ss, key, fetch, render) == []
    ensures Truthy(key) ==> KeysOf(PriceMap(ss, key, fetch, render)) == Elements(Take(ss, MaxPriceSymbols))
    ensures DistinctKeys(PriceMap(ss, key, fetch, render))
    ensures forall i :: 0 <= i < |PriceMap(ss, key, fetch, render)| ==>
              PriceMap(ss, key, fetch, render)[i].1 == PriceOf(fetch(PriceMap(ss, key, fetch, render)[i].0), render)
    ensures PriceMap(ss, key, fetch, render) != [] <==> Truthy(key) && ss != []
  {
    if Truthy(key) {
      var t := Take(ss, MaxPriceSymbols);
      PricesSpec(t, fetch, render);
      if ss != [] {
        assert t[0] in Elements(t);
      }
    }
  }

  function ValueJson(v: PriceValue): string {
    match v
    case Null => "null"
    case Price(j) => j
  }

  /** One `"symbol":value` member. */
  function Member(e: (string, PriceValue)): string {
    Quote(e.0) + ":" + ValueJson(e.1)
  }

  /** The members of the price map's JSON text, in the object's own-key order. */
  function PriceMembers(m: seq<(string, PriceValue)>): seq<string> {
    MapSeq(Member, OwnOrder(m))
  }

  /** `JSON.stringify(prices)`. */
  function PricesJson(m: seq<(string, PriceValue)>): string {
    "{" + Join(PriceMembers(m), ",") + "}"
  }

  /**
   * Every entry of the map becomes exactly one member of its JSON text; with
   * no index-like symbol the members follow the map's creation order.
   */
  lemma {:induction false} PriceMembersSpec(m: seq<(string, PriceValue)>)
    ensures multiset(PriceMembers(m)) == multiset(MapSeq(Member, m))
    ensures (forall i :: 0 <= i < |m| ==> !IsArrayIndex(m[i].0)) ==> PriceMembers(m) == MapSeq(Member, m)
    ensures m == [] ==> PricesJson(m) == "{}"
  {
    assert multiset(OwnOrder(m)) == multiset(m) by {
      OwnOrderSpec(m);
    }
    MapSeqPermutes(Member, OwnOrder(m), m);
    if forall i :: 0 <= i < |m| ==> !IsArrayIndex(m[i].0) {
      OwnOrderNoIndices(m);
    }
    if m == [] {
      assert OwnOrder(m) == [] by {
        OwnOrderNoIndices(m);
      }
    }
  }

  /** One hit as listed in the web-context message. */
  function HitLine(h: Hit): string {
    "- " + h.title + "\n  " + h.snippet + "\n  " + h.url.GetOr("")
  }

  /** One ticker's block: a heading, then one line group per hit. */
  function SnippetText(w: Snippet): string {
    "Web search for " + w.ticker + ":\n" + Join(MapSeq(HitLine, w.hits), "\n")
  }

  function WebText(ws: seq<Snippet>): string {
    Join(MapSeq(SnippetText, ws), "\n\n")
  }

  const WebHeading: string := "Current web context for holdings:\n"
  const PriceHeading: string := "Latest prices (AlphaVantage): "

  function WebMessage(ws: seq<Snippet>): ModelMessage {
    UserTexts([WebHeading + WebText(ws)])
  }

  function PriceMessage(m: seq<(string, PriceValue)>): ModelMessage {
    UserTexts([PriceHeading + PricesJson(m)])
  }

  /** The external providers, as per-call outcomes. */
  datatype Providers = Providers(
    search: string -> Outcome<SearchResponse>,
    key: Option<string>,
    fetch: string -> Outcome<Option<string>>,
    render: string -> string)

  /** `holdings.map((h) => h.ticker).filter(Boolean)`. */
  function HoldingTickers(hs: seq<Holding>): seq<string> {
    if hs == [] then []
    else (if hs[0].ticker != "" then [hs[0].ticker] else []) + HoldingTickers(hs[1..])
  }

  /** The messages the enrichment block appends after the holdings message. */
  function Enrich(hs: seq<Holding>, env: Providers): seq<ModelMessage> {
    var ts := HoldingTickers(hs);
    if ts == [] then []
    else
      var web := WebContext(ts, env.search);
      var prices := PriceMap(ts, env.key, env.fetch, env.render);
      (if web != [] then [WebMessage(web)] else []) + (if prices != [] then [PriceMessage(prices)] else [])
  }

  /** Tickers of holdings that are all non-empty pass the filter unchanged. */
  lemma {:induction false} HoldingTickersAll(hs: seq<Holding>)
    requires forall i :: 0 <= i < |hs| ==> hs[i].ticker != ""
    ensures HoldingTickers(hs) == MapSeq((h: Holding) => h.ticker, hs)
  {
    if hs != [] {
      HoldingTickersAll(hs[1..]);
    }
  }

  /**
   * The web message is attached exactly when some search among the first six
   * tickers succeeded, even with no hits; the price message exactly when a key
   * is configured; the web message always comes first.
   */
  lemma EnrichSpec(hs: seq<Holding>, env: Providers)
    ensures var ts := HoldingTickers(hs);
            var webOk := exists i :: 0 <= i < |Take(ts, MaxSearchTickers)| && env.search(Query(Take(ts, MaxSearchTickers)[i])).Success?;
            var priced := Truthy(env.key) && ts != [];
            Enrich(hs, env) ==
              (if webOk then [WebMessage(WebContext(ts, env.search))] else []) +
              (if priced then [PriceMessage(PriceMap(ts, env.key, env.fetch, env.render))] else [])
    ensures |Enrich(hs, env)| <= 2
  {
    var ts := HoldingTickers(hs);
    var webOk := exists i :: 0 <= i < |Take(ts, MaxSearchTickers)| && env.search(Query(Take(ts, MaxSearchTickers)[i])).Success?;
    assert (WebContext(ts, env.search) != []) == webOk by {
      WebContextNonEmpty(ts, env.search);
    }
    assert (PriceMap(ts, env.key, env.fetch, env.render) != []) == (Truthy(env.key) && ts != []) by {
      PriceMapSpec(ts, env.key, env.fetch, env.render);
    }
  }

  /** The web message is present exactly when one of the searched tickers' searches succeeded. */
  lemma WebContextNonEmpty(ts: seq<string>, search: string -> Outcome<SearchResponse>)
    ensures WebContext(ts, search) != [] <==>
              exists i :: 0 <= i < |Take(ts, MaxSearchTickers)| && search(Query(Take(ts, MaxSearchTickers)[i])).Success?
  {
    var t6 := Take(ts, MaxSearchTickers);
    var web := WebContext(ts, search);
    WebContextSpec(ts, search);
    if exists i :: 0 <= i < |t6| && search(Query(t6[i])).Success? {
      var i :| 0 <= i < |t6| && search(Query(t6[i])).Success?;
      assert t6[i] in SnippetTickers(web);
    }
  }
}
