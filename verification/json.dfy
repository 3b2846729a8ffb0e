/**
 * The part of `JSON.stringify` the chat code relies on: string literals,
 * integers, and the `{"holdings":[{"ticker":…,"qty":…},…]}` payload. Each
 * encoder is paired with a decoder for the same grammar (RFC 8259), and the
 * round trips are proved.
 */
module Json {
  import opened Wrappers
  import opened Text
  import opened Holdings

  function HexDigit(d: nat): char
    requires d < 16
  {
    "0123456789abcdef"[d]
  }

  /** A character JSON must not write raw inside a string literal. */
  predicate NeedsEscape(c: char) {
    c == '\"' || c == '\\' || c < ' '
  }

  /** What `JSON.stringify` writes for one character of a string. */
  function EscapeChar(c: char): (r: string)
    ensures NeedsEscape(c) <==> r != [c]
    ensures r != []
  {
    if c == '\"' then "\\\""
    else if c == '\\' then "\\\\"
    else if c == '\U{8}' then "\\b"
    else if c == '\t' then "\\t"
    else if c == '\n' then "\\n"
    else if c == '\U{C}' then "\\f"
    else if c == '\r' then "\\r"
    else if c < ' ' then "\\u00" + [HexDigit(c as int / 16), HexDigit(c as int % 16)]
    else [c]
  }

  /** The body of a JSON string literal. */
  function EscapeBody(s: string): (r: string)
    ensures |r| >= |s|
    ensures (forall i :: 0 <= i < |s| ==> !NeedsEscape(s[i])) ==> r == s
  {
    if s == [] then [] else EscapeChar(s[0]) + EscapeBody(s[1..])
  }

  /** `JSON.stringify` of a string. */
  function Quote(s: string): (r: string)
    ensures |r| >= 2 && r[0] == '\"' && r[|r| - 1] == '\"'
    ensures (forall i :: 0 <= i < |s| ==> !NeedsEscape(s[i])) ==> r == "\"" + s + "\""
  {
    "\"" + EscapeBody(s) + "\""
  }

  /** `JSON.stringify` of a number that holds an integer. */
  function Int(n: int): (r: string)
    ensures r != []
  {
    IntToString(n)
  }

  function HexValue(c: char): (r: Option<nat>)
    ensures r.Some? ==> r.value < 16
  {
    if '0' <= c <= '9' then Some(c as int - '0' as int)
    else if 'a' <= c <= 'f' then Some(c as int - 'a' as int + 10)
    else if 'A' <= c <= 'F' then Some(c as int - 'A' as int + 10)
    else None
  }

  /** The code unit written by four hex digits. */
  function Hex4(t: string): Option<nat>
    requires |t| >= 4
  {
    match (HexValue(t[0]), HexValue(t[1]), HexValue(t[2]), HexValue(t[3]))
    case (Some(a), Some(b), Some(c), Some(d)) => Some(((a * 16 + b) * 16 + c) * 16 + d)
    case _ => None
  }

  /**
   * The character an escape stands for, given the text after the backslash, and
   * what follows the escape. A `\u` escape naming a surrogate is refused: it is
   * never produced for a well-formed string.
   */
  function DecodeEscape(t: string): (r: Option<(char, string)>)
    ensures r.Some? ==> |r.value.1| < |t|
  {
    if t == [] then None
    else if t[0] == '\"' then Some(('\"', t[1..]))
    else if t[0] == '\\' then Some(('\\', t[1..]))
    else if t[0] == '/' then Some(('/', t[1..]))
    else if t[0] == 'b' then Some(('\U{8}', t[1..]))
    else if t[0] == 't' then Some(('\t', t[1..]))
    else if t[0] == 'n' then Some(('\n', t[1..]))
    else if t[0] == 'f' then Some(('\U{C}', t[1..]))
    else if t[0] == 'r' then Some(('\r', t[1..]))
    else if t[0] == 'u' && |t| >= 5 then
      match Hex4(t[1..5])
      case Some(v) => if v < 0xD800 || 0xE000 <= v then Some((v as char, t[5..])) else None
      case None => None
    else None
  }

  function Cons(c: char, o: Option<(string, string)>): Option<(string, string)> {
    match o
    case None => None
    case Some((s, rest)) => Some(([c] + s, rest))
  }

  /**
   * Reads the body of a string literal up to its closing quote: the text it
   * stands for and what follows the quote. Raw control characters are refused.
   */
  function DecodeString(t: string): (r: Option<(string, string)>)
    ensures r.Some? ==> |r.value.1| < |t|
    decreases |t|
  {
    if t == [] then None
    else if t[0] == '\"' then Some(([], t[1..]))
    else if t[0] == '\\' then
      match DecodeEscape(t[1..])
      case None => None
      case Some((c, u)) => Cons(c, DecodeString(u))
    else if t[0] < ' ' then None
    else Cons(t[0], DecodeString(t[1..]))
  }

  lemma ControlEscape(c: char, u: string)
    requires c < ' '
    ensures DecodeEscape("u00" + [HexDigit(c as int / 16), HexDigit(c as int % 16)] + u) == Some((c, u))
  {
    var hi, lo := c as int / 16, c as int % 16;
    var t := "u00" + [HexDigit(hi), HexDigit(lo)] + u;
    assert t[0] == 'u' && t[1..5] == ['0', '0', HexDigit(hi), HexDigit(lo)];
    assert HexValue(HexDigit(hi)) == Some(hi);
    assert HexValue(HexDigit(lo)) == Some(lo);
    assert Hex4(t[1..5]) == Some(c as int);
    assert t[5..] == u;
  }

  /** An escaped character is a backslash followed by an escape that decodes back to it. */
  lemma EscapeTail(c: char, u: string)
    requires NeedsEscape(c)
    ensures EscapeChar(c)[0] == '\\'
    ensures DecodeEscape(EscapeChar(c)[1..] + u) == Some((c, u))
  {
    var e := EscapeChar(c);
    if c == '\"' || c == '\\' || c == '\U{8}' || c == '\t' || c == '\n' || c == '\U{C}' || c == '\r' {
      assert |e| == 2;
      assert (e[1..] + u)[0] == e[1] && (e[1..] + u)[1..] == u;
    } else {
      ControlEscape(c, u);
      assert e[1..] == "u00" + [HexDigit(c as int / 16), HexDigit(c as int % 16)];
    }
  }

  /** Decoding one escaped character and then the rest. */
  lemma DecodeEscapedChar(c: char, u: string)
    ensures DecodeString(EscapeChar(c) + u) == Cons(c, DecodeString(u))
  {
    var t := EscapeChar(c) + u;
    if !NeedsEscape(c) {
      assert t[0] == c && t[1..] == u;
    } else {
      EscapeTail(c, u);
      assert t[0] == '\\' && t[1..] == EscapeChar(c)[1..] + u;
    }
  }

  /** A string literal decodes to the string it was written from, and stops at its closing quote. */
  lemma {:induction false} StringRoundTrip(s: string, rest: string)
    ensures DecodeString(EscapeBody(s) + "\"" + rest) == Some((s, rest))
  {
    if s == [] {
      assert EscapeBody(s) + "\"" + rest == "\"" + rest;
    } else {
      var x := EscapeBody(s[1..]) + "\"" + rest;
      calc {
        DecodeString(EscapeBody(s) + "\"" + rest);
        { assert EscapeBody(s) + "\"" + rest == EscapeChar(s[0]) + x; }
        DecodeString(EscapeChar(s[0]) + x);
        { DecodeEscapedChar(s[0], x); }
        Cons(s[0], DecodeString(x));
        { StringRoundTrip(s[1..], rest); }
        Cons(s[0], Some((s[1..], rest)));
        { assert [s[0]] + s[1..] == s; }
        Some((s, rest));
      }
    }
  }

  /** Length of the run of decimal digits that starts `t`. */
  function DigitRun(t: string): (k: nat)
    ensures k <= |t|
    ensures forall i :: 0 <= i < k ==> IsDigit(t[i])
    ensures k < |t| ==> !IsDigit(t[k])
  {
    if t == [] || !IsDigit(t[0]) then 0 else 1 + DigitRun(t[1..])
  }

  /** Reads an integer (`-`? digits) at the head of `t`, and what follows it. */
  function ParseInt(t: string): (r: Option<(int, string)>)
    ensures r.Some? ==> |r.value.1| < |t|
  {
    if t != [] && t[0] == '-' then
      var k := DigitRun(t[1..]);
      var v: int := DigitsValue(t[1..][..k]);
      if k == 0 then None else Some((-v, t[1..][k..]))
    else
      var k := DigitRun(t);
      var v: int := DigitsValue(t[..k]);
      if k == 0 then None else Some((v, t[k..]))
  }

  lemma DigitRunAppend(d: string, rest: string)
    requires forall i :: 0 <= i < |d| ==> IsDigit(d[i])
    requires rest == [] || !IsDigit(rest[0])
    ensures DigitRun(d + rest) == |d|
  {
    if d != [] {
      assert (d + rest)[1..] == d[1..] + rest;
      DigitRunAppend(d[1..], rest);
    } else {
      assert d + rest == rest;
    }
  }

  /** An integer reads back from its rendering when a non-digit follows it. */
  lemma IntRoundTrip(n: int, rest: string)
    requires rest == [] || !IsDigit(rest[0])
    ensures ParseInt(Int(n) + rest) == Some((n, rest))
  {
    if n < 0 {
      var d := NatToString(-n);
      assert (Int(n) + rest)[1..] == d + rest;
      DigitRunAppend(d, rest);
      assert (d + rest)[..|d|] == d && (d + rest)[|d|..] == rest;
    } else {
      var d := NatToString(n);
      DigitRunAppend(d, rest);
      assert (d + rest)[..|d|] == d && (d + rest)[|d|..] == rest;
    }
  }

  /** One element of the holdings array: `{"ticker":…,"qty":…}`. */
  function HoldingJson(h: Holding): string {
    "{\"ticker\":" + Quote(h.ticker) + ",\"qty\":" + Int(h.qty) + "}"
  }

  /** The elements of the holdings array, comma-separated. */
  function ItemsJson(hs: seq<Holding>): string {
    if hs == [] then ""
    else if |hs| == 1 then HoldingJson(hs[0])
    else HoldingJson(hs[0]) + "," + ItemsJson(hs[1..])
  }

  /** The element list is `hs.map(HoldingJson).join(",")`. */
  lemma {:induction false} ItemsJsonIsJoin(hs: seq<Holding>)
    ensures ItemsJson(hs) == Join(seq(|hs|, i requires 0 <= i < |hs| => HoldingJson(hs[i])), ",")
  {
    var parts := seq(|hs|, i requires 0 <= i < |hs| => HoldingJson(hs[i]));
    if |hs| >= 2 {
      ItemsJsonIsJoin(hs[1..]);
      assert parts[1..] == seq(|hs[1..]|, i requires 0 <= i < |hs[1..]| => HoldingJson(hs[1..][i]));
    }
  }

  /** `JSON.stringify({ holdings })`. */
  function HoldingsJson(hs: seq<Holding>): (r: string)
    ensures StartsWith(r, "{\"holdings\":[") && EndsWith(r, "]}")
  {
    "{\"holdings\":[" + ItemsJson(hs) + "]}"
  }

  function DecodeHolding(t: string): (r: Option<(Holding, string)>)
    ensures r.Some? ==> |r.value.1| < |t|
  {
    if !StartsWith(t, "{\"ticker\":\"") then None
    else match DecodeString(t[11..])
      case None => None
      case Some((tk, u)) =>
        if !StartsWith(u, ",\"qty\":") then None
        else match ParseInt(u[7..])
          case None => None
          case Some((n, w)) => if StartsWith(w, "}") then Some((Holding(tk, n), w[1..])) else None
  }

  /** Reads one or more comma-separated holdings, and what follows the last one. */
  function DecodeItems(t: string): (r: Option<(seq<Holding>, string)>)
    decreases |t|
  {
    match DecodeHolding(t)
    case None => None
    case Some((h, u)) =>
      if StartsWith(u, ",") then
        match DecodeItems(u[1..])
        case None => None
        case Some((hs, w)) => Some(([h] + hs, w))
      else Some(([h], u))
  }

  /** Reads a holdings payload back. */
  function DecodeHoldingsJson(t: string): Option<seq<Holding>> {
    if !StartsWith(t, "{\"holdings\":[") then None
    else if t[13..] == "]}" then Some([])
    else match DecodeItems(t[13..])
      case Some((hs, w)) => if w == "]}" then Some(hs) else None
      case None => None
  }

  lemma DecodeHoldingParts(t: string, tk: string, tail: string, n: int, w: string)
    requires StartsWith(t, "{\"ticker\":\"") && DecodeString(t[11..]) == Some((tk, tail))
    requires StartsWith(tail, ",\"qty\":") && ParseInt(tail[7..]) == Some((n, w))
    requires StartsWith(w, "}")
    ensures DecodeHolding(t) == Some((Holding(tk, n), w[1..]))
  {
  }

  lemma TickerPart(tk: string, tail: string)
    ensures StartsWith("{\"ticker\":" + Quote(tk) + tail, "{\"ticker\":\"")
    ensures DecodeString(("{\"ticker\":" + Quote(tk) + tail)[11..]) == Some((tk, tail))
  {
    var t := "{\"ticker\":" + Quote(tk) + tail;
    assert t == "{\"ticker\":\"" + (EscapeBody(tk) + "\"" + tail);
    assert t[11..] == EscapeBody(tk) + "\"" + tail;
    StringRoundTrip(tk, tail);
  }

  lemma QtyPart(n: int, rest: string)
    ensures StartsWith(",\"qty\":" + Int(n) + "}" + rest, ",\"qty\":")
    ensures ParseInt((",\"qty\":" + Int(n) + "}" + rest)[7..]) == Some((n, "}" + rest))
  {
    var tail := ",\"qty\":" + Int(n) + "}" + rest;
    assert tail[7..] == Int(n) + ("}" + rest);
    assert !IsDigit(("}" + rest)[0]);
    IntRoundTrip(n, "}" + rest);
  }

  lemma HoldingRoundTrip(h: Holding, rest: string)
    ensures DecodeHolding(HoldingJson(h) + rest) == Some((h, rest))
  {
    var w := "}" + rest;
    var tail := ",\"qty\":" + Int(h.qty) + "}" + rest;
    var t := "{\"ticker\":" + Quote(h.ticker) + tail;
    assert HoldingJson(h) + rest == t by {
      RegroupTail("{\"ticker\":", Quote(h.ticker), ",\"qty\":", Int(h.qty), "}", rest);
    }
    TickerPart(h.ticker, tail);
    QtyPart(h.qty, rest);
    ConsTail('}', rest);
    DecodeHoldingParts(t, h.ticker, tail, h.qty, w);
  }

  lemma RegroupTail<T>(a: seq<T>, b: seq<T>, c: seq<T>, d: seq<T>, e: seq<T>, f: seq<T>)
    ensures a + b + c + d + e + f == a + b + (c + d + e + f)
  {
  }

  lemma ConsTail(c: char, rest: string)
    ensures StartsWith([c] + rest, [c]) && ([c] + rest)[1..] == rest
  {
  }

  lemma DecodeItemsMore(t: string, h: Holding, u: string, hs: seq<Holding>, w: string)
    requires DecodeHolding(t) == Some((h, u)) && StartsWith(u, ",") && DecodeItems(u[1..]) == Some((hs, w))
    ensures DecodeItems(t) == Some(([h] + hs, w))
  {
  }

  lemma DecodeItemsLast(t: string, h: Holding, u: string)
    requires DecodeHolding(t) == Some((h, u)) && !StartsWith(u, ",")
    ensures DecodeItems(t) == Some(([h], u))
  {
  }

  lemma ItemsOne(hs: seq<Holding>, rest: string)
    requires |hs| == 1 && !StartsWith(rest, ",")
    ensures DecodeItems(ItemsJson(hs) + rest) == Some((hs, rest))
  {
    assert ItemsJson(hs) == HoldingJson(hs[0]);
    HoldingRoundTrip(hs[0], rest);
    DecodeItemsLast(ItemsJson(hs) + rest, hs[0], rest);
    assert [hs[0]] == hs;
  }

  lemma ItemsMore(hs: seq<Holding>, rest: string)
    requires |hs| >= 2
    requires DecodeItems(ItemsJson(hs[1..]) + rest) == Some((hs[1..], rest))
    ensures DecodeItems(ItemsJson(hs) + rest) == Some((hs, rest))
  {
    var a, b := HoldingJson(hs[0]), ItemsJson(hs[1..]);
    assert ItemsJson(hs) == a + "," + b;
    HoldingRoundTrip(hs[0], "," + (b + rest));
    CommaThen(a, hs, b, rest);
  }

  lemma CommaThen(a: string, hs: seq<Holding>, b: string, rest: string)
    requires |hs| >= 1
    requires DecodeHolding(a + ("," + (b + rest))) == Some((hs[0], "," + (b + rest)))
    requires DecodeItems(b + rest) == Some((hs[1..], rest))
    ensures DecodeItems(a + "," + b + rest) == Some((hs, rest))
  {
    CommaSplit(a, b + rest);
    CommaAssoc(a, b, rest);
    DecodeItemsMore(a + ("," + (b + rest)), hs[0], "," + (b + rest), hs[1..], rest);
    HeadTail(hs);
  }

  lemma CommaAssoc(a: string, b: string, c: string)
    ensures a + "," + b + c == a + ("," + (b + c))
  {
  }

  lemma CommaSplit(a: string, v: string)
    ensures StartsWith("," + v, ",") && ("," + v)[1..] == v
  {
  }

  lemma HeadTail<T>(s: seq<T>)
    requires |s| >= 1
    ensures [s[0]] + s[1..] == s
  {
  }

  lemma {:induction false} ItemsRoundTrip(hs: seq<Holding>, rest: string)
    requires hs != []
    requires !StartsWith(rest, ",")
    ensures DecodeItems(ItemsJson(hs) + rest) == Some((hs, rest))
  {
    if |hs| == 1 {
      ItemsOne(hs, rest);
    } else {
      ItemsRoundTrip(hs[1..], rest);
      ItemsMore(hs, rest);
    }
  }

  lemma DecodeHoldingsParts(t: string, hs: seq<Holding>)
    requires StartsWith(t, "{\"holdings\":[") && t[13..] != "]}" && DecodeItems(t[13..]) == Some((hs, "]}"))
    ensures DecodeHoldingsJson(t) == Some(hs)
  {
  }

  /** The holdings payload reads back as exactly the holdings it was written from. */
  lemma HoldingsRoundTrip(hs: seq<Holding>)
    ensures DecodeHoldingsJson(HoldingsJson(hs)) == Some(hs)
  {
    HoldingsBody(ItemsJson(hs));
    if hs != [] {
      assert "]}"[..1][0] != ',';
      ItemsRoundTrip(hs, "]}");
      ItemsOpenBrace(hs);
      DecodeHoldingsParts(HoldingsJson(hs), hs);
    }
  }

  lemma HoldingsBody(body: string)
    ensures StartsWith("{\"holdings\":[" + body + "]}", "{\"holdings\":[")
    ensures ("{\"holdings\":[" + body + "]}")[13..] == body + "]}"
  {
  }

  lemma ItemsOpenBrace(hs: seq<Holding>)
    requires hs != []
    ensures ItemsJson(hs) != [] && ItemsJson(hs)[0] == '{'
  {
    assert HoldingJson(hs[0])[0] == '{';
  }

  /** Different holdings lists never produce the same payload. */
  lemma HoldingsJsonInjective(a: seq<Holding>, b: seq<Holding>)
    ensures HoldingsJson(a) == HoldingsJson(b) ==> a == b
  {
    HoldingsRoundTrip(a);
    HoldingsRoundTrip(b);
  }
}
