/**
 * The chat page's file uploader: which files it reads, how it escapes the
 * file name, and the single message it sends for a picked file.
 */
module Uploader {
  import opened Wrappers
  import opened Text

  /** `s.replace(/c/g, rep)` for a single character `c` and a replacement with no `$` pattern. */
  function ReplaceAll(s: string, c: char, rep: string): string
    decreases |s|
  {
    if s == [] then [] else (if s[0] == c then rep else [s[0]]) + ReplaceAll(s[1..], c, rep)
  }

  lemma {:induction false} ReplaceAllAppend(a: string, b: string, c: char, rep: string)
    ensures ReplaceAll(a + b, c, rep) == ReplaceAll(a, c, rep) + ReplaceAll(b, c, rep)
    decreases |a|
  {
    if a != [] {
      assert (a + b)[0] == a[0];
      assert (a + b)[1..] == a[1..] + b;
      ReplaceAllAppend(a[1..], b, c, rep);
    } else {
      assert a + b == b;
    }
  }

  lemma {:induction false} ReplaceAllAbsent(s: string, c: char, rep: string)
    requires c !in s
    ensures ReplaceAll(s, c, rep) == s
    decreases |s|
  {
    if s != [] {
      ReplaceAllAbsent(s[1..], c, rep);
    }
  }

  /** `escapeHtml`: three successive global replacements, `&` first. */
  function EscapeHtml(s: string): string {
    ReplaceAll(ReplaceAll(ReplaceAll(s, '&', "&amp;"), '<', "&lt;"), '>', "&gt;")
  }

  /** The reference: each special character's entity, every other character kept. */
  function EscapeChar(c: char): string {
    if c == '&' then "&amp;" else if c == '<' then "&lt;" else if c == '>' then "&gt;" else [c]
  }

  /** The per-character entity map over a whole string. */
  function EscapeRef(s: string): string
    decreases |s|
  {
    if s == [] then [] else EscapeChar(s[0]) + EscapeRef(s[1..])
  }

  lemma EscapeHtmlAppend(a: string, b: string)
    ensures EscapeHtml(a + b) == EscapeHtml(a) + EscapeHtml(b)
  {
    var a1, b1 := ReplaceAll(a, '&', "&amp;"), ReplaceAll(b, '&', "&amp;");
    ReplaceAllAppend(a, b, '&', "&amp;");
    var a2, b2 := ReplaceAll(a1, '<', "&lt;"), ReplaceAll(b1, '<', "&lt;");
    ReplaceAllAppend(a1, b1, '<', "&lt;");
    ReplaceAllAppend(a2, b2, '>', "&gt;");
  }

  lemma ReplaceOne(c: char, d: char, rep: string)
    ensures ReplaceAll([c], d, rep) == if c == d then rep else [c]
  {
    assert [c][1..] == [];
  }

  lemma EscapeHtmlChar(c: char)
    ensures EscapeHtml([c]) == EscapeChar(c)
  {
    ReplaceOne(c, '&', "&amp;");
    var a := ReplaceAll([c], '&', "&amp;");
    if c == '&' {
      assert '<' !in a && '>' !in a;
      ReplaceAllAbsent(a, '<', "&lt;");
      ReplaceAllAbsent(a, '>', "&gt;");
    } else {
      ReplaceOne(c, '<', "&lt;");
      var b := ReplaceAll(a, '<', "&lt;");
      if c == '<' {
        assert '>' !in b;
        ReplaceAllAbsent(b, '>', "&gt;");
      } else {
        ReplaceOne(c, '>', "&gt;");
      }
    }
  }

  /** The three passes act as the per-character entity map: no entity is escaped twice. */
  lemma {:induction false} EscapeHtmlIsMap(s: string)
    ensures EscapeHtml(s) == EscapeRef(s)
    decreases |s|
  {
    if s == [] {
      assert EscapeHtml(s) == [];
    } else {
      assert s == [s[0]] + s[1..];
      EscapeHtmlAppend([s[0]], s[1..]);
      EscapeHtmlChar(s[0]);
      EscapeHtmlIsMap(s[1..]);
    }
  }

  /** A character no entity introduces is in the output only if it was in the input. */
  lemma {:induction false} EscapeRefAvoids(s: string, d: char)
    requires d != '&' && d != ';' && !('a' <= d <= 'z') && d !in s
    ensures d !in EscapeRef(s)
    decreases |s|
  {
    if s != [] {
      EscapeRefAvoids(s[1..], d);
    }
  }

  /** The output holds no angle bracket, whatever the input. */
  lemma {:induction false} EscapeRefNoAngles(s: string)
    ensures '<' !in EscapeRef(s) && '>' !in EscapeRef(s)
    decreases |s|
  {
    if s != [] {
      EscapeRefNoAngles(s[1..]);
    }
  }

  lemma EscapeHtmlNoAngles(s: string)
    ensures '<' !in EscapeHtml(s) && '>' !in EscapeHtml(s)
  {
    EscapeHtmlIsMap(s);
    EscapeRefNoAngles(s);
  }

  /** A double quote is never introduced, and is not escaped either. */
  lemma EscapeHtmlQuotes(s: string)
    ensures '"' in EscapeHtml(s) <==> '"' in s
  {
    EscapeHtmlIsMap(s);
    if '"' !in s {
      EscapeRefAvoids(s, '"');
    } else {
      QuoteKept(s);
    }
  }

  lemma {:induction false} QuoteKept(s: string)
    requires '"' in s
    ensures '"' in EscapeRef(s)
    decreases |s|
  {
    if s[0] == '"' {
      assert EscapeRef(s)[0] == '"';
    } else {
      assert '"' in s[1..];
      QuoteKept(s[1..]);
      var t := EscapeRef(s[1..]);
      var i :| 0 <= i < |t| && t[i] == '"';
      assert EscapeRef(s)[|EscapeChar(s[0])| + i] == '"';
    }
  }

  /** Every `&` grows by four characters, every `<` and `>` by three. */
  lemma {:induction false} EscapeLength(s: string)
    ensures |EscapeRef(s)| == |s| + 4 * Count(s, '&') + 3 * (Count(s, '<') + Count(s, '>'))
    decreases |s|
  {
    if s != [] {
      EscapeLength(s[1..]);
    }
  }

  lemma {:induction false} EscapeRefIdentity(s: string)
    requires '&' !in s && '<' !in s && '>' !in s
    ensures EscapeRef(s) == s
    decreases |s|
  {
    if s != [] {
      EscapeRefIdentity(s[1..]);
    }
  }

  predicate HasSpecial(s: string) {
    '&' in s || '<' in s || '>' in s
  }

  lemma {:induction false} CountPositive(s: string, c: char)
    requires c in s
    ensures Count(s, c) > 0
    decreases |s|
  {
    if s[0] != c {
      assert c in s[1..];
      CountPositive(s[1..], c);
    }
  }

  /**
   * The length of the escaped name, and escaping leaves a string unchanged
   * exactly when it holds none of `&`, `<`, `>`.
   */
  lemma EscapeHtmlLength(s: string)
    ensures |EscapeHtml(s)| == |s| + 4 * Count(s, '&') + 3 * (Count(s, '<') + Count(s, '>'))
    ensures EscapeHtml(s) == s <==> !HasSpecial(s)
  {
    EscapeHtmlIsMap(s);
    EscapeLength(s);
    if '&' in s {
      CountPositive(s, '&');
    } else if '<' in s {
      CountPositive(s, '<');
    } else if '>' in s {
      CountPositive(s, '>');
    } else {
      EscapeRefIdentity(s);
    }
  }

  /** The reference decoder: the three entities back to their characters, anything else kept. */
  function Unescape(t: string): string
    decreases |t|
  {
    if t == [] then []
    else if StartsWith(t, "&amp;") then "&" + Unescape(t[5..])
    else if StartsWith(t, "&lt;") then "<" + Unescape(t[4..])
    else if StartsWith(t, "&gt;") then ">" + Unescape(t[4..])
    else [t[0]] + Unescape(t[1..])
  }

  lemma UnescapeAmp(rest: string)
    ensures Unescape("&amp;" + rest) == "&" + Unescape(rest)
  {
    var t := "&amp;" + rest;
    assert t[..5] == "&amp;" && t[5..] == rest;
  }

  lemma UnescapeLt(rest: string)
    ensures Unescape("&lt;" + rest) == "<" + Unescape(rest)
  {
    var t := "&lt;" + rest;
    assert t[..4] == "&lt;" && t[4..] == rest;
    assert t[1] == 'l';
  }

  lemma UnescapeGt(rest: string)
    ensures Unescape("&gt;" + rest) == ">" + Unescape(rest)
  {
    var t := "&gt;" + rest;
    assert t[..4] == "&gt;" && t[4..] == rest;
    assert t[1] == 'g';
  }

  lemma UnescapePlain(c: char, rest: string)
    requires c != '&'
    ensures Unescape([c] + rest) == [c] + Unescape(rest)
  {
    var t := [c] + rest;
    assert t[0] == c && t[1..] == rest;
  }

  lemma UnescapeOne(c: char, rest: string)
    ensures Unescape(EscapeChar(c) + rest) == [c] + Unescape(rest)
  {
    if c == '&' {
      UnescapeAmp(rest);
    } else if c == '<' {
      UnescapeLt(rest);
    } else if c == '>' {
      UnescapeGt(rest);
    } else {
      UnescapePlain(c, rest);
    }
  }

  /** Decoding the escaped text gives the original back. */
  lemma {:induction false} UnescapeRoundTrip(s: string)
    ensures Unescape(EscapeHtml(s)) == s
  {
    EscapeHtmlIsMap(s);
    MapRoundTrip(s);
  }

  lemma {:induction false} MapRoundTrip(s: string)
    ensures Unescape(EscapeRef(s)) == s
    decreases |s|
  {
    if s != [] {
      UnescapeOne(s[0], EscapeRef(s[1..]));
      MapRoundTrip(s[1..]);
    }
  }

  /** `s.split(sep)` for a one-character separator. */
  function Split(s: string, sep: char): (parts: seq<string>)
    ensures |parts| >= 1
    decreases |s|
  {
    if s == [] then [""]
    else
      var rest := Split(s[1..], sep);
      if s[0] == sep then [""] + rest else [[s[0]] + rest[0]] + rest[1..]
  }

  lemma JoinCons(p: string, ps: seq<string>, sep: string)
    requires ps != []
    ensures Join([p] + ps, sep) == p + sep + Join(ps, sep)
  {
    assert ([p] + ps)[1..] == ps;
  }

  /** Splitting and joining with the same separator gives the string back. */
  lemma {:induction false} SplitJoin(s: string, sep: char)
    ensures Join(Split(s, sep), [sep]) == s
    decreases |s|
  {
    if s != [] {
      var rest := Split(s[1..], sep);
      SplitJoin(s[1..], sep);
      assert s == [s[0]] + s[1..];
      if s[0] == sep {
        JoinCons("", rest, [sep]);
      } else if |rest| == 1 {
        assert Split(s, sep) == [[s[0]] + rest[0]];
      } else {
        assert rest == [rest[0]] + rest[1..];
        JoinCons(rest[0], rest[1..], [sep]);
        JoinCons([s[0]] + rest[0], rest[1..], [sep]);
      }
    }
  }

  /** No part holds the separator, and there is one part more than separators. */
  lemma {:induction false} SplitParts(s: string, sep: char)
    ensures forall i :: 0 <= i < |Split(s, sep)| ==> sep !in Split(s, sep)[i]
    ensures |Split(s, sep)| == Count(s, sep) + 1
    decreases |s|
  {
    if s != [] {
      var rest := Split(s[1..], sep);
      SplitParts(s[1..], sep);
      var parts := Split(s, sep);
      if s[0] == sep {
        assert parts == [""] + rest;
      } else {
        assert parts == [[s[0]] + rest[0]] + rest[1..];
        forall i | 0 <= i < |parts| ensures sep !in parts[i] {
          if i > 0 {
            assert parts[i] == rest[i];
          }
        }
      }
    }
  }

  /** `name.split(".").pop()`: never undefined, because a split has at least one part. */
  function LastSegment(name: string): string {
    var parts := Split(name, '.');
    parts[|parts| - 1]
  }

  /** `e` is the text after the last dot of `name`, or all of it when there is no dot. */
  predicate IsLastSegment(name: string, e: string) {
    && '.' !in e
    && EndsWith(name, e)
    && (|e| == |name| <==> '.' !in name)
    && (|e| < |name| ==> name[|name| - |e| - 1] == '.')
  }

  lemma {:induction false} CountZero(s: string, c: char)
    ensures Count(s, c) == 0 <==> c !in s
    decreases |s|
  {
    if s != [] {
      CountZero(s[1..], c);
      assert c in s <==> s[0] == c || c in s[1..];
    }
  }

  lemma SegmentExtend(s: string, e: string)
    requires s != [] && IsLastSegment(s[1..], e)
    requires s[0] == '.' || '.' in s[1..]
    ensures IsLastSegment(s, e)
  {
    assert s[|s| - |e|..] == s[1..][|s| - 1 - |e|..];
    if '.' in s[1..] {
      assert s[|s| - |e| - 1] == s[1..][|s| - 1 - |e| - 1];
    }
  }

  /** The last segment is the text after the last dot, or the whole name when there is no dot. */
  lemma {:induction false} LastSegmentSpec(name: string)
    ensures IsLastSegment(name, LastSegment(name))
    decreases |name|
  {
    if name == [] {
      assert LastSegment(name) == "";
    } else {
      var rest := Split(name[1..], '.');
      LastSegmentSpec(name[1..]);
      assert |rest| == 1 <==> '.' !in name[1..] by {
        SplitParts(name[1..], '.');
        CountZero(name[1..], '.');
      }
      if name[0] != '.' && '.' !in name[1..] {
        assert rest[0] == LastSegment(name[1..]);
        assert rest[0] == name[1..];
        assert LastSegment(name) == name;
      } else {
        assert LastSegment(name) == LastSegment(name[1..]);
        SegmentExtend(name, LastSegment(name[1..]));
      }
    }
  }

  /** `name.split(".").pop()?.toLowerCase() || ""`. */
  function Extension(name: string): string {
    ToLower(LastSegment(name))
  }

  const AllowedTypes: seq<string> := ["text/plain", "application/json", "text/csv", "application/xml"]
  const AllowedExtensions: seq<string> := ["txt", "csv", "json", "xml"]

  /** The guard before reading: a listed MIME type, or else a listed extension. */
  predicate Accepts(name: string, mime: string) {
    mime in AllowedTypes || Extension(name) in AllowedExtensions
  }

  /**
   * A file is read exactly when its type is listed or the lower-cased text
   * after its last dot (the whole name, with no dot) is a listed extension.
   */
  lemma AcceptsSpec(name: string, mime: string)
    ensures Accepts(name, mime) <==>
              mime in AllowedTypes ||
              exists k :: 0 <= k <= |name| && '.' !in name[k..] && (k == 0 || name[k - 1] == '.') &&
                          ToLower(name[k..]) in AllowedExtensions
  {
    var e := LastSegment(name);
    LastSegmentSpec(name);
    assert IsLastSegment(name, e);
    var k0 := |name| - |e|;
    assert name[k0..] == e;
    forall k | 0 <= k <= |name| && '.' !in name[k..] && (k == 0 || name[k - 1] == '.')
      ensures k == k0
    {
    }
  }

  /** The file the input hands over: its name, its MIME type, and what reading it as text yields. */
  datatype PickedFile = PickedFile(name: string, mime: string, contents: Outcome<string>)

  /** `readFileAsText`: rejected before reading unless accepted, otherwise the reader's result. */
  function ReadFileAsText(f: PickedFile): (r: Outcome<string>)
    ensures r.Success? <==> Accepts(f.name, f.mime) && f.contents.Success?
  {
    if !Accepts(f.name, f.mime) then Failure else f.contents
  }

  const PayloadOpen := "<UPLOADED_FILE name=\""
  const PayloadMiddle := "\">\n"
  const PayloadClose := "\n</UPLOADED_FILE>\n"

  /** The block wrapping a read file for the assistant. */
  function Payload(name: string, text: string): string {
    PayloadOpen + EscapeHtml(name) + PayloadMiddle + text + PayloadClose
  }

  function UploadError(name: string): string {
    "[Upload error] Could not read file " + name
  }

  /** `handleFile`: the texts sent for a change of the file input. */
  function HandleFile(picked: Option<PickedFile>): seq<string> {
    match picked
    case None => []
    case Some(f) =>
      match ReadFileAsText(f)
      case Success(text) => [Payload(f.name, text)]
      case Failure => [UploadError(f.name)]
  }

  /** The first position of `c` in `s`. */
  function Find(s: string, c: char): (k: Option<nat>)
    ensures k.None? <==> c !in s
    ensures k.Some? ==> k.value < |s| && s[k.value] == c && c !in s[..k.value]
  {
    if s == [] then None
    else if s[0] == c then Some(0)
    else match Find(s[1..], c)
      case None => None
      case Some(k) =>
        assert s[..k + 1] == [s[0]] + s[1..][..k];
        Some(k + 1)
  }

  /** Reads the name and the text back out of an upload block. */
  function ReadPayload(m: string): Option<(string, string)> {
    if |m| < |PayloadOpen| + |PayloadClose| || !StartsWith(m, PayloadOpen) || !EndsWith(m, PayloadClose) then None
    else
      var body := m[|PayloadOpen|..|m| - |PayloadClose|];
      match Find(body, '"')
      case None => None
      case Some(k) =>
        if StartsWith(body[k..], PayloadMiddle) then Some((Unescape(body[..k]), body[k + |PayloadMiddle|..])) else None
  }

  lemma PayloadBody(n: string, text: string)
    ensures var m := PayloadOpen + n + PayloadMiddle + text + PayloadClose;
            && |m| >= |PayloadOpen| + |PayloadClose| && StartsWith(m, PayloadOpen) && EndsWith(m, PayloadClose)
            && m[|PayloadOpen|..|m| - |PayloadClose|] == n + (PayloadMiddle + text)
  {
    var m := PayloadOpen + n + PayloadMiddle + text + PayloadClose;
    assert m == PayloadOpen + (n + (PayloadMiddle + text)) + PayloadClose;
  }

  /**
   * For a name with no double quote, the block gives back the name and the
   * text exactly; a quote in the name is left unescaped, so no such promise
   * holds for it.
   */
  lemma PayloadRoundTrip(name: string, text: string)
    requires '"' !in name
    ensures ReadPayload(Payload(name, text)) == Some((name, text))
  {
    var n := EscapeHtml(name);
    EscapeHtmlQuotes(name);
    PayloadBody(n, text);
    var body := n + (PayloadMiddle + text);
    assert Find(body, '"') == Some(|n|) by {
      var k := Find(body, '"');
      assert body[|n|] == '"';
      assert '"' in body;
    }
    assert body[..|n|] == n;
    assert body[|n|..] == PayloadMiddle + text;
    assert body[|n| + |PayloadMiddle|..] == text;
    UnescapeRoundTrip(name);
  }

  /**
   * No file: nothing is sent. Otherwise exactly one message: the block when
   * the file is accepted and read, else the error line naming the file.
   */
  lemma HandleFileSpec(picked: Option<PickedFile>)
    ensures picked.None? ==> HandleFile(picked) == []
    ensures picked.Some? ==> |HandleFile(picked)| == 1
    ensures picked.Some? && Accepts(picked.value.name, picked.value.mime) && picked.value.contents.Success? ==>
              HandleFile(picked)[0] == Payload(picked.value.name, picked.value.contents.data)
    ensures picked.Some? && !(Accepts(picked.value.name, picked.value.mime) && picked.value.contents.Success?) ==>
              HandleFile(picked)[0] == UploadError(picked.value.name)
  {
  }
}
