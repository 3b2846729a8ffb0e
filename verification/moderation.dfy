/**
 * The moderation short-circuit of the chat route: the text of the latest user
 * message goes to a classifier, and a flagged verdict answers with a fixed
 * five-event stream instead of calling the model.
 */
module Moderation {
  import opened Wrappers
  import opened Text
  import opened Messages

  /** `messages.filter((msg) => msg.role === "user")`. */
  function UserMessages(ms: seq<UIMessage>): (r: seq<UIMessage>)
    ensures |r| <= |ms|
    ensures forall i :: 0 <= i < |r| ==> r[i].role == User
  {
    if ms == [] then []
    else UserMessages(ms[..|ms| - 1]) + (if ms[|ms| - 1].role == User then [ms[|ms| - 1]] else [])
  }

  /** `.pop()` of the filtered list: the message moderation looks at. */
  function LatestUser(ms: seq<UIMessage>): Option<UIMessage> {
    var us := UserMessages(ms);
    if us == [] then None else Some(us[|us| - 1])
  }

  /** The position of the last user message, searched from the end. */
  function LatestUserIndex(ms: seq<UIMessage>): (r: Option<nat>)
    ensures r.Some? ==> r.value < |ms| && ms[r.value].role == User
    ensures r.Some? ==> forall j :: r.value < j < |ms| ==> ms[j].role != User
    ensures r.None? <==> forall j :: 0 <= j < |ms| ==> ms[j].role != User
  {
    if ms == [] then None
    else if ms[|ms| - 1].role == User then Some(|ms| - 1)
    else LatestUserIndex(ms[..|ms| - 1])
  }

  /** Filtering and popping picks exactly the last message whose role is `user`. */
  lemma {:induction false} LatestUserIsLast(ms: seq<UIMessage>)
    ensures LatestUser(ms) == (match LatestUserIndex(ms) case None => None case Some(i) => Some(ms[i]))
  {
    if ms != [] {
      var p := ms[..|ms| - 1];
      if ms[|ms| - 1].role != User {
        assert UserMessages(ms) == UserMessages(p) + [];
        LatestUserIsLast(p);
        assert LatestUserIndex(ms) == LatestUserIndex(p);
        match LatestUserIndex(p)
        case None =>
        case Some(i) => assert p[i] == ms[i];
      }
    }
  }

  /** The texts of a UI message's text parts, in order. */
  function UITexts(ps: seq<UIPart>): seq<string> {
    if ps == [] then [] else (if ps[0].UIText? then [ps[0].text] else []) + UITexts(ps[1..])
  }

  /** `parts.filter(type === "text").map(text).join("")`. */
  function JoinedText(ps: seq<UIPart>): string {
    Join(UITexts(ps), "")
  }

  /** Plain concatenation, the reference for joining with the empty separator. */
  function Concat(xs: seq<string>): string {
    if xs == [] then "" else xs[0] + Concat(xs[1..])
  }

  lemma {:induction false} JoinEmpty(xs: seq<string>)
    ensures Join(xs, "") == Concat(xs)
  {
    if |xs| > 1 {
      JoinEmpty(xs[1..]);
    } else if |xs| == 1 {
      assert xs[1..] == [];
    }
  }

  lemma {:induction false} ConcatAppend(a: seq<string>, b: seq<string>)
    ensures Concat(a + b) == Concat(a) + Concat(b)
  {
    if a != [] {
      assert (a + b)[1..] == a[1..] + b;
      ConcatAppend(a[1..], b);
    } else {
      assert a + b == b;
    }
  }

  lemma {:induction false} UITextsAppend(a: seq<UIPart>, b: seq<UIPart>)
    ensures UITexts(a + b) == UITexts(a) + UITexts(b)
  {
    if a != [] {
      assert (a + b)[1..] == a[1..] + b;
      UITextsAppend(a[1..], b);
    } else {
      assert a + b == b;
    }
  }

  /** Text parts are joined with no separator: the text of two part lists is the concatenation of their texts. */
  lemma JoinedTextAppend(a: seq<UIPart>, b: seq<UIPart>)
    ensures JoinedText(a + b) == JoinedText(a) + JoinedText(b)
  {
    UITextsAppend(a, b);
    JoinEmpty(UITexts(a + b));
    JoinEmpty(UITexts(a));
    JoinEmpty(UITexts(b));
    ConcatAppend(UITexts(a), UITexts(b));
  }

  /** The joined text is empty exactly when every text part is empty; other parts never contribute. */
  lemma {:induction false} JoinedTextEmpty(ps: seq<UIPart>)
    ensures JoinedText(ps) == "" <==> forall i :: 0 <= i < |ps| && ps[i].UIText? ==> ps[i].text == ""
  {
    if ps != [] {
      assert ps == [ps[0]] + ps[1..];
      JoinedTextAppend([ps[0]], ps[1..]);
      JoinedTextEmpty(ps[1..]);
      assert UITexts([ps[0]]) == (if ps[0].UIText? then [ps[0].text] else []) by {
        assert [ps[0]][1..] == [];
      }
      forall i | 1 <= i < |ps| ensures ps[i] == ps[1..][i - 1] { }
    } else {
      JoinEmpty([]);
    }
  }

  /** The text handed to the classifier, or `None` when there is no user message or its text is empty. */
  function ModerationText(ms: seq<UIMessage>): Option<string> {
    match LatestUser(ms)
    case None => None
    case Some(m) => var t := JoinedText(m.parts); if t == "" then None else Some(t)
  }

  /** The classifier's verdict; `denialMessage` may be absent. */
  datatype Verdict = Verdict(flagged: bool, denialMessage: Option<string>)

  const DefaultDenial: string := "Your message violates our guidelines. I can't answer that."
  const DenialTextId: string := "moderation-denial-text"

  /** `moderationResult.denialMessage || default`. */
  function DenialText(v: Verdict): string {
    if Truthy(v.denialMessage) then v.denialMessage.value else DefaultDenial
  }

  /** The chunks of a UI message stream. */
  datatype StreamEvent =
    | Start
    | TextStart(id: string)
    | TextDelta(id: string, delta: string)
    | TextEnd(id: string)
    | Finish

  /** The stream written for a flagged message. */
  function DenialStream(msg: string): (r: seq<StreamEvent>)
    ensures |r| == 5 && r[0] == Start && r[4] == Finish
  {
    [Start, TextStart(DenialTextId), TextDelta(DenialTextId, msg), TextEnd(DenialTextId), Finish]
  }

  /**
   * What a stream consumer renders from text blocks: each block opens with
   * `text-start`, carries deltas for the same id and closes with `text-end`;
   * anything else is malformed.
   */
  function ReadBlocks(evs: seq<StreamEvent>, open: Option<string>): Option<string> {
    if evs == [] then (if open.None? then Some("") else None)
    else match evs[0]
      case TextStart(id) => if open.Some? then None else ReadBlocks(evs[1..], Some(id))
      case TextDelta(id, d) =>
        if open != Some(id) then None
        else (match ReadBlocks(evs[1..], open) case None => None case Some(t) => Some(d + t))
      case TextEnd(id) => if open != Some(id) then None else ReadBlocks(evs[1..], None)
      case _ => None
  }

  /** A whole stream: `start`, well-formed text blocks, `finish`. */
  function ReadStream(evs: seq<StreamEvent>): Option<string> {
    if |evs| >= 2 && evs[0] == Start && evs[|evs| - 1] == Finish then ReadBlocks(evs[1..|evs| - 1], None)
    else None
  }

  /** The denial stream is well formed, uses one id throughout, and renders exactly the denial message. */
  lemma DenialStreamReads(msg: string)
    ensures ReadStream(DenialStream(msg)) == Some(msg)
    ensures forall i :: 1 <= i <= 3 ==> DenialStream(msg)[i].id == DenialTextId
  {
    var id := DenialTextId;
    var evs := DenialStream(msg);
    var a: seq<StreamEvent> := [TextStart(id), TextDelta(id, msg), TextEnd(id)];
    var b: seq<StreamEvent> := [TextDelta(id, msg), TextEnd(id)];
    var c: seq<StreamEvent> := [TextEnd(id)];
    assert evs[1..|evs| - 1] == a;
    assert ReadBlocks(c, Some(id)) == Some("") by {
      assert c[1..] == [];
    }
    assert ReadBlocks(b, Some(id)) == Some(msg) by {
      assert b[1..] == c;
      assert msg + "" == msg;
    }
    assert ReadBlocks(a, None) == Some(msg) by {
      assert a[1..] == b;
    }
  }

  /** The denial text is never empty: the classifier's message when it is non-empty, else the fixed default. */
  lemma DenialTextSpec(v: Verdict)
    ensures DenialText(v) != ""
    ensures v.denialMessage.Some? && v.denialMessage.value != "" ==> DenialText(v) == v.denialMessage.value
    ensures v.denialMessage.None? || v.denialMessage.value == "" ==> DenialText(v) == DefaultDenial
  {
  }

  /** Whether the route answers with a denial or goes on to the model. */
  datatype Gate = Pass | Deny(events: seq<StreamEvent>)

  function Moderate(ms: seq<UIMessage>, classify: string -> Verdict): Gate {
    match ModerationText(ms)
    case None => Pass
    case Some(t) =>
      var v := classify(t);
      if v.flagged then Deny(DenialStream(DenialText(v))) else Pass
  }

  /**
   * The route denies exactly when the last user message has non-empty text
   * and the classifier flags that text; the denial renders the verdict's
   * message, or the default.
   */
  lemma ModerateSpec(ms: seq<UIMessage>, classify: string -> Verdict)
    ensures Moderate(ms, classify).Deny? <==>
      (LatestUserIndex(ms).Some? &&
       JoinedText(ms[LatestUserIndex(ms).value].parts) != "" &&
       classify(JoinedText(ms[LatestUserIndex(ms).value].parts)).flagged)
    ensures Moderate(ms, classify).Deny? ==>
      ReadStream(Moderate(ms, classify).events) ==
      Some(DenialText(classify(JoinedText(ms[LatestUserIndex(ms).value].parts))))
    ensures (forall i :: 0 <= i < |ms| ==> ms[i].role != User) ==> Moderate(ms, classify) == Pass
  {
    LatestUserIsLast(ms);
    match ModerationText(ms)
    case None =>
    case Some(t) => DenialStreamReads(DenialText(classify(t)));
  }
}
