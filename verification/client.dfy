/**
 * The chat page's side of a portfolio upload: the preview parsed when a file
 * is picked, and what pressing send posts to the chat.
 */
module Client {
  import opened Wrappers
  import opened Text
  import opened Holdings
  import opened Json
  import opened Assembler

  /**
   * `parseFileForPreview` once it settles: the normalised holdings for a
   * delimited or spreadsheet name whose contents parsed, `null` otherwise.
   */
  function Preview(u: Upload, num: NumberParser): Option<seq<Holding>> {
    if FileKindOf(u.name) == Unsupported then None
    else match u.parsed
      case Failure => None
      case Success(rows) => Some(Normalize(rows, num))
  }

  /**
   * A preview exists exactly for a supported name whose parse succeeded, and
   * is then the whole normalised list, never a partial one.
   */
  lemma PreviewSpec(u: Upload, num: NumberParser)
    ensures Preview(u, num).Some? <==> FileKindOf(u.name) != Unsupported && u.parsed.Success?
    ensures Preview(u, num).Some? ==> Preview(u, num).value == Normalize(u.parsed.data, num)
    ensures FileKindOf(u.name) == Unsupported ==> Preview(u, num) == None
  {
  }

  /** The preview agrees with the holdings message the route builds from the same file. */
  lemma PreviewMatchesRoute(base: seq<Messages.ModelMessage>, u: Upload, num: NumberParser, env: Enrichment.Providers)
    requires u.name != "" && u.parsed.Success? && u.parsed.data != []
    requires Preview(u, num).Some?
    ensures var r := WithUpload(base, u, num, env);
            |r| > |base| && r[|base|] == HoldingsMessage(u.name, Preview(u, num).value)
  {
    WithUploadSpec(base, u, num, env);
    RouteNormalizerAgrees(u.parsed.data, num);
  }

  /** Length in UTF-16 code units, which is what a JavaScript string's `length` counts. */
  function Utf16Length(s: string): nat
    decreases |s|
  {
    if s == [] then 0 else (if s[0] as int >= 0x1_0000 then 2 else 1) + Utf16Length(s[1..])
  }

  lemma {:induction false} Utf16LengthBounds(s: string)
    ensures |s| <= Utf16Length(s) <= 2 * |s|
    ensures (forall i :: 0 <= i < |s| ==> s[i] as int < 0x1_0000) ==> Utf16Length(s) == |s|
    decreases |s|
  {
    if s != [] {
      Utf16LengthBounds(s[1..]);
    }
  }

  const MaxMessageLength := 2000

  /** The form state when send is pressed. */
  datatype Form = Form(message: string, file: Option<Upload>, preview: Option<seq<Holding>>)

  /** What pressing send does: nothing (the schema refused the text), a toast, or the texts sent, in order. */
  datatype SubmitResult = Invalid | Rejected | Sent(texts: seq<string>)

  function UploadedNote(fileName: string): string {
    "I've uploaded " + (if fileName != "" then fileName else "a file") + ". Sending holdings for analysis."
  }

  function PagePayload(hs: seq<Holding>): string {
    HoldingsPayload(hs) + "\n"
  }

  /** The texts sent for a file and the holdings chosen for it. */
  function FileTexts(fileName: string, hs: seq<Holding>): seq<string> {
    [UploadedNote(fileName), PagePayload(hs)]
  }

  /**
   * `onSubmit` as written: a missing preview triggers a re-parse, but the
   * payload reads the `filePreview` captured when the handler started,
   * which is still `null`, so `[]` is sent.
   */
  function SubmitAsWritten(form: Form, num: NumberParser): SubmitResult {
    var trimmed := Trim(form.message);
    if Utf16Length(form.message) > MaxMessageLength then Invalid
    else if trimmed == "" && form.file.None? then Rejected
    else match form.file
      case Some(u) => Sent(FileTexts(u.name, form.preview.GetOr([])))
      case None => Sent([trimmed])
  }

  /** `onSubmit` with the re-parsed preview used when there was none. */
  function Submit(form: Form, num: NumberParser): SubmitResult {
    var trimmed := Trim(form.message);
    if Utf16Length(form.message) > MaxMessageLength then Invalid
    else if trimmed == "" && form.file.None? then Rejected
    else match form.file
      case Some(u) =>
        var hs := if form.preview.Some? then form.preview.value else Preview(u, num).GetOr([]);
        Sent(FileTexts(u.name, hs))
      case None => Sent([trimmed])
  }

  /** Reads the holdings back from the page's payload text. */
  function ReadPagePayload(t: string): Option<seq<Holding>> {
    if t != "" && t[|t| - 1] == '\n' then ReadHoldingsPayload(t[..|t| - 1]) else None
  }

  lemma PagePayloadRoundTrip(hs: seq<Holding>)
    ensures ReadPagePayload(PagePayload(hs)) == Some(hs)
  {
    var t := PagePayload(hs);
    assert t[..|t| - 1] == HoldingsPayload(hs);
    HoldingsPayloadRoundTrip(hs);
  }

  /**
   * Over-long text is refused by the schema; a blank message with no file is
   * rejected; with a file two texts go out, the note naming it and a payload
   * that reads back as the chosen holdings (the typed text is dropped);
   * otherwise the trimmed text alone.
   */
  lemma SubmitSpec(form: Form, num: NumberParser)
    ensures Submit(form, num).Invalid? <==> Utf16Length(form.message) > MaxMessageLength
    ensures Submit(form, num).Rejected? <==>
              Utf16Length(form.message) <= MaxMessageLength && AllSpace(form.message) && form.file.None?
    ensures Submit(form, num).Sent? && form.file.None? ==>
              Submit(form, num).texts == [Trim(form.message)] && Trim(form.message) != ""
    ensures Submit(form, num).Sent? && form.file.Some? ==>
              var ts := Submit(form, num).texts;
              var hs := if form.preview.Some? then form.preview.value else Preview(form.file.value, num).GetOr([]);
              |ts| == 2 && ts[0] == UploadedNote(form.file.value.name) && ReadPagePayload(ts[1]) == Some(hs)
  {
    if form.file.Some? {
      var hs := if form.preview.Some? then form.preview.value else Preview(form.file.value, num).GetOr([]);
      PagePayloadRoundTrip(hs);
    }
  }

  /** The two versions differ only when a file is attached with no preview yet. */
  lemma SubmitAsWrittenAgrees(form: Form, num: NumberParser)
    requires form.file.None? || form.preview.Some?
    ensures SubmitAsWritten(form, num) == Submit(form, num)
  {
  }

  /**
   * A file sent before its preview settled: the written handler sends an
   * empty holdings list, the intended one the re-parsed preview.
   */
  lemma AsWrittenIgnoresReparse(form: Form, num: NumberParser)
    requires form.file.Some? && form.preview.None? && Utf16Length(form.message) <= MaxMessageLength
    ensures SubmitAsWritten(form, num) == Sent(FileTexts(form.file.value.name, []))
    ensures Submit(form, num) == Sent(FileTexts(form.file.value.name, Preview(form.file.value, num).GetOr([])))
  {
  }

  /**
   * A concrete case: the one-row `AAPL` file, sent with an empty message
   * before the preview settled. The written handler sends no holdings at all.
   */
  lemma AsWrittenSendsNoHoldings(num: NumberParser)
    ensures var form := Form("", Some(ExampleUpload()), None);
            && SubmitAsWritten(form, num) == Sent(FileTexts("p.csv", []))
            && Submit(form, num) == Sent(FileTexts("p.csv", [Holdings.Holding("AAPL", 1)]))
  {
    var form := Form("", Some(ExampleUpload()), None);
    assert Utf16Length("") == 0;
    ExampleName();
    ExampleHoldings(num);
    assert Preview(ExampleUpload(), num) == Some([Holdings.Holding("AAPL", 1)]);
    AsWrittenIgnoresReparse(form, num);
  }
}
