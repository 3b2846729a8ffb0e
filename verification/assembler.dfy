/**
 * The chat route's request handling after the body has been read: moderation,
 * then the model messages, extended by an uploaded portfolio file or merged
 * with an attached image.
 */
module Assembler {
  import opened Wrappers
  import opened Text
  import opened JsObject
  import opened Holdings
  import opened Json
  import opened Messages
  import opened Moderation
  import opened Enrichment

  /** How a file is read, decided by its name alone. */
  datatype FileKind = Delimited | Spreadsheet | Unsupported

  /** The case-insensitive extension dispatch shared by the page and the route. */
  function FileKindOf(name: string): FileKind {
    var lower := ToLower(name);
    if EndsWith(lower, ".csv") || EndsWith(lower, ".txt") then Delimited
    else if EndsWith(lower, ".xls") || EndsWith(lower, ".xlsx") then Spreadsheet
    else Unsupported
  }

  /** Upper-casing a name never changes how it is dispatched. */
  lemma FileKindIgnoresCase(name: string)
    ensures ToLower(ToUpper(name)) == ToLower(name)
    ensures FileKindOf(ToUpper(name)) == FileKindOf(name)
  {
    LowerOfUpper(name);
  }

  /** An uploaded file: its name, and what parsing its contents yields (the rows, or a thrown error). */
  datatype Upload = Upload(name: string, parsed: Outcome<seq<Row>>)

  /** `uploadedFile.name || "upload"`. */
  function UploadName(u: Upload): string {
    if u.name != "" then u.name else "upload"
  }

  function UnsupportedNote(fname: string): ModelMessage {
    UserTexts(["I uploaded a file named " + fname + " but the server could not parse its type. Please upload CSV or XLSX."])
  }

  function HoldingsIntro(fname: string): string {
    "User uploaded file " + fname + " with detected holdings:"
  }

  /** The tagged holdings text both the route and the page send. */
  function HoldingsPayload(hs: seq<Holding>): string {
    "<HOLDINGS_JSON>" + HoldingsJson(hs) + "</HOLDINGS_JSON>"
  }

  function HoldingsMessage(fname: string, hs: seq<Holding>): ModelMessage {
    UserTexts([HoldingsIntro(fname), HoldingsPayload(hs)])
  }

  /** Reads the holdings back out of a tagged payload. */
  function ReadHoldingsPayload(t: string): Option<seq<Holding>> {
    var open, close := "<HOLDINGS_JSON>", "</HOLDINGS_JSON>";
    if |t| >= |open| + |close| && t[..|open|] == open && t[|t| - |close|..] == close then
      DecodeHoldingsJson(t[|open|..|t| - |close|])
    else None
  }

  lemma HoldingsPayloadRoundTrip(hs: seq<Holding>)
    ensures ReadHoldingsPayload(HoldingsPayload(hs)) == Some(hs)
  {
    var j := HoldingsJson(hs);
    var t := HoldingsPayload(hs);
    assert t[..15] == "<HOLDINGS_JSON>";
    assert t[|t| - 16..] == "</HOLDINGS_JSON>";
    assert t[15..|t| - 16] == j;
    HoldingsRoundTrip(hs);
  }

  /**
   * The file branch with enrichment attached, as intended: an unsupported name
   * adds a note; rows add the holdings message and then the enrichment.
   */
  function WithUpload(base: seq<ModelMessage>, u: Upload, num: NumberParser, env: Providers): seq<ModelMessage> {
    var fname := UploadName(u);
    if FileKindOf(fname) == Unsupported then base + [UnsupportedNote(fname)]
    else match u.parsed
      case Failure => base
      case Success(rows) =>
        if rows == [] then base
        else
          var hs := NormalizeRoute(rows, num);
          base + [HoldingsMessage(fname, hs)] + Enrich(hs, env)
  }

  /**
   * The file branch as the route's code runs it: the enrichment helpers are
   * declared inside the normaliser's body, so the calls to them throw, the
   * surrounding `catch` swallows the error, and nothing is attached.
   */
  function WithUploadAsWritten(base: seq<ModelMessage>, u: Upload, num: NumberParser): seq<ModelMessage> {
    var fname := UploadName(u);
    if FileKindOf(fname) == Unsupported then base + [UnsupportedNote(fname)]
    else match u.parsed
      case Failure => base
      case Success(rows) =>
        if rows == [] then base else base + [HoldingsMessage(fname, NormalizeRoute(rows, num))]
  }

  /**
   * Any other extension adds exactly one note naming the file; a parse error or
   * no rows leaves the base messages; rows add one holdings message whose
   * payload reads back as the normalised holdings, then the enrichment.
   */
  lemma WithUploadSpec(base: seq<ModelMessage>, u: Upload, num: NumberParser, env: Providers)
    ensures var r := WithUpload(base, u, num, env);
            FileKindOf(UploadName(u)) == Unsupported ==> r == base + [UnsupportedNote(UploadName(u))]
    ensures var r := WithUpload(base, u, num, env);
            FileKindOf(UploadName(u)) != Unsupported && (u.parsed.Failure? || u.parsed.data == []) ==> r == base
    ensures var r := WithUpload(base, u, num, env);
            FileKindOf(UploadName(u)) != Unsupported && u.parsed.Success? && u.parsed.data != [] ==>
              && |r| > |base| && r[..|base|] == base
              && r[|base|].role == User
              && PartTexts(r[|base|].content.parts) == [HoldingsIntro(UploadName(u)), HoldingsPayload(Normalize(u.parsed.data, num))]
              && ReadHoldingsPayload(PartTexts(r[|base|].content.parts)[1]) == Some(Normalize(u.parsed.data, num))
              && r[|base| + 1..] == Enrich(Normalize(u.parsed.data, num), env)
  {
    var fname := UploadName(u);
    if FileKindOf(fname) != Unsupported && u.parsed.Success? && u.parsed.data != [] {
      var rows := u.parsed.data;
      RouteNormalizerAgrees(rows, num);
      var hs := Normalize(rows, num);
      var m := HoldingsMessage(fname, hs);
      var r := WithUpload(base, u, num, env);
      assert r == base + [m] + Enrich(hs, env);
      assert r[..|base|] == base;
      assert r[|base| + 1..] == Enrich(hs, env);
      UserTextsRoundTrip([HoldingsIntro(fname), HoldingsPayload(hs)]);
      HoldingsPayloadRoundTrip(hs);
    }
  }

  /** The text of a message's content: a bare string, or its text parts joined by a space. */
  function LastText(m: ModelMessage): string {
    match m.content
    case Plain(s) => s
    case Parts(ps) => Join(PartTexts(ps), " ")
  }

  /** The no-file branch: an image replaces the last message by a user message holding its text, then the image. */
  function MergeImage(base: seq<ModelMessage>, image: Option<string>): seq<ModelMessage> {
    if Truthy(image) && |base| > 0 then
      var t := LastText(base[|base| - 1]);
      base[..|base| - 1] + [ModelMessage(User, Parts((if t != "" then [PText(t)] else []) + [PImage(image.value)]))]
    else base
  }

  /**
   * The merge keeps the length and every message but the last; the new last
   * message is the user's, ends with the image, and carries the old last
   * message's text unchanged (no text part when that text is empty).
   */
  lemma MergeImageSpec(base: seq<ModelMessage>, image: Option<string>)
    ensures |MergeImage(base, image)| == |base|
    ensures !(Truthy(image) && |base| > 0) ==> MergeImage(base, image) == base
    ensures Truthy(image) && |base| > 0 ==>
              var r := MergeImage(base, image);
              var last := r[|r| - 1];
              && r[..|r| - 1] == base[..|base| - 1]
              && last.role == User && last.content.Parts?
              && 1 <= |last.content.parts| <= 2
              && last.content.parts[|last.content.parts| - 1] == PImage(image.value)
              && LastText(last) == LastText(base[|base| - 1])
              && (|last.content.parts| == 1 <==> LastText(base[|base| - 1]) == "")
  {
    if Truthy(image) && |base| > 0 {
      var t := LastText(base[|base| - 1]);
      var ps := (if t != "" then [PText(t)] else []) + [PImage(image.value)];
      var r := MergeImage(base, image);
      assert r[..|r| - 1] == base[..|base| - 1];
      if t != "" {
        assert ps[1..] == [PImage(image.value)];
        assert PartTexts(ps) == [t] + PartTexts([PImage(image.value)]);
        assert [PImage(image.value)][1..] == [];
      } else {
        assert ps[1..] == [];
      }
    }
  }

  /** The request after body parsing: its UI messages, an optional image and an optional uploaded file. */
  datatype Request = Request(messages: seq<UIMessage>, image: Option<string>, upload: Option<Upload>)

  /** The route's answer: the denial stream, or the messages handed to the model. */
  datatype Reply = Denied(events: seq<StreamEvent>) | ToModel(messages: seq<ModelMessage>)

  /** Everything the route calls but does not define. */
  datatype Services = Services(
    classify: string -> Verdict,
    convert: seq<UIMessage> -> seq<ModelMessage>,
    num: NumberParser,
    providers: Providers)

  /** `POST`, with the enrichment helpers reachable. */
  function Post(req: Request, sv: Services): Reply {
    match Moderate(req.messages, sv.classify)
    case Deny(evs) => Denied(evs)
    case Pass =>
      var base := sv.convert(req.messages);
      match req.upload
      case Some(u) => ToModel(WithUpload(base, u, sv.num, sv.providers))
      case None => ToModel(MergeImage(base, req.image))
  }

  /** `POST` as written: the file branch never attaches enrichment. */
  function PostAsWritten(req: Request, sv: Services): Reply {
    match Moderate(req.messages, sv.classify)
    case Deny(evs) => Denied(evs)
    case Pass =>
      var base := sv.convert(req.messages);
      match req.upload
      case Some(u) => ToModel(WithUploadAsWritten(base, u, sv.num))
      case None => ToModel(MergeImage(base, req.image))
  }

  /** A flagged latest user message is answered by the denial stream, and only then. */
  lemma PostModerates(req: Request, sv: Services)
    ensures Post(req, sv).Denied? <==> Moderate(req.messages, sv.classify).Deny?
    ensures Post(req, sv).Denied? ==> Post(req, sv).events == Moderate(req.messages, sv.classify).events
  {
  }

  /**
   * Past moderation the model receives the converted messages, kept as a
   * prefix with an upload and, without one, all kept but the last.
   */
  lemma PostKeepsConversation(req: Request, sv: Services)
    requires Moderate(req.messages, sv.classify).Pass?
    ensures var base := sv.convert(req.messages);
            var r := Post(req, sv);
            && r.ToModel?
            && (req.upload.Some? ==> |r.messages| >= |base| && r.messages[..|base|] == base)
            && (req.upload.None? ==> |r.messages| == |base| && (|base| > 0 ==> r.messages[..|base| - 1] == base[..|base| - 1]))
  {
    var base := sv.convert(req.messages);
    match req.upload
    case Some(u) =>
      assert Post(req, sv).messages == WithUpload(base, u, sv.num, sv.providers);
      WithUploadSpec(base, u, sv.num, sv.providers);
    case None =>
      assert Post(req, sv).messages == MergeImage(base, req.image);
      MergeImageSpec(base, req.image);
  }

  /** The two versions differ only in the enrichment the written one never attaches. */
  lemma AsWrittenDropsEnrichment(base: seq<ModelMessage>, u: Upload, num: NumberParser, env: Providers)
    ensures FileKindOf(UploadName(u)) != Unsupported && u.parsed.Success? && u.parsed.data != [] ==>
              WithUpload(base, u, num, env) == WithUploadAsWritten(base, u, num) + Enrich(Normalize(u.parsed.data, num), env)
    ensures !(FileKindOf(UploadName(u)) != Unsupported && u.parsed.Success? && u.parsed.data != []) ==>
              WithUpload(base, u, num, env) == WithUploadAsWritten(base, u, num)
  {
    if u.parsed.Success? {
      RouteNormalizerAgrees(u.parsed.data, num);
    }
  }

  /** Whenever the rows name a ticker and a price key is configured, the written route sends less. */
  lemma AsWrittenLosesPricesWhen(base: seq<ModelMessage>, u: Upload, num: NumberParser, env: Providers)
    requires FileKindOf(UploadName(u)) != Unsupported && u.parsed.Success? && u.parsed.data != []
    requires Normalize(u.parsed.data, num) != [] && Truthy(env.key)
    ensures |WithUpload(base, u, num, env)| > |WithUploadAsWritten(base, u, num)|
  {
    var hs := Normalize(u.parsed.data, num);
    AsWrittenDropsEnrichment(base, u, num, env);
    assert hs[0].ticker != "" by {
      NormalizeSpec(u.parsed.data, num);
    }
    assert HoldingTickers(hs) != [];
    EnrichSpec(hs, env);
  }

  /** The example upload used by the concrete cases: `p.csv` holding one `AAPL` row of quantity 1. */
  function ExampleUpload(): Upload {
    Upload("p.csv", Success([[("ticker", Str("AAPL")), ("qty", Num(1))]]))
  }

  lemma ExampleName()
    ensures FileKindOf(ExampleUpload().name) == Delimited && UploadName(ExampleUpload()) == "p.csv"
  {
    assert ToLower("p.csv") == "p.csv";
  }

  lemma ExampleHoldings(num: NumberParser)
    ensures ExampleUpload().parsed.Success?
    ensures Normalize(ExampleUpload().parsed.data, num) == [Holding("AAPL", 1)]
  {
    var row: Row := [("ticker", Str("AAPL")), ("qty", Num(1))];
    assert ExampleUpload().parsed.data == [row];
    assert Canonical("AAPL") && !IsArrayIndex("AAPL") by {
      assert IsTrimmed("AAPL");
      assert !IsDigit("AAPL"[0]);
    }
    CanonicalRow("AAPL", 1, num);
    SingleRow(row, "AAPL", num);
  }

  /**
   * A concrete case the written route gets wrong: one `AAPL` row and a
   * configured price key. The intended route attaches a price message; the
   * written one sends only the holdings message.
   */
  lemma AsWrittenLosesPrices(num: NumberParser, env: Providers)
    requires Truthy(env.key)
    ensures |WithUpload([], ExampleUpload(), num, env)| > |WithUploadAsWritten([], ExampleUpload(), num)|
  {
    ExampleName();
    ExampleHoldings(num);
    AsWrittenLosesPricesWhen([], ExampleUpload(), num, env);
  }
}
