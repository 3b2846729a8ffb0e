# Portfolio chat: request shaping, modelled in Dafny

The system is a chat assistant for stock portfolios. A browser page lets the user
type a message or attach a spreadsheet of holdings. The page previews the holdings
it finds and sends them to a chat route. The route then:

- refuses flagged messages with a fixed event stream;
- turns an uploaded file into a structured holdings message;
- adds web-search and price context for the tickers;
- merges an attached image into the last message.

A separate uploader component wraps text files in an `<UPLOADED_FILE>` block.

This project models the pure part of that pipeline, once the network providers
and the parsing libraries are taken as given inputs. The modules are:

- `Wrappers`: `Option`, JavaScript truthiness (`Truthy`, `OrElse`), and
  `Outcome` (`Success(data) | Failure`) for every call that may throw.
- `Text`: `trim` with the JavaScript white-space set, ASCII case mapping,
  `startsWith`/`endsWith`, `join`, and decimal digits.
- `JsObject`: objects as entry lists in creation order. `OwnOrder` gives
  `Object.keys`/`Object.entries` order: array-index keys first in ascending
  order, then the other keys in insertion order.
- `Holdings`: `normalizeRowsToHoldings`, in the page's form and in the route's
  form. Rows are entry lists of `Cell = Str | Num`. `Number()` on a string is an
  abstract `NumberParser` (`None` is NaN).
- `Json`: the `JSON.stringify` output for strings, integers and
  `{"holdings":[…]}`, with a reference decoder for round trips.
- `Messages`: UI messages (role plus parts) and model messages (plain text or
  text/image parts).
- `Moderation`: the latest-user-message text, the verdict, and the five-event
  denial stream, with a reference stream reader.
- `Enrichment`: web context (at most 6 tickers and 3 hits each, with field
  fallbacks) and the price map (at most 5 symbols, `null` on failure, `{}`
  without a key). Each is turned into one user message.
- `Assembler`: the route's POST body after the request is parsed.
  - moderation gate;
  - file-extension dispatch;
  - holdings message;
  - unsupported-file note;
  - image merge;
  - enrichment append, both as written and as intended.
- `Client`: the page's preview parsing and submit handler, both as written and
  as intended.
- `Uploader`: `escapeHtml`, the accept predicate, and the `<UPLOADED_FILE>`
  payload, with reference decoders.

The route's own comments say the enrichment helpers belong above the POST
handler (app/api/chat/route.ts:29) and that the enrichment block runs once the
holdings are known (app/api/chat/route.ts:254). The route as written never
attaches enrichment (Finding 1). The model follows the
code in `Assembler.WithUploadAsWritten` and `Assembler.PostAsWritten`. It uses the
intended behaviour in `Assembler.WithUpload` and `Assembler.Post`. The two web and
price lookups run one after the other in the code, web first. The model keeps
that order.

## Model

| member | source | states |
|---|---|---|
| Holdings.Resolve | app/page.tsx:68-78 | A row yields a ticker exactly when the chosen ticker text is non-blank after trimming. That ticker is trimmed, non-empty and upper-case, and equals the chosen text up to letter case, so it is the upper-cased chosen text. |
| Holdings.TickerAliases | app/page.tsx:64-70 | The ticker comes from `ticker` whenever that key exists, even when blank; the row is then dropped with no fallback. Otherwise it comes from `symbol`, otherwise from the first own key in object key order. An empty row yields no ticker. |
| Holdings.QtyAliases | app/page.tsx:72-77 | The quantity comes from `qty`, else `quantity`, else the second own key. A missing, NaN or zero value counts as 0. |
| Holdings.ExampleRows | app/page.tsx:68-77 | Concrete rows: a lower-case ticker with a numeric string, a `symbol`/`quantity` row, and an unparsable quantity that counts as 0. |
| Holdings.FoldKeepsInvariant | app/page.tsx:62-81 | After any prefix of rows, the accumulated object has distinct keys and holds exactly the tickers seen. Each value is the sum of the quantities of the rows resolving to that key. Entries are in first-seen order. |
| Holdings.NormalizeSpec | app/page.tsx:61-83 | The output has no duplicate tickers, and every ticker is trimmed, non-empty and upper-case. The tickers are exactly those of the rows. Each qty is the sum over all rows resolving to that ticker. Integer-like tickers come first in ascending order, the others in first-seen order. No rows give no holdings. |
| Holdings.ListingFacts | app/page.tsx:82 | Listing the accumulated object through `Object.entries` keeps the keys distinct, the ticker set and each ticker's sum. |
| Holdings.ListingOrder | app/page.tsx:79-82 | The listing puts integer-like tickers first in ascending numeric order, and the other tickers in order of their first row. |
| Holdings.NormalizeIdempotent | app/page.tsx:61-83 | Feeding the output back in as `{ticker, qty}` rows gives the same list. |
| Holdings.NormalizeExample | app/page.tsx:61-83 | `aapl`×3, `AAPL`×2 and `msft`×NaN aggregate to `[AAPL 5, MSFT 0]`. |
| Holdings.SingleRow | app/page.tsx:61-83 | One row with a non-numeric ticker gives exactly one holding with that row's quantity. |
| Holdings.StepAgrees | app/api/chat/route.ts:98-101 | The route's update `out[t] = (out[t] \|\| 0) + qty` has the same effect as the page's initialise-then-add. |
| Holdings.RouteNormalizerAgrees | app/api/chat/route.ts:84-103 | The route's copy of the normaliser returns the page's result on every input. |
| JsObject.OwnOrderSpec | app/page.tsx:64 | Object key order is a permutation of the entries with the same keys. Array-index keys come first in ascending order, and the other keys keep insertion order. |
| JsObject.OwnOrderNoIndices | app/page.tsx:82 | Without integer-like keys, object key order is insertion order. |
| JsObject.GetPut | app/page.tsx:79-80 | After `out[t] = v`, reading `out[t]` gives `v`, and every other key reads what it read before. |
| Text.Trim | app/page.tsx:68-70 | The result is the infix of the input left after removing its leading and trailing white space: everything cut off is white space, and the result neither starts nor ends with white space. It is empty exactly when the input is all white space, and a trimmed input is unchanged. |
| Text.UpperProperties | app/page.tsx:78 | Upper-casing gives an upper-case string, fixes exactly the upper-case strings, keeps emptiness and keeps a trimmed string trimmed. |
| Json.HoldingsRoundTrip | app/api/chat/route.ts:237 | The reference decoder reads `{"holdings":[…]}` back to the same holdings list. |
| Json.HoldingsJsonInjective | app/page.tsx:216-217 | Different holdings lists serialise to different JSON text. |
| Json.StringRoundTrip | app/api/chat/route.ts:237 | A JSON-quoted string body decodes back to the original string. |
| Json.IntRoundTrip | app/api/chat/route.ts:237 | The decimal text of an integer parses back to it. |
| Messages.UserTextsRoundTrip | app/api/chat/route.ts:239-251 | A user message built from text parts gives back exactly those texts. |
| Moderation.LatestUserIndex | app/api/chat/route.ts:150 | The chosen message is a user message with no later user message. There is none exactly when no message has the user role. |
| Moderation.LatestUserIsLast | app/api/chat/route.ts:150 | `filter(user).pop()` is the message at that index. |
| Moderation.JoinedTextEmpty | app/api/chat/route.ts:153-158 | The concatenated text is empty exactly when every text part is empty, so moderation is skipped then. |
| Moderation.JoinedTextAppend | app/api/chat/route.ts:153-156 | Text parts are concatenated with no separator. |
| Moderation.DenialTextSpec | app/api/chat/route.ts:178-180 | The delta is the verdict's denial message when it is non-empty, otherwise the fixed default. It is never empty. |
| Moderation.DenialStream | app/api/chat/route.ts:166-190 | The stream has five events, starting with `start` and ending with `finish`. |
| Moderation.DenialStreamReads | app/api/chat/route.ts:164-190 | The three text events share the one id. The reference reader recovers exactly the denial text from the stream. |
| Moderation.ModerateSpec | app/api/chat/route.ts:149-194 | A denial happens iff there is a latest user message, its joined text is non-empty and the classifier flags it. The denial stream then reads back the denial text. A conversation without user messages always passes. |
| Assembler.FileKindIgnoresCase | app/api/chat/route.ts:207-216 | The extension dispatch uses the lower-cased name, so the upper-cased name gets the same kind. |
| Assembler.HoldingsPayloadRoundTrip | app/api/chat/route.ts:237 | The `<HOLDINGS_JSON>…</HOLDINGS_JSON>` text reads back to the holdings it carries. |
| Assembler.WithUploadSpec | app/api/chat/route.ts:205-293 | An unsupported name gives the base messages plus one note. A parse failure or no rows gives the base messages unchanged. Rows give the base messages, then one user message with the intro and the holdings payload of the normalised rows, then exactly the enrichment messages. |
| Assembler.MergeImageSpec | app/api/chat/route.ts:295-337 | The length is unchanged. Without an image or with no messages, nothing changes. Otherwise every message but the last is kept, and the last becomes a user message of one or two parts ending with the image that keeps the last text. That message has a single part exactly when the text is empty. |
| Assembler.PostModerates | app/api/chat/route.ts:149-197 | The reply is a denial exactly when moderation denies, and it then carries the denial events. No model messages are built. |
| Assembler.PostKeepsConversation | app/api/chat/route.ts:199-338 | When moderation passes, an upload keeps the converted messages as a prefix. Without an upload, the length is kept and all but the last message are unchanged. |
| Assembler.AsWrittenDropsEnrichment | app/api/chat/route.ts:255-285 | The route as written equals the intended result minus the enrichment messages. |
| Assembler.AsWrittenLosesPricesWhen | app/api/chat/route.ts:273-281 | With holdings and a configured price key, the as-written route yields strictly fewer messages than intended. |
| Assembler.AsWrittenLosesPrices | app/api/chat/route.ts:255-285 | For a one-row `p.csv` upload with a price key set, the as-written route yields fewer messages than intended. |
| Enrichment.TakeLength | app/api/chat/route.ts:37 | `slice(0, n)` is the prefix of exactly min(n, length) elements; the same slice caps tickers at 60 and hits at 66. |
| Enrichment.FirstText | app/api/chat/route.ts:70-71 | `a \|\| b \|\| ''` picks the first truthy string, else the empty string. |
| Enrichment.ToHitFallbacks | app/api/chat/route.ts:69-73 | title falls back to headline then `""`; snippet to summary, excerpt, then `""`; url to link. |
| Enrichment.Hits | app/api/chat/route.ts:66-73 | At most three hits, taken in order from `items`, else `results`, else none. |
| Enrichment.WebContextSpec | app/api/chat/route.ts:56-81 | At most six tickers, each with at most three hits. The tickers are those among the first six whose search succeeded, in their original order. A ticker whose search threw is left out. |
| Enrichment.PricesSpec | app/api/chat/route.ts:36-52 | The map's keys are exactly the visited symbols, without duplicates. Each value is the price or `null` when the lookup threw or had no price. |
| Enrichment.PricesInOrder | app/api/chat/route.ts:37-52 | For distinct symbols the map lists each symbol once, in visiting order. |
| Enrichment.PriceMapSpec | app/api/chat/route.ts:30-54 | Without a key the map is `{}`. With a key its keys are exactly the first five symbols, each mapped to its price or `null`. It is non-empty exactly when a key is set and there are symbols. |
| Enrichment.PriceMembersSpec | app/api/chat/route.ts:278 | The serialised map lists every entry once, in object key order. Without integer-like symbols that is insertion order, and an empty map serialises as `{}`. |
| Enrichment.HoldingTickersAll | app/api/chat/route.ts:256 | `filter(Boolean)` keeps every ticker when none is empty. |
| Enrichment.EnrichSpec | app/api/chat/route.ts:255-285 | At most two messages are added. The web message comes first, and is added exactly when some search among the first six tickers succeeded, even with no hits. The price message is added exactly when a key is set and there are tickers. |
| Enrichment.WebContextNonEmpty | app/api/chat/route.ts:259-260 | The web context is non-empty exactly when one of the searched tickers' searches succeeded. |
| Client.PreviewSpec | app/page.tsx:146-169 | The preview is set exactly when the lower-cased name ends in .csv, .txt, .xls or .xlsx and parsing succeeded, and it is then the normalised rows. Otherwise it is null, never partial. |
| Client.PreviewMatchesRoute | app/page.tsx:146-160 | The page's preview is the holdings the route puts in its holdings message for the same file. |
| Client.Utf16LengthBounds | app/page.tsx:23-25 | The message length is counted in UTF-16 units: between the number of code points and twice that, and equal to it for BMP text. |
| Client.PagePayloadRoundTrip | app/page.tsx:216-217 | The page's holdings payload, with its trailing newline, reads back to the holdings. |
| Client.SubmitSpec | app/page.tsx:202-235 | A message over 2000 UTF-16 units is invalid. The submit is refused exactly when the message is blank and there is no file. Without a file the trimmed message is sent. With a file the note and the payload are sent, and the payload reads back the preview, or the reparsed holdings, or `[]`. |
| Client.SubmitAsWrittenAgrees | app/page.tsx:211-217 | As written and corrected submits agree whenever there is no file or a preview already exists. |
| Client.AsWrittenIgnoresReparse | app/page.tsx:212-216 | With a file and no preview, the as-written submit sends `[]` whatever the reparse finds. The corrected submit sends the reparsed holdings. |
| Client.AsWrittenSendsNoHoldings | app/page.tsx:212-216 | For `p.csv` holding one AAPL row and no preview yet, the as-written submit sends `{"holdings":[]}`. The corrected one sends the AAPL holding. |
| Uploader.EscapeHtmlIsMap | app/app/components/FileUploader.tsx:59-61 | The three global replacements equal the per-character map & → `&amp;`, < → `&lt;`, > → `&gt;`. |
| Uploader.EscapeHtmlNoAngles | app/app/components/FileUploader.tsx:59-61 | The escaped text contains no `<` and no `>`. |
| Uploader.EscapeHtmlQuotes | app/app/components/FileUploader.tsx:60 | A double quote is in the output exactly when it is in the input, so quotes are not escaped. |
| Uploader.EscapeHtmlLength | app/app/components/FileUploader.tsx:60 | The output length is \|s\| + 4·#& + 3·(#< + #>). The output equals the input exactly when the input has none of &, <, >. |
| Uploader.UnescapeRoundTrip | app/app/components/FileUploader.tsx:60 | Decoding `&amp;`, `&lt;` and `&gt;` in the escaped text gives back the original. |
| Uploader.SplitJoin | app/app/components/FileUploader.tsx:42 | Joining the pieces of `split('.')` with `.` gives back the name. |
| Uploader.SplitParts | app/app/components/FileUploader.tsx:42 | No piece contains the separator, and there is one more piece than separators. |
| Uploader.LastSegmentSpec | app/app/components/FileUploader.tsx:42 | `split('.').pop()` is the text after the last dot, or the whole name when there is no dot. |
| Uploader.AcceptsSpec | app/app/components/FileUploader.tsx:40-46 | A file is accepted exactly when its MIME type is one of the four listed, or the lower-cased text after its last dot (the whole name without a dot) is txt, csv, json or xml. |
| Uploader.ReadFileAsText | app/app/components/FileUploader.tsx:37-57 | Reading succeeds exactly when the file is accepted and the reader succeeds. A rejected file is never read. |
| Uploader.Find | app/app/components/FileUploader.tsx:22 | Gives the first position of a character, or none exactly when it is absent. |
| Uploader.PayloadRoundTrip | app/app/components/FileUploader.tsx:22 | For names without a double quote, the payload reads back to the name and the file text. |
| Uploader.HandleFileSpec | app/app/components/FileUploader.tsx:14-28 | No file sends nothing. A file sends exactly one message: the payload when reading succeeded, otherwise the `[Upload error]` line naming the file. |

## Left out

- React state, effects, rendering and localStorage persistence in app/page.tsx. These are UI and browser storage.
- The page's upload POST to `/api/upload-file` and its result (app/page.tsx:179-200, 219-222). It only logs and never changes what is sent.
- The moderation classifier, `webSearch`, the Alpha Vantage HTTP call and its response parsing, and the 1.2 s delay between lookups. These are network and timing. They appear as per-call outcomes: a classifier function, a search outcome per query and a price outcome per symbol.
- `encodeURIComponent` and the key in the quote URL. Only the symbol passed to the lookup matters to the result.
- `streamText`, the tool loop, the step cap, `toUIMessageStreamResponse` and `maxDuration` (app/api/chat/route.ts:340-360, 20). These live inside the AI SDK and the platform.
- Request-body parsing and the 400 responses (app/api/chat/route.ts:109-147). These are HTTP plumbing. The model starts from the parsed messages, optional image and optional upload.
- Papa and XLSX parsing and `convertToModelMessages`. Their results are inputs: an `Outcome` of rows, and a converter function.
- `Number()` as IEEE floating point. Quantities are integers from an abstract string parser, and a price is rendered by an abstract function.
- Holdings.Quantity: a non-integral or infinite quantity is not modelled, because quantities are integers.
- Text.ToUpper and Text.ToLower: only ASCII letters change case. Locale and non-ASCII case mapping are not modelled.
- Cells that are neither strings nor numbers (booleans, dates, nested objects), and `String()` on them.
- Moderation.ModerateSpec: a classifier that throws is not modelled. In the code the exception escapes the handler.
- Json.HoldingsRoundTrip: the reference decoder reads only the serialiser's own output, not arbitrary JSON.
- Uploader.PayloadRoundTrip: requires the name to have no double quote, because `"` is not escaped and the `name="…"` attribute then ends early.
- Client.Submit and Client.SubmitAsWritten: a `sendMessage` that throws is not modelled. In the code the catch at app/page.tsx:238-241 only shows a toast, so a failure on the first send sends nothing and a failure on the second sends only the note; the model always sends both texts.
- Uploader.HandleFileSpec: a `sendMessage` that throws after the payload (which would make the catch send the error line too) is not modelled.
- app/components/FileUploader.tsx, app/parts/chat-header.tsx, next.config.ts and prompts.ts are not part of this model. They hold fetch and UI code, markup, configuration and constant prompt text.

## Findings

| source | as written | input that shows it | evidently intended | confidence | as-written member | corrected member |
|---|---|---|---|---|---|---|
| app/api/chat/route.ts:28-82, 255-285 | `fetchPricesAlphaVantage` and `fetchWebContextForTickers` are declared inside the body of `normalizeRowsToHoldings`. They are out of scope in the POST handler. A type checker reports the two names as undefined, and when the code runs anyway the call at 259 throws a ReferenceError, the catch at 283 swallows it, and 274 is never reached. No enrichment message is ever attached. | An upload `p.csv` with one row `ticker=AAPL, qty=1` and a price key set: the intended result has a price message after the holdings message, and the as-written result has none. | Module-level helpers, so web context and prices follow the holdings message. | not executed | Assembler.WithUploadAsWritten, Assembler.AsWrittenLosesPrices | Assembler.WithUpload, Assembler.WithUploadSpec |
| app/page.tsx:211-216 | When no preview exists, `onSubmit` awaits `parseFileForPreview(file)`, which only calls `setFilePreview`. It then reads `filePreview` from the closure, which is still `null`, so the payload is always `{"holdings":[]}` in that case. | Submit right after choosing `p.csv` with one row `ticker=AAPL, qty=1`, before the preview has been set: `{"holdings":[]}` is sent instead of the AAPL holding. | Use the holdings the reparse produced. | not executed | Client.SubmitAsWritten, Client.AsWrittenSendsNoHoldings | Client.Submit, Client.SubmitSpec |
