# AI workspace demos — a Dafny model of their logic

The repository is a set of small Next.js demos over third-party SDKs. Their own
logic is small and lives in four places, and this project models each of them:

- **Chat relay routes** (`/api/chat/basic`, `/api/chat/stream`). The handlers
  check the request's `message` and the configured API key, in that order. They
  then send one chat-completion request upstream and map what comes back to a
  JSON reply. The streaming route also builds a `ReadableStream`. Its `start`
  callback reads the upstream body chunk by chunk, then closes or errors the
  stream and releases the reader lock.
  - Modules: `ChatRelay` (shared checks and request), `ChatBasic`, `ChatStream`.
  - `Js` models the JavaScript semantics the handlers rely on: JSON values,
    truthiness, property access that throws on null and undefined, and the
    decimal text of a number.
- **Book capture** in the object-detection page (`BookCapture`). It picks the
  best-scoring "book" among a frame's detections and clamps its box into a crop
  rectangle. It also keeps the list of captured files, which can be removed by
  id.
- **Transcript accumulation** in the two speech-to-text panels:
  - `SpeechText` models the panel built on the browser's SpeechRecognition: the
    `onresult` loop over final results, and the listening flag.
  - `SpeechHook` models the panel built on `useSpeechRecognition`: its effect
    appends a non-empty final transcript and then resets the transcripts.
- **Markdown renderers** (`MarkdownCode`).
  - The `code` renderer is `/language-(\w+)/.exec(className || '')`, modelled as
    a first-match scan. It decides between a highlighted block and inline code.
  - The `img` and `a` renderers rewrite their props.

Handlers and event handlers are modelled as follows:

- Pure request-to-reply logic is a function. The request body, the environment's
  API key and what `fetch` resolves to are parameters.
- Component state that handlers update is a class whose methods update its
  fields.
- The stream's read loop is a method over a controller, a reader and a console.
  The reader holds a finite script of read outcomes.

The streaming route does no SSE relaying: no line-buffered decoding, no
`[DONE]` handling, no delta extraction and no `data:` frames. Each chunk is
decoded and logged and nothing is enqueued. The handler never returns
the stream: on success it falls off the end of its `try` and resolves to
`undefined`. The model follows the code, so `ChatStream.Post` ends in `NoReply`
on that path.

## Model

| member | source | states |
|---|---|---|
| ChatRelay.Validate | 01_sse-streaming/src/app/api/chat/basic/route.ts:9-23 | Reading `message` throws exactly when the body is not JSON or is null. A falsy message is rejected with 400 and the missing-message error. With a truthy message, a missing or empty key gives 500 and the missing-key error. The request is accepted exactly when the message is truthy and the key configured, and then it carries that message and key. |
| ChatBasic.Post | 01_sse-streaming/src/app/api/chat/basic/route.ts:5-71 | A request goes upstream exactly when both checks pass; a rejection is returned as such. The request is a POST to the completions URL with the bearer key, the fixed model, `stream: false`, the system prompt and then the user's message. A network failure gives 500. A non-ok status is passed through with the upstream error, except a status that cannot carry a body (304 among those fetch reports): building that reply throws and the catch gives 500. An ok answer gives 200 `{success: true, message}` with `choices[0].message.content`, or 500 when that chain throws. |
| ChatBasic.ReplyProvenance | 01_sse-streaming/src/app/api/chat/basic/route.ts:48-60 | A success body is built exactly when the request passed both checks, the upstream answered ok and the answer chain did not throw; it always has status 200 and `success: true`. Every status other than 200, 400 and 500 is the upstream's own, and no reply has a status that cannot carry a body. |
| ChatBasic.NotModifiedIsServerError | 01_sse-streaming/src/app/api/chat/basic/route.ts:48-68 | An upstream 304 is not passed through: the error reply cannot be built with it, and the handler replies 500. |
| ChatBasic.MissingChoicesIsServerError | 01_sse-streaming/src/app/api/chat/basic/route.ts:55-68 | An ok upstream answer with no `choices`, or with an empty `choices`, makes the handler reply with the 500 server error. |
| Js.Member | 01_sse-streaming/src/app/api/chat/basic/route.ts:59 | A property read throws exactly on null or undefined. An object yields the named field or undefined. An array yields the element at an index in range or undefined. |
| Js.PathThrows | 01_sse-streaming/src/app/api/chat/basic/route.ts:59 | A chain of property reads throws exactly when some proper prefix of it reaches null or undefined. |
| ChatStream.Post | 01_sse-streaming/src/app/api/chat/stream/route.ts:3-103 | The same checks in the same order as the basic route, and the same request but with `stream: true`. A network failure gives 500. A non-ok status is passed through with the upstream error, except that a status that cannot carry a body (304) makes building the reply throw and the catch give 500. A stream is built exactly over an ok upstream response, over its body, and then the handler returns no reply. |
| ChatStream.FirstStop | 01_sse-streaming/src/app/api/chat/stream/route.ts:68-84 | The position of the first read that ends the loop, which is done, a rejected read or a failed decode; it is the end of the reads when none does. |
| ChatStream.FirstStopIsFirst | 01_sse-streaming/src/app/api/chat/stream/route.ts:68-84 | Every read before that position is a decoded chunk. |
| ChatStream.FirstStopIgnoresRest | 01_sse-streaming/src/app/api/chat/stream/route.ts:70-74 | Once a read ends the loop, nothing after it changes where the loop stops. |
| ChatStream.ChunkLogShape | 01_sse-streaming/src/app/api/chat/stream/route.ts:80-82 | For reads that all decode, the console gets two lines per chunk: the decoded text, then the separator line. |
| ChatStream.Controller.Close | 01_sse-streaming/src/app/api/chat/stream/route.ts:71-73 | Closing a readable stream makes it closed, counts one close, and enqueues nothing. |
| ChatStream.Controller.Error | 01_sse-streaming/src/app/api/chat/stream/route.ts:86-88 | Erroring a readable stream makes it errored, counts one error, and enqueues nothing. |
| ChatStream.Reader.Read | 01_sse-streaming/src/app/api/chat/stream/route.ts:70 | A read takes the next outcome of the body, or never settles once the body has none left; the lock is untouched. |
| ChatStream.Reader.ReleaseLock | 01_sse-streaming/src/app/api/chat/stream/route.ts:89-91 | Releasing a held lock frees it and counts one release. |
| ChatStream.Console.Log | 01_sse-streaming/src/app/api/chat/stream/route.ts:81-82 | A log call appends exactly one line. |
| ChatStream.Start | 01_sse-streaming/src/app/api/chat/stream/route.ts:56-93 | With no reader the stream is closed at once, with no read, no log and no release. Otherwise the loop reads up to and including the first stopping read and no further. It closes on done, with exactly one close call and no error call, and errors otherwise, with exactly one error call and no close call. It releases the lock exactly once, logs every decoded chunk with its separator (plus the error label on failure), and never enqueues. If a read never settles, the stream stays readable and the lock held. |
| BookCapture.BooksAreBooks | 06_object-detection/src/app/components/Practice.tsx:87 | The filter keeps only books, all taken from the detections. |
| BookCapture.BooksAt | 06_object-detection/src/app/components/Practice.tsx:87 | The filter keeps order: a book at position k of the detections sits at its rank among the books. |
| BookCapture.BooksSource | 06_object-detection/src/app/components/Practice.tsx:87 | Every entry of the filtered list is a book of the detections at the matching rank. |
| BookCapture.BestFromIsFirstMax | 06_object-detection/src/app/components/Practice.tsx:91 | Folding the rest of a list into the first maximum of its prefix gives the first maximum of the whole list. |
| BookCapture.BestIsFirstMax | 06_object-detection/src/app/components/Practice.tsx:91 | The reduce returns an entry of maximal score, and every earlier entry scores strictly lower, so ties go to the earliest (`>=`). |
| BookCapture.SightHasBook | 06_object-detection/src/app/components/Practice.tsx:87-95 | `hasBook` is true exactly when some detection is a book, and `bookBbox` is null exactly when `hasBook` is false. |
| BookCapture.SightFirstBest | 06_object-detection/src/app/components/Practice.tsx:87-95 | With a book in view, `bookBbox` is the box of a book that no book outscores and no earlier book ties. |
| BookCapture.CropOf | 06_object-detection/src/app/components/Practice.tsx:161-164 | The crop has `sx, sy >= 0` and `sw, sh >= 1`, never shrinks a value, and each value is the box's own or the bound; there is no upper clamp. |
| BookCapture.CropKeepsValidBoxes | 06_object-detection/src/app/components/Practice.tsx:161-164 | A box already within those bounds is cropped unchanged, and cropping a crop changes nothing. |
| Js.DecimalRoundTrip | 06_object-detection/src/app/components/Practice.tsx:187 | The decimal text printed for a timestamp reads back to the same number. |
| BookCapture.CaptureNameInjective | 06_object-detection/src/app/components/Practice.tsx:187 | Capture file names made at different instants differ. |
| BookCapture.FindById | 06_object-detection/src/app/components/Practice.tsx:204 | `find` gives nothing exactly when no file has the id, and otherwise the first file with that id. |
| BookCapture.WithoutId | 06_object-detection/src/app/components/Practice.tsx:206 | `filter` keeps exactly the files whose id differs. |
| BookCapture.WithoutIdAppend | 06_object-detection/src/app/components/Practice.tsx:206 | Filtering a concatenation filters each part and keeps their order. |
| BookCapture.WithoutAbsentId | 06_object-detection/src/app/components/Practice.tsx:206 | Removing an id that no file has leaves the list unchanged. |
| BookCapture.CaptureThenRemove | 06_object-detection/src/app/components/Practice.tsx:185-207 | Removing the id of a file just appended, when no earlier file had it, gives back the list as it was before the capture. |
| BookCapture.Practice.OnDetections | 06_object-detection/src/app/components/Practice.tsx:87-95 | `hasBook` and `bookBbox` become those the frame's detections give, and the captured files and revoked URLs are untouched. |
| BookCapture.Practice.CaptureScreenshot | 06_object-detection/src/app/components/Practice.tsx:153-200 | The method draws only when a book and its box are known and the video is present, and then it draws the clamped crop of the box. A file is appended at the end, with earlier files unchanged, only when drawing happened and the encoder gave a blob. Its name comes from one timestamp and its id from the other. |
| BookCapture.Practice.RemoveCaptured | 06_object-detection/src/app/components/Practice.tsx:202-208 | Every file with the id is dropped and the rest keep their order. The URL of the first file with the id is revoked if there is one; nothing is revoked otherwise. |
| SpeechText.FinalTextAppend | 03_voice-ux/src/app/components/STT_WebSpeechAPI.tsx:63-68 | The text added by a run of results is the text of its first part followed by that of its second. |
| SpeechText.InterimAddsNothing | 03_voice-ux/src/app/components/STT_WebSpeechAPI.tsx:65 | Interim results add nothing. |
| SpeechText.FinalTextEndsLine | 03_voice-ux/src/app/components/STT_WebSpeechAPI.tsx:66 | The added text is empty or ends in a line break. |
| SpeechText.FinalTextLines | 03_voice-ux/src/app/components/STT_WebSpeechAPI.tsx:63-68 | When no transcript contains a line break, the lines of the added text are exactly the transcripts of the final results, in order. |
| SpeechText.AppendFinalResults | 03_voice-ux/src/app/components/STT_WebSpeechAPI.tsx:63-68 | The loop leaves the old text followed by, for each final result from `resultIndex` to the end and in index order, its transcript and a line break. Results before `resultIndex` are not read, and the old text stays a prefix. |
| SpeechText.Recognizer.Mount | 03_voice-ux/src/app/components/STT_WebSpeechAPI.tsx:25-79 | Support and the recognition instance are recorded only in a browser that offers a SpeechRecognition constructor. |
| SpeechText.Recognizer.OnResult | 03_voice-ux/src/app/components/STT_WebSpeechAPI.tsx:49-70 | The text grows by exactly the final results of the event from `resultIndex` on; the flags are untouched. |
| SpeechText.Recognizer.OnSessionEnd | 03_voice-ux/src/app/components/STT_WebSpeechAPI.tsx:43-48 | The `end` and `error` events clear the listening flag. |
| SpeechText.Recognizer.StartListening | 03_voice-ux/src/app/components/STT_WebSpeechAPI.tsx:81-92 | Without support or without an instance nothing changes. Otherwise a successful `start()` sets the listening flag and a throwing one leaves it as it was. |
| SpeechText.Recognizer.StopListening | 03_voice-ux/src/app/components/STT_WebSpeechAPI.tsx:94-103 | Without an instance nothing changes. Otherwise a successful `stop()` clears the listening flag and a throwing one leaves it as it was. |
| SpeechText.Recognizer.Edit | 03_voice-ux/src/app/components/STT_WebSpeechAPI.tsx:173 | Editing replaces the text and nothing else. |
| SpeechHook.AbsorbExtends | 03_voice-ux/src/app/components/STT_Hook.tsx:32-33 | The old text stays a prefix. The text grows by the final transcript plus one line break when the transcript is non-empty, and not at all when it is empty. |
| SpeechHook.AbsorbThenReset | 03_voice-ux/src/app/components/STT_Hook.tsx:32-34 | The effect run that the reset triggers finds an empty final transcript and leaves the text as it is. |
| SpeechHook.AbsorbLines | 03_voice-ux/src/app/components/STT_Hook.tsx:33 | One effect run adds the final transcript as exactly one new line, or nothing when it is empty. |
| SpeechHook.FeedEndsLine | 03_voice-ux/src/app/components/STT_Hook.tsx:33 | A text of whole lines stays one after any number of effect runs. |
| SpeechHook.FeedLines | 03_voice-ux/src/app/components/STT_Hook.tsx:30-37 | After a series of effect runs, the text's lines are its earlier lines followed by the non-empty final transcripts, one per line and in order: nothing is lost or merged. |
| SpeechHook.Panel.Mount | 03_voice-ux/src/app/components/STT_Hook.tsx:20-27 | Support becomes true only when the browser reports it. |
| SpeechHook.Panel.Hear | 03_voice-ux/src/app/components/STT_Hook.tsx:30-37 | The effect runs only when `finalTranscript` changed. A non-empty one makes the text the old text plus it and a line break, and is followed by exactly one reset that empties both transcripts. An empty one leaves the text alone and resets nothing. The text always equals the text as last edited followed by the absorbed transcripts. |
| SpeechHook.Panel.StartListening | 03_voice-ux/src/app/components/STT_Hook.tsx:40-49 | Without support nothing happens; otherwise the library is asked to listen continuously in `ko-KR` with interim results. |
| SpeechHook.Panel.StopListening | 03_voice-ux/src/app/components/STT_Hook.tsx:51-55 | The library is always asked to stop, and nothing else changes. |
| SpeechHook.Panel.Edit | 03_voice-ux/src/app/components/STT_Hook.tsx:125 | Editing replaces the text and nothing else. |
| MarkdownCode.WordRun | 02_markdown-rendering/src/app/components/Step3.tsx:24 | The greedy `\w+` stays within the text and stops only at its end or at a character outside `[A-Za-z0-9_]`. |
| MarkdownCode.WordRunIsWords | 02_markdown-rendering/src/app/components/Step3.tsx:24 | Every character of the run is in `[A-Za-z0-9_]`. |
| MarkdownCode.FirstMatchIsLeast | 02_markdown-rendering/src/app/components/Step3.tsx:24 | The scan finds a position where `language-` is followed by a word character, and no earlier one; when it finds none, there is none. |
| MarkdownCode.ExecFindsFirstMatch | 02_markdown-rendering/src/app/components/Step3.tsx:24 | The language found is the whole word run after the first match, wherever in the class name that match is. |
| MarkdownCode.ExecSkipsLead | 02_markdown-rendering/src/app/components/Step3.tsx:24 | The regex is unanchored: text in front of the class name that holds no match does not change what is found. |
| MarkdownCode.CPlusPlusIsC | 02_markdown-rendering/src/app/components/Step3.tsx:24 | `language-c++` gives the language `c`. |
| MarkdownCode.BarePrefixIsInline | 02_markdown-rendering/src/app/components/Step3.tsx:24 | `language-` with nothing after it is no match. |
| MarkdownCode.RenderCode | 02_markdown-rendering/src/app/components/Step3.tsx:22-40 | A highlighted block exactly when a language is found, and inline code otherwise. Both carry exactly the incoming children. |
| MarkdownCode.RenderCodeKeepsProps | 02_markdown-rendering/src/app/components/Step3.tsx:22-40 | Every prop other than `node`, `className` and `children` reaches the element unchanged. |
| MarkdownCode.RenderCodeInline | 02_markdown-rendering/src/app/components/Step3.tsx:38-39 | The inline element gets the remaining props only. |
| MarkdownCode.RenderCodeHighlighter | 02_markdown-rendering/src/app/components/Step3.tsx:25-35 | The block takes the found language, `PreTag` `div` and the dark theme unless the props override them, since those props are spread last. |
| MarkdownCode.ExecMatches | 02_markdown-rendering/src/app/components/Step4.tsx:28-41 | The Step4 renderer is the same: `exec` finds nothing exactly when the pattern matches nowhere, and otherwise finds a non-empty run of word characters. |
| MarkdownCode.RenderImage | 02_markdown-rendering/src/app/components/Step4.tsx:43-53 | An image keeps only `src` and `alt`, when defined; its width is 600, its height 320 and its class is fixed. |
| MarkdownCode.RenderLink | 02_markdown-rendering/src/app/components/Step4.tsx:54-66 | Its `href` is the incoming one when truthy and `#` otherwise, so always truthy. `target` is `_blank`, `rel` the literal `noopener noreferer` and the class fixed, each overriding any incoming value. |
| MarkdownCode.RenderLinkKeepsProps | 02_markdown-rendering/src/app/components/Step4.tsx:54-66 | A link carries every incoming prop plus the four it sets, and keeps the incoming value of every prop it does not set. |
| MarkdownCode.RenderLinkIdempotent | 02_markdown-rendering/src/app/components/Step4.tsx:54-66 | Rendering a rendered link's props again gives the same link. |

## Left out

- Network and runtime I/O. `fetch`, `request.json()`, `process.env` and what `NextResponse.json` serialises are parameters or values of the model. The `console.error` call in the basic route's `catch` is not modelled.
- The SSE relay pipeline is not modelled because the code does not have it: no line splitting, no `[DONE]` sentinel, no delta extraction, no `data:` frames. The streaming handler's missing `return` of the stream is modelled as it is: no reply.
- `TextDecoder`. Decoding a chunk is an outcome of the read: decoded text, or a decode that throws. Multi-byte reassembly across chunks is not modelled.
- The error object logged and passed to `controller.error` is not modelled; only the label line is.
- `ChatStream.Reader.Read`: a body that never ends is not modelled. A script of read outcomes that runs out stands for a read that never settles.
- `ChatRelay.Fetched` only admits statuses from 200 to 599, the range a `fetch` response can report. The opaque status 0 is not modelled.
- JSON numbers are reals and NaN is left out: JSON cannot produce it. An index into a string yields that character; named reads on primitives yield undefined, and prototype members such as `length` are not modelled; the chains the handlers read never need them.
- In `BookCapture`:
  - Canvas drawing, the `requestAnimationFrame` loop, the camera and the COCO-SSD model are not modelled; the detection list is an input.
  - The PNG encoding is not modelled; the blob is an input.
  - `Date.now()` and `URL.createObjectURL` are parameters.
  - `BookCapture.Practice.CaptureScreenshot`: the asynchronous `toBlob` callback is run to completion inside the call, so updates that could interleave before it runs are not modelled. A null 2D context, which only skips the drawing, is not modelled either.
- In `SpeechText`: the recognition instance's settings (`ko-KR`, continuous, interim results) and the `console.log` calls are not modelled.
- React batching is not modelled: each state update is applied in the order the handlers issue it.
- In `SpeechHook`: how the speech recognition library derives `transcript`, `finalTranscript` and `listening` is not modelled. `SpeechHook.Panel.Hear` takes the transcripts as inputs, and the library's `listening` flag, which disables the buttons and picks the `LISTENING...` or `IDLE` status label, is left out. An exception from `startListening` or `stopListening` is swallowed, so the panel only records the request.
- In `MarkdownCode`:
  - ReactMarkdown, remark and rehype parsing and sanitisation are not modelled; the renderers take their props as input.
  - A `className` that is not text is taken as the empty text. Numbers and plain objects stringify to text that cannot contain `language-`; arrays are not modelled.
  - Children are modelled as the `children` prop, and an undefined prop is taken as absent.
- Progress bars, sentiment analysis, image classification, text-to-speech and the client chat pages are not part of this model.
