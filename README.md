# ai-canvas flowchart pipeline, modelled in Dafny

This project models the core of ai-canvas. The program turns a free-text
description of a process into a flowchart on a drawing canvas. The model
covers three parts.

- **The browser client** (src/App.jsx). It has a blank-input guard. It
  strips Markdown code fences from the service's reply and from the message
  content (`replace(/```json/g, '').replace(/```/g, '').trim()`). Its
  `drawFlowchart` empties the editor's page and stacks one 200 × 60
  rectangle per node at x = 100, y = 100 + 150·i. It then draws an arrow for
  every edge whose two ends are in the node-id map and fits the viewport.
- **The Next.js route** (app/api/flowchart/route.ts). It checks the
  credential, calls the generation service, and probes
  `latestVersion?.files ?? files ?? []`. It answers `{files}` or a 500 with
  an error.
- **The Express route** (api/index.js). It refuses a falsy text with 400,
  asks the SDK to create a chat, and probes
  `latestVersion?.files || files || []`. It answers `{files}` or a 500.

Files:

- `wrappers.dfy`: the `Option` and `Result` types.
- `fences.dfy` (module `Fences`): `RemoveAll`, a left-to-right,
  non-overlapping deletion of a literal. Also `Trim` over a fixed whitespace
  set, the cleaning chain `CleanFences` and the blank test `IsBlank`.
- `editor.dfy` (module `Editor`): the shape records and the class `Canvas`.
  `Canvas` is the editor's current page. Its fields are `shapes`, `nextId`
  (the shape-id counter), `framed` and `fits` (the viewport fits).
- `layout.dfy` (module `Layout`): `Drawing(nodes, edges, base)`, the pure
  specification of every shape `drawFlowchart` creates, in order. Its
  lemmas cover coordinates, the id map and the edge rule.
- `app.dfy` (module `FlowchartApp`): the class `App` with `editor` (standing for
  `editorRef.current`) and `inputText`. It has the imperative `DrawFlowchart`, whose node and edge
  loops are `DrawNodes` and `DrawEdges`, and `HandleGenerate`.
- `http.dfy`, `route.dfy`, `express.dfy` (modules `Http`, `NextRoute`,
  `ExpressApi`): the two handlers as pure functions. Their inputs are the
  request, the credential and the service's behaviour. Each returns the
  response and whether the service was called.

Inputs the model takes instead of performing them:

- The HTTP request of the client is a `Reply` value.
- `JSON.parse` plus the walk to `choices[0].message.content` is a function
  parameter `envelope`.
- `JSON.parse` of a string content is a function parameter `parse`.
- The service call of each handler is an `Upstream` or `ChatCreation` value.
- The environment credential is an `Option<string>`.

Behaviour worth knowing, as the code has it:

- The Next.js route never checks the text. The Express route refuses only a
  missing or empty text, so whitespace-only text is sent on. Neither route
  trims; the client in src/App.jsx trims before its check (app/page.tsx,
  which is not part of this model, trims too).
- There is no timeout, no `{`-prefix artifact selection and no typed
  parse or validation error anywhere in the code.
- The probes take the first list that is present, even when it is empty,
  and then fail on it. They do not go on to the first non-empty list.
- A non-ok reply gives the route's caller the fixed text
  "Failed to generate flowchart". The upstream status and body are not
  passed on.
- A rectangle's text is `node.label` as given, which may be absent. An
  arrow's text is the label or ''.
- When the client cannot parse a string content, it keeps the cleaned
  string and draws it. The string has no nodes, so the page is emptied and
  nothing is drawn.
- In src/App.jsx nothing stops a second generation from starting while one
  is in flight.

## Model

| member | source | states |
|---|---|---|
| Fences.RemoveAll | src/App.jsx:63 | the global replace never lengthens the text |
| Fences.RemoveAllOnlyDeletes | src/App.jsx:63 | the global replace only deletes: every character of the result is one of the input's, no more often |
| Fences.RemoveAllAbsent | src/App.jsx:63 | text in which the pattern does not occur is returned unchanged by the global replace |
| Fences.RemoveAllSkipsPrefix | src/App.jsx:63 | a prefix with no character that could start a match passes through, and the rest is processed alone |
| Fences.RemoveFenceLeavesNone | src/App.jsx:63 | after every "```" is removed, none is left, and the leading run of backticks shrinks to its length mod 3 |
| Fences.TrimStart | src/App.jsx:63 | the result is the suffix left after dropping the longest whitespace prefix |
| Fences.TrimEnd | src/App.jsx:63 | the result is the prefix left after dropping the longest whitespace suffix |
| Fences.Trim | src/App.jsx:14 | the result has no whitespace at either end, leaves trimmed text alone, and is empty iff every character is whitespace |
| Fences.CleanFences | src/App.jsx:63 | the fence-and-trim chain leaves no "```", no surrounding whitespace, and is never longer than its input |
| Fences.IsBlank | src/App.jsx:14 | the text counts as blank iff every character is whitespace |
| Fences.CleanIdempotent | src/App.jsx:70 | cleaning the cleaned text changes nothing |
| Fences.CleanKeepsBare | src/App.jsx:70 | trimmed text without backticks is left as it is |
| Fences.CleanFencedPayload | src/App.jsx:63 | "```json\n" + s + "\n```" cleans to s for trimmed s without backticks |
| Editor.Without | src/App.jsx:95 | deletion keeps exactly the shapes whose ids are not listed; nothing is left iff every id is listed |
| Editor.WithoutAllIsEmpty | src/App.jsx:93-96 | deleting every id of the page leaves it empty |
| Editor.Canvas.CurrentPageShapeIds | src/App.jsx:93 | one id per shape on the page, in page order |
| Editor.Canvas.DeleteShapes | src/App.jsx:95 | the page keeps only the shapes whose ids are not listed |
| Editor.Canvas.NewShapeId | src/App.jsx:106 | the id handed out was never handed out before |
| Editor.Canvas.CreateShape | src/App.jsx:109-121 | the new shape is appended to the page and nothing else changes |
| Editor.Canvas.ZoomToFit | src/App.jsx:145 | the viewport frames exactly the shapes on the page |
| Layout.Rectangles | src/App.jsx:104-124 | one rectangle per node, whether or not ids repeat |
| Layout.RectangleAt | src/App.jsx:98-124 | node i is a 200×60 rectangle at (100, 100 + 150·i) with its label and id base + i |
| Layout.RectanglesStacked | src/App.jsx:99-122 | rectangles share one x and are exactly 150 apart per step, in node order |
| Layout.IdMapDomain | src/App.jsx:105-107 | an id is in the id map iff some node carries it |
| Layout.IdMapPointsToLast | src/App.jsx:105-107 | the id map points at occurrence i iff no later node repeats its id |
| Layout.IdMap | src/App.jsx:98-107 | every node id in the id map points at one of this diagram's rectangles |
| Layout.Arrows | src/App.jsx:127-143 | no more arrows than edges |
| Layout.Kept | src/App.jsx:129-132 | an edge is kept iff it is an input edge whose source and target both resolve |
| Layout.ArrowsFollowKept | src/App.jsx:127-143 | the k-th arrow belongs to the k-th resolving edge, bound at anchor (0.5, 0.5) of both ends, with text label or '' |
| Layout.ArrowAt | src/App.jsx:127-143 | for each resolving edge k, the k-th arrow is that edge's arrow with id base + k |
| Layout.ArrowText | src/App.jsx:138 | the arrow's text is the label when there is one, and it is '' exactly when the label is absent or empty |
| Layout.ResolvesIff | src/App.jsx:129-132 | an edge resolves iff both its source and its target name some node |
| Layout.Drawing | src/App.jsx:103-143 | the page gets one shape per node and at most one more per edge |
| Layout.DrawingIds | src/App.jsx:106-133 | the k-th created shape has id base + k, so all are fresh and distinct |
| Layout.DrawingShape | src/App.jsx:103-143 | rectangles first, then at most one arrow per edge, each bound to the centres of this diagram's rectangles |
| Layout.DrawingSizeIndependentOfBase | src/App.jsx:93-143 | drawing the same diagram again gives the same number of shapes |
| Layout.TwoStepFlow | src/App.jsx:98-143 | two linked nodes give rectangles at y = 100 and 250 and one centre-to-centre arrow |
| Layout.DanglingEdgeDropped | src/App.jsx:127-132 | an edge to a missing node is dropped while the node is still drawn |
| FlowchartApp.NodesOf | src/App.jsx:104 | nodes are drawn only from an object content carrying a nodes array; anything else draws no node |
| FlowchartApp.EdgesOf | src/App.jsx:127 | edges are drawn only from an object content carrying an edges array; anything else draws no edge |
| FlowchartApp.ContentOf | src/App.jsx:52-77 | a failed request and a non-ok status are reported with their message or status and body; an ok body is read only after cleaning, and fails iff the envelope cannot be read; a string content is cleaned, parsed again, and kept as the fence-free cleaned text when that fails |
| FlowchartApp.FencedReplyReadsAsBare | src/App.jsx:59-65 | an ok reply wrapped in a json fence yields the same content as the bare reply |
| FlowchartApp.StringContentIsCleaned | src/App.jsx:68-77 | a string content that does not parse is kept as the cleaned, fence-free string |
| FlowchartApp.ClearPage | src/App.jsx:93-96 | after clearing, the page holds no shape |
| FlowchartApp.DrawNodes | src/App.jsx:98-124 | the node loop appends the rectangles and leaves the id map of last occurrences |
| FlowchartApp.DrawEdges | src/App.jsx:126-143 | the edge loop appends the arrows of the resolving edges in order |
| FlowchartApp.DrawEdge | src/App.jsx:128-141 | one turn of the edge loop appends that edge's arrow and uses up one id when both ends are in the id map, and changes nothing otherwise |
| FlowchartApp.App.DrawFlowchart | src/App.jsx:87-146 | a missing content throws with the page untouched, and no editor changes nothing; otherwise the page is exactly Drawing(...), no earlier shape remains, and the viewport is fitted once to all shapes |
| FlowchartApp.App.HandleGenerate | src/App.jsx:13-85 | skipped iff the text is blank or no editor is mounted; every failure leaves the page untouched; success draws the reply's content |
| FlowchartApp.App.Deliver | src/App.jsx:79-84 | a reply failure or a missing content is reported and the page is untouched; otherwise the content is drawn |
| FlowchartApp.App.HandleMount | src/App.jsx:9-11 | the mounted editor is remembered |
| Http.FirstPresent | app/api/flowchart/route.ts:52 | the ordered probe returns the first present candidate, or [] when none is present |
| NextRoute.Post | app/api/flowchart/route.ts:3-63 | the service is called iff the body was read and the key is set; each early return gives its fixed 500 message; otherwise 200 with the non-empty probed list |
| NextRoute.NullishFiles | app/api/flowchart/route.ts:52 | the `??` chain is the ordered probe latestVersion.files, then files, then [] |
| NextRoute.CaughtMessage | app/api/flowchart/route.ts:61 | a thrown Error is answered with its own message; anything else thrown, even an object carrying a message, with "Unknown error" |
| NextRoute.PostSuccess | app/api/flowchart/route.ts:50-58 | status 200 iff the service answered and the probed list is non-empty, and then the body is that list |
| NextRoute.EmptyLatestIsTaken | app/api/flowchart/route.ts:52-56 | an empty latestVersion.files is not skipped and ends in "No files returned from v0" |
| NextRoute.TextIsNotChecked | app/api/flowchart/route.ts:5-12 | the response does not depend on the text |
| NextRoute.NoKeyNoCall | app/api/flowchart/route.ts:7-10 | without a key the service is not called and its behaviour cannot matter |
| ExpressApi.Handle | api/index.js:9-34 | a falsy text gives 400 without a call; a thrown error gives "Backend crash: " + message; otherwise 200 with the non-empty probed list, or 500 |
| ExpressApi.TruthyFiles | api/index.js:20 | the `\|\|` chain is the same ordered probe as the route's `??` chain |
| ExpressApi.CrashMessage | api/index.js:32 | the answer is "Backend crash: " followed by the thrown value's message, Error or not, or by "undefined" when it has none |
| ExpressApi.CatchBlocksDiffer | api/index.js:29-33 | a thrown non-Error object carrying a message is hidden by the route as "Unknown error" and passed on by this handler; for an Error both pass the message on |
| ExpressApi.HandleSuccess | api/index.js:20-27 | status 200 iff the text is given and the probed list is non-empty, and then the body is that list |
| ExpressApi.WhitespaceIsSent | api/index.js:12 | whitespace-only text is sent on; a missing or empty text gives 400 |
| ExpressApi.HandlersAgreeOnSuccess | api/index.js:20-27 | once both handlers reach the service, they succeed on the same answers with the same body |

## Left out

- app/page.tsx and app/layout.tsx: the React page, its loading, error and result state, the disabled button and the static metadata are user interface, not pipeline logic.
- Network I/O: the client's request, the route's `fetch` and the SDK's `v0.chats.create` are inputs (`Reply`, `Upstream`, `ChatCreation`). `maxDuration` is a deployment setting, and no timeout logic exists in the code.
- `JSON.parse`, `JSON.stringify`, `request.json()`, `NextResponse` and Express are foreign code. Their results are inputs: the client's `envelope` and `parse` parameters, the route's `Request`, the Express handler's optional text. Parsing failures are caught values or `None`.
- Prompt wording, console logging and the text of the client's `alert` are left out. A failure is reported as a `Failure` value.
- Drawing-editor internals are left out: random `createShapeId` (a counter here), arrow binding resolution, `zoomToFit` geometry (the set of framed ids here) and the `persistenceKey` persistence.
- FlowchartApp.DrawEdges: in the source, tldraw mints an arrow's id inside `createShape`; here the id is taken from the same counter just before the arrow is created.
- Layout.IdMap: `idMap` is a Dafny map of strings. JavaScript plain-object quirks (a key such as "constructor") and non-string ids coerced to strings are not modelled.
- Node and edge labels are optional strings. Non-string labels (numbers, objects) and node and edge entries that are not objects are not modelled. A `null` entry in `edges` throws at src/App.jsx:129 after the page was cleared and the rectangles drawn, so the source leaves a partial drawing without `zoomToFit`; `FlowchartApp.App.DrawFlowchart` does not cover that case.
- Fences.Trim: the whitespace set is fixed (space, tab, line feed, carriage return, vertical tab, form feed, no-break space, byte-order mark, line and paragraph separators). Other Unicode space separators are not stripped.
- NextRoute.Post: a `latestVersion.files` or `files` value that is present but not an array (a string, a number) is not modelled. The two chains differ only on a present falsy value other than `null` or `undefined` (`""`, `0`, `false`, `NaN`): `??` takes it and `||` skips it.
- ExpressApi.Handle: the text is an optional string. api/index.js:12 applies `!text` to any JSON value, so `5` or `[]` would be sent on and `0` or `false` refused with 400; non-string texts are not modelled.
- ExpressApi.Handle: a thrown `null` or `undefined` makes `err.message` throw inside the catch block. This case is not modelled. A request body that Express cannot parse is answered by Express before the handler runs.
- Two clicks of Generate can interleave their asynchronous steps. This concurrency is not modelled.
