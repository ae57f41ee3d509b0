/**
 * The browser client (src/App.jsx): the blank-input guard, the request and
 * reply clean-up of `handleGenerate`, and `drawFlowchart`, which replaces
 * everything on the editor's page by the diagram's rectangles and arrows.
 *
 * The HTTP request, `JSON.parse` and the walk down
 * `apiResponse.choices[0].message.content` are inputs: `Reply` is what the
 * request produced, `envelope` stands for parsing the cleaned reply and
 * reading its content, `parse` for parsing a string content.
 */
module FlowchartApp {
  import opened Wrappers
  import opened Fences
  import opened Editor
  import opened Layout

  /** A parsed message content, as far as `drawFlowchart` can tell them apart. */
  datatype Content =
      /** null or undefined: destructuring `{ nodes, edges }` throws */
    | Missing
      /** a string: it has no `nodes` or `edges` */
    | Text(text: string)
      /** any other value; a field is None when it is not an array */
    | Value(nodes: Option<seq<Node>>, edges: Option<seq<Edge>>)

  /** What the request to the chat-completions endpoint produced. */
  datatype Reply =
    | FetchThrew(message: string)
    | Responded(status: int, body: string)

  /** Parsing the cleaned reply and reading its message content. */
  datatype Envelope =
    | Parsed(content: Content)
      /** `JSON.parse` threw, or a property on the way to the content was missing */
    | Unusable(message: string)

  /** Why a generation ended in the alert of the catch block. */
  datatype Failure =
    | RequestFailed(message: string)
    | ApiFailed(status: int, body: string)
    | EnvelopeFailed(message: string)
    | NothingToDraw

  datatype Outcome = Skipped | Failed(failure: Failure) | Drawn

  /** `response.ok` */
  predicate IsOk(status: int) {
    200 <= status <= 299
  }

  /** `nodes && Array.isArray(nodes)`: nodes are drawn only from an object carrying a nodes array. */
  function NodesOf(c: Content): (ns: seq<Node>)
    ensures c.Value? && c.nodes.Some? ==> ns == c.nodes.value
    ensures !c.Value? || c.nodes.None? ==> ns == []
  {
    if c.Value? then c.nodes.GetOr([]) else []
  }

  /** `edges && Array.isArray(edges)`: edges are drawn only from an object carrying an edges array. */
  function EdgesOf(c: Content): (es: seq<Edge>)
    ensures c.Value? && c.edges.Some? ==> es == c.edges.value
    ensures !c.Value? || c.edges.None? ==> es == []
  {
    if c.Value? then c.edges.GetOr([]) else []
  }

  /**
   * The content handed to `drawFlowchart`, or why none was: a string content
   * is cleaned and parsed again, and kept as cleaned text when that fails.
   */
  function ContentOf(reply: Reply, envelope: string -> Envelope, parse: string -> Option<Content>)
    : (r: Result<Content, Failure>)
    ensures reply.FetchThrew? ==> r == Err(RequestFailed(reply.message))
    ensures reply.Responded? && !IsOk(reply.status) ==> r == Err(ApiFailed(reply.status, reply.body))
    ensures reply.Responded? && IsOk(reply.status) ==>
              (r.Err? <==> envelope(CleanFences(reply.body)).Unusable?)
    ensures r.Ok? && envelope(CleanFences(reply.body)).content.Text? ==>
              var cleaned := CleanFences(envelope(CleanFences(reply.body)).content.text);
              r.value == parse(cleaned).GetOr(Text(cleaned)) && !Contains(cleaned, Fence)
    ensures r.Ok? && !envelope(CleanFences(reply.body)).content.Text? ==>
              r.value == envelope(CleanFences(reply.body)).content
  {
    match reply
    case FetchThrew(msg) => Err(RequestFailed(msg))
    case Responded(status, body) =>
      if !IsOk(status) then Err(ApiFailed(status, body))
      else
        match envelope(CleanFences(body))
        case Unusable(msg) => Err(EnvelopeFailed(msg))
        case Parsed(c) =>
          if c.Text? then
            var cleaned := CleanFences(c.text);
            Ok(parse(cleaned).GetOr(Text(cleaned)))
          else Ok(c)
  }

  /**
   * A reply wrapped in a json fence reads like the bare reply: the parser
   * sees the same text either way.
   */
  lemma FencedReplyReadsAsBare(status: int, body: string,
                               envelope: string -> Envelope, parse: string -> Option<Content>)
    requires IsOk(status)
    requires forall k :: 0 <= k < |body| ==> body[k] != '`'
    requires IsTrimmed(body)
    ensures ContentOf(Responded(status, "```json\n" + body + "\n```"), envelope, parse)
         == ContentOf(Responded(status, body), envelope, parse)
  {
    var fenced := "```json\n" + body + "\n```";
    CleanFencedPayload(body);
    CleanKeepsBare(body);
    ContentOfReadsCleanedBody(status, fenced, body, envelope, parse);
  }

  /** An ok reply is only ever looked at through its cleaned text. */
  lemma ContentOfReadsCleanedBody(status: int, b1: string, b2: string,
                                  envelope: string -> Envelope, parse: string -> Option<Content>)
    requires IsOk(status)
    requires CleanFences(b1) == CleanFences(b2)
    ensures ContentOf(Responded(status, b1), envelope, parse) == ContentOf(Responded(status, b2), envelope, parse)
  {
  }

  /** A string content is parsed from cleaned text, so never from text with a fence. */
  lemma StringContentIsCleaned(body: string, text: string,
                               envelope: string -> Envelope, parse: string -> Option<Content>)
    requires envelope(CleanFences(body)) == Parsed(Text(text))
    requires parse(CleanFences(text)).None?
    ensures ContentOf(Responded(200, body), envelope, parse) == Ok(Text(CleanFences(text)))
    ensures !Contains(CleanFences(text), Fence)
  {
  }

  /** Deletes every shape of the current page, when there are any. */
  method ClearPage(ed: Canvas)
    requires ed.Valid()
    modifies ed`shapes
    ensures ed.Valid()
    ensures ed.shapes == []
  {
    var currentIds := ed.CurrentPageShapeIds();
    if |currentIds| > 0 {
      ed.DeleteShapes(currentIds);
      assert currentIds == IdsOf(old(ed.shapes));
      WithoutAllIsEmpty(old(ed.shapes));
    }
  }

  /**
   * The node loop of `drawFlowchart`: one rectangle per node, stacked by a
   * running `y`, and `idMap` filled as it goes (a later duplicate id wins).
   */
  method DrawNodes(ed: Canvas, ns: seq<Node>) returns (idMap: map<string, ShapeId>)
    requires ed.Valid()
    modifies ed`shapes, ed`nextId
    ensures ed.Valid()
    ensures ed.shapes == old(ed.shapes) + Rectangles(ns, old(ed.nextId))
    ensures ed.nextId == old(ed.nextId) + |ns|
    ensures idMap == IdMap(ns, old(ed.nextId))
  {
    var base := ed.nextId;
    var before := ed.shapes;
    idMap := map[];
    var x, y := 100, 100;
    var yGap := 150;
    var i := 0;
    while i < |ns|
      invariant 0 <= i <= |ns|
      invariant x == StartX && y == StartY + YGap * i
      invariant ed.Valid() && ed.nextId == base + i
      invariant ed.shapes == before + Rectangles(ns[..i], base)
      invariant idMap == IdMap(ns[..i], base)
    {
      var node := ns[i];
      var shapeId := ed.NewShapeId();
      idMap := idMap[node.id := shapeId];
      ed.CreateShape(Rectangle(shapeId, x, y, NodeWidth, NodeHeight, node.caption));
      assert ns[..i + 1][..i] == ns[..i];
      y := y + yGap;
      i := i + 1;
    }
    assert ns[..|ns|] == ns;
  }

  /**
   * The edge loop of `drawFlowchart`: an arrow for each edge whose source
   * and target are both in `idMap`, bound to the centres of those shapes.
   */
  method DrawEdges(ed: Canvas, es: seq<Edge>, idMap: map<string, ShapeId>, base: ShapeId)
    requires ed.Valid() && ed.nextId == base
    modifies ed`shapes, ed`nextId
    ensures ed.Valid()
    ensures ed.shapes == old(ed.shapes) + Arrows(es, idMap, base)
    ensures ed.nextId == base + |Arrows(es, idMap, base)|
  {
    var before := ed.shapes;
    ghost var drawn: seq<Shape> := [];
    var j := 0;
    while j < |es|
      invariant 0 <= j <= |es|
      invariant drawn == Arrows(es[..j], idMap, base)
      invariant ed.Valid()
      invariant ed.shapes == before + drawn
      invariant ed.nextId == base + |drawn|
    {
      ArrowsStep(es, idMap, base, j);
      DrawEdge(ed, es[j], idMap);
      drawn := Arrows(es[..j + 1], idMap, base);
      j := j + 1;
    }
    assert es[..|es|] == es;
  }

  /** One turn of the edge loop: an arrow when both ends resolve, nothing otherwise. */
  method DrawEdge(ed: Canvas, edge: Edge, idMap: map<string, ShapeId>)
    requires ed.Valid()
    modifies ed`shapes, ed`nextId
    ensures ed.Valid()
    ensures Resolves(edge, idMap) ==>
              ed.shapes == old(ed.shapes) + [ArrowOf(edge, idMap, old(ed.nextId))] && ed.nextId == old(ed.nextId) + 1
    ensures !Resolves(edge, idMap) ==> ed.shapes == old(ed.shapes) && ed.nextId == old(ed.nextId)
  {
    var sourceId := if edge.source in idMap then Some(idMap[edge.source]) else None;
    var targetId := if edge.target in idMap then Some(idMap[edge.target]) else None;
    if sourceId.Some? && targetId.Some? {
      var arrowId := ed.NewShapeId();
      ed.CreateShape(Arrow(arrowId, Binding(sourceId.value, Center), Binding(targetId.value, Center),
                           ArrowText(edge.caption)));
    }
  }

  /**
   * How a generation that made its request ends: a failure carried by the
   * reply is reported as is, a missing content is reported as nothing to
   * draw, anything else is drawn.
   */
  predicate Delivered(fetched: Result<Content, Failure>, r: Outcome) {
    match fetched
    case Err(f) => r == Failed(f)
    case Ok(c) => r == (if c.Missing? then Failed(NothingToDraw) else Drawn)
  }

  class App {
    /** The textarea's text. */
    var inputText: string
    /** `editorRef.current`: null until the editor has mounted. */
    var editor: Canvas?

    constructor ()
      ensures inputText == [] && editor == null
    {
      inputText, editor := [], null;
    }

    /** `handleMount`: remembers the mounted editor. */
    method HandleMount(e: Canvas)
      modifies this`editor
      ensures editor == e
    {
      editor := e;
    }

    /**
     * `drawFlowchart(content)`. Destructuring throws on a missing content
     * before anything happens; without an editor nothing happens; otherwise
     * the page is emptied, the rectangles and then the arrows are created,
     * and the viewport is fitted once.
     */
    method DrawFlowchart(content: Content) returns (threw: bool)
      requires editor != null ==> editor.Valid()
      modifies editor
      ensures threw <==> content.Missing?
      ensures editor != null ==> editor.Valid()
      ensures threw && editor != null ==> unchanged(editor)
      ensures !threw && editor != null ==>
                && editor.shapes == Drawing(NodesOf(content), EdgesOf(content), old(editor.nextId))
                && editor.nextId == old(editor.nextId) + |editor.shapes|
                && editor.framed == (set s | s in editor.shapes :: s.id)
                && editor.fits == old(editor.fits) + 1
      ensures !threw && editor != null ==>
                forall s :: s in old(editor.shapes) ==> s !in editor.shapes
    {
      if content.Missing? {
        return true;
      }
      threw := false;
      var ed := editor;
      if ed == null {
        return;
      }
      ClearPage(ed);
      var base := ed.nextId;
      var ns, es := NodesOf(content), EdgesOf(content);
      var idMap := DrawNodes(ed, ns);
      DrawEdges(ed, es, idMap, base + |ns|);
      ed.ZoomToFit();
      DrawingIds(ns, es, base);
    }

    /**
     * `handleGenerate`. A blank text or a missing editor ends it before any
     * request; a failed request, a non-ok status, an unusable reply or a
     * missing content ends in the alert with the page untouched; otherwise
     * the page shows exactly the content's diagram.
     */
    method HandleGenerate(reply: Reply, envelope: string -> Envelope, parse: string -> Option<Content>)
      returns (r: Outcome)
      requires editor != null ==> editor.Valid()
      modifies editor
      ensures editor != null ==> editor.Valid()
      ensures r.Skipped? <==> IsBlank(inputText) || editor == null
      ensures !r.Skipped? ==> Delivered(ContentOf(reply, envelope, parse), r)
      ensures !r.Drawn? && editor != null ==> unchanged(editor)
      ensures r.Drawn? ==>
                && editor != null
                && ContentOf(reply, envelope, parse).Ok?
                && (var c := ContentOf(reply, envelope, parse).value;
                    editor.shapes == Drawing(NodesOf(c), EdgesOf(c), old(editor.nextId)))
                && editor.framed == (set s | s in editor.shapes :: s.id)
    {
      if IsBlank(inputText) || editor == null {
        return Skipped;
      }
      var fetched := ContentOf(reply, envelope, parse);
      r := Deliver(fetched);
    }

    /** The part of `handleGenerate` after the reply is in: draw it or fail. */
    method Deliver(fetched: Result<Content, Failure>) returns (r: Outcome)
      requires editor != null && editor.Valid()
      modifies editor
      ensures editor.Valid()
      ensures Delivered(fetched, r)
      ensures !r.Drawn? ==> unchanged(editor)
      ensures r.Drawn? ==>
                && fetched.Ok?
                && editor.shapes == Drawing(NodesOf(fetched.value), EdgesOf(fetched.value), old(editor.nextId))
                && editor.framed == (set s | s in editor.shapes :: s.id)
    {
      if fetched.Err? {
        return Failed(fetched.error);
      }
      var threw := DrawFlowchart(fetched.value);
      if threw {
        return Failed(NothingToDraw);
      }
      r := Drawn;
    }
  }
}
