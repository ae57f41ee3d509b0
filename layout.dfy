/**
 * What `drawFlowchart` puts on the page (src/App.jsx), as a pure function of
 * the node and edge lists and of the first fresh shape id.
 *
 * Node i (in input order) becomes a 200 x 60 rectangle at x = 100,
 * y = 100 + 150 * i. The id map sends a node id to the shape of its LAST
 * occurrence. An edge becomes an arrow only when both of its ends are in the
 * id map; arrows follow all rectangles, in edge order. The k-th shape
 * created gets id `base + k`.
 */
module Layout {
  import opened Wrappers
  import opened Editor

  /** A node as parsed; `caption` is its `label` field, absent when missing. */
  datatype Node = Node(id: string, caption: Option<string>)

  /** An edge as parsed; `caption` is its `label` field, absent when missing. */
  datatype Edge = Edge(source: string, target: string, caption: Option<string>)

  const StartX: int := 100
  const StartY: int := 100
  const YGap: int := 150
  const NodeWidth: int := 200
  const NodeHeight: int := 60

  /** The rectangle of node `n`, the i-th node, under id `id`. */
  function RectangleOf(n: Node, i: nat, id: ShapeId): Shape {
    Rectangle(id, StartX, StartY + YGap * i, NodeWidth, NodeHeight, n.caption)
  }

  /** One rectangle per node, in node order, ids from `base` on. */
  function Rectangles(ns: seq<Node>, base: ShapeId): (r: seq<Shape>)
    ensures |r| == |ns|
    decreases |ns|
  {
    if ns == [] then []
    else Rectangles(ns[..|ns| - 1], base) + [RectangleOf(ns[|ns| - 1], |ns| - 1, base + |ns| - 1)]
  }

  /**
   * `idMap` after the node loop: node id to the shape id of its last
   * occurrence. Every mapped id points at one of this diagram's rectangles.
   */
  function IdMap(ns: seq<Node>, base: ShapeId): (m: map<string, ShapeId>)
    ensures forall id :: id in m ==> base <= m[id] < base + |ns|
    decreases |ns|
  {
    if ns == [] then map[]
    else IdMap(ns[..|ns| - 1], base)[ns[|ns| - 1].id := base + |ns| - 1]
  }

  /** `idMap[edge.source] && idMap[edge.target]`: both ends resolve. */
  predicate Resolves(e: Edge, m: map<string, ShapeId>) {
    e.source in m && e.target in m
  }

  /** `edge.label || ''`: the label when there is one, and '' when it is absent or empty. */
  function ArrowText(caption: Option<string>): (t: string)
    ensures caption.Some? ==> t == caption.value
    ensures t == [] <==> caption.None? || caption.value == []
  {
    caption.GetOr("")
  }

  /** The arrow drawn for a resolving edge, bound to the centre of both ends. */
  function ArrowOf(e: Edge, m: map<string, ShapeId>, id: ShapeId): Shape
    requires Resolves(e, m)
  {
    Arrow(id, Binding(m[e.source], Center), Binding(m[e.target], Center), ArrowText(e.caption))
  }

  /** The arrows of the edge loop, in edge order, ids from `base` on. */
  function Arrows(es: seq<Edge>, m: map<string, ShapeId>, base: ShapeId): (r: seq<Shape>)
    ensures |r| <= |es|
    decreases |es|
  {
    if es == [] then []
    else
      var prev := Arrows(es[..|es| - 1], m, base);
      var e := es[|es| - 1];
      if Resolves(e, m) then prev + [ArrowOf(e, m, base + |prev|)] else prev
  }

  /** Taking one more edge adds its arrow, numbered after those before it, when it resolves. */
  lemma ArrowsStep(es: seq<Edge>, m: map<string, ShapeId>, base: ShapeId, j: nat)
    requires j < |es|
    ensures Resolves(es[j], m) ==>
              Arrows(es[..j + 1], m, base) == Arrows(es[..j], m, base) + [ArrowOf(es[j], m, base + |Arrows(es[..j], m, base)|)]
    ensures !Resolves(es[j], m) ==> Arrows(es[..j + 1], m, base) == Arrows(es[..j], m, base)
  {
    assert es[..j + 1][..j] == es[..j];
  }

  /** The edges that resolve, in order: the reference for which edges get an arrow. */
  function Kept(es: seq<Edge>, m: map<string, ShapeId>): (r: seq<Edge>)
    ensures forall e :: e in r <==> e in es && Resolves(e, m)
    ensures |r| <= |es|
    decreases |es|
  {
    if es == [] then []
    else
      var prev := Kept(es[..|es| - 1], m);
      var e := es[|es| - 1];
      assert es == es[..|es| - 1] + [e];
      if Resolves(e, m) then prev + [e] else prev
  }

  /** Every shape created by `drawFlowchart`, in creation order: one per node, at most one per edge. */
  function Drawing(ns: seq<Node>, es: seq<Edge>, base: ShapeId): (page: seq<Shape>)
    ensures |ns| <= |page| <= |ns| + |es|
  {
    Rectangles(ns, base) + Arrows(es, IdMap(ns, base), base + |ns|)
  }

  // ---------------------------------------------------------------------
  // Rectangles
  // ---------------------------------------------------------------------

  /** Node i is a 200 x 60 rectangle at (100, 100 + 150 i) with its label, id base + i. */
  lemma {:induction false} RectangleAt(ns: seq<Node>, base: ShapeId, i: nat)
    requires i < |ns|
    ensures Rectangles(ns, base)[i]
         == Rectangle(base + i, 100, 100 + 150 * i, 200, 60, ns[i].caption)
    decreases |ns|
  {
    if i < |ns| - 1 {
      RectangleAt(ns[..|ns| - 1], base, i);
    }
  }

  /** Rectangles are stacked in one column, 150 apart, in node order. */
  lemma RectanglesStacked(ns: seq<Node>, base: ShapeId, i: nat, j: nat)
    requires i < j < |ns|
    ensures Rectangles(ns, base)[i].Rectangle? && Rectangles(ns, base)[j].Rectangle?
    ensures Rectangles(ns, base)[i].x == Rectangles(ns, base)[j].x
    ensures Rectangles(ns, base)[j].y - Rectangles(ns, base)[i].y == YGap * (j - i)
  {
    RectangleAt(ns, base, i);
    RectangleAt(ns, base, j);
  }

  // ---------------------------------------------------------------------
  // The id map
  // ---------------------------------------------------------------------

  /** A node id is mapped exactly when some node carries it. */
  lemma {:induction false} IdMapDomain(ns: seq<Node>, base: ShapeId, id: string)
    ensures id in IdMap(ns, base) <==> exists i :: 0 <= i < |ns| && ns[i].id == id
    decreases |ns|
  {
    if ns != [] {
      var init := ns[..|ns| - 1];
      IdMapDomain(init, base, id);
      if exists i :: 0 <= i < |init| && init[i].id == id {
        var i :| 0 <= i < |init| && init[i].id == id;
        assert ns[i].id == id;
      }
      if exists i :: 0 <= i < |ns| && ns[i].id == id {
        var i :| 0 <= i < |ns| && ns[i].id == id;
        if i < |init| {
          assert init[i].id == id;
        }
      }
    }
  }

  /**
   * Duplicate ids: every occurrence keeps its own rectangle, but the id map
   * points at occurrence i exactly when no later node repeats its id.
   */
  lemma {:induction false} IdMapPointsToLast(ns: seq<Node>, base: ShapeId, i: nat)
    requires i < |ns|
    ensures ns[i].id in IdMap(ns, base)
    ensures IdMap(ns, base)[ns[i].id] == base + i
        <==> forall j :: i < j < |ns| ==> ns[j].id != ns[i].id
    decreases |ns|
  {
    var init := ns[..|ns| - 1];
    var id := ns[i].id;
    if i < |ns| - 1 {
      IdMapPointsToLast(init, base, i);
      assert init[i] == ns[i];
      if ns[|ns| - 1].id != id {
        assert forall j :: i < j < |init| ==> init[j] == ns[j];
      }
    }
  }

  /** Which ids are mapped does not depend on the first shape id. */
  lemma IdMapKeysIndependentOfBase(ns: seq<Node>, b1: ShapeId, b2: ShapeId)
    ensures IdMap(ns, b1).Keys == IdMap(ns, b2).Keys
  {
    forall id ensures id in IdMap(ns, b1) <==> id in IdMap(ns, b2) {
      IdMapDomain(ns, b1, id);
      IdMapDomain(ns, b2, id);
    }
  }

  // ---------------------------------------------------------------------
  // Arrows
  // ---------------------------------------------------------------------

  /** One arrow per resolving edge. */
  lemma {:induction false} ArrowsCount(es: seq<Edge>, m: map<string, ShapeId>, base: ShapeId)
    ensures |Arrows(es, m, base)| == |Kept(es, m)|
    decreases |es|
  {
    if es != [] {
      ArrowsCount(es[..|es| - 1], m, base);
    }
  }

  /** The k-th arrow is the arrow of the k-th resolving edge, with id base + k. */
  lemma {:induction false} ArrowAt(es: seq<Edge>, m: map<string, ShapeId>, base: ShapeId, k: nat)
    requires k < |Kept(es, m)|
    ensures k < |Arrows(es, m, base)|
    ensures Resolves(Kept(es, m)[k], m)
    ensures Arrows(es, m, base)[k] == ArrowOf(Kept(es, m)[k], m, base + k)
    decreases |es|
  {
    var init, e := es[..|es| - 1], es[|es| - 1];
    var arrows, kept := Arrows(init, m, base), Kept(init, m);
    ArrowsCount(init, m, base);
    if k < |kept| {
      ArrowAt(init, m, base, k);
    }
  }

  /** The arrows are, in order, the arrows of the resolving edges, with ids from base on. */
  lemma ArrowsFollowKept(es: seq<Edge>, m: map<string, ShapeId>, base: ShapeId)
    ensures |Arrows(es, m, base)| == |Kept(es, m)|
    ensures forall k :: 0 <= k < |Kept(es, m)| ==>
              Resolves(Kept(es, m)[k], m) && Arrows(es, m, base)[k] == ArrowOf(Kept(es, m)[k], m, base + k)
  {
    ArrowsCount(es, m, base);
    forall k | 0 <= k < |Kept(es, m)|
      ensures Resolves(Kept(es, m)[k], m) && Arrows(es, m, base)[k] == ArrowOf(Kept(es, m)[k], m, base + k)
    {
      ArrowAt(es, m, base, k);
    }
  }

  /** Which edges resolve depends only on which ids are mapped. */
  lemma {:induction false} KeptDependsOnKeys(es: seq<Edge>, m1: map<string, ShapeId>, m2: map<string, ShapeId>)
    requires m1.Keys == m2.Keys
    ensures Kept(es, m1) == Kept(es, m2)
    decreases |es|
  {
    if es != [] {
      KeptDependsOnKeys(es[..|es| - 1], m1, m2);
      assert Resolves(es[|es| - 1], m1) == Resolves(es[|es| - 1], m2);
    }
  }

  /** An edge resolves exactly when both of its ends name some node. */
  lemma ResolvesIff(ns: seq<Node>, base: ShapeId, e: Edge)
    ensures Resolves(e, IdMap(ns, base)) <==>
              ((exists i :: 0 <= i < |ns| && ns[i].id == e.source) &&
               (exists j :: 0 <= j < |ns| && ns[j].id == e.target))
  {
    IdMapDomain(ns, base, e.source);
    IdMapDomain(ns, base, e.target);
  }

  // ---------------------------------------------------------------------
  // The whole page
  // ---------------------------------------------------------------------

  /** The k-th created shape has id base + k: all ids are fresh and distinct. */
  lemma DrawingIds(ns: seq<Node>, es: seq<Edge>, base: ShapeId)
    ensures forall k :: 0 <= k < |Drawing(ns, es, base)| ==> Drawing(ns, es, base)[k].id == base + k
  {
    var m := IdMap(ns, base);
    ArrowsFollowKept(es, m, base + |ns|);
    forall k | 0 <= k < |Drawing(ns, es, base)| ensures Drawing(ns, es, base)[k].id == base + k {
      if k < |ns| {
        RectangleAt(ns, base, k);
      }
    }
  }

  /**
   * The first |ns| shapes are the rectangles; after them come at most |es|
   * arrows, one per resolving edge, each bound to the centres of two of
   * those rectangles.
   */
  lemma DrawingShape(ns: seq<Node>, es: seq<Edge>, base: ShapeId)
    ensures |Drawing(ns, es, base)| == |ns| + |Kept(es, IdMap(ns, base))|
    ensures |Drawing(ns, es, base)| <= |ns| + |es|
    ensures forall k :: 0 <= k < |ns| ==> Drawing(ns, es, base)[k].Rectangle?
    ensures forall k :: |ns| <= k < |Drawing(ns, es, base)| ==>
              var a := Drawing(ns, es, base)[k];
              && a.Arrow?
              && a.start.anchor == Center && a.end.anchor == Center
              && base <= a.start.shape < base + |ns|
              && base <= a.end.shape < base + |ns|
  {
    var page := Drawing(ns, es, base);
    ArrowsCount(es, IdMap(ns, base), base + |ns|);
    forall k | 0 <= k < |ns| ensures page[k].Rectangle? {
      RectangleAt(ns, base, k);
    }
    forall k | |ns| <= k < |page|
      ensures page[k].Arrow? && page[k].start.anchor == Center && page[k].end.anchor == Center
      ensures base <= page[k].start.shape < base + |ns| && base <= page[k].end.shape < base + |ns|
    {
      ArrowInDrawing(ns, es, base, k - |ns|);
    }
  }

  /** The k-th arrow of the page joins the centres of two of this diagram's rectangles. */
  lemma ArrowInDrawing(ns: seq<Node>, es: seq<Edge>, base: ShapeId, k: nat)
    requires k < |Kept(es, IdMap(ns, base))|
    ensures |ns| + k < |Drawing(ns, es, base)|
    ensures var a := Drawing(ns, es, base)[|ns| + k];
            && a.Arrow? && a.start.anchor == Center && a.end.anchor == Center
            && base <= a.start.shape < base + |ns| && base <= a.end.shape < base + |ns|
  {
    var m := IdMap(ns, base);
    ArrowAt(es, m, base + |ns|, k);
    assert Drawing(ns, es, base)[|ns| + k] == Arrows(es, m, base + |ns|)[k];
  }

  /** Drawing the same diagram again yields as many shapes, whatever the ids. */
  lemma DrawingSizeIndependentOfBase(ns: seq<Node>, es: seq<Edge>, b1: ShapeId, b2: ShapeId)
    ensures |Drawing(ns, es, b1)| == |Drawing(ns, es, b2)|
  {
    DrawingShape(ns, es, b1);
    DrawingShape(ns, es, b2);
    IdMapKeysIndependentOfBase(ns, b1, b2);
    KeptDependsOnKeys(es, IdMap(ns, b1), IdMap(ns, b2));
  }

  // ---------------------------------------------------------------------
  // Worked examples
  // ---------------------------------------------------------------------

  /** Two nodes and the edge between them: rectangles at y = 100 and y = 250, one arrow. */
  lemma TwoStepFlow(base: ShapeId)
    ensures Drawing([Node("1", Some("Start")), Node("2", Some("Enter credentials"))],
                    [Edge("1", "2", None)], base)
         == [ Rectangle(base, 100, 100, 200, 60, Some("Start")),
              Rectangle(base + 1, 100, 250, 200, 60, Some("Enter credentials")),
              Arrow(base + 2, Binding(base, Center), Binding(base + 1, Center), "") ]
  {
    var ns := [Node("1", Some("Start")), Node("2", Some("Enter credentials"))];
    var es := [Edge("1", "2", None)];
    assert ns[..1] == [ns[0]] && [ns[0]][..0] == [];
    assert es[..0] == [];
    assert IdMap(ns, base) == map["1" := base, "2" := base + 1];
  }

  /** An edge to a node that does not exist is dropped; the nodes are still drawn. */
  lemma DanglingEdgeDropped(base: ShapeId)
    ensures Drawing([Node("1", None)], [Edge("1", "99", None)], base)
         == [Rectangle(base, 100, 100, 200, 60, None)]
  {
    var ns := [Node("1", None)];
    assert ns[..0] == [];
    assert IdMap(ns, base) == map["1" := base];
    assert "99" !in IdMap(ns, base);
    assert [Edge("1", "99", None)][..0] == [];
  }
}
