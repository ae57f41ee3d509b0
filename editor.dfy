/**
 * The drawing editor's current page, as the flowchart client uses it:
 * list the shape ids on the page, delete shapes by id, hand out a fresh
 * shape id, create a shape, and fit the viewport to the page.
 */
module Editor {
  import opened Wrappers

  /** Shape ids are handed out by a counter, so a new id was never used before. */
  type ShapeId = nat

  /** A point given as fractions of a shape's width and height. */
  datatype Anchor = Anchor(x: real, y: real)

  /** The middle of a shape. */
  const Center: Anchor := Anchor(0.5, 0.5)

  /** One end of an arrow, attached to a shape. */
  datatype Binding = Binding(shape: ShapeId, anchor: Anchor)

  datatype Shape =
      /** A 'geo' shape of kind 'rectangle' with no fill; `text` is the node's label as given. */
    | Rectangle(id: ShapeId, x: int, y: int, w: int, h: int, text: Option<string>)
      /** An arrow whose two ends are bound to shapes; `caption` is its text prop. */
    | Arrow(id: ShapeId, start: Binding, end: Binding, caption: string)

  /** The ids of a list of shapes, in order. */
  function IdsOf(shapes: seq<Shape>): (ids: seq<ShapeId>)
    ensures |ids| == |shapes|
    ensures forall i :: 0 <= i < |shapes| ==> ids[i] == shapes[i].id
    decreases |shapes|
  {
    if shapes == [] then [] else IdsOf(shapes[..|shapes| - 1]) + [shapes[|shapes| - 1].id]
  }

  /** The shapes whose ids are not in `gone`, in their original order. */
  function Without(shapes: seq<Shape>, gone: set<ShapeId>): (r: seq<Shape>)
    ensures forall s :: s in r <==> s in shapes && s.id !in gone
    ensures r == [] <==> forall s :: s in shapes ==> s.id in gone
    ensures |r| <= |shapes|
    decreases |shapes|
  {
    if shapes == [] then []
    else if shapes[0].id in gone then Without(shapes[1..], gone)
    else [shapes[0]] + Without(shapes[1..], gone)
  }

  class Canvas {
    /** The shapes on the current page, in creation order. */
    var shapes: seq<Shape>
    /** Every id handed out so far is below this one. */
    var nextId: ShapeId
    /** The ids the viewport was last fitted to. */
    var framed: set<ShapeId>
    /** How many times the viewport has been fitted. */
    var fits: nat

    /** Every shape on the page carries an id that has been handed out. */
    ghost predicate Valid()
      reads this
    {
      forall s :: s in shapes ==> s.id < nextId
    }

    constructor ()
      ensures Valid()
      ensures shapes == [] && nextId == 0 && framed == {} && fits == 0
    {
      shapes, nextId, framed, fits := [], 0, {}, 0;
    }

    /** The ids of the shapes on the current page. */
    method CurrentPageShapeIds() returns (ids: seq<ShapeId>)
      ensures |ids| == |shapes|
      ensures forall i :: 0 <= i < |shapes| ==> ids[i] == shapes[i].id
    {
      ids := IdsOf(shapes);
    }

    /** Removes every shape whose id is listed; keeps the others in order. */
    method DeleteShapes(ids: seq<ShapeId>)
      requires Valid()
      modifies this`shapes
      ensures Valid()
      ensures shapes == Without(old(shapes), set i | i in ids)
    {
      shapes := Without(shapes, set i | i in ids);
    }

    /** A new id, never handed out before. */
    method NewShapeId() returns (id: ShapeId)
      requires Valid()
      modifies this`nextId
      ensures Valid()
      ensures id == old(nextId) && nextId == id + 1
    {
      id := nextId;
      nextId := nextId + 1;
    }

    /** Adds a shape under an id that was handed out and is not on the page. */
    method CreateShape(s: Shape)
      requires Valid()
      requires s.id < nextId
      requires forall t :: t in shapes ==> t.id != s.id
      modifies this`shapes
      ensures Valid()
      ensures shapes == old(shapes) + [s]
    {
      shapes := shapes + [s];
    }

    /** Fits the viewport to every shape on the page. */
    method ZoomToFit()
      requires Valid()
      modifies this`framed, this`fits
      ensures Valid()
      ensures framed == set s | s in shapes :: s.id
      ensures fits == old(fits) + 1
    {
      framed := set s | s in shapes :: s.id;
      fits := fits + 1;
    }
  }

  /** Deleting every listed id of the page empties it. */
  lemma WithoutAllIsEmpty(shapes: seq<Shape>)
    ensures Without(shapes, set i | i in IdsOf(shapes)) == []
  {
    forall s | s in shapes ensures s.id in IdsOf(shapes) {
      var k :| 0 <= k < |shapes| && shapes[k] == s;
      assert IdsOf(shapes)[k] == s.id;
    }
  }
}
