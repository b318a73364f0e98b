/** The page's side of the protocol: the `ws.onmessage` handler that keeps
    the shape array in step with the relay, and the pointer handlers that
    edit the array locally and say which message they send. */
module Client {
  import opened Protocol
  import opened Geometry
  import opened Fold

  /** The `init` replay loop: rebuild the array from an empty one, one
      entry at a time. */
  method ReplayInit(state: seq<Message>) returns (arr: seq<Shape>)
    ensures arr == Replay(state)
  {
    arr := [];
    var i := 0;
    while i < |state|
      invariant 0 <= i <= |state|
      invariant ReplayFrom(arr, state[i..]) == Replay(state)
    {
      assert state[i..][0] == state[i] && state[i..][1..] == state[i + 1..];
      arr := ReplayEntry(arr, state[i]);
      i := i + 1;
    }
  }

  /** The body of the replay loop for entry `e`. The source tests the four
      actions with four separate `if`s; they are exclusive, since an entry
      has one action, so at most one of them fires. */
  method ReplayEntry(arr: seq<Shape>, e: Message) returns (r: seq<Shape>)
    ensures r == ReplayStep(arr, e)
  {
    r := arr;
    if e.typ == "shape" && e.payload.Some? {
      var p := e.payload.value;
      if p.action == Add && p.shape.Some? {
        assert Recognise(e) == Some(AddShape(p.shape.value));
        r := r + [p.shape.value];
      } else if p.action == Clear {
        assert Recognise(e) == Some(ClearAll);
        r := [];
      } else if p.action == Delete && p.shape.Some? {
        assert Recognise(e) == Some(DeleteShape(p.shape.value));
        r := RemoveFirst(r, p.shape.value.id);
      } else if p.action == Update && p.shape.Some? {
        assert Recognise(e) == Some(UpdateShape(p.shape.value));
        r := UpdateFirst(r, p.shape.value);
      }
    }
  }

  /** A message the handler treats as a full reload. */
  predicate IsInit(m: Message) {
    m.typ == "init" && m.state.Some?
  }

  /** The page's shape array (`shapesRef.current`), in paint order. */
  class Canvas {
    var shapes: seq<Shape>

    constructor ()
      ensures shapes == []
    {
      shapes := [];
    }

    /** `ws.onmessage`. `raw` is None when the data does not parse or is null.
        An `init` with a state array replaces the array by the replay of
        that state; any other message is applied by the live handler. */
    method OnMessage(raw: Option<Message>)
      modifies this
      ensures raw.None? ==> shapes == old(shapes)
      ensures raw.Some? && IsInit(raw.value) ==> shapes == Replay(raw.value.state.value)
      ensures raw.Some? && !IsInit(raw.value) ==> shapes == LiveStep(old(shapes), raw.value)
    {
      if raw.None? || raw.value.typ == "" {
        return;
      }
      var m := raw.value;
      if IsInit(m) {
        shapes := ReplayInit(m.state.value);
      } else if m.typ == "shape" && m.payload.Some? {
        var p := m.payload.value;
        if p.action == Add && p.shape.Some? {
          shapes := shapes + [p.shape.value];
        } else if p.action == Update && p.shape.Some? {
          var i := FindIndex(shapes, p.shape.value.id);
          if i >= 0 {
            shapes := shapes[i := p.shape.value];
          }
        } else if p.action == Delete && p.shape.Some? {
          shapes := RemoveAll(shapes, p.shape.value.id);
        } else if p.action == Clear {
          shapes := [];
        }
      }
    }

    /** The drag branch of `onPointerMove` while shape `id` is being drawn:
        the first shape with that id gets the box spanned by the drag start
        (or its own origin when no start was recorded) and the pointer, and
        an `update` carrying it is sent. */
    method DragCreate(id: string, start: Option<Point>, px: real, py: real) returns (sent: Option<Message>)
      modifies this
      ensures !HasId(old(shapes), id) ==> shapes == old(shapes) && sent.None?
      ensures HasId(old(shapes), id) ==>
        var k := FindIndex(old(shapes), id);
        var from := start.GetOr(Point(old(shapes)[k].x, old(shapes)[k].y));
        && shapes == old(shapes)[k := WithBox(old(shapes)[k], DragBox(from, px, py))]
        && sent == Some(ShapeEvent(Update, Some(shapes[k])))
      ensures sent.Some? ==> shapes == LiveStep(old(shapes), sent.value)
    {
      var k := FindIndex(shapes, id);
      if k < 0 {
        return None;
      }
      var shape := shapes[k];
      var from := start.GetOr(Point(shape.x, shape.y));
      var moved := WithBox(shape, DragBox(from, px, py));
      shapes := shapes[k := moved];
      sent := Some(ShapeEvent(Update, Some(moved)));
    }

    /** The resize branch of `onPointerMove`: corner `corner` of the first
        shape with that id follows the pointer, the box is normalised, and an
        `update` carrying the shape is sent. */
    method DragCorner(id: string, corner: int, px: real, py: real) returns (sent: Option<Message>)
      modifies this
      ensures !HasId(old(shapes), id) ==> shapes == old(shapes) && sent.None?
      ensures HasId(old(shapes), id) ==>
        var k := FindIndex(old(shapes), id);
        && shapes == old(shapes)[k := WithBox(old(shapes)[k], ResizeBox(BoxOf(old(shapes)[k]), corner, px, py))]
        && sent == Some(ShapeEvent(Update, Some(shapes[k])))
      ensures sent.Some? ==> shapes == LiveStep(old(shapes), sent.value)
    {
      var k := FindIndex(shapes, id);
      if k < 0 {
        return None;
      }
      var shape := shapes[k];
      var resized := WithBox(shape, ResizeBox(BoxOf(shape), corner, px, py));
      shapes := shapes[k := resized];
      sent := Some(ShapeEvent(Update, Some(resized)));
    }

    /** The move branch of `onPointerMove` while shape `id` is dragged: the
        first shape with that id is translated by the pointer's movement since
        the last event (none when no last position was recorded), keeping its
        extents, and an `update` carrying it is sent. `next` is the last
        position the handler leaves behind: the pointer when a shape moved,
        the previous one otherwise. */
    method DragMove(id: string, last: Option<Point>, px: real, py: real) returns (sent: Option<Message>, next: Option<Point>)
      modifies this
      ensures !HasId(old(shapes), id) ==> shapes == old(shapes) && sent.None? && next == last
      ensures HasId(old(shapes), id) ==> next == Some(Point(px, py))
      ensures HasId(old(shapes), id) ==>
        var k := FindIndex(old(shapes), id);
        var from := last.GetOr(Point(px, py));
        && |shapes| == |old(shapes)|
        && (forall i :: 0 <= i < |shapes| && i != k ==> shapes[i] == old(shapes)[i])
        && shapes[k].x - old(shapes)[k].x == px - from.x
        && shapes[k].y - old(shapes)[k].y == py - from.y
        && shapes[k].w == old(shapes)[k].w && shapes[k].h == old(shapes)[k].h
        && shapes[k].id == id
        && shapes[k] == WithBox(old(shapes)[k], Box(old(shapes)[k].x + (px - from.x), old(shapes)[k].y + (py - from.y), old(shapes)[k].w, old(shapes)[k].h))
        && sent == Some(ShapeEvent(Update, Some(shapes[k])))
      ensures sent.Some? ==> shapes == LiveStep(old(shapes), sent.value)
    {
      var k := FindIndex(shapes, id);
      if k < 0 {
        return None, last;
      }
      var sel := shapes[k];
      var from := last.GetOr(Point(px, py));
      var dx, dy := px - from.x, py - from.y;
      var moved := WithBox(sel, Box(sel.x + dx, sel.y + dy, sel.w, sel.h));
      shapes := shapes[k := moved];
      next := Some(Point(px, py));
      sent := Some(ShapeEvent(Update, Some(moved)));
    }

    /** The creating branch of `onPointerUp`: a shape drawn smaller than the
        tiny extent on both axes is removed (every shape with its id) and a
        `delete` is sent; otherwise the array is kept and an `update` is sent. */
    method FinishCreate(id: string) returns (sent: Option<Message>)
      modifies this
      ensures !HasId(old(shapes), id) ==> shapes == old(shapes) && sent.None?
      ensures HasId(old(shapes), id) ==>
        var sh := old(shapes)[FindIndex(old(shapes), id)];
        if IsTiny(BoxOf(sh)) then
          && shapes == RemoveAll(old(shapes), id)
          && !HasId(shapes, id)
          && sent == Some(ShapeEvent(Delete, Some(sh)))
        else
          && shapes == old(shapes)
          && sent == Some(ShapeEvent(Update, Some(sh)))
      ensures sent.Some? ==> shapes == LiveStep(old(shapes), sent.value)
    {
      var k := FindIndex(shapes, id);
      if k < 0 {
        return None;
      }
      var sh := shapes[k];
      if IsTiny(BoxOf(sh)) {
        shapes := RemoveAll(shapes, id);
        sent := Some(ShapeEvent(Delete, Some(sh)));
      } else {
        sent := Some(ShapeEvent(Update, Some(sh)));
        assert UpdateFirst(shapes, sh) == shapes;
      }
    }

    /** The toolbar's Clear button: empty the array and send `clear`. */
    method ClearClicked() returns (sent: Message)
      modifies this
      ensures shapes == [] && sent == ShapeEvent(Clear, None)
      ensures shapes == LiveStep(old(shapes), sent)
    {
      shapes := [];
      sent := ShapeEvent(Clear, None);
    }

    /** The toolbar's Delete button for the selected id (`""` stands for no
        selection): remove every shape with it and send `delete` with the
        first one. */
    method DeleteSelected(id: string) returns (sent: Option<Message>)
      modifies this
      ensures (id == "" || !HasId(old(shapes), id)) ==> shapes == old(shapes) && sent.None?
      ensures id != "" && HasId(old(shapes), id) ==>
        && shapes == RemoveAll(old(shapes), id)
        && sent == Some(ShapeEvent(Delete, Some(old(shapes)[FindIndex(old(shapes), id)])))
      ensures sent.Some? ==> shapes == LiveStep(old(shapes), sent.value)
    {
      if id == "" {
        return None;
      }
      var k := FindIndex(shapes, id);
      if k < 0 {
        return None;
      }
      var sh := shapes[k];
      shapes := RemoveAll(shapes, id);
      sent := Some(ShapeEvent(Delete, Some(sh)));
    }
  }
}
