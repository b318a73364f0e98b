/** The values that travel between the whiteboard page and the relay: shapes,
    the payload of a shape event, and the JSON message that carries it.
    A JSON field the code may find missing is an `Option` here, except a
    shape's geometry, which is always present, and the message type, whose
    empty string stands for a missing one. */
module Protocol {

  datatype Option<+T> = None | Some(value: T) {
    function GetOr(default: T): T {
      match this
      case Some(v) => v
      case None => default
    }
  }

  datatype ShapeKind = Rect | Ellipse | Diamond | Line | Free | Text | Image

  /** The clip frame of an image shape. */
  datatype Frame = FrameNone | FrameCircle | FrameEllipse | FrameSquare

  /** One drawing primitive. `id` is an opaque identifier chosen by the
      creating page; `x`, `y`, `w`, `h` are its bounding box. The remaining
      attributes are optional in the wire format and only matter for painting. */
  datatype Shape = Shape(
    id: string,
    kind: ShapeKind,
    x: real, y: real, w: real, h: real,
    points: Option<seq<real>>,
    stroke: Option<string>,
    fill: Option<string>,
    strokeWidth: Option<real>,
    text: Option<string>,
    fontSize: Option<real>,
    imageDataUrl: Option<string>,
    frame: Option<Frame>)

  /** The `action` field of a shape payload; any other string is `OtherAction`. */
  datatype Action = Add | Update | Delete | Clear | OtherAction(name: string)

  datatype Payload = Payload(action: Action, shape: Option<Shape>)

  /** A decoded JSON message: `type`, and the optional `boardId`, `payload`
      (shape events) and `state` (the relay's `init` reply). */
  datatype Message = Message(
    typ: string,
    boardId: Option<string>,
    payload: Option<Payload>,
    state: Option<seq<Message>>)

  /** The board every page of the front end joins and tags its events with. */
  const PageBoard: string := "default"

  /** The message the page sends for a local edit: type `shape`, the payload,
      and the page's board id. */
  function ShapeEvent(action: Action, shape: Option<Shape>): Message {
    Message("shape", Some(PageBoard), Some(Payload(action, shape)), None)
  }

  /** The relay's reply to a join: type `init` with the board's whole log. */
  function InitMessage(log: seq<Message>): Message {
    Message("init", None, None, Some(log))
  }
}
