# Sketchy whiteboard synchronisation, modelled in Dafny

Sketchy is a shared whiteboard. Each browser page keeps an ordered array of
shapes, which is also the paint order. A WebSocket relay keeps, per board id,
the list of every stored message in arrival order, and writes it to a JSON
file per board. This project models both halves and proves what they do:

- `protocol.dfy` (`Protocol`): shapes, shape payloads and the JSON message.
  A JSON field that the code may find missing is an `Option`. There are two exceptions:
  - A shape's geometry is always present; the `?? 0` fallbacks are dropped.
  - The message type is a string, and the empty string stands for a missing one.
- `fold.dfy` (`Fold`): the two ways the page applies shape events.
  - The `init` replay deletes with findIndex + splice, so it removes the first match.
  - The live handler deletes with filter, so it removes every match.
  - The lemmas say exactly when the two paths agree: when at most one shape carries the deleted id.
- `geometry.dfy` (`Geometry`): hit-testing, corner handles, and box normalisation for drawing and resizing.
- `client.dfy` (`Client`): the `init` replay loop, and the `Canvas` class.
  - `Canvas` holds `shapesRef.current` as a `seq<Shape>` field.
  - Its methods are `ws.onmessage` and the pointer and toolbar handlers that edit the array.
  - Each handler also says which message it sends.
  - For every handler that sends, the local change equals what the live handler does on a peer that receives the message.
- `relay.dfy` (`Relay`): the relay as a class `Server`. Its fields:
  - the board registry `map<string, seq<Message>>`;
  - the data directory, as a map from board id to `Saved(log)` or `Corrupt`;
  - `wss.clients` as a sequence;
  - each connection's `joinedBoardId`;
  - the set of connections whose readyState is OPEN.
- `scenarios.dfy` (`Scenarios`): end-to-end runs through the relay and the page:
  - a late join;
  - an add that reaches a peer;
  - a clear followed by a disconnect.

The model keeps these behaviours of the code:

- A later `join` rebinds the connection (the last join wins).
- A `join` reloads the board from disk and drops unsaved in-memory events.
- Broadcast goes to every open client other than the sender, whatever board that client joined.
- The relay never folds events.
- The page's shape collection is an array that may hold duplicate ids, not a map keyed by id.
- The close handler tests `joinedBoardId` for truthiness. So a connection that joined the board `""` is never saved on close. The model keeps this.

Coordinates are `real`. Files, the clock, the socket and the timer are
parameters or explicit methods:

- How a file write ends is a `WriteOutcome` parameter of `SaveBoard` and `OnClose`. It is one of:
  - `Written`;
  - `OpenFailed`: the file is untouched;
  - `WriteFailed`: `writeFileSync` opens with flag `w`, so it has already truncated the file, and the record becomes unreadable.
- For `Tick`, the outcomes are a function from board id to `WriteOutcome`.
- A received frame that does not decode is `None`.
- Sends are returned as values.

## Model

| member | source | states |
|---|---|---|
| Fold.FindIndex | apps/sketchy-frontend/app/page.tsx:98 | -1 exactly when no shape has the id; otherwise the index of the first shape with it |
| Fold.Recognise | apps/sketchy-frontend/app/page.tsx:93-105 | an entry is acted on only if its type is `shape` and it has a payload; `add`/`update`/`delete` also need a shape and yield exactly the add/update/delete edit of that shape; `clear` needs no shape; other actions are ignored |
| Fold.RemoveFirst | apps/sketchy-frontend/app/page.tsx:97-100 | replay delete: unchanged without a match; otherwise one element shorter, one fewer shape with the id, positions before the first match kept, later ones shifted down by one |
| Fold.RemoveAll | apps/sketchy-frontend/app/page.tsx:118-119 | live delete: no shape with the id remains; every shape with another id is kept; the length drops by the number of matches; unchanged without a match; a one-shape array is emptied or kept |
| Fold.RemoveAllConcat | apps/sketchy-frontend/app/page.tsx:119 | the filter keeps paint order: deleting from a concatenation concatenates the deletions from its parts (with the one-shape case, this fixes the result) |
| Fold.UpdateFirst | apps/sketchy-frontend/app/page.tsx:101-104 | the first shape with the id is replaced; the length and every other position are kept; unchanged without a match |
| Fold.AddAppends | apps/sketchy-frontend/app/page.tsx:95 | on both paths, add appends at the end, the length grows by one, the earlier elements are unchanged, and an existing shape with the same id stays as a duplicate |
| Fold.UpdateReplacesFirst | apps/sketchy-frontend/app/page.tsx:101-116 | replay and live update agree; the shape replaced is the first match; the array is untouched when no id matches |
| Fold.ClearEmpties | apps/sketchy-frontend/app/page.tsx:121-122 | a clear empties the array on both paths |
| Fold.IgnoredStep | apps/sketchy-frontend/app/page.tsx:93-101 | an entry of another type, without a payload, with an unknown action, or add/update/delete without a shape changes nothing on either path |
| Fold.DeletePathsAgree | apps/sketchy-frontend/app/page.tsx:97-119 | the replay delete and the live delete give the same array if and only if at most one shape carries the id |
| Fold.StepsAgree | apps/sketchy-frontend/app/page.tsx:92-124 | one replay step equals one live step if and only if the step is not a delete of an id that occurs at least twice |
| Fold.StepsAgreeOnDistinct | apps/sketchy-frontend/app/page.tsx:92-124 | with pairwise distinct ids, replay and live steps agree on every message |
| Fold.StepKeepsDistinct | apps/sketchy-frontend/app/page.tsx:95-104 | a replay step keeps ids distinct unless it adds an id already present |
| Fold.FoldsAgree | apps/sketchy-frontend/app/page.tsx:89-124 | from distinct ids, and with every add bringing a fresh id, replaying a log and receiving it live give the same array |
| Fold.ReplaySnoc | apps/sketchy-frontend/app/page.tsx:92-106 | replaying one more entry is one more step on the replayed array (incremental equals full replay) |
| Fold.IgnoredLog | apps/sketchy-frontend/app/page.tsx:92-93 | entries neither path recognises leave the array unchanged |
| Fold.ReplaySkipsUnrecognised | apps/sketchy-frontend/app/page.tsx:92-105 | dropping the unrecognised entries of a log does not change its replay |
| Fold.ClearLastEmpties | apps/sketchy-frontend/app/page.tsx:96 | when the last recognised entry is a clear, both replay and live application end empty from any starting array |
| Fold.DeleteThenUpdateIsEmpty | apps/sketchy-frontend/app/page.tsx:95-119 | add S, then a delete of any shape with S's id (it matches by id only), then an update S' with that id leaves an empty array on both paths |
| Client.ReplayInit | apps/sketchy-frontend/app/page.tsx:91-106 | the loop builds exactly the replay of the whole state, starting from an empty array |
| Client.ReplayEntry | apps/sketchy-frontend/app/page.tsx:93-105 | the loop body, with its four independent ifs, is one replay step |
| Client.Canvas.constructor | apps/sketchy-frontend/app/page.tsx:33 | a page starts with an empty shape array |
| Client.Canvas.OnMessage | apps/sketchy-frontend/app/page.tsx:85-129 | an undecodable message changes nothing; an init with a state array replaces the array by the replay of the state, whatever the page held; any other message is the live step |
| Client.Canvas.DragCreate | apps/sketchy-frontend/app/page.tsx:398-411 | the first shape with the id gets the box spanned by the drag start (or its origin) and the pointer; an update with it is sent and equals the local change |
| Client.Canvas.DragCorner | apps/sketchy-frontend/app/page.tsx:414-430 | the first shape with the id gets the resized box; an update with it is sent and equals the local change |
| Client.Canvas.DragMove | apps/sketchy-frontend/app/page.tsx:433-443 | the shape moves by the pointer delta, and every attribute other than x and y is kept; other shapes are unchanged; the last pointer becomes the current one; the update sent equals the local change |
| Client.Canvas.FinishCreate | apps/sketchy-frontend/app/page.tsx:455-470 | a tiny new shape (both extents under 4 in absolute value) is removed, with every shape sharing its id, and a delete is sent; otherwise the array is kept and an update is sent |
| Client.Canvas.ClearClicked | apps/sketchy-frontend/app/page.tsx:519-523 | the array is emptied and the clear sent has the same effect on a peer |
| Client.Canvas.DeleteSelected | apps/sketchy-frontend/app/page.tsx:525-534 | with a selected id that is present, every shape with it is removed and a delete with the first is sent; otherwise nothing changes |
| Geometry.HitTest | apps/sketchy-frontend/app/page.tsx:273-281 | null exactly when no closed box holds the point; otherwise a shape whose box holds it and after which no painted shape's box does |
| Geometry.HitHandleIndex | apps/sketchy-frontend/app/page.tsx:283-297 | -1 exactly when no 10x10 corner handle holds the point; otherwise the smallest corner index 0..3 whose handle does |
| Geometry.DragBox | apps/sketchy-frontend/app/page.tsx:403-407 | w and h are non-negative; the box's x-span runs from one drag endpoint to the other, and likewise y, so x is the minimum of the two |
| Geometry.ResizeBox | apps/sketchy-frontend/app/page.tsx:419-426 | w and h are non-negative; for a corner 0..3 the opposite corner stays put and the dragged corner follows the pointer; any other corner value leaves a normalised box unchanged |
| Geometry.WithBox | apps/sketchy-frontend/app/page.tsx:407 | the box becomes the given one, and every other attribute (id, kind, points, style, text, image and frame) is kept |
| Relay.Recipients | apps/sketchy-websocket/src/index.ts:72-76 | a client is a recipient exactly when it is connected, OPEN and not the sender; no board filter; no client twice |
| Relay.Broadcast | apps/sketchy-websocket/src/index.ts:72-76 | the loop sends the message once to each recipient, in client order, and to nobody else |
| Relay.RecipientOnce | apps/sketchy-websocket/src/index.ts:72-76 | the sender never receives its own message; each other open client receives it exactly once, whatever board it joined |
| Relay.AppendTouchesOneBoard | apps/sketchy-websocket/src/index.ts:66-69 | a stored message grows exactly one board's log by one, with the message last, and every other log is unchanged |
| Relay.LoadAfterSave | apps/sketchy-websocket/src/index.ts:14-35 | loading after a save of log L yields L; saving one board does not change what another loads |
| Relay.AfterSave | apps/sketchy-websocket/src/index.ts:14-21 | other boards' records are untouched; after a full write the board loads its log; after a write that fails past the truncating open it loads as empty; a failed open changes nothing |
| Relay.LoadMissingOrCorrupt | apps/sketchy-websocket/src/index.ts:23-35 | a missing or unparsable record loads as an empty log |
| Relay.Server.LoadBoard | apps/sketchy-websocket/src/index.ts:23-36 | the board's in-memory log is overwritten by the stored log, or by an empty one |
| Relay.Server.SaveBoard | apps/sketchy-websocket/src/index.ts:14-21 | the record is overwritten with the current log (empty if not resident); a write that fails after the open leaves the board loading as empty; a failed open changes nothing; the error is swallowed |
| Relay.Server.OnMessage | apps/sketchy-websocket/src/index.ts:47-83 | undecodable: no change. Join: rebind to `boardId` or `"default"`, reload from disk, and reply init with that log. Stored type: append to the board named by `boardId`, else the joined id, else `"default"`, then broadcast. Other types: no log change, nothing sent |
| Relay.Server.OnClose | apps/sketchy-websocket/src/index.ts:85-90 | only the last-joined board is saved, and only when that id is non-empty; a failed write after the open leaves that board loading as empty; a client that never joined saves nothing; the client is removed |
| Relay.Server.Tick | apps/sketchy-websocket/src/index.ts:98-102 | every resident board is saved: a written board's record is its log; a write that fails after the open leaves it unreadable, so the board loads as empty; a failed open and a board not resident keep their record |
| Relay.Without | apps/sketchy-websocket/src/index.ts:72 | the client list after the `ws` library drops a closed connection: every other client, in order, still pairwise distinct |
| Relay.Server.constructor | apps/sketchy-websocket/src/index.ts:10 | the relay starts with an empty registry over the existing data directory and no clients |
| Relay.Server.BeginClosing | apps/sketchy-websocket/src/index.ts:73 | a connection's readyState leaves OPEN, so it stops receiving broadcasts; nothing else changes |
| Relay.Server.Connect | apps/sketchy-websocket/src/index.ts:42-45 | a new connection is open, unbound and last in client order; the registry is unchanged |
| Scenarios.LateJoin | apps/sketchy-websocket/src/index.ts:54-61 | after a join and its init, the page shows the replay of the board's stored log, and the registry holds that log |
| Scenarios.AddReachesPeer | apps/sketchy-websocket/src/index.ts:65-77 | a peer that is open gets exactly one copy of an add and appends the shape, whatever board it joined |
| Scenarios.ClearThenLeave | apps/sketchy-websocket/src/index.ts:85-88 | after a clear and a disconnect, the record replays to an empty array, whether the save succeeds or fails after the open; a failed open keeps the directory |
| Scenarios.DragMoveTwice | apps/sketchy-frontend/app/page.tsx:433-443 | two consecutive moves, the second starting where the first left the last pointer, translate the shape by the whole pointer path and move nothing else |

## Left out

- Painting is not modelled: `drawShape`, `drawSelection`, `redraw`, device pixel ratio, and image loading and clipping. They only draw.
- React state and re-render ticks, `prompt`, `FileReader`, `openImagePicker` and `onImagePicked` are not modelled. They are browser and UI plumbing.
- `makeId` is not modelled, since it uses the clock and randomness. Ids are opaque strings.
- Shape creation in `onPointerDown` (page.tsx:305-357) is not modelled: it needs `makeId` and the tool state. Its effect on the array is only an `add` of a new shape.
- The pointer handlers' ref state is not modelled as Canvas fields: `selectedIdRef`, `resizingRef`, `creatingRef`, `createStartRef`, `draggingRef`, `currentFreeRef`. It is not modelled how these are set by the select/hit branch of `onPointerDown` (page.tsx:359-375), reset by `onPointerUp` (page.tsx:466-468) or cleared by `onDeleteSelected` (page.tsx:531). The branch each handler method models is chosen by its caller. `lastPointerRef` is the exception: `DragMove` returns its new value.
- `onPointerMove`'s dispatch order over the freehand, create, resize and drag branches (page.tsx:382-443) is not modelled. Each branch is its own method.
- Text width heuristics and the freehand bounding box are not modelled. `onDoubleClick` is left out for the same reason, since it is floating-point text measurement.
- The `Number(s.x ?? 0)` fallbacks are dropped. The model's shapes always have their geometry.
- The page's sends do not model the socket's readyState check. Each handler returns the message it would send.
- Floating point is not modelled: coordinates are exact reals, with no NaN and no rounding.
- `JSON.parse`/`JSON.stringify` are abstracted:
  - A stored record is either a message list (Saved) or unreadable (Corrupt).
  - A record that parses to something other than an array is not modelled.
  - A `null` entry inside an `init` state is not modelled. In the source it throws and aborts the whole handler.
- Arbitrary board ids are not mapped to file paths: the data directory is keyed by board id.
- Transport is not modelled: `ws.send`, the error handler and logging, the HTTP server, `listen`, and the 30-second timer. A tick is the explicit method `Tick`.
- The iteration order of `Tick` is arbitrary (set order, not map order). Each save touches only its own record, so the order does not matter.
- Removing a closed client from `wss.clients` is the `ws` library's behaviour, not the relay's. `OnClose` models it.
- The relay's treatment of a `shape` message is the same whatever the payload holds. The relay does not look inside it.
- Per-board isolation, first-join-wins, a server-side fold, crash-safe (atomic) writes and log compaction are not implemented by the source. They are not modelled or claimed.
- The toolbar component and the database configuration files hold no synchronisation logic.
