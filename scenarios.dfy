/** End-to-end runs through the relay and the page together, stated as
    methods whose contracts say what every participant ends up with. */
module Scenarios {
  import opened Protocol
  import opened Fold
  import opened Client
  import opened Relay
  import opened Geometry

  /** A page joins: the relay reloads the board from disk and replies with
      `init`; the page replays it. The page ends with the replay of the
      board's stored log, whatever it showed before. */
  method LateJoin(server: Server, page: Canvas, c: Conn, join: Message)
    requires server.Valid() && c in server.joined
    requires join.typ == "join"
    modifies server, page
    ensures page.shapes == Replay(Loaded(server.disk, JoinBoard(join)))
    ensures JoinBoard(join) in server.boards
    ensures server.boards[JoinBoard(join)] == Loaded(server.disk, JoinBoard(join))
  {
    var sent := server.OnMessage(c, Some(join));
    page.OnMessage(Some(sent[0].msg));
  }

  /** Page A adds a shape; page B, open on the same server, receives exactly
      one copy and appends the shape to its array. */
  method AddReachesPeer(server: Server, pageB: Canvas, a: Conn, b: Conn, m: Message, s: Shape)
    returns (sent: seq<Send>)
    requires server.Valid() && a in server.joined && b in server.open && a != b
    requires Recognise(m) == Some(AddShape(s))
    modifies server, pageB
    ensures exists i ::
      && 0 <= i < |sent| && sent[i] == Send(b, m)
      && forall j :: 0 <= j < |sent| && j != i ==> sent[j].to != b
    ensures pageB.shapes == old(pageB.shapes) + [s]
  {
    sent := server.OnMessage(a, Some(m));
    RecipientOnce(server.clients, server.open, a, b);
    var r := Recipients(server.clients, server.open, a);
    var i :| 0 <= i < |r| && r[i] == b && forall j :: 0 <= j < |r| && j != i ==> r[j] != b;
    assert sent[i] == Send(b, m);
    pageB.OnMessage(Some(m));
  }

  /** A page bound to board b sends `clear` and disconnects. Unless the
      save on close cannot even open the file, the record then replays to
      an empty array: either it holds the log ending in the clear, or the
      failed write left it unreadable. A failed open keeps the old record. */
  method ClearThenLeave(server: Server, a: Conn, b: string, clear: Message, outcome: WriteOutcome)
    requires server.Valid() && a in server.joined && server.joined[a] == Some(b) && b != ""
    requires Recognise(clear) == Some(ClearAll)
    requires clear.boardId.None? || clear.boardId == Some(b)
    modifies server
    ensures outcome != OpenFailed ==> Replay(Loaded(server.disk, b)) == []
    ensures outcome == OpenFailed ==> server.disk == old(server.disk)
  {
    var before := LogOf(server.boards, b);
    var _ := server.OnMessage(a, Some(clear));
    assert server.boards[b] == before + [clear];
    server.OnClose(a, outcome);
    if outcome == Written {
      assert Loaded(server.disk, b) == before + [clear] + [];
      ClearLastEmpties([], before, clear, []);
    }
  }

  /** Two consecutive pointer moves while shape `id` is dragged, the second
      starting from the position the first leaves behind: the shape ends
      translated by the whole pointer path from `last` to the second
      position, with its extents, and no other shape moves. */
  method DragMoveTwice(page: Canvas, id: string, last: Point, p1: Point, p2: Point)
    requires HasId(page.shapes, id)
    modifies page
    ensures |page.shapes| == |old(page.shapes)|
    ensures var k := FindIndex(old(page.shapes), id);
      && page.shapes[k].x == old(page.shapes)[k].x + (p2.x - last.x)
      && page.shapes[k].y == old(page.shapes)[k].y + (p2.y - last.y)
      && page.shapes[k].w == old(page.shapes)[k].w && page.shapes[k].h == old(page.shapes)[k].h
      && forall i :: 0 <= i < |page.shapes| && i != k ==> page.shapes[i] == old(page.shapes)[i]
  {
    var k := FindIndex(page.shapes, id);
    var _, next := page.DragMove(id, Some(last), p1.x, p1.y);
    assert FindIndex(page.shapes, id) == k by {
      assert page.shapes[k].id == id;
      assert forall i :: 0 <= i < k ==> page.shapes[i] == old(page.shapes)[i];
    }
    var _, _ := page.DragMove(id, next, p2.x, p2.y);
  }
}
