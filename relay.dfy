/** The relay process: a registry of board logs in memory, the data
    directory standing behind it, and the connected clients with the board
    each last joined. The relay does not fold events: it keeps every stored
    message in arrival order and hands the whole log to a joining client. */
module Relay {
  import opened Protocol

  /** A connection of the WebSocket server. */
  type Conn = nat

  /** The file `<boardId>.json`: either the log a save wrote, or contents
      that do not parse (or cannot be read). */
  datatype Record = Saved(log: seq<Message>) | Corrupt

  /** How one `writeFileSync` of a record ends. The file is opened with
      flag `w`, which truncates it before anything is written:
      - Written: the whole text reached the file;
      - OpenFailed: the file could not be opened, so it was not touched;
      - WriteFailed: it was opened (and emptied) but the write stopped
        early, leaving an empty or cut-off text. A proper prefix of a JSON
        array text never parses, so the record becomes Corrupt. */
  datatype WriteOutcome = Written | OpenFailed | WriteFailed

  /** One `send` on one connection. */
  datatype Send = Send(to: Conn, msg: Message)

  const DefaultBoard: string := "default"

  /** The message types the relay appends to a log and re-broadcasts. */
  predicate IsStored(typ: string) {
    typ == "shape" || typ == "draw" || typ == "clear" || typ == "delete"
  }

  /** The board a `join` names: its `boardId`, else the default board. */
  function JoinBoard(m: Message): string {
    m.boardId.GetOr(DefaultBoard)
  }

  /** The board a stored message goes to: its own `boardId`, else the board
      the sender last joined, else the default board. */
  function TargetBoard(m: Message, joined: Option<string>): string {
    if m.boardId.Some? then m.boardId.value else joined.GetOr(DefaultBoard)
  }

  /** `boards.get(b) ?? []`. */
  function LogOf(boards: map<string, seq<Message>>, b: string): seq<Message> {
    if b in boards then boards[b] else []
  }

  /** What loadBoardFromDisk puts in the registry for board b. */
  function Loaded(disk: map<string, Record>, b: string): seq<Message> {
    if b in disk && disk[b].Saved? then disk[b].log else []
  }

  /** The registry after a stored message is appended to board b's log. */
  function Appended(boards: map<string, seq<Message>>, b: string, m: Message): map<string, seq<Message>> {
    boards[b := LogOf(boards, b) + [m]]
  }

  /** The data directory after saveBoardToDisk(b) succeeds. */
  function SavedTo(disk: map<string, Record>, boards: map<string, seq<Message>>, b: string): map<string, Record> {
    disk[b := Saved(LogOf(boards, b))]
  }

  /** The data directory after saveBoardToDisk(b) ends with outcome o; the
      error it throws is caught and only logged. */
  function AfterSave(disk: map<string, Record>, boards: map<string, seq<Message>>, b: string, o: WriteOutcome): (r: map<string, Record>)
    ensures forall k :: k != b ==> (k in r <==> k in disk) && (k in disk ==> r[k] == disk[k])
    ensures o == Written ==> Loaded(r, b) == LogOf(boards, b)
    ensures o == WriteFailed ==> Loaded(r, b) == []
    ensures o == OpenFailed ==> r == disk
  {
    match o
    case Written => SavedTo(disk, boards, b)
    case OpenFailed => disk
    case WriteFailed => disk[b := Corrupt]
  }

  ghost predicate Distinct(cs: seq<Conn>) {
    forall i, j :: 0 <= i < j < |cs| ==> cs[i] != cs[j]
  }

  /** The clients a message from `sender` is sent to, in the server's client
      order: every client in the OPEN state except the sender. */
  function Recipients(clients: seq<Conn>, open: set<Conn>, sender: Conn): (r: seq<Conn>)
    ensures forall c :: c in r <==> c in clients && c in open && c != sender
    ensures Distinct(clients) ==> Distinct(r)
    decreases |clients|
  {
    if clients == [] then []
    else
      var init := clients[..|clients| - 1];
      var last := clients[|clients| - 1];
      assert clients == init + [last];
      assert Distinct(clients) ==> Distinct(init) && last !in init;
      Recipients(init, open, sender) + (if last != sender && last in open then [last] else [])
  }

  /** One more client in the list adds it at the end of the recipients,
      when it is open and not the sender. */
  lemma RecipientsSnoc(clients: seq<Conn>, open: set<Conn>, sender: Conn, i: nat)
    requires i < |clients|
    ensures Recipients(clients[..i + 1], open, sender) ==
      Recipients(clients[..i], open, sender) + (if clients[i] != sender && clients[i] in open then [clients[i]] else [])
  {
    var pre := clients[..i + 1];
    assert |pre| - 1 == i && pre[..i] == clients[..i] && pre[i] == clients[i];
  }

  /** `sent` is one send of `m` to each connection of `rs`, in order. */
  predicate SentTo(sent: seq<Send>, rs: seq<Conn>, m: Message) {
    |sent| == |rs| && forall j :: 0 <= j < |sent| ==> sent[j] == Send(rs[j], m)
  }

  lemma SentToSnoc(sent: seq<Send>, rs: seq<Conn>, m: Message, c: Conn)
    requires SentTo(sent, rs, m)
    ensures SentTo(sent + [Send(c, m)], rs + [c], m)
  {
  }

  /** The `wss.clients.forEach` loop: send the message to each recipient. */
  method Broadcast(clients: seq<Conn>, open: set<Conn>, sender: Conn, m: Message) returns (sent: seq<Send>)
    ensures |sent| == |Recipients(clients, open, sender)|
    ensures forall i :: 0 <= i < |sent| ==> sent[i] == Send(Recipients(clients, open, sender)[i], m)
  {
    sent := [];
    for i := 0 to |clients|
      invariant SentTo(sent, Recipients(clients[..i], open, sender), m)
    {
      var client := clients[i];
      RecipientsSnoc(clients, open, sender, i);
      if client != sender && client in open {
        SentToSnoc(sent, Recipients(clients[..i], open, sender), m, client);
        sent := sent + [Send(client, m)];
      } else {
        assert Recipients(clients[..i + 1], open, sender) == Recipients(clients[..i], open, sender);
      }
    }
    assert clients[..|clients|] == clients;
  }

  /** The client list without connection c. */
  function Without(clients: seq<Conn>, c: Conn): (r: seq<Conn>)
    ensures forall d :: d in r <==> d in clients && d != c
    ensures Distinct(clients) ==> Distinct(r)
  {
    if clients == [] then []
    else
      assert forall d :: d in clients <==> d == clients[0] || d in clients[1..];
      assert Distinct(clients) ==> Distinct(clients[1..]) && clients[0] !in clients[1..];
      (if clients[0] == c then [] else [clients[0]]) + Without(clients[1..], c)
  }

  class Server {
    /** The in-memory registry `boards`. */
    var boards: map<string, seq<Message>>
    /** The data directory, one record per board id. */
    var disk: map<string, Record>
    /** `wss.clients`, in insertion order. */
    var clients: seq<Conn>
    /** Each connection's `joinedBoardId` (None is null). */
    var joined: map<Conn, Option<string>>
    /** The connections whose readyState is OPEN. */
    var open: set<Conn>

    ghost predicate Valid()
      reads this
    {
      && Distinct(clients)
      && (forall c :: c in joined <==> c in clients)
      && open <= joined.Keys
    }

    /** The process starts with an empty registry over an existing data directory. */
    constructor (stored: map<string, Record>)
      ensures Valid()
      ensures boards == map[] && disk == stored
      ensures clients == [] && joined == map[] && open == {}
    {
      boards := map[];
      disk := stored;
      clients := [];
      joined := map[];
      open := {};
    }

    /** A new connection: open, not yet bound to a board. */
    method Connect(c: Conn)
      requires Valid() && c !in joined
      modifies this
      ensures Valid()
      ensures clients == old(clients) + [c] && joined == old(joined)[c := None]
      ensures open == old(open) + {c}
      ensures boards == old(boards) && disk == old(disk)
    {
      clients := clients + [c];
      joined := joined[c := None];
      open := open + {c};
    }

    /** The connection's readyState leaves OPEN before its close event. */
    method BeginClosing(c: Conn)
      requires Valid()
      modifies this
      ensures Valid()
      ensures open == old(open) - {c}
      ensures clients == old(clients) && joined == old(joined)
      ensures boards == old(boards) && disk == old(disk)
    {
      open := open - {c};
    }

    /** loadBoardFromDisk: replace the board's in-memory log by the stored
        one, or by an empty log when there is none or it does not parse. */
    method LoadBoard(b: string)
      modifies this
      ensures boards == old(boards)[b := Loaded(disk, b)]
      ensures disk == old(disk) && clients == old(clients)
      ensures joined == old(joined) && open == old(open)
    {
      if b in disk && disk[b].Saved? {
        boards := boards[b := disk[b].log];
      } else {
        boards := boards[b := []];
      }
    }

    /** saveBoardToDisk: overwrite the board's record with its current log
        (an empty one if the board is not resident). The caught error of a
        write that fails after the truncating open leaves the record
        unreadable; one that fails to open leaves it as it was. */
    method SaveBoard(b: string, outcome: WriteOutcome)
      modifies this
      ensures disk == AfterSave(old(disk), boards, b, outcome)
      ensures outcome == WriteFailed ==> Loaded(disk, b) == []
      ensures boards == old(boards) && clients == old(clients)
      ensures joined == old(joined) && open == old(open)
    {
      var data := LogOf(boards, b);
      match outcome
      case Written => disk := disk[b := Saved(data)];
      case OpenFailed =>
      case WriteFailed => disk := disk[b := Corrupt];
    }

    /** The `message` handler of connection c. `raw` is None when the text
        does not parse as JSON or parses to null; such a message is dropped.
        A `join` binds c to its board (a later join wins), reloads that board
        from disk and replies with `init` carrying the reloaded log. A stored
        type is appended to its target board and sent to every other open
        client, whatever board it joined. Any other type is ignored. */
    method OnMessage(c: Conn, raw: Option<Message>) returns (sent: seq<Send>)
      requires Valid() && c in joined
      modifies this
      ensures Valid()
      ensures disk == old(disk) && clients == old(clients) && open == old(open)
      ensures raw.None? ==> boards == old(boards) && joined == old(joined) && sent == []
      ensures raw.Some? && raw.value.typ == "join" ==>
        var b := JoinBoard(raw.value);
        && joined == old(joined)[c := Some(b)]
        && boards == old(boards)[b := Loaded(disk, b)]
        && sent == [Send(c, InitMessage(boards[b]))]
      ensures raw.Some? && raw.value.typ != "join" && IsStored(raw.value.typ) ==>
        && joined == old(joined)
        && boards == Appended(old(boards), TargetBoard(raw.value, old(joined)[c]), raw.value)
        && |sent| == |Recipients(clients, open, c)|
        && forall i :: 0 <= i < |sent| ==> sent[i] == Send(Recipients(clients, open, c)[i], raw.value)
      ensures raw.Some? && raw.value.typ != "join" && !IsStored(raw.value.typ) ==>
        boards == old(boards) && joined == old(joined) && sent == []
    {
      if raw.None? {
        return [];
      }
      var m := raw.value;
      if m.typ == "join" {
        var b := JoinBoard(m);
        joined := joined[c := Some(b)];
        LoadBoard(b);
        var state := LogOf(boards, b);
        sent := [Send(c, InitMessage(state))];
        return;
      }
      if IsStored(m.typ) {
        var b := TargetBoard(m, joined[c]);
        var arr := LogOf(boards, b);
        arr := arr + [m];
        boards := boards[b := arr];
        sent := Broadcast(clients, open, c, m);
      } else {
        sent := [];
      }
    }

    /** The `close` handler of connection c: save the board it last joined,
        provided that id is a non-empty string (`if (joinedBoardId)`), and
        drop the connection from the client list. */
    method OnClose(c: Conn, outcome: WriteOutcome)
      requires Valid() && c in joined
      modifies this
      ensures Valid()
      ensures var j := old(joined)[c];
        disk == if j.Some? && j.value != "" then AfterSave(old(disk), boards, j.value, outcome) else old(disk)
      ensures var j := old(joined)[c];
        j.Some? && j.value != "" && outcome == WriteFailed ==> Loaded(disk, j.value) == []
      ensures boards == old(boards)
      ensures clients == Without(old(clients), c)
      ensures joined == old(joined) - {c} && open == old(open) - {c}
    {
      var j := joined[c];
      if j.Some? && j.value != "" {
        SaveBoard(j.value, outcome);
      }
      clients := Without(clients, c);
      joined := joined - {c};
      open := open - {c};
    }

    /** The periodic save: every resident board is written, and `outcome`
        says how each write ends. A written board's record is its log; a
        write that fails after the open leaves the board loading as empty;
        a failed open, like a board that is not resident, keeps the record. */
    method Tick(outcome: string -> WriteOutcome)
      modifies this
      ensures forall b :: b in disk <==> b in old(disk) || (b in boards && outcome(b) != OpenFailed)
      ensures forall b :: b in boards && outcome(b) == Written ==> disk[b] == Saved(boards[b])
      ensures forall b :: b in boards && outcome(b) == WriteFailed ==> disk[b] == Corrupt && Loaded(disk, b) == []
      ensures forall b :: b in old(disk) && (b !in boards || outcome(b) == OpenFailed) ==> disk[b] == old(disk)[b]
      ensures boards == old(boards) && clients == old(clients)
      ensures joined == old(joined) && open == old(open)
    {
      var pending := boards.Keys;
      while pending != {}
        invariant pending <= boards.Keys
        invariant boards == old(boards) && clients == old(clients)
        invariant joined == old(joined) && open == old(open)
        invariant forall b :: b in disk <==> b in old(disk) || (b in boards && b !in pending && outcome(b) != OpenFailed)
        invariant forall b :: b in boards && b !in pending && outcome(b) == Written ==> disk[b] == Saved(boards[b])
        invariant forall b :: b in boards && b !in pending && outcome(b) == WriteFailed ==> disk[b] == Corrupt
        invariant forall b :: b in old(disk) && (b !in boards || b in pending || outcome(b) == OpenFailed) ==> disk[b] == old(disk)[b]
        decreases pending
      {
        var b :| b in pending;
        SaveBoard(b, outcome(b));
        pending := pending - {b};
      }
    }
  }

  // ---------------------------------------------------------------------
  // Properties of the registry and the data directory

  /** A stored message grows exactly one log by one, with the message last,
      and leaves every other resident log as it was. */
  lemma AppendTouchesOneBoard(boards: map<string, seq<Message>>, b: string, m: Message)
    ensures Appended(boards, b, m).Keys == boards.Keys + {b}
    ensures |Appended(boards, b, m)[b]| == |LogOf(boards, b)| + 1
    ensures Appended(boards, b, m)[b][..|LogOf(boards, b)|] == LogOf(boards, b)
    ensures Appended(boards, b, m)[b][|LogOf(boards, b)|] == m
    ensures forall k :: k in boards && k != b ==> Appended(boards, b, m)[k] == boards[k]
  {
    assert (LogOf(boards, b) + [m])[..|LogOf(boards, b)|] == LogOf(boards, b);
  }

  /** Loading a board after a save of its log gives that log back; the save
      of one board leaves what loads for every other board as it was. */
  lemma LoadAfterSave(disk: map<string, Record>, boards: map<string, seq<Message>>, b: string, other: string)
    requires other != b
    ensures Loaded(SavedTo(disk, boards, b), b) == LogOf(boards, b)
    ensures Loaded(SavedTo(disk, boards, b), other) == Loaded(disk, other)
  {
  }

  /** With no record, or a record that does not parse, a board loads empty. */
  lemma LoadMissingOrCorrupt(disk: map<string, Record>, b: string)
    requires b !in disk || disk[b] == Corrupt
    ensures Loaded(disk, b) == []
  {
  }

  /** The sender never receives its own message, and with distinct clients
      each other open client receives it exactly once, whatever board it
      joined. */
  lemma {:induction false} RecipientOnce(clients: seq<Conn>, open: set<Conn>, sender: Conn, c: Conn)
    requires Distinct(clients)
    ensures sender !in Recipients(clients, open, sender)
    ensures c in clients && c in open && c != sender ==>
      exists i ::
        && 0 <= i < |Recipients(clients, open, sender)|
        && Recipients(clients, open, sender)[i] == c
        && forall j :: 0 <= j < |Recipients(clients, open, sender)| && j != i ==> Recipients(clients, open, sender)[j] != c
  {
    var r := Recipients(clients, open, sender);
    if c in clients && c in open && c != sender {
      assert c in r;
      var i :| 0 <= i < |r| && r[i] == c;
      assert Distinct(r);
      forall j | 0 <= j < |r| && j != i
        ensures r[j] != c
      {
        if j < i {
          assert r[j] != r[i];
        } else {
          assert r[i] != r[j];
        }
      }
    }
  }
}
