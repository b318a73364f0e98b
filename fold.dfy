/** How the page turns shape events into its ordered shape array (also the
    paint order). There are two paths: the replay of an `init` log, and the
    live handler for single events. They agree except on `delete`: the
    replay removes the first shape with the id (findIndex + splice), the live
    handler removes every such shape (filter). */
module Fold {
  import opened Protocol

  predicate HasId(a: seq<Shape>, id: string) {
    exists i :: 0 <= i < |a| && a[i].id == id
  }

  /** Array.prototype.findIndex with `s => s.id === id`. */
  function FindIndex(a: seq<Shape>, id: string): (k: int)
    ensures -1 <= k < |a|
    ensures k == -1 <==> !HasId(a, id)
    ensures k >= 0 ==> a[k].id == id && forall i :: 0 <= i < k ==> a[i].id != id
  {
    if a == [] then -1
    else if a[0].id == id then 0
    else
      var k := FindIndex(a[1..], id);
      assert forall i :: 1 <= i < |a| ==> a[i] == a[1..][i - 1];
      if k == -1 then -1 else k + 1
  }

  /** How many shapes carry the id. */
  function Count(a: seq<Shape>, id: string): (n: nat)
    ensures n <= |a|
    ensures n == 0 <==> !HasId(a, id)
  {
    if a == [] then 0
    else
      assert forall i :: 1 <= i < |a| ==> a[i] == a[1..][i - 1];
      (if a[0].id == id then 1 else 0) + Count(a[1..], id)
  }

  lemma {:induction false} CountConcat(a: seq<Shape>, b: seq<Shape>, id: string)
    ensures Count(a + b, id) == Count(a, id) + Count(b, id)
  {
    if a == [] {
      assert a + b == b;
    } else {
      assert (a + b)[1..] == a[1..] + b;
      CountConcat(a[1..], b, id);
    }
  }

  ghost predicate DistinctIds(a: seq<Shape>) {
    forall i, j :: 0 <= i < j < |a| ==> a[i].id != a[j].id
  }

  /** The live delete: `filter(s => s.id !== id)`. */
  function RemoveAll(a: seq<Shape>, id: string): (r: seq<Shape>)
    ensures |r| == |a| - Count(a, id)
    ensures forall s :: s in r <==> s in a && s.id != id
    ensures !HasId(a, id) ==> r == a
    ensures |a| == 1 ==> r == (if a[0].id == id then [] else a)
  {
    if a == [] then []
    else
      assert forall s :: s in a <==> s == a[0] || s in a[1..];
      if a[0].id == id then RemoveAll(a[1..], id) else [a[0]] + RemoveAll(a[1..], id)
  }

  /** The live delete keeps the paint order: filtering a concatenation is
      the concatenation of the filtered parts. */
  lemma {:induction false} RemoveAllConcat(a: seq<Shape>, b: seq<Shape>, id: string)
    ensures RemoveAll(a + b, id) == RemoveAll(a, id) + RemoveAll(b, id)
    decreases |a|
  {
    if a != [] {
      assert (a + b)[0] == a[0] && (a + b)[1..] == a[1..] + b;
      RemoveAllConcat(a[1..], b, id);
    } else {
      assert a + b == b;
    }
  }

  /** The replay delete: `splice(findIndex(...), 1)` when the index is found. */
  function RemoveFirst(a: seq<Shape>, id: string): (r: seq<Shape>)
    ensures !HasId(a, id) ==> r == a
    ensures HasId(a, id) ==>
      && |r| == |a| - 1
      && Count(r, id) == Count(a, id) - 1
      && (forall i :: 0 <= i < FindIndex(a, id) ==> r[i] == a[i])
      && (forall i :: FindIndex(a, id) <= i < |r| ==> r[i] == a[i + 1])
  {
    var k := FindIndex(a, id);
    if k < 0 then a
    else
      assert a == a[..k] + [a[k]] + a[k + 1..];
      CountConcat(a[..k] + [a[k]], a[k + 1..], id);
      CountConcat(a[..k], [a[k]], id);
      CountConcat(a[..k], a[k + 1..], id);
      a[..k] + a[k + 1..]
  }

  /** The update of both paths: `arr[findIndex(...)] = shape` when found. */
  function UpdateFirst(a: seq<Shape>, s: Shape): (r: seq<Shape>)
    ensures |r| == |a|
    ensures !HasId(a, s.id) ==> r == a
    ensures HasId(a, s.id) ==>
      && r[FindIndex(a, s.id)] == s
      && forall i :: 0 <= i < |a| && i != FindIndex(a, s.id) ==> r[i] == a[i]
  {
    var k := FindIndex(a, s.id);
    if k >= 0 then a[k := s] else a
  }

  /** A message that one of the two paths acts upon. */
  datatype Edit = AddShape(s: Shape) | UpdateShape(s: Shape) | DeleteShape(s: Shape) | ClearAll

  /** Both paths act only on type `shape` with a payload; `add`, `update` and
      `delete` also need a shape, `clear` does not; any other action is ignored. */
  function Recognise(m: Message): (e: Option<Edit>)
    ensures e.Some? ==> m.typ == "shape" && m.payload.Some?
    ensures e == Some(ClearAll) <==> m.typ == "shape" && m.payload.Some? && m.payload.value.action == Clear
    ensures (e.Some? && !e.value.ClearAll?) <==>
      && m.typ == "shape" && m.payload.Some? && m.payload.value.shape.Some?
      && m.payload.value.action in {Add, Update, Delete}
    ensures e.Some? && !e.value.ClearAll? ==> e.value.s == m.payload.value.shape.value
    ensures e.Some? ==>
      && (e.value.AddShape? <==> m.payload.value.action == Add)
      && (e.value.UpdateShape? <==> m.payload.value.action == Update)
      && (e.value.DeleteShape? <==> m.payload.value.action == Delete)
  {
    if m.typ != "shape" || m.payload.None? then None
    else
      var p := m.payload.value;
      match p.action
      case Add => if p.shape.Some? then Some(AddShape(p.shape.value)) else None
      case Update => if p.shape.Some? then Some(UpdateShape(p.shape.value)) else None
      case Delete => if p.shape.Some? then Some(DeleteShape(p.shape.value)) else None
      case Clear => Some(ClearAll)
      case OtherAction(_) => None
  }

  /** One iteration of the `init` replay loop. */
  function ReplayStep(a: seq<Shape>, m: Message): seq<Shape> {
    match Recognise(m)
    case None => a
    case Some(AddShape(s)) => a + [s]
    case Some(UpdateShape(s)) => UpdateFirst(a, s)
    case Some(DeleteShape(s)) => RemoveFirst(a, s.id)
    case Some(ClearAll) => []
  }

  /** The live handler for one `shape` message. */
  function LiveStep(a: seq<Shape>, m: Message): seq<Shape> {
    match Recognise(m)
    case None => a
    case Some(AddShape(s)) => a + [s]
    case Some(UpdateShape(s)) => UpdateFirst(a, s)
    case Some(DeleteShape(s)) => RemoveAll(a, s.id)
    case Some(ClearAll) => []
  }

  function ReplayFrom(a: seq<Shape>, log: seq<Message>): seq<Shape>
    decreases |log|
  {
    if log == [] then a else ReplayFrom(ReplayStep(a, log[0]), log[1..])
  }

  /** The shape array an `init` log produces: replayed from empty. */
  function Replay(log: seq<Message>): seq<Shape> {
    ReplayFrom([], log)
  }

  /** The shape array after live events arrive one by one. */
  function LiveFrom(a: seq<Shape>, log: seq<Message>): seq<Shape>
    decreases |log|
  {
    if log == [] then a else LiveFrom(LiveStep(a, log[0]), log[1..])
  }

  // ---------------------------------------------------------------------
  // Properties of single steps

  /** `add` appends at the end and keeps everything before it, even a shape
      with the same id, on both paths. */
  lemma AddAppends(a: seq<Shape>, m: Message, s: Shape)
    requires Recognise(m) == Some(AddShape(s))
    ensures ReplayStep(a, m) == LiveStep(a, m)
    ensures |ReplayStep(a, m)| == |a| + 1
    ensures ReplayStep(a, m)[..|a|] == a && ReplayStep(a, m)[|a|] == s
    ensures Count(ReplayStep(a, m), s.id) == Count(a, s.id) + 1
  {
    CountConcat(a, [s], s.id);
    assert (a + [s])[..|a|] == a;
  }

  /** `update` on both paths: the first shape with the id is replaced, the
      array keeps its length, and nothing changes when no id matches. */
  lemma UpdateReplacesFirst(a: seq<Shape>, m: Message, s: Shape)
    requires Recognise(m) == Some(UpdateShape(s))
    ensures ReplayStep(a, m) == LiveStep(a, m)
    ensures |LiveStep(a, m)| == |a|
    ensures !HasId(a, s.id) ==> LiveStep(a, m) == a
    ensures HasId(a, s.id) ==> exists k ::
      && 0 <= k < |a|
      && a[k].id == s.id
      && (forall i :: 0 <= i < k ==> a[i].id != s.id)
      && LiveStep(a, m) == a[k := s]
  {
    if HasId(a, s.id) {
      var k := FindIndex(a, s.id);
      assert LiveStep(a, m) == a[k := s];
    }
  }

  /** Clearing empties the array on both paths, whatever it held. */
  lemma ClearEmpties(a: seq<Shape>, m: Message)
    requires m.typ == "shape" && m.payload.Some? && m.payload.value.action == Clear
    ensures ReplayStep(a, m) == [] && LiveStep(a, m) == []
  {
  }

  /** A message neither path recognises changes nothing on either path. */
  lemma IgnoredStep(a: seq<Shape>, m: Message)
    requires m.typ != "shape" || m.payload.None?
      || (m.payload.value.action.OtherAction?)
      || (m.payload.value.action != Clear && m.payload.value.shape.None?)
    ensures ReplayStep(a, m) == a && LiveStep(a, m) == a
  {
  }

  /** The two deletes agree exactly when at most one shape carries the id. */
  lemma {:induction false} DeletePathsAgree(a: seq<Shape>, id: string)
    ensures RemoveFirst(a, id) == RemoveAll(a, id) <==> Count(a, id) <= 1
  {
    if Count(a, id) == 1 {
      RemoveAllOfSingle(a, id);
    }
  }

  /** With exactly one match, the filter removes exactly that one position. */
  lemma {:induction false} RemoveAllOfSingle(a: seq<Shape>, id: string)
    requires Count(a, id) == 1
    ensures RemoveAll(a, id) == RemoveFirst(a, id)
  {
    if a[0].id == id {
      assert FindIndex(a, id) == 0;
      assert RemoveFirst(a, id) == a[1..];
    } else {
      RemoveAllOfSingle(a[1..], id);
      RemoveFirstSkipsHead(a, id);
    }
  }

  lemma FindIndexSkipsHead(a: seq<Shape>, id: string)
    requires a != [] && a[0].id != id
    ensures FindIndex(a, id) == if FindIndex(a[1..], id) < 0 then -1 else FindIndex(a[1..], id) + 1
  {
  }

  /** Past a head with another id, the replay delete works on the tail. */
  lemma RemoveFirstSkipsHead(a: seq<Shape>, id: string)
    requires a != [] && a[0].id != id
    ensures RemoveFirst(a, id) == [a[0]] + RemoveFirst(a[1..], id)
  {
    FindIndexSkipsHead(a, id);
    if FindIndex(a[1..], id) >= 0 {
      RemoveFirstSkipsHeadFound(a, id);
    } else {
      assert a == [a[0]] + a[1..];
    }
  }

  lemma RemoveFirstSkipsHeadFound(a: seq<Shape>, id: string)
    requires a != [] && a[0].id != id
    requires FindIndex(a[1..], id) >= 0
    ensures RemoveFirst(a, id) == [a[0]] + RemoveFirst(a[1..], id)
  {
    var t := a[1..];
    var k := FindIndex(t, id);
    FindIndexSkipsHead(a, id);
    var r, rt := RemoveFirst(a, id), RemoveFirst(t, id);
    var q := [a[0]] + rt;
    forall i | 0 <= i < |r|
      ensures r[i] == q[i]
    {
      if i == 0 {
        assert r[0] == a[0];
      } else if i <= k {
        assert r[i] == a[i] && rt[i - 1] == t[i - 1];
      } else {
        assert r[i] == a[i + 1] && rt[i - 1] == t[i];
      }
    }
    assert |r| == |q|;
  }

  lemma {:induction false} DistinctCountAtMostOne(a: seq<Shape>, id: string)
    requires DistinctIds(a)
    ensures Count(a, id) <= 1
  {
    if a != [] {
      assert DistinctIds(a[1..]) by {
        forall i, j | 0 <= i < j < |a[1..]| ensures a[1..][i].id != a[1..][j].id {
          assert a[1..][i] == a[i + 1] && a[1..][j] == a[j + 1];
        }
      }
      DistinctCountAtMostOne(a[1..], id);
      if a[0].id == id {
        assert !HasId(a[1..], id) by {
          forall i | 0 <= i < |a[1..]| ensures a[1..][i].id != id {
            assert a[1..][i] == a[i + 1];
          }
        }
      }
    }
  }

  /** One replay step equals one live step unless it deletes an id that
      occurs more than once. */
  lemma StepsAgree(a: seq<Shape>, m: Message)
    ensures ReplayStep(a, m) == LiveStep(a, m) <==>
      !(Recognise(m).Some? && Recognise(m).value.DeleteShape? && Count(a, Recognise(m).value.s.id) >= 2)
  {
    match Recognise(m)
    case Some(DeleteShape(s)) => DeletePathsAgree(a, s.id);
    case _ =>
  }

  /** With pairwise distinct ids the two paths take the same step. */
  lemma StepsAgreeOnDistinct(a: seq<Shape>, m: Message)
    requires DistinctIds(a)
    ensures ReplayStep(a, m) == LiveStep(a, m)
  {
    StepsAgree(a, m);
    match Recognise(m)
    case Some(DeleteShape(s)) => DistinctCountAtMostOne(a, s.id);
    case _ =>
  }

  // ---------------------------------------------------------------------
  // Properties of whole replays

  lemma {:induction false} ReplayConcat(a: seq<Shape>, xs: seq<Message>, ys: seq<Message>)
    ensures ReplayFrom(a, xs + ys) == ReplayFrom(ReplayFrom(a, xs), ys)
    decreases |xs|
  {
    if xs == [] {
      assert xs + ys == ys;
    } else {
      assert (xs + ys)[0] == xs[0] && (xs + ys)[1..] == xs[1..] + ys;
      ReplayConcat(ReplayStep(a, xs[0]), xs[1..], ys);
    }
  }

  lemma {:induction false} LiveConcat(a: seq<Shape>, xs: seq<Message>, ys: seq<Message>)
    ensures LiveFrom(a, xs + ys) == LiveFrom(LiveFrom(a, xs), ys)
    decreases |xs|
  {
    if xs == [] {
      assert xs + ys == ys;
    } else {
      assert (xs + ys)[0] == xs[0] && (xs + ys)[1..] == xs[1..] + ys;
      LiveConcat(LiveStep(a, xs[0]), xs[1..], ys);
    }
  }

  /** Replaying one more entry is one more step on the replayed array. */
  lemma ReplaySnoc(a: seq<Shape>, log: seq<Message>, m: Message)
    ensures ReplayFrom(a, log + [m]) == ReplayStep(ReplayFrom(a, log), m)
  {
    ReplayConcat(a, log, [m]);
  }

  /** Entries that neither path recognises leave the array unchanged. */
  lemma {:induction false} IgnoredLog(a: seq<Shape>, log: seq<Message>)
    requires forall i :: 0 <= i < |log| ==> Recognise(log[i]).None?
    ensures ReplayFrom(a, log) == a && LiveFrom(a, log) == a
  {
    if log != [] {
      IgnoredLog(a, log[1..]);
    }
  }

  /** The entries of a log that some path acts upon, in order. */
  function Recognised(log: seq<Message>): (r: seq<Message>)
    ensures forall i :: 0 <= i < |r| ==> Recognise(r[i]).Some?
    ensures |r| <= |log|
  {
    if log == [] then []
    else if Recognise(log[0]).Some? then [log[0]] + Recognised(log[1..])
    else Recognised(log[1..])
  }

  /** Dropping unrecognised entries does not change what the replay builds. */
  lemma {:induction false} ReplaySkipsUnrecognised(a: seq<Shape>, log: seq<Message>)
    ensures ReplayFrom(a, log) == ReplayFrom(a, Recognised(log))
    decreases |log|
  {
    if log != [] {
      ReplaySkipsUnrecognised(ReplayStep(a, log[0]), log[1..]);
      if Recognise(log[0]).None? {
        ReplaySkipsUnrecognised(a, log[1..]);
      } else {
        var r := [log[0]] + Recognised(log[1..]);
        assert r[0] == log[0] && r[1..] == Recognised(log[1..]);
      }
    }
  }

  /** When the last recognised entry of a log is a `clear`, both paths end
      with an empty array, from any starting array. */
  lemma ClearLastEmpties(a: seq<Shape>, before: seq<Message>, clear: Message, after: seq<Message>)
    requires Recognise(clear) == Some(ClearAll)
    requires forall i :: 0 <= i < |after| ==> Recognise(after[i]).None?
    ensures ReplayFrom(a, before + [clear] + after) == []
    ensures LiveFrom(a, before + [clear] + after) == []
  {
    ReplayConcat(a, before + [clear], after);
    ReplayConcat(a, before, [clear]);
    LiveConcat(a, before + [clear], after);
    LiveConcat(a, before, [clear]);
    IgnoredLog([], after);
  }

  /** Every `add` of the log brings an id absent from the array at that
      point of the replay. */
  ghost predicate AddsFresh(a: seq<Shape>, log: seq<Message>)
    decreases |log|
  {
    log == [] ||
    (&& (Recognise(log[0]).Some? && Recognise(log[0]).value.AddShape? ==>
           !HasId(a, Recognise(log[0]).value.s.id))
     && AddsFresh(ReplayStep(a, log[0]), log[1..]))
  }

  lemma {:induction false} RemoveFirstKeepsDistinct(a: seq<Shape>, id: string)
    requires DistinctIds(a)
    ensures DistinctIds(RemoveFirst(a, id))
  {
    if HasId(a, id) {
      var k := FindIndex(a, id);
      var r := RemoveFirst(a, id);
      forall i, j | 0 <= i < j < |r| ensures r[i].id != r[j].id {
        var i' := if i < k then i else i + 1;
        var j' := if j < k then j else j + 1;
        assert r[i] == a[i'] && r[j] == a[j'] && i' < j';
      }
    }
  }

  /** A step keeps ids distinct unless it adds an id already present. */
  lemma StepKeepsDistinct(a: seq<Shape>, m: Message)
    requires DistinctIds(a)
    requires Recognise(m).Some? && Recognise(m).value.AddShape? ==> !HasId(a, Recognise(m).value.s.id)
    ensures DistinctIds(ReplayStep(a, m))
  {
    match Recognise(m)
    case Some(DeleteShape(s)) => RemoveFirstKeepsDistinct(a, s.id);
    case Some(UpdateShape(s)) =>
      if HasId(a, s.id) {
        var k := FindIndex(a, s.id);
        var r := ReplayStep(a, m);
        forall i, j | 0 <= i < j < |r| ensures r[i].id != r[j].id {
          assert r[i].id == a[i].id && r[j].id == a[j].id;
        }
      }
    case Some(AddShape(s)) =>
      var r := ReplayStep(a, m);
      forall i, j | 0 <= i < j < |r| ensures r[i].id != r[j].id {
        if j == |a| {
          assert r[i] == a[i];
        } else {
          assert r[i] == a[i] && r[j] == a[j];
        }
      }
    case _ =>
  }

  /** Starting from distinct ids and adding only fresh ids, replaying a log
      and receiving it live give the same array. */
  lemma {:induction false} FoldsAgree(a: seq<Shape>, log: seq<Message>)
    requires DistinctIds(a)
    requires AddsFresh(a, log)
    ensures ReplayFrom(a, log) == LiveFrom(a, log)
    decreases |log|
  {
    if log != [] {
      StepsAgreeOnDistinct(a, log[0]);
      StepKeepsDistinct(a, log[0]);
      FoldsAgree(ReplayStep(a, log[0]), log[1..]);
    }
  }

  /** An `update` after a `delete` of the same id finds nothing to replace:
      add S, delete any shape with S's id, update S' with that id replays to
      an empty array. The delete matches by id only, so it may carry a
      moved or resized version of S. */
  lemma DeleteThenUpdateIsEmpty(add: Message, del: Message, upd: Message, s: Shape, d: Shape, s': Shape)
    requires Recognise(add) == Some(AddShape(s))
    requires Recognise(del) == Some(DeleteShape(d)) && d.id == s.id
    requires Recognise(upd) == Some(UpdateShape(s')) && s'.id == s.id
    ensures Replay([add, del, upd]) == []
    ensures LiveFrom([], [add, del, upd]) == []
  {
    assert FindIndex([s], s.id) == 0;
    assert ReplayStep([], add) == LiveStep([], add) == [s];
    assert ReplayStep([s], del) == LiveStep([s], del) == [];
    assert ReplayStep([], upd) == LiveStep([], upd) == [];
    assert [add, del, upd][1..] == [del, upd];
    assert [del, upd][1..] == [upd];
    calc {
      Replay([add, del, upd]);
      ReplayFrom([s], [del, upd]);
      ReplayFrom([], [upd]);
      ReplayFrom([], []);
    }
    calc {
      LiveFrom([], [add, del, upd]);
      LiveFrom([s], [del, upd]);
      LiveFrom([], [upd]);
      LiveFrom([], []);
    }
  }
}
