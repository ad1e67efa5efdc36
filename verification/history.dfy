/**
 The history reducer, as written: two separate arrays of snapshots (one of
 element lists, one of connection lists) and a cursor `index`. The two arrays
 are written by different rules and may drift apart in length.
 */
module History {
  import opened DiagramTypes

  datatype HistoryState = HistoryState(
    elements: seq<seq<DiagramNode>>,
    connections: seq<seq<ConnectionLine>>,
    index: int)

  /** The actions the reducer receives. `Save` stands for an action object
      tagged `SAVE`, which no case of the reducer's switch matches. */
  datatype Action =
    | Add(element: DiagramNode)
    | Undo
    | Redo
    | Drag(element: DiagramNode)
    | Connect(connection: ConnectionLine)
    | Save

  /** The tag an action carries. */
  function TypeOf(a: Action): (t: HistoryActionType)
    ensures t == SAVE <==> a.Save?
    ensures t == HistoryActionType.CONNECT <==> a.Connect?
  {
    match a
    case Add(_) => ADD
    case Undo => UNDO
    case Redo => REDO
    case Drag(_) => DRAG
    case Connect(_) => HistoryActionType.CONNECT
    case Save => SAVE
  }

  /** Actions that create a snapshot. */
  predicate IsWrite(a: Action) {
    a.Add? || a.Drag? || a.Connect?
  }

  /** The current snapshots can be read: what every write needs. */
  predicate Readable(s: HistoryState) {
    0 <= s.index < |s.elements| && s.index < |s.connections|
  }

  /** The invariant every reachable history keeps. */
  predicate Valid(s: HistoryState) {
    0 <= s.index < |s.elements| <= |s.connections|
  }

  function Last<T>(s: seq<T>): T
    requires |s| > 0
  {
    s[|s| - 1]
  }

  /** The number of nodes in `snap` whose id is `id`. */
  function CountId(snap: seq<DiagramNode>, id: int): (n: nat)
    ensures n <= |snap|
    ensures n == 0 <==> forall x :: x in snap ==> x.id != id
  {
    if |snap| == 0 then 0
    else (if snap[0].id == id then 1 else 0) + CountId(snap[1..], id)
  }

  /** The nodes of `snap` whose id is not `id`, in their order. */
  function RemoveId(snap: seq<DiagramNode>, id: int): (r: seq<DiagramNode>)
    ensures forall x {:trigger x in r} :: x in r <==> x in snap && x.id != id
    ensures |r| + CountId(snap, id) == |snap|
  {
    if |snap| == 0 then []
    else if snap[0].id != id then [snap[0]] + RemoveId(snap[1..], id)
    else RemoveId(snap[1..], id)
  }

  /** Filtering distributes over concatenation, so the nodes kept stay in
      their original order. */
  lemma {:induction false} RemoveIdAppend(a: seq<DiagramNode>, b: seq<DiagramNode>, id: int)
    ensures RemoveId(a + b, id) == RemoveId(a, id) + RemoveId(b, id)
    decreases |a|
  {
    if |a| == 0 {
      assert a + b == b;
    } else {
      var head := if a[0].id != id then [a[0]] else [];
      var ra, rb, rt := RemoveId(a[1..], id), RemoveId(b, id), RemoveId(a[1..] + b, id);
      assert RemoveId(a + b, id) == head + rt by {
        assert (a + b)[0] == a[0] && (a + b)[1..] == a[1..] + b;
      }
      assert RemoveId(a, id) == head + ra;
      assert rt == ra + rb by {
        RemoveIdAppend(a[1..], b, id);
      }
      assert head + (ra + rb) == (head + ra) + rb;
    }
  }

  /** A snapshot in which `id` does not occur is returned unchanged. */
  lemma {:induction false} RemoveIdAbsent(snap: seq<DiagramNode>, id: int)
    requires CountId(snap, id) == 0
    ensures RemoveId(snap, id) == snap
    decreases |snap|
  {
    if |snap| > 0 {
      assert snap[0] in snap;
      assert CountId(snap[1..], id) == 0;
      RemoveIdAbsent(snap[1..], id);
      assert [snap[0]] + snap[1..] == snap;
    }
  }

  /** No two nodes of `snap` share an id. */
  predicate UniqueIds(snap: seq<DiagramNode>) {
    forall i, j :: 0 <= i < j < |snap| ==> snap[i].id != snap[j].id
  }

  /** ADD: the new element list is the current one plus `e`. Below the last
      index the element array is first cut back to `index + 1` entries and
      the connection array is left alone; at the last index both arrays grow
      at the end. */
  function HandleAdd(s: HistoryState, e: DiagramNode): (r: HistoryState)
    requires Readable(s)
    ensures r.index == s.index + 1
    ensures |r.elements| == s.index + 2
    ensures r.elements[..s.index + 1] == s.elements[..s.index + 1]
    ensures r.elements[s.index + 1] == s.elements[s.index] + [e]
    ensures s.index < |s.elements| - 1 ==> r.connections == s.connections
    ensures s.index == |s.elements| - 1 ==>
              r.connections == s.connections + [s.connections[s.index]]
    ensures Valid(s) ==> Valid(r)
  {
    if s.index < |s.elements| - 1 then
      var kept := s.elements[..s.index + 1];
      s.(elements := kept + [kept[s.index] + [e]], index := s.index + 1)
    else
      s.(elements := s.elements + [s.elements[s.index] + [e]],
         connections := s.connections + [s.connections[s.index]],
         index := s.index + 1)
  }

  /** UNDO: one step back, never below 0; the arrays are untouched. */
  function HandleUndo(s: HistoryState): (r: HistoryState)
    ensures r.elements == s.elements && r.connections == s.connections
    ensures s.index >= 1 ==> r.index == s.index - 1
    ensures s.index < 1 ==> r.index == 0
    ensures Valid(s) ==> Valid(r)
  {
    var newIndex := s.index - 1;
    s.(index := if newIndex <= 0 then 0 else newIndex)
  }

  /** REDO: one step forward, never past the last element snapshot (the
      clamp looks at the element array only); the arrays are untouched. */
  function HandleRedo(s: HistoryState): (r: HistoryState)
    ensures r.elements == s.elements && r.connections == s.connections
    ensures s.index + 1 < |s.elements| ==> r.index == s.index + 1
    ensures s.index + 1 >= |s.elements| ==> r.index == |s.elements| - 1
    ensures Valid(s) ==> Valid(r)
  {
    var newIndex := s.index + 1;
    var maxIndex := |s.elements| - 1;
    s.(index := if newIndex >= maxIndex then maxIndex else newIndex)
  }

  /** DRAG: a snapshot in which `e` replaces every node with its id, moved
      to the end, is appended to the END of both arrays (nothing is cut
      back), and the cursor moves one step forward. */
  function HandleDrag(s: HistoryState, e: DiagramNode): (r: HistoryState)
    requires Readable(s)
    ensures r.index == s.index + 1
    ensures |r.elements| == |s.elements| + 1 && r.elements[..|s.elements|] == s.elements
    ensures |r.connections| == |s.connections| + 1 && r.connections[..|s.connections|] == s.connections
    ensures Last(r.connections) == s.connections[s.index]
    ensures Last(r.elements) == RemoveId(s.elements[s.index], e.id) + [e]
    ensures CountId(Last(r.elements), e.id) == 1 && Last(Last(r.elements)) == e
    ensures forall x :: x in Last(r.elements) && x.id != e.id <==>
              x in s.elements[s.index] && x.id != e.id
    ensures Valid(s) ==> Valid(r)
  {
    var filtered := RemoveId(s.elements[s.index], e.id);
    CountSnoc(filtered, e, e.id);
    s.(elements := s.elements + [filtered + [e]],
       connections := s.connections + [s.connections[s.index]],
       index := s.index + 1)
  }

  /** CONNECT: a copy of the current element list and the current connection
      list plus `c` are appended to the END of both arrays; `c` is not
      checked in any way (a self-connection is accepted). */
  function HandleConnect(s: HistoryState, c: ConnectionLine): (r: HistoryState)
    requires Readable(s)
    ensures r.index == s.index + 1
    ensures r.elements == s.elements + [s.elements[s.index]]
    ensures |r.connections| == |s.connections| + 1 && r.connections[..|s.connections|] == s.connections
    ensures Last(r.connections) == s.connections[s.index] + [c]
    ensures Valid(s) ==> Valid(r)
  {
    s.(elements := s.elements + [s.elements[s.index]],
       connections := s.connections + [s.connections[s.index] + [c]],
       index := s.index + 1)
  }

  /** The reducer: one case per action tag, and the state unchanged for a
      tag no case matches. */
  function Reducer(s: HistoryState, a: Action): (r: HistoryState)
    requires IsWrite(a) ==> Readable(s)
    ensures Valid(s) ==> Valid(r)
    ensures !IsWrite(a) ==> r.elements == s.elements && r.connections == s.connections
    ensures IsWrite(a) ==> r.index == s.index + 1
    ensures TypeOf(a) == SAVE ==> r == s
  {
    match a
    case Add(e) => HandleAdd(s, e)
    case Undo => HandleUndo(s)
    case Redo => HandleRedo(s)
    case Drag(e) => HandleDrag(s, e)
    case Connect(c) => HandleConnect(s, c)
    case Save => s
  }

  /** The reducer applied to each action in turn. */
  function ReduceAll(s: HistoryState, actions: seq<Action>): (r: HistoryState)
    requires Valid(s)
    ensures Valid(r)
    ensures |r.elements| <= |s.elements| + |actions|
    decreases |actions|
  {
    if |actions| == 0 then s
    else ReduceAll(Reducer(s, actions[0]), actions[1..])
  }

  lemma CountSnoc(snap: seq<DiagramNode>, e: DiagramNode, id: int)
    ensures CountId(snap + [e], id) == CountId(snap, id) + (if e.id == id then 1 else 0)
  {
    if |snap| > 0 {
      assert (snap + [e])[1..] == snap[1..] + [e];
      CountSnoc(snap[1..], e, id);
    } else {
      assert (snap + [e])[1..] == [];
    }
  }

  /** The snapshots the cursor points at. */
  datatype View = View(elements: seq<DiagramNode>, connections: seq<ConnectionLine>)

  /** What the editor shows: the element and connection snapshots at the
      cursor, which every valid history has. */
  function CurrentView(s: HistoryState): (v: View)
    requires Valid(s)
    ensures v.elements in s.elements && v.connections in s.connections
  {
    View(s.elements[s.index], s.connections[s.index])
  }

  /** UNDO then REDO is the identity away from the first snapshot, and REDO
      then UNDO is the identity away from the last element snapshot. */
  lemma UndoRedoRoundTrip(s: HistoryState)
    requires Valid(s)
    ensures s.index > 0 ==> Reducer(Reducer(s, Undo), Redo) == s
    ensures s.index < |s.elements| - 1 ==> Reducer(Reducer(s, Redo), Undo) == s
  {
  }

  /** At the boundaries UNDO and REDO change nothing. */
  lemma UndoRedoClamped(s: HistoryState)
    requires Valid(s)
    ensures s.index == 0 ==> Reducer(s, Undo) == s
    ensures s.index == |s.elements| - 1 ==> Reducer(s, Redo) == s
  {
  }

  /** Undoing any write shows again what was shown before it: every write
      keeps the snapshots at and below the cursor. */
  lemma UndoAfterWriteRestoresView(s: HistoryState, a: Action)
    requires Valid(s) && IsWrite(a)
    ensures CurrentView(Reducer(Reducer(s, a), Undo)) == CurrentView(s)
  {
    var r := Reducer(s, a);
    assert r.elements[s.index] == s.elements[s.index] by {
      match a
      case Add(e) =>
        assert r.elements[..s.index + 1][s.index] == s.elements[..s.index + 1][s.index];
      case Drag(e) =>
        assert r.elements[..|s.elements|][s.index] == s.elements[s.index];
      case Connect(c) =>
    }
    assert r.connections[s.index] == s.connections[s.index] by {
      match a
      case Add(e) =>
      case Drag(e) =>
        assert r.connections[..|s.connections|][s.index] == s.connections[s.index];
      case Connect(c) =>
        assert r.connections[..|s.connections|][s.index] == s.connections[s.index];
    }
  }

  /** Started at the last snapshot of two equally long arrays, a run of
      writes with no UNDO grows both arrays by one snapshot per write and
      keeps the cursor on the last one. */
  lemma {:induction false} WritesFromLastGrowByOne(s: HistoryState, actions: seq<Action>)
    requires Valid(s) && |s.elements| == |s.connections| && s.index == |s.elements| - 1
    requires forall k :: 0 <= k < |actions| ==> IsWrite(actions[k])
    ensures |ReduceAll(s, actions).elements| == |s.elements| + |actions|
    ensures |ReduceAll(s, actions).connections| == |s.connections| + |actions|
    ensures ReduceAll(s, actions).index == s.index + |actions|
    decreases |actions|
  {
    if |actions| > 0 {
      var t := Reducer(s, actions[0]);
      assert IsWrite(actions[0]);
      assert |t.elements| == |s.elements| + 1 && |t.connections| == |s.connections| + 1;
      assert forall k :: 0 <= k < |actions[1..]| ==> actions[1..][k] == actions[k + 1];
      WritesFromLastGrowByOne(t, actions[1..]);
    }
  }

  /** In a snapshot without repeated ids, a present id occurs exactly once. */
  lemma {:induction false} UniquePresentCountsOnce(snap: seq<DiagramNode>, id: int)
    requires UniqueIds(snap)
    requires exists x :: x in snap && x.id == id
    ensures CountId(snap, id) == 1
  {
    var rest := snap[1..];
    assert UniqueIds(rest) by {
      forall i, j | 0 <= i < j < |rest| ensures rest[i].id != rest[j].id {
        assert rest[i] == snap[i + 1] && rest[j] == snap[j + 1];
      }
    }
    if snap[0].id == id {
      assert forall x :: x in rest ==> x.id != id by {
        forall x | x in rest ensures x.id != id {
          var j :| 0 <= j < |rest| && rest[j] == x;
          assert snap[j + 1] == x;
        }
      }
    } else {
      var x :| x in snap && x.id == id;
      assert x in rest;
      UniquePresentCountsOnce(rest, id);
    }
  }

  /** Removing an id from a snapshot without repeated ids leaves one. */
  lemma {:induction false} RemoveIdKeepsUnique(snap: seq<DiagramNode>, id: int)
    requires UniqueIds(snap)
    ensures UniqueIds(RemoveId(snap, id))
  {
    if |snap| > 0 {
      var rest := snap[1..];
      assert UniqueIds(rest) by {
        forall i, j | 0 <= i < j < |rest| ensures rest[i].id != rest[j].id {
          assert rest[i] == snap[i + 1] && rest[j] == snap[j + 1];
        }
      }
      RemoveIdKeepsUnique(rest, id);
      if snap[0].id != id {
        var tail := RemoveId(rest, id);
        forall y | y in tail ensures y.id != snap[0].id {
          assert y in rest;
          var j :| 0 <= j < |rest| && rest[j] == y;
          assert snap[j + 1] == y;
        }
        UniqueCons(snap[0], tail);
      }
    }
  }

  lemma UniqueCons(x: DiagramNode, t: seq<DiagramNode>)
    requires UniqueIds(t)
    requires forall y :: y in t ==> y.id != x.id
    ensures UniqueIds([x] + t)
  {
    var s := [x] + t;
    forall i, j | 0 <= i < j < |s| ensures s[i].id != s[j].id {
      assert s[j] == t[j - 1];
      if i > 0 {
        assert s[i] == t[i - 1];
      }
    }
  }

  lemma UniqueSnoc(t: seq<DiagramNode>, x: DiagramNode)
    requires UniqueIds(t)
    requires forall y :: y in t ==> y.id != x.id
    ensures UniqueIds(t + [x])
  {
    var s := t + [x];
    forall i, j | 0 <= i < j < |s| ensures s[i].id != s[j].id {
      assert s[i] == t[i];
      if j < |t| {
        assert s[j] == t[j];
      }
    }
  }

  /** DRAG of a node whose id the current snapshot holds once keeps the
      number of nodes and the id-free part of the snapshot, and the new
      snapshot still has no repeated ids. */
  lemma DragKeepsSize(s: HistoryState, e: DiagramNode)
    requires Valid(s)
    requires UniqueIds(s.elements[s.index])
    requires exists x :: x in s.elements[s.index] && x.id == e.id
    ensures |Last(Reducer(s, Drag(e)).elements)| == |s.elements[s.index]|
    ensures UniqueIds(Last(Reducer(s, Drag(e)).elements))
  {
    var cur := s.elements[s.index];
    UniquePresentCountsOnce(cur, e.id);
    RemoveIdKeepsUnique(cur, e.id);
    UniqueSnoc(RemoveId(cur, e.id), e);
  }

  /** A drag takes the dragged node out of its place and puts the new copy
      last; the nodes before and after it keep their order. */
  lemma DragMovesToEnd(s: HistoryState, e: DiagramNode,
                       pre: seq<DiagramNode>, x: DiagramNode, post: seq<DiagramNode>)
    requires Readable(s) && s.elements[s.index] == pre + [x] + post
    requires x.id == e.id && CountId(pre, e.id) == 0 && CountId(post, e.id) == 0
    ensures Last(Reducer(s, Drag(e)).elements) == pre + post + [e]
  {
    var cur := s.elements[s.index];
    assert RemoveId(cur, e.id) == pre + post by {
      assert RemoveId([x], e.id) == [] by {
        assert [x][1..] == [];
      }
      RemoveIdAppend(pre, [x], e.id);
      RemoveIdAppend(pre + [x], post, e.id);
      RemoveIdAbsent(pre, e.id);
      RemoveIdAbsent(post, e.id);
    }
  }

  /** The reducer itself accepts a connection from a node to itself. */
  lemma ReducerAcceptsSelfConnection(s: HistoryState, id: int)
    requires Valid(s)
    ensures ConnectionLine(id, id) in Last(Reducer(s, Connect(ConnectionLine(id, id))).connections)
  {
    var c := ConnectionLine(id, id);
    assert Last(Reducer(s, Connect(c)).connections) == s.connections[s.index] + [c];
  }
}
