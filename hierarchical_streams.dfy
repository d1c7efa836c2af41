/** The two stream contracts the converters drive: a writer that receives
    startNode / setValue / addAttribute / endNode calls, and a reader cursor
    with moveDown / moveUp / hasMoreChildren / getValue over a tree of named
    nodes. A document is a forest of nodes; the writer's calls for a forest
    are its events in document order. */
module HierarchicalStreams {
  import opened Wrappers

  /** A node holds either text or child nodes. */
  datatype Node = Leaf(name: string, text: string) | Branch(name: string, children: seq<Node>)

  function Text(n: Node): string
  {
    if n.Leaf? then n.text else ""
  }

  function Children(n: Node): seq<Node>
  {
    if n.Branch? then n.children else []
  }

  datatype WriterEvent =
    | StartNode(name: string)
    | StartTypedNode(name: string, clazz: string)
    | SetValue(text: string)
    | AddAttribute(attribute: string, value: string)
    | EndNode

  /** The calls that write one node. */
  function NodeEvents(n: Node): seq<WriterEvent>
    decreases n
  {
    match n
    case Leaf(name, text) => [StartNode(name), SetValue(text), EndNode]
    case Branch(name, children) => [StartNode(name)] + ForestEvents(children) + [EndNode]
  }

  function ForestEvents(ns: seq<Node>): seq<WriterEvent>
    decreases ns
  {
    if ns == [] then [] else NodeEvents(ns[0]) + ForestEvents(ns[1..])
  }

  lemma {:induction false} ForestEventsAppend(a: seq<Node>, b: seq<Node>)
    ensures ForestEvents(a + b) == ForestEvents(a) + ForestEvents(b)
    decreases a
  {
    if a == [] {
      assert a + b == b;
    } else {
      assert (a + b)[1..] == a[1..] + b;
      ForestEventsAppend(a[1..], b);
    }
  }

  lemma ForestEventsSnoc(ns: seq<Node>, n: Node)
    ensures ForestEvents(ns + [n]) == ForestEvents(ns) + NodeEvents(n)
  {
    ForestEventsAppend(ns, [n]);
    assert [n][1..] == [];
  }

  // ---------------------------------------------------------------------------
  // Nesting depth

  function DepthChange(e: WriterEvent): int
  {
    match e
    case StartNode(_) => 1
    case StartTypedNode(_, _) => 1
    case EndNode => -1
    case _ => 0
  }

  /** Nodes opened and not yet closed by a sequence of writer calls. */
  function Depth(evs: seq<WriterEvent>): int
  {
    if evs == [] then 0 else Depth(evs[..|evs| - 1]) + DepthChange(evs[|evs| - 1])
  }

  /** No prefix closes more nodes than it opened. */
  ghost predicate NeverBelowZero(evs: seq<WriterEvent>)
  {
    forall k | 0 <= k <= |evs| :: Depth(evs[..k]) >= 0
  }

  lemma {:induction false} DepthAppend(a: seq<WriterEvent>, b: seq<WriterEvent>)
    ensures Depth(a + b) == Depth(a) + Depth(b)
    decreases |b|
  {
    if b == [] {
      assert a + b == a;
    } else {
      var b' := b[..|b| - 1];
      assert (a + b)[..|a + b| - 1] == a + b';
      DepthAppend(a, b');
    }
  }

  lemma NeverBelowZeroAppend(a: seq<WriterEvent>, b: seq<WriterEvent>)
    requires NeverBelowZero(a) && NeverBelowZero(b) && Depth(a) >= 0
    ensures NeverBelowZero(a + b)
  {
    forall k | 0 <= k <= |a + b| ensures Depth((a + b)[..k]) >= 0 {
      if k <= |a| {
        assert (a + b)[..k] == a[..k];
      } else {
        assert (a + b)[..k] == a + b[..k - |a|];
        DepthAppend(a, b[..k - |a|]);
      }
    }
  }

  /** Writing a whole node (or forest) closes every node it opens and never
      closes one it did not open: it leaves the writer's depth unchanged. */
  lemma {:induction false} ForestEventsBalanced(ns: seq<Node>)
    ensures Depth(ForestEvents(ns)) == 0 && NeverBelowZero(ForestEvents(ns))
    decreases ns
  {
    if ns != [] {
      NodeEventsBalanced(ns[0]);
      ForestEventsBalanced(ns[1..]);
      DepthAppend(NodeEvents(ns[0]), ForestEvents(ns[1..]));
      NeverBelowZeroAppend(NodeEvents(ns[0]), ForestEvents(ns[1..]));
    }
  }

  lemma {:induction false} NodeEventsBalanced(n: Node)
    ensures Depth(NodeEvents(n)) == 0 && NeverBelowZero(NodeEvents(n))
    decreases n
  {
    match n
    case Leaf(name, text) =>
      var evs := NodeEvents(n);
      assert Depth(evs[..1]) == 1 by {
        assert evs[..1][..0] == [];
      }
      assert Depth(evs[..2]) == 1 by {
        assert evs[..2][..1] == evs[..1];
      }
      assert Depth(evs) == 0 by {
        assert evs[..2] == evs[..|evs| - 1];
      }
      assert evs[..3] == evs;
      assert Depth(evs[..0]) == 0;
    case Branch(name, children) =>
      var inner := ForestEvents(children);
      ForestEventsBalanced(children);
      var open := [StartNode(name)];
      DepthAppend(open, inner);
      DepthAppend(open + inner, [EndNode]);
      assert NeverBelowZero(open + inner) by {
        forall k | 0 <= k <= |open + inner| ensures Depth((open + inner)[..k]) >= 0 {
          if k >= 1 {
            assert (open + inner)[..k] == open + inner[..k - 1];
            DepthAppend(open, inner[..k - 1]);
          } else {
            assert (open + inner)[..k] == [];
          }
        }
      }
      assert NodeEvents(n) == (open + inner) + [EndNode];
      assert NeverBelowZero(NodeEvents(n)) by {
        var evs := NodeEvents(n);
        forall k | 0 <= k <= |evs| ensures Depth(evs[..k]) >= 0 {
          if k <= |open + inner| {
            assert evs[..k] == (open + inner)[..k];
          } else {
            assert evs[..k] == evs;
          }
        }
      }
  }

  // ---------------------------------------------------------------------------
  // A writer

  /** A HierarchicalStreamWriter that records the calls it accepts. A broken
      writer (its output fails) throws on every call and records nothing.
      nameCoder is the name encoding of the underlying writer when that
      writer is an AbstractWriter, and None otherwise. */
  class EventWriter {
    var events: seq<WriterEvent>
    const broken: bool
    const nameCoder: Option<string -> string>

    constructor (broken: bool, nameCoder: Option<string -> string>)
      ensures events == [] && this.broken == broken && this.nameCoder == nameCoder
    {
      events := [];
      this.broken := broken;
      this.nameCoder := nameCoder;
    }

    method Emit(e: WriterEvent) returns (ok: bool)
      modifies this
      ensures ok == !broken
      ensures events == old(events) + (if ok then [e] else [])
    {
      ok := !broken;
      if ok {
        events := events + [e];
      }
    }

    method StartNode(name: string) returns (ok: bool)
      modifies this
      ensures ok == !broken
      ensures events == old(events) + (if ok then [WriterEvent.StartNode(name)] else [])
    {
      ok := Emit(WriterEvent.StartNode(name));
    }

    method StartTypedNode(name: string, clazz: string) returns (ok: bool)
      modifies this
      ensures ok == !broken
      ensures events == old(events) + (if ok then [WriterEvent.StartTypedNode(name, clazz)] else [])
    {
      ok := Emit(WriterEvent.StartTypedNode(name, clazz));
    }

    method SetValue(text: string) returns (ok: bool)
      modifies this
      ensures ok == !broken
      ensures events == old(events) + (if ok then [WriterEvent.SetValue(text)] else [])
    {
      ok := Emit(WriterEvent.SetValue(text));
    }

    method AddAttribute(attribute: string, value: string) returns (ok: bool)
      modifies this
      ensures ok == !broken
      ensures events == old(events) + (if ok then [WriterEvent.AddAttribute(attribute, value)] else [])
    {
      ok := Emit(WriterEvent.AddAttribute(attribute, value));
    }

    method EndNode() returns (ok: bool)
      modifies this
      ensures ok == !broken
      ensures events == old(events) + (if ok then [WriterEvent.EndNode] else [])
    {
      ok := Emit(WriterEvent.EndNode);
    }
  }

  // ---------------------------------------------------------------------------
  // A reader cursor

  /** One level of the cursor: the node it is in and how many of that node's
      children have been entered so far. */
  datatype Frame = Frame(node: Node, next: nat)

  /** The cursor stack after the top frame has had k more children entered
      and left. */
  function Advanced(frames: seq<Frame>, k: nat): seq<Frame>
    requires |frames| > 0
  {
    var top := frames[|frames| - 1];
    frames[..|frames| - 1] + [Frame(top.node, top.next + k)]
  }

  lemma AdvancedTwice(frames: seq<Frame>, a: nat, b: nat)
    requires |frames| > 0
    ensures Advanced(Advanced(frames, a), b) == Advanced(frames, a + b)
  {
  }

  ghost predicate ValidFrames(frames: seq<Frame>)
  {
    && |frames| > 0
    && forall i | 0 <= i < |frames| :: frames[i].next <= |Children(frames[i].node)|
  }

  lemma ValidAdvanced(frames: seq<Frame>, k: nat)
    requires ValidFrames(frames) && frames[|frames| - 1].next + k <= |Children(frames[|frames| - 1].node)|
    ensures ValidFrames(Advanced(frames, k))
  {
    var a := Advanced(frames, k);
    forall i | 0 <= i < |a| ensures a[i].next <= |Children(a[i].node)| {
      if i < |frames| - 1 {
        assert a[i] == frames[i];
      }
    }
  }

  /** The children of the current node that have not been entered yet. */
  function Remaining(frames: seq<Frame>): seq<Node>
    requires |frames| > 0 && frames[|frames| - 1].next <= |Children(frames[|frames| - 1].node)|
  {
    var top := frames[|frames| - 1];
    Children(top.node)[top.next..]
  }

  lemma RemainingAdvanced(frames: seq<Frame>, k: nat)
    requires |frames| > 0 && frames[|frames| - 1].next + k <= |Children(frames[|frames| - 1].node)|
    ensures Remaining(Advanced(frames, k)) == Remaining(frames)[k..]
  {
  }

  /** A HierarchicalStreamReader over a tree of nodes. */
  class TreeReader {
    var frames: seq<Frame>

    ghost predicate Valid()
      reads this
    {
      ValidFrames(frames)
    }

    constructor (root: Node)
      ensures Valid() && frames == [Frame(root, 0)]
    {
      frames := [Frame(root, 0)];
    }

    function Depth(): nat
      reads this
    {
      |frames|
    }

    function Current(): Node
      reads this
      requires Valid()
    {
      frames[|frames| - 1].node
    }

    function Unread(): seq<Node>
      reads this
      requires Valid()
    {
      Remaining(frames)
    }

    method HasMoreChildren() returns (more: bool)
      requires Valid()
      ensures more <==> |Unread()| > 0
    {
      var top := frames[|frames| - 1];
      more := top.next < |Children(top.node)|;
    }

    /** Enters the next child of the current node; fails, moving nowhere,
        when there is none. */
    method MoveDown() returns (ok: bool)
      requires Valid()
      modifies this
      ensures Valid()
      ensures ok <==> |old(Unread())| > 0
      ensures ok ==> frames == Advanced(old(frames), 1) + [Frame(old(Unread())[0], 0)]
      ensures !ok ==> frames == old(frames)
    {
      var top := frames[|frames| - 1];
      if top.next < |Children(top.node)| {
        var child := Children(top.node)[top.next];
        frames := Advanced(frames, 1) + [Frame(child, 0)];
        ok := true;
      } else {
        ok := false;
      }
    }

    /** Returns to the parent; the caller balances it with its moveDown. */
    method MoveUp()
      requires Valid() && |frames| > 1
      modifies this
      ensures Valid()
      ensures frames == old(frames)[..|old(frames)| - 1]
    {
      frames := frames[..|frames| - 1];
    }

    method GetValue() returns (text: string)
      requires Valid()
      ensures text == Text(Current())
    {
      text := Text(frames[|frames| - 1].node);
    }

    method GetNodeName() returns (name: string)
      requires Valid()
      ensures name == Current().name
    {
      name := frames[|frames| - 1].node.name;
    }
  }
}
