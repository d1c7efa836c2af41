/** PathTrackingWriter: a writer decorator that keeps a PathTracker's stack of
    element names in step with the nodes being written. The stack receives
    the name as the underlying AbstractWriter would encode it, the wrapped
    writer the name as given. */
module PathTracking {
  import opened Wrappers
  import opened HierarchicalStreams

  // ---------------------------------------------------------------------------
  // The path as a function of the calls made

  /** The effect of one writer call on the tracked path, names being tracked
      in the form `track` gives them. Popping an empty path leaves it empty. */
  function Apply(path: seq<string>, e: WriterEvent, track: string -> string): (r: seq<string>)
    ensures e.StartNode? || e.StartTypedNode? ==> |r| == |path| + 1 && r[..|path|] == path && r[|path|] == track(e.name)
    ensures e.EndNode? && path != [] ==> |r| == |path| - 1 && r == path[..|r|]
    ensures e.EndNode? && path == [] ==> r == []
    ensures !(e.StartNode? || e.StartTypedNode? || e.EndNode?) ==> r == path
  {
    match e
    case StartNode(name) => path + [track(name)]
    case StartTypedNode(name, _) => path + [track(name)]
    case EndNode => if path == [] then [] else path[..|path| - 1]
    case _ => path
  }

  /** The tracked path after a sequence of successful writer calls. */
  function PathAfter(path: seq<string>, evs: seq<WriterEvent>, track: string -> string): (r: seq<string>)
    ensures |r| <= |path| + |evs|
  {
    if evs == [] then path else Apply(PathAfter(path, evs[..|evs| - 1], track), evs[|evs| - 1], track)
  }

  lemma {:induction false} PathAfterAppend(path: seq<string>, a: seq<WriterEvent>, b: seq<WriterEvent>, track: string -> string)
    ensures PathAfter(path, a + b, track) == PathAfter(PathAfter(path, a, track), b, track)
    decreases |b|
  {
    if b == [] {
      assert a + b == a;
    } else {
      assert (a + b)[..|a + b| - 1] == a + b[..|b| - 1];
      PathAfterAppend(path, a, b[..|b| - 1], track);
    }
  }

  function Starts(names: seq<string>): (evs: seq<WriterEvent>)
    ensures |evs| == |names|
  {
    seq(|names|, i requires 0 <= i < |names| => StartNode(names[i]))
  }

  function Ends(n: nat): (evs: seq<WriterEvent>)
    ensures |evs| == n
  {
    seq(n, i => EndNode)
  }

  function Tracked(names: seq<string>, track: string -> string): (r: seq<string>)
    ensures |r| == |names|
  {
    seq(|names|, i requires 0 <= i < |names| => track(names[i]))
  }

  /** N startNode calls push N names, in call order. */
  lemma {:induction false} StartsPushInOrder(path: seq<string>, names: seq<string>, track: string -> string)
    ensures PathAfter(path, Starts(names), track) == path + Tracked(names, track)
    decreases |names|
  {
    if names != [] {
      var n := |names|;
      assert Starts(names)[..n - 1] == Starts(names[..n - 1]);
      StartsPushInOrder(path, names[..n - 1], track);
      assert Tracked(names, track) == Tracked(names[..n - 1], track) + [track(names[n - 1])];
    }
  }

  /** N endNode calls take N names off the path. */
  lemma {:induction false} EndsPop(path: seq<string>, n: nat, track: string -> string)
    requires n <= |path|
    ensures PathAfter(path, Ends(n), track) == path[..|path| - n]
    decreases n
  {
    if n > 0 {
      assert Ends(n)[..n - 1] == Ends(n - 1);
      EndsPop(path, n - 1, track);
      assert path[..|path| - (n - 1)][..|path| - n] == path[..|path| - n];
    }
  }

  /** N matching endNode calls restore the path N startNode calls grew. */
  lemma StartsThenEndsRestore(path: seq<string>, names: seq<string>, track: string -> string)
    ensures PathAfter(path, Starts(names) + Ends(|names|), track) == path
  {
    PathAfterAppend(path, Starts(names), Ends(|names|), track);
    StartsPushInOrder(path, names, track);
    EndsPop(path + Tracked(names, track), |names|, track);
    assert (path + Tracked(names, track))[..|path|] == path;
  }

  lemma NeverBelowZeroPrefix(evs: seq<WriterEvent>, k: nat)
    requires NeverBelowZero(evs) && k <= |evs|
    ensures NeverBelowZero(evs[..k])
  {
    forall j | 0 <= j <= k ensures Depth(evs[..k][..j]) >= 0 {
      assert evs[..k][..j] == evs[..j];
    }
  }

  /** In a stream that never closes a node it did not open, the path is the
      starting path extended by one name per open node: its length follows
      the nesting depth at every point, and the starting path stays below. */
  lemma {:induction false} PathFollowsNesting(path: seq<string>, evs: seq<WriterEvent>, track: string -> string)
    requires NeverBelowZero(evs)
    ensures |PathAfter(path, evs, track)| == |path| + Depth(evs)
    ensures path <= PathAfter(path, evs, track)
    decreases |evs|
  {
    if evs != [] {
      var n := |evs|;
      NeverBelowZeroPrefix(evs, n - 1);
      PathFollowsNesting(path, evs[..n - 1], track);
      assert evs[..n] == evs;
    }
  }

  /** Writing a whole subtree (what a converter writes for a value) leaves
      the tracked path exactly where it was. */
  lemma {:induction false} NodeKeepsPath(path: seq<string>, n: Node, track: string -> string)
    ensures PathAfter(path, NodeEvents(n), track) == path
    decreases n
  {
    match n
    case Leaf(name, text) =>
      var evs := NodeEvents(n);
      var pushed := path + [track(name)];
      assert PathAfter(path, evs[..1], track) == pushed by {
        assert evs[..1][..0] == [];
      }
      assert PathAfter(path, evs[..2], track) == pushed by {
        assert evs[..2][..1] == evs[..1];
      }
      assert evs[..2] == evs[..|evs| - 1];
      assert pushed[..|pushed| - 1] == path;
    case Branch(name, children) =>
      var open := [StartNode(name)];
      PathAfterAppend(path, open, ForestEvents(children), track);
      PathAfterAppend(path, open + ForestEvents(children), [EndNode], track);
      assert open[..0] == [];
      ForestKeepsPath(path + [track(name)], children, track);
      assert NodeEvents(n) == (open + ForestEvents(children)) + [EndNode];
      assert [EndNode][..0] == [];
      assert (path + [track(name)])[..|path|] == path;
  }

  lemma {:induction false} ForestKeepsPath(path: seq<string>, ns: seq<Node>, track: string -> string)
    ensures PathAfter(path, ForestEvents(ns), track) == path
    decreases ns
  {
    if ns != [] {
      PathAfterAppend(path, NodeEvents(ns[0]), ForestEvents(ns[1..]), track);
      NodeKeepsPath(path, ns[0], track);
      ForestKeepsPath(path, ns[1..], track);
    }
  }

  // ---------------------------------------------------------------------------
  // The objects

  /** The stack of element names of the node being written. */
  class PathTracker {
    var path: seq<string>

    constructor ()
      ensures path == []
    {
      path := [];
    }

    method PushElement(name: string)
      modifies this
      ensures path == old(path) + [name]
    {
      path := path + [name];
    }

    method PopElement()
      requires |path| > 0
      modifies this
      ensures path == old(path)[..|old(path)| - 1]
    {
      path := path[..|path| - 1];
    }
  }

  class PathTrackingWriter {
    const wrapped: EventWriter
    const pathTracker: PathTracker
    const isNameEncoding: bool

    /** The flag is fixed here: set exactly when the underlying writer is an
        AbstractWriter, the kind that encodes names. */
    ghost predicate Valid()
    {
      isNameEncoding == wrapped.nameCoder.Some?
    }

    constructor (writer: EventWriter, pathTracker: PathTracker)
      ensures Valid()
      ensures wrapped == writer && this.pathTracker == pathTracker
      ensures isNameEncoding <==> writer.nameCoder.Some?
    {
      wrapped := writer;
      this.isNameEncoding := writer.nameCoder.Some?;
      this.pathTracker := pathTracker;
    }

    /** The form in which names enter the path: encodeNode of the underlying
        writer when names are encoded, the name itself otherwise. */
    function Tracking(): string -> string
      requires Valid()
    {
      if isNameEncoding then wrapped.nameCoder.value else (name: string) => name
    }

    /** Pushes first, then forwards: a failing forward leaves the name on the
        path. */
    method StartNode(name: string) returns (ok: bool)
      requires Valid()
      modifies pathTracker, wrapped
      ensures ok == !wrapped.broken
      ensures wrapped.events == old(wrapped.events) + (if ok then [WriterEvent.StartNode(name)] else [])
      ensures pathTracker.path == old(pathTracker.path) + [Tracking()(name)]
      ensures pathTracker.path == Apply(old(pathTracker.path), WriterEvent.StartNode(name), Tracking())
    {
      pathTracker.PushElement(if isNameEncoding then wrapped.nameCoder.value(name) else name);
      ok := wrapped.StartNode(name);
    }

    method StartTypedNode(name: string, clazz: string) returns (ok: bool)
      requires Valid()
      modifies pathTracker, wrapped
      ensures ok == !wrapped.broken
      ensures wrapped.events == old(wrapped.events) + (if ok then [WriterEvent.StartTypedNode(name, clazz)] else [])
      ensures pathTracker.path == old(pathTracker.path) + [Tracking()(name)]
      ensures pathTracker.path == Apply(old(pathTracker.path), WriterEvent.StartTypedNode(name, clazz), Tracking())
    {
      pathTracker.PushElement(if isNameEncoding then wrapped.nameCoder.value(name) else name);
      ok := wrapped.StartTypedNode(name, clazz);
    }

    /** Forwards first, then pops: a failing forward leaves the path as it
        was. */
    method EndNode() returns (ok: bool)
      requires Valid() && |pathTracker.path| > 0
      modifies pathTracker, wrapped
      ensures ok == !wrapped.broken
      ensures wrapped.events == old(wrapped.events) + (if ok then [WriterEvent.EndNode] else [])
      ensures ok ==> pathTracker.path == old(pathTracker.path)[..|old(pathTracker.path)| - 1]
      ensures ok ==> pathTracker.path == Apply(old(pathTracker.path), WriterEvent.EndNode, Tracking())
      ensures !ok ==> pathTracker.path == old(pathTracker.path)
    {
      ok := wrapped.EndNode();
      if ok {
        pathTracker.PopElement();
      }
    }

    /** Calls the decorator does not override go straight through. */
    method SetValue(text: string) returns (ok: bool)
      modifies wrapped
      ensures ok == !wrapped.broken
      ensures wrapped.events == old(wrapped.events) + (if ok then [WriterEvent.SetValue(text)] else [])
      ensures pathTracker.path == old(pathTracker.path)
    {
      ok := wrapped.SetValue(text);
    }

    method AddAttribute(attribute: string, value: string) returns (ok: bool)
      modifies wrapped
      ensures ok == !wrapped.broken
      ensures wrapped.events == old(wrapped.events) + (if ok then [WriterEvent.AddAttribute(attribute, value)] else [])
      ensures pathTracker.path == old(pathTracker.path)
    {
      ok := wrapped.AddAttribute(attribute, value);
    }
  }
}
