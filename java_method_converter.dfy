/** JavaMethodConverter: writes a java.lang.reflect.Method or Constructor as
    its declaring class, its name (methods only) and its parameter types, and
    reads such a document back by asking the declaring class for the member
    with that name and those parameter types. Classes are written and read by
    a class converter, a pair of functions over an abstract class type C. */
module JavaMethodConverter {
  import opened Wrappers
  import opened HierarchicalStreams

  /** The type a converter is asked about: Method.class, Constructor.class or
      any other class. */
  datatype ReflectType = MethodClass | ConstructorClass | OtherClass(name: string)

  function CanConvert(t: ReflectType): (b: bool)
    ensures b <==> t in {MethodClass, ConstructorClass}
  {
    t == MethodClass || t == ConstructorClass
  }

  /** A reflective member: the declaring class, the method name, and the
      parameter types in declaration order. */
  datatype Member<C> =
    | Method(declaringClass: C, name: string, parameterTypes: seq<C>)
    | Constructor(declaringClass: C, parameterTypes: seq<C>)

  function TypeOf<C>(m: Member<C>): ReflectType
  {
    if m.Method? then MethodClass else ConstructorClass
  }

  /** The SingleValueConverter for classes (a JavaClassConverter by default):
      toString names a class, fromString resolves a name or fails. */
  datatype ClassConverter<!C> = ClassConverter(toString: C -> string, fromString: string -> Option<C>)

  /** The class converter resolves the name it gives c back to c. */
  ghost predicate Resolves<C>(conv: ClassConverter<C>, c: C)
  {
    conv.fromString(conv.toString(c)) == Some(c)
  }

  ghost predicate ResolvesAll<C>(conv: ClassConverter<C>, m: Member<C>)
  {
    && Resolves(conv, m.declaringClass)
    && forall i | 0 <= i < |m.parameterTypes| :: Resolves(conv, m.parameterTypes[i])
  }

  // ---------------------------------------------------------------------------
  // The document

  /** One "class" node per parameter type, in order. */
  function ParameterNodes<C>(conv: ClassConverter<C>, parameterTypes: seq<C>): (ns: seq<Node>)
    ensures |ns| == |parameterTypes|
    ensures forall i | 0 <= i < |ns| :: ns[i] == Leaf("class", conv.toString(parameterTypes[i]))
    decreases |parameterTypes|
  {
    if parameterTypes == [] then []
    else
      var n := |parameterTypes|;
      ParameterNodes(conv, parameterTypes[..n - 1]) + [Leaf("class", conv.toString(parameterTypes[n - 1]))]
  }

  /** The children marshalMethod writes: "class", then "name" when there is a
      method name, then "parameter-types" with one "class" child per
      parameter type. Every node but the last is a leaf. */
  function MethodNodes<C>(conv: ClassConverter<C>, declaringClassName: string, methodName: Option<string>,
                          parameterTypes: seq<C>): (ns: seq<Node>)
    ensures |ns| == (if methodName.Some? then 3 else 2)
    ensures ns[0] == Leaf("class", declaringClassName)
    ensures methodName.Some? ==> ns[1] == Leaf("name", methodName.value)
    ensures ns[|ns| - 1] == Branch("parameter-types", ParameterNodes(conv, parameterTypes))
  {
    [Leaf("class", declaringClassName)]
      + (if methodName.Some? then [Leaf("name", methodName.value)] else [])
      + [Branch("parameter-types", ParameterNodes(conv, parameterTypes))]
  }

  /** What marshal writes for a member: a method as three nodes and a
      constructor as two; the first carries the declaring class, a method's
      second carries its name, and the last has exactly one "class" child per
      parameter type, in order. */
  function Encode<C>(conv: ClassConverter<C>, m: Member<C>): (ns: seq<Node>)
    ensures |ns| == Consumed(TypeOf(m))
    ensures ns[0] == Leaf("class", conv.toString(m.declaringClass))
    ensures m.Method? ==> ns[1] == Leaf("name", m.name)
    ensures ns[|ns| - 1].Branch? && ns[|ns| - 1].name == "parameter-types"
    ensures |Children(ns[|ns| - 1])| == |m.parameterTypes|
    ensures forall i | 0 <= i < |m.parameterTypes| ::
      Children(ns[|ns| - 1])[i] == Leaf("class", conv.toString(m.parameterTypes[i]))
  {
    MethodNodes(conv, conv.toString(m.declaringClass), if m.Method? then Some(m.name) else None, m.parameterTypes)
  }

  /** Every startNode marshal makes is matched by an endNode, never one too
      many: the writer's depth after marshal is its depth before. */
  lemma MarshalBalanced<C>(conv: ClassConverter<C>, m: Member<C>)
    ensures Depth(ForestEvents(Encode(conv, m))) == 0
    ensures NeverBelowZero(ForestEvents(Encode(conv, m)))
  {
    ForestEventsBalanced(Encode(conv, m));
  }

  // ---------------------------------------------------------------------------
  // Reading back

  datatype ConversionFailure<C> =
    | NoChildNode                     // moveDown found no further child
    | ClassNotResolved(name: string)  // thrown by the class converter's fromString
    | NoSuchMember(member: Member<C>) // NoSuchMethodException, wrapped in a ConversionException

  /** The parameter types read from the "class" children of parameter-types. */
  function DecodeParameters<C>(conv: ClassConverter<C>, ns: seq<Node>): (r: Result<seq<C>, ConversionFailure<C>>)
    ensures r.Success? ==> |r.value| == |ns|
    ensures r.Success? ==> forall i | 0 <= i < |ns| :: conv.fromString(Text(ns[i])) == Some(r.value[i])
    ensures r.Failure? ==> r.error.ClassNotResolved? && conv.fromString(r.error.name).None?
    decreases |ns|
  {
    if ns == [] then Success([])
    else
      var n := |ns|;
      match DecodeParameters(conv, ns[..n - 1])
      case Failure(e) => Failure(e)
      case Success(ps) =>
        var name := Text(ns[n - 1]);
        match conv.fromString(name)
        case None => Failure(ClassNotResolved(name))
        case Some(c) => Success(ps + [c])
  }

  /** What unmarshal returns for the unread children of the current node when
      the required type is `required`: only the children's positions and
      values matter, not their names. `declares` tells whether the declaring
      class has the member (getDeclaredMethod / getDeclaredConstructor). */
  function Decode<C>(kids: seq<Node>, required: ReflectType, conv: ClassConverter<C>,
                     declares: Member<C> -> bool): (r: Result<Member<C>, ConversionFailure<C>>)
    ensures r.Success? ==>
      && |kids| >= Consumed(required)
      && (r.value.Method? <==> required == MethodClass)
      && conv.fromString(Text(kids[0])) == Some(r.value.declaringClass)
      && (r.value.Method? ==> r.value.name == Text(kids[1]))
      && DecodeParameters(conv, Children(kids[Consumed(required) - 1])) == Success(r.value.parameterTypes)
      && declares(r.value)
    ensures r.Failure? && r.error.NoSuchMember? ==> !declares(r.error.member)
    ensures |kids| == 0 ==> r == Failure(NoChildNode)
  {
    if |kids| == 0 then Failure(NoChildNode)
    else
      var declaringClassName := Text(kids[0]);
      match conv.fromString(declaringClassName)
      case None => Failure(ClassNotResolved(declaringClassName))
      case Some(declaringClass) => DecodeMember(kids[1..], required == MethodClass, declaringClass, conv, declares)
  }

  /** The rest of the reading once the declaring class is known: the name
      (methods only), then the parameter types, then the lookup. */
  function DecodeMember<C>(rest: seq<Node>, isMethod: bool, declaringClass: C, conv: ClassConverter<C>,
                           declares: Member<C> -> bool): (r: Result<Member<C>, ConversionFailure<C>>)
    ensures r.Success? ==>
      var k := if isMethod then 1 else 0;
      && |rest| > k
      && r.value.declaringClass == declaringClass
      && (r.value.Method? <==> isMethod)
      && (isMethod ==> r.value.name == Text(rest[0]))
      && DecodeParameters(conv, Children(rest[k])) == Success(r.value.parameterTypes)
      && declares(r.value)
    ensures r.Failure? && r.error.NoSuchMember? ==> !declares(r.error.member)
  {
    var k := if isMethod then 1 else 0;
    if |rest| <= k then Failure(NoChildNode)
    else
      match DecodeParameters(conv, Children(rest[k]))
      case Failure(e) => Failure(e)
      case Success(parameterTypes) =>
        var m := if isMethod then Method(declaringClass, Text(rest[0]), parameterTypes)
                 else Constructor(declaringClass, parameterTypes);
        if declares(m) then Success(m) else Failure(NoSuchMember(m))
  }

  /** Children of the current node that unmarshal reads. */
  function Consumed(required: ReflectType): nat
  {
    if required == MethodClass then 3 else 2
  }

  lemma {:induction false} DecodeParameterNodes<C>(conv: ClassConverter<C>, ps: seq<C>)
    requires forall i | 0 <= i < |ps| :: Resolves(conv, ps[i])
    ensures DecodeParameters(conv, ParameterNodes(conv, ps)) == Success(ps)
    decreases |ps|
  {
    if ps != [] {
      var n := |ps|;
      var ns := ParameterNodes(conv, ps);
      assert ns[..n - 1] == ParameterNodes(conv, ps[..n - 1]);
      DecodeParameterNodes(conv, ps[..n - 1]);
      assert ps[..n - 1] + [ps[n - 1]] == ps;
    }
  }

  /** Reading back what marshal wrote, with the member's own type required,
      gives the member, whatever follows it, provided the class converter
      resolves every class it named and the declaring class declares it. */
  lemma RoundTrip<C>(conv: ClassConverter<C>, m: Member<C>, declares: Member<C> -> bool, following: seq<Node>)
    requires ResolvesAll(conv, m) && declares(m)
    ensures Decode(Encode(conv, m) + following, TypeOf(m), conv, declares) == Success(m)
  {
    DecodeEncoded(conv, m, declares, following);
  }

  /** What reading back an encoding gives: the member when the class declares
      it, and the failure naming it otherwise. */
  lemma DecodeEncoded<C>(conv: ClassConverter<C>, m: Member<C>, declares: Member<C> -> bool, following: seq<Node>)
    requires ResolvesAll(conv, m)
    ensures Decode(Encode(conv, m) + following, TypeOf(m), conv, declares)
         == if declares(m) then Success(m) else Failure(NoSuchMember(m))
  {
    var parameterTypesNode := Branch("parameter-types", ParameterNodes(conv, m.parameterTypes));
    var kids := Encode(conv, m) + following;
    var rest := kids[1..];
    if m.Method? {
      assert kids == [Leaf("class", conv.toString(m.declaringClass)), Leaf("name", m.name), parameterTypesNode] + following;
      assert rest[0] == Leaf("name", m.name) && rest[1] == parameterTypesNode;
    } else {
      assert kids == [Leaf("class", conv.toString(m.declaringClass)), parameterTypesNode] + following;
      assert rest[0] == parameterTypesNode;
    }
    assert Text(kids[0]) == conv.toString(m.declaringClass);
    assert Decode(kids, TypeOf(m), conv, declares) == DecodeMember(rest, m.Method?, m.declaringClass, conv, declares);
    DecodeMemberEncoded(conv, m, declares, rest);
  }

  lemma DecodeMemberEncoded<C>(conv: ClassConverter<C>, m: Member<C>, declares: Member<C> -> bool, rest: seq<Node>)
    requires forall i | 0 <= i < |m.parameterTypes| :: Resolves(conv, m.parameterTypes[i])
    requires var k := if m.Method? then 1 else 0;
      && |rest| > k
      && rest[k] == Branch("parameter-types", ParameterNodes(conv, m.parameterTypes))
      && (m.Method? ==> rest[0] == Leaf("name", m.name))
    ensures DecodeMember(rest, m.Method?, m.declaringClass, conv, declares)
         == if declares(m) then Success(m) else Failure(NoSuchMember(m))
  {
    DecodeParameterNodes(conv, m.parameterTypes);
  }

  /** The converter never succeeds without the member existing: any failure to
      find it is a NoSuchMember failure naming the member it looked for. */
  lemma MissingMemberReported<C>(conv: ClassConverter<C>, m: Member<C>, declares: Member<C> -> bool)
    requires ResolvesAll(conv, m) && !declares(m)
    ensures Decode(Encode(conv, m), TypeOf(m), conv, declares) == Failure(NoSuchMember(m))
  {
    DecodeEncoded(conv, m, declares, []);
    assert Encode(conv, m) + [] == Encode(conv, m);
  }

  /** A node with its name, and every name below it, replaced by its image
      under f; texts are kept. */
  function RenameNode(n: Node, f: string -> string): (r: Node)
    ensures Text(r) == Text(n) && r.Leaf? == n.Leaf?
    ensures n.Branch? ==> r.children == Rename(n.children, f)
    decreases n
  {
    match n
    case Leaf(name, text) => Leaf(f(name), text)
    case Branch(name, children) => Branch(f(name), Rename(children, f))
  }

  /** The nodes with every name, at every depth, replaced by its image under f. */
  function Rename(ns: seq<Node>, f: string -> string): (r: seq<Node>)
    ensures |r| == |ns|
    decreases ns
  {
    seq(|ns|, i requires 0 <= i < |ns| => RenameNode(ns[i], f))
  }

  /** Only the children's texts matter to the parameter list. */
  lemma {:induction false} DecodeParametersByText<C>(conv: ClassConverter<C>, a: seq<Node>, b: seq<Node>)
    requires |a| == |b| && forall i | 0 <= i < |a| :: Text(a[i]) == Text(b[i])
    ensures DecodeParameters(conv, a) == DecodeParameters(conv, b)
    decreases |a|
  {
    if a != [] {
      var n := |a|;
      assert Text(a[n - 1]) == Text(b[n - 1]);
      DecodeParametersByText(conv, a[..n - 1], b[..n - 1]);
    }
  }

  lemma DecodeParametersIgnoresNames<C>(conv: ClassConverter<C>, ns: seq<Node>, f: string -> string)
    ensures DecodeParameters(conv, Rename(ns, f)) == DecodeParameters(conv, ns)
  {
    var r := Rename(ns, f);
    forall i | 0 <= i < |r| ensures Text(r[i]) == Text(ns[i]) {
      assert r[i] == RenameNode(ns[i], f);
    }
    DecodeParametersByText(conv, r, ns);
  }

  /** Unmarshal reads by position: renaming the nodes it reads, the "class"
      children of parameter-types included, changes nothing. */
  lemma DecodeIgnoresNames<C>(kids: seq<Node>, required: ReflectType, conv: ClassConverter<C>,
                              declares: Member<C> -> bool, f: string -> string)
    ensures Decode(Rename(kids, f), required, conv, declares) == Decode(kids, required, conv, declares)
  {
    var r := Rename(kids, f);
    if |kids| > 0 {
      assert Text(r[0]) == Text(kids[0]) by {
        assert r[0] == RenameNode(kids[0], f);
      }
      assert r[1..] == Rename(kids[1..], f);
      var isMethod := required == MethodClass;
      forall c ensures DecodeMember(r[1..], isMethod, c, conv, declares) == DecodeMember(kids[1..], isMethod, c, conv, declares) {
        DecodeMemberIgnoresNames(kids[1..], isMethod, c, conv, declares, f);
      }
    }
    DecodeByParts(r, kids, required, required == MethodClass, conv, declares);
  }

  /** Decode looks only at the first child's text and at what DecodeMember
      makes of the rest. */
  lemma DecodeByParts<C>(a: seq<Node>, b: seq<Node>, required: ReflectType, isMethod: bool, conv: ClassConverter<C>,
                         declares: Member<C> -> bool)
    requires |a| == |b| && isMethod == (required == MethodClass)
    requires |a| > 0 ==> Text(a[0]) == Text(b[0])
    requires |a| > 0 ==> forall c :: DecodeMember(a[1..], isMethod, c, conv, declares) == DecodeMember(b[1..], isMethod, c, conv, declares)
    ensures Decode(a, required, conv, declares) == Decode(b, required, conv, declares)
  {
    if |a| > 0 {
      match conv.fromString(Text(a[0]))
      case None =>
      case Some(c) =>
        assert Decode(a, required, conv, declares) == DecodeMember(a[1..], isMethod, c, conv, declares);
    }
  }

  lemma DecodeMemberIgnoresNames<C>(rest: seq<Node>, isMethod: bool, declaringClass: C, conv: ClassConverter<C>,
                                    declares: Member<C> -> bool, f: string -> string)
    ensures DecodeMember(Rename(rest, f), isMethod, declaringClass, conv, declares)
         == DecodeMember(rest, isMethod, declaringClass, conv, declares)
  {
    var k := if isMethod then 1 else 0;
    if |rest| > k {
      var r := Rename(rest, f);
      assert r[k] == RenameNode(rest[k], f);
      assert Children(r[k]) == Rename(Children(rest[k]), f);
      DecodeParametersIgnoresNames(conv, Children(rest[k]), f);
      if isMethod {
        assert r[0] == RenameNode(rest[0], f);
      }
    }
  }

  // ---------------------------------------------------------------------------
  // The converter over stream objects

  /** startNode name, setValue text, endNode: the three calls marshalMethod
      makes for each leaf. */
  method WriteLeaf(writer: EventWriter, name: string, text: string) returns (ok: bool)
    modifies writer
    ensures ok == !writer.broken
    ensures writer.events == old(writer.events) + (if ok then NodeEvents(Leaf(name, text)) else [])
  {
    ok := writer.StartNode(name);
    if !ok { return; }
    ok := writer.SetValue(text);
    if !ok { return; }
    ok := writer.EndNode();
  }

  /** The parameter-types node and its "class" children. */
  method WriteParameterTypes<C>(writer: EventWriter, conv: ClassConverter<C>, parameterTypes: seq<C>) returns (ok: bool)
    modifies writer
    ensures ok == !writer.broken
    ensures writer.events == old(writer.events)
      + (if ok then NodeEvents(Branch("parameter-types", ParameterNodes(conv, parameterTypes))) else [])
  {
    ghost var kids := ParameterNodes(conv, parameterTypes);
    ghost var evs := [WriterEvent.StartNode("parameter-types")] + ForestEvents(kids) + [WriterEvent.EndNode];
    assert NodeEvents(Branch("parameter-types", kids)) == evs;
    ghost var start := writer.events;
    ok := writer.StartNode("parameter-types");
    if !ok { return; }
    WriteClassNodes(writer, conv, parameterTypes);
    ok := writer.EndNode();
    assert writer.events == start + evs;
  }

  /** The loop of marshalMethod over the parameter types, on a writer that
      has just accepted a call (so accepts every one). */
  method WriteClassNodes<C>(writer: EventWriter, conv: ClassConverter<C>, parameterTypes: seq<C>)
    requires !writer.broken
    modifies writer
    ensures writer.events == old(writer.events) + ForestEvents(ParameterNodes(conv, parameterTypes))
  {
    ghost var inner := writer.events;
    for i := 0 to |parameterTypes|
      invariant writer.events == inner + ForestEvents(ParameterNodes(conv, parameterTypes[..i]))
    {
      var ok := WriteLeaf(writer, "class", conv.toString(parameterTypes[i]));
      ParameterEventsStep(conv, parameterTypes, i);
    }
    assert parameterTypes[..|parameterTypes|] == parameterTypes;
  }

  lemma ParameterEventsStep<C>(conv: ClassConverter<C>, ps: seq<C>, i: nat)
    requires i < |ps|
    ensures ForestEvents(ParameterNodes(conv, ps[..i + 1]))
         == ForestEvents(ParameterNodes(conv, ps[..i])) + NodeEvents(Leaf("class", conv.toString(ps[i])))
  {
    assert ps[..i + 1][..i] == ps[..i];
    ForestEventsSnoc(ParameterNodes(conv, ps[..i]), Leaf("class", conv.toString(ps[i])));
  }

  /** Writes the children; false when the writer threw, which is passed on. */
  method MarshalMethod<C>(writer: EventWriter, conv: ClassConverter<C>, declaringClassName: string,
                          methodName: Option<string>, parameterTypes: seq<C>) returns (ok: bool)
    modifies writer
    ensures ok == !writer.broken
    ensures writer.events == old(writer.events)
      + (if ok then ForestEvents(MethodNodes(conv, declaringClassName, methodName, parameterTypes)) else [])
  {
    ghost var start := writer.events;
    ghost var nameEvents := if methodName.Some? then NodeEvents(Leaf("name", methodName.value)) else [];
    MethodNodesEvents(conv, declaringClassName, methodName, parameterTypes);
    ok := WriteLeaf(writer, "class", declaringClassName);
    if !ok { return; }
    ghost var afterClass := writer.events;
    if methodName.Some? {
      ok := WriteLeaf(writer, "name", methodName.value);
    }
    assert writer.events == afterClass + nameEvents;
    ok := WriteParameterTypes(writer, conv, parameterTypes);
    assert ok ==>
      writer.events == start + NodeEvents(Leaf("class", declaringClassName)) + nameEvents
                             + NodeEvents(Branch("parameter-types", ParameterNodes(conv, parameterTypes)));
  }

  /** The calls for marshalMethod's children, child by child. */
  lemma MethodNodesEvents<C>(conv: ClassConverter<C>, declaringClassName: string, methodName: Option<string>,
                             parameterTypes: seq<C>)
    ensures ForestEvents(MethodNodes(conv, declaringClassName, methodName, parameterTypes))
      == NodeEvents(Leaf("class", declaringClassName))
       + (if methodName.Some? then NodeEvents(Leaf("name", methodName.value)) else [])
       + NodeEvents(Branch("parameter-types", ParameterNodes(conv, parameterTypes)))
  {
    var c, p := Leaf("class", declaringClassName), Branch("parameter-types", ParameterNodes(conv, parameterTypes));
    ForestEventsSnoc([], c);
    assert [] + [c] == [c];
    if methodName.Some? {
      var nm := Leaf("name", methodName.value);
      ForestEventsSnoc([c], nm);
      ForestEventsSnoc([c, nm], p);
      assert [c] + [nm] == [c, nm];
      assert MethodNodes(conv, declaringClassName, methodName, parameterTypes) == [c, nm] + [p];
    } else {
      ForestEventsSnoc([c], p);
      assert MethodNodes(conv, declaringClassName, methodName, parameterTypes) == [c] + [p];
    }
  }

  method Marshal<C>(source: Member<C>, writer: EventWriter, conv: ClassConverter<C>) returns (ok: bool)
    modifies writer
    ensures ok == !writer.broken
    ensures writer.events == old(writer.events) + (if ok then ForestEvents(Encode(conv, source)) else [])
  {
    var declaringClassName := conv.toString(source.declaringClass);
    if source.Method? {
      ok := MarshalMethod(writer, conv, declaringClassName, Some(source.name), source.parameterTypes);
    } else {
      ok := MarshalMethod(writer, conv, declaringClassName, None, source.parameterTypes);
    }
  }

  /** The while loop of unmarshal: reads a parameter type from each unread
      child of the current node. On success every child has been read. */
  method ReadParameterTypes<C>(reader: TreeReader, conv: ClassConverter<C>) returns (res: Result<seq<C>, ConversionFailure<C>>)
    requires reader.Valid()
    modifies reader
    ensures reader.Valid()
    ensures res == DecodeParameters(conv, old(reader.Unread()))
    ensures res.Success? ==> reader.frames == Advanced(old(reader.frames), |old(reader.Unread())|)
  {
    ghost var start := reader.frames;
    ghost var types := reader.Unread();
    var parameterTypeList: seq<C> := [];
    ghost var i := 0;
    assert Advanced(start, 0) == start;
    var more := reader.HasMoreChildren();
    while more
      invariant 0 <= i <= |types|
      invariant reader.frames == Advanced(start, i)
      invariant reader.Unread() == types[i..]
      invariant more <==> i < |types|
      invariant DecodeParameters(conv, types[..i]) == Success(parameterTypeList)
      decreases |types| - i
    {
      ValidAdvanced(start, i);
      var parameterTypeName, parameterType := ReadNextParameterType(reader, conv, start, types, i, parameterTypeList);
      if parameterType.None? {
        return Failure(ClassNotResolved(parameterTypeName));
      }
      parameterTypeList := parameterTypeList + [parameterType.value];
      i := i + 1;
      more := reader.HasMoreChildren();
    }
    ValidAdvanced(start, i);
    assert types[..i] == types;
    res := Success(parameterTypeList);
  }

  /** The i-th round of the loop of ReadParameterTypes, stated against the
      children unread when the loop began: an unresolvable name ends the whole
      list with its failure; otherwise the list grows by the resolved class
      and the cursor moves past the child. */
  method ReadNextParameterType<C>(reader: TreeReader, conv: ClassConverter<C>, ghost start: seq<Frame>,
                                  ghost types: seq<Node>, ghost i: nat, ghost list: seq<C>)
    returns (name: string, parameterType: Option<C>)
    requires ValidFrames(start) && types == Remaining(start) && i < |types|
    requires reader.frames == Advanced(start, i) && reader.Valid() && reader.Unread() == types[i..]
    requires DecodeParameters(conv, types[..i]) == Success(list)
    modifies reader
    ensures reader.Valid()
    ensures parameterType.None? ==> DecodeParameters(conv, types) == Failure(ClassNotResolved(name))
    ensures parameterType.Some? ==>
      && reader.frames == Advanced(start, i + 1)
      && reader.Unread() == types[i + 1..]
      && DecodeParameters(conv, types[..i + 1]) == Success(list + [parameterType.value])
  {
    name, parameterType := ReadParameterType(reader, conv);
    if parameterType.None? {
      DecodeParametersFailsAt(conv, types, i);
      return;
    }
    DecodeParametersStep(conv, types, i, list, parameterType.value);
    CursorStep(start, i);
    assert reader.frames == Advanced(start, i + 1);
  }

  lemma DecodeParametersStep<C>(conv: ClassConverter<C>, ns: seq<Node>, i: nat, list: seq<C>, t: C)
    requires i < |ns| && DecodeParameters(conv, ns[..i]) == Success(list)
    requires conv.fromString(Text(ns[i])) == Some(t)
    ensures DecodeParameters(conv, ns[..i + 1]) == Success(list + [t])
  {
    assert ns[..i + 1][..i] == ns[..i];
  }

  /** Leaving the i-th unread child puts the cursor after it. */
  lemma CursorStep(start: seq<Frame>, i: nat)
    requires ValidFrames(start) && i < |Remaining(start)|
    ensures Advanced(Advanced(start, i), 1) == Advanced(start, i + 1)
    ensures Remaining(Advanced(start, i + 1)) == Remaining(start)[i + 1..]
  {
    AdvancedTwice(start, i, 1);
    RemainingAdvanced(start, i + 1);
  }

  /** One round of the while loop: moveDown, getValue, fromString, moveUp.
      The cursor is left in the child when the class does not resolve. */
  method ReadParameterType<C>(reader: TreeReader, conv: ClassConverter<C>) returns (name: string, parameterType: Option<C>)
    requires reader.Valid() && |reader.Unread()| > 0
    modifies reader
    ensures reader.Valid()
    ensures name == Text(old(reader.Unread())[0]) && parameterType == conv.fromString(name)
    ensures parameterType.Some? ==> reader.frames == Advanced(old(reader.frames), 1)
  {
    var down := reader.MoveDown();
    name := reader.GetValue();
    parameterType := conv.fromString(name);
    if parameterType.Some? {
      reader.MoveUp();
    }
  }

  /** Reads the member from the unread children of the reader's current node.
      On success the cursor is back in that node, past the children read. */
  method Unmarshal<C>(reader: TreeReader, required: ReflectType, conv: ClassConverter<C>,
                      declares: Member<C> -> bool) returns (res: Result<Member<C>, ConversionFailure<C>>)
    requires reader.Valid()
    modifies reader
    ensures reader.Valid()
    ensures res == Decode(old(reader.Unread()), required, conv, declares)
    ensures res.Success? ==> reader.frames == Advanced(old(reader.frames), Consumed(required))
    ensures res.Success? ==> reader.Depth() == old(reader.Depth())
  {
    ghost var kids := reader.Unread();
    ghost var start := reader.frames;
    var isMethodNotConstructor := required == MethodClass;

    var declaringClass := ReadDeclaringClass(reader, conv);
    if declaringClass.Failure? { return Failure(declaringClass.error); }
    RemainingAdvanced(start, 1);
    assert reader.Unread() == kids[1..];
    res := UnmarshalMember(reader, isMethodNotConstructor, declaringClass.value, conv, declares);
    if res.Success? {
      AdvancedTwice(start, 1, Consumed(required) - 1);
    }
  }

  /** moveDown, getValue, fromString, moveUp on the "class" child. */
  method ReadDeclaringClass<C>(reader: TreeReader, conv: ClassConverter<C>) returns (res: Result<C, ConversionFailure<C>>)
    requires reader.Valid()
    modifies reader
    ensures reader.Valid()
    ensures |old(reader.Unread())| == 0 ==> res == Failure(NoChildNode)
    ensures |old(reader.Unread())| > 0 ==>
      var name := Text(old(reader.Unread())[0]);
      res == (match conv.fromString(name) case None => Failure(ClassNotResolved(name)) case Some(c) => Success(c))
    ensures res.Success? ==> reader.frames == Advanced(old(reader.frames), 1)
  {
    var down := reader.MoveDown();
    if !down { return Failure(NoChildNode); }
    var declaringClassName := reader.GetValue();
    var declaringClass := conv.fromString(declaringClassName);
    if declaringClass.None? { return Failure(ClassNotResolved(declaringClassName)); }
    reader.MoveUp();
    res := Success(declaringClass.value);
  }

  /** Unmarshal after the declaring class: the name for a method, then the
      parameter types, then getDeclaredMethod or getDeclaredConstructor. */
  method UnmarshalMember<C>(reader: TreeReader, isMethodNotConstructor: bool, declaringClass: C,
                            conv: ClassConverter<C>, declares: Member<C> -> bool)
    returns (res: Result<Member<C>, ConversionFailure<C>>)
    requires reader.Valid()
    modifies reader
    ensures reader.Valid()
    ensures res == DecodeMember(old(reader.Unread()), isMethodNotConstructor, declaringClass, conv, declares)
    ensures res.Success? ==> reader.frames == Advanced(old(reader.frames), if isMethodNotConstructor then 2 else 1)
  {
    ghost var rest := reader.Unread();
    ghost var start := reader.frames;
    var methodName := "";
    if isMethodNotConstructor {
      var down;
      down, methodName := ReadChildValue(reader);
      if !down { return Failure(NoChildNode); }
      RemainingAdvanced(start, 1);
    } else {
      assert Advanced(start, 0) == start;
    }
    ghost var k := if isMethodNotConstructor then 1 else 0;
    assert reader.frames == Advanced(start, k) && reader.Unread() == rest[k..];

    var parameterTypes := ReadParameterTypesNode(reader, conv);
    if parameterTypes.Failure? {
      return Failure(parameterTypes.error);
    }
    AdvancedTwice(start, k, 1);

    var m := if isMethodNotConstructor then Method(declaringClass, methodName, parameterTypes.value)
             else Constructor(declaringClass, parameterTypes.value);
    if !declares(m) {
      return Failure(NoSuchMember(m));
    }
    res := Success(m);
  }

  /** moveDown, getValue, moveUp on the next unread child; false, moving
      nowhere, when there is none. */
  method ReadChildValue(reader: TreeReader) returns (ok: bool, text: string)
    requires reader.Valid()
    modifies reader
    ensures reader.Valid()
    ensures ok <==> |old(reader.Unread())| > 0
    ensures ok ==> text == Text(old(reader.Unread())[0]) && reader.frames == Advanced(old(reader.frames), 1)
    ensures !ok ==> reader.frames == old(reader.frames)
  {
    text := "";
    ok := reader.MoveDown();
    if !ok { return; }
    text := reader.GetValue();
    reader.MoveUp();
  }

  /** Enters the parameter-types child, reads its while loop and leaves it. */
  method ReadParameterTypesNode<C>(reader: TreeReader, conv: ClassConverter<C>) returns (res: Result<seq<C>, ConversionFailure<C>>)
    requires reader.Valid()
    modifies reader
    ensures reader.Valid()
    ensures |old(reader.Unread())| == 0 ==> res == Failure(NoChildNode)
    ensures |old(reader.Unread())| > 0 ==> res == DecodeParameters(conv, Children(old(reader.Unread())[0]))
    ensures res.Success? ==> reader.frames == Advanced(old(reader.frames), 1)
  {
    var down := reader.MoveDown();
    if !down { return Failure(NoChildNode); }
    ghost var inside := reader.frames;
    res := ReadParameterTypes(reader, conv);
    if res.Failure? {
      return;
    }
    reader.MoveUp();
    assert reader.frames == inside[..|inside| - 1];
  }

  /** A class name that the converter cannot resolve stops the parameter list
      there, whatever follows it. */
  lemma DecodeParametersFailsAt<C>(conv: ClassConverter<C>, ns: seq<Node>, i: nat)
    requires i < |ns| && DecodeParameters(conv, ns[..i]).Success? && conv.fromString(Text(ns[i])).None?
    ensures DecodeParameters(conv, ns) == Failure(ClassNotResolved(Text(ns[i])))
  {
    assert ns[..i + 1][..i] == ns[..i];
    DecodeParametersFailure(conv, ns, i + 1);
  }

  /** Once a prefix of the parameter list fails, the whole list fails the
      same way. */
  lemma {:induction false} DecodeParametersFailure<C>(conv: ClassConverter<C>, ns: seq<Node>, j: nat)
    requires j <= |ns| && DecodeParameters(conv, ns[..j]).Failure?
    ensures DecodeParameters(conv, ns) == DecodeParameters(conv, ns[..j])
    decreases |ns|
  {
    if j < |ns| {
      var p := ns[..|ns| - 1];
      assert p[..j] == ns[..j];
      DecodeParametersFailure(conv, p, j);
    } else {
      assert ns[..j] == ns;
    }
  }
}
