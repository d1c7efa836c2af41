/** PureJavaReflectionProvider: instance construction by the no-argument
    constructor or, for a Serializable class, by materialising a synthesised
    serialization stream; and reflective reading and writing of an object's
    fields. Java reflection is modelled as data: a class is a TypeInfo record
    listing its declared constructors (each with the outcome of making it
    accessible and of invoking it), its Serializable flag, its serial version
    UID and its fields in fieldsFor order (each with the outcome of making it
    accessible); an object is a map from field key to value. */
module Reflection {
  import opened Wrappers
  import opened Bytes
  import SerialStream

  // ---------------------------------------------------------------------------
  // Reflection as data

  datatype Modifiers = Modifiers(isStatic: bool, isTransient: bool, isFinal: bool)

  /** A declared field. `access` is what validateFieldAccess's step of making
      a final field accessible (canAccess, then setAccessible) does from Java 5
      on: nothing, or the throwable it raises. */
  datatype FieldInfo = FieldInfo(
    name: string,
    fieldType: string,
    declaringClass: string,
    modifiers: Modifiers,
    access: Option<Throwable>)

  /** A field is identified by its declaring class and its name, so that
      fields of the same name in a class and its ancestors stay distinct. */
  datatype FieldKey = FieldKey(declaringClass: string, name: string)

  function KeyOf(f: FieldInfo): FieldKey
  {
    FieldKey(f.declaringClass, f.name)
  }

  datatype Value = NullValue | Scalar(text: string) | Reference(id: nat)

  /** The classes of Throwable the provider tells apart. */
  datatype ThrowableKind =
    | RuntimeExceptionKind
    | ErrorKind
    | IOExceptionKind
    | ClassNotFoundKind
    | InstantiationKind
    | IllegalAccessKind
    | OtherCheckedKind

  datatype Throwable =
    | Raised(kind: ThrowableKind, className: string)
    | InvocationTargetException(target: Throwable)
    | ObjectAccessException(message: string, cause: Option<Throwable>, context: map<string, string>)
    | MissingFieldException(className: string, fieldName: string)

  /** RuntimeException and its subclasses; ObjectAccessException and
      MissingFieldException are among them. */
  predicate IsUnchecked(t: Throwable)
  {
    (t.Raised? && t.kind == RuntimeExceptionKind) || t.ObjectAccessException? || t.MissingFieldException?
  }

  predicate IsError(t: Throwable)
  {
    t.Raised? && t.kind == ErrorKind
  }

  /** What Constructor.newInstance does when called: return an object with
      these field values, or throw. */
  datatype Invocation = Returned(values: map<FieldKey, Value>) | Threw(thrown: Throwable)

  /** A declared constructor. `access` is what newInstance's step of making it
      accessible (canAccess, then setAccessible) does: nothing, or the
      throwable it raises; `invocation` is what calling it then does. */
  datatype ConstructorInfo = ConstructorInfo(parameterTypes: seq<string>, access: Option<Throwable>, invocation: Invocation)

  datatype TypeInfo = TypeInfo(
    name: string,
    constructors: seq<ConstructorInfo>,
    serializable: bool,
    serialVersionUid: int,
    fields: seq<FieldInfo>)

  /** What ObjectInputStream.readObject does with a payload for a class. */
  datatype ReadOutcome = Materialized(values: map<FieldKey, Value>) | ReadThrew(thrown: Throwable)

  type Materializer = (TypeInfo, seq<byte>) -> ReadOutcome

  /** The serial version UID is a Java long. */
  predicate WellFormed(t: TypeInfo)
  {
    -0x8000_0000_0000_0000 <= t.serialVersionUid < 0x8000_0000_0000_0000
  }

  /** Java's checked-exception rules: canAccess and setAccessible throw only
      unchecked throwables; Constructor.newInstance throws only
      InstantiationException, IllegalAccessException, InvocationTargetException
      or unchecked throwables; readObject only IOException,
      ClassNotFoundException or unchecked ones. */
  ghost predicate ThrowsOnlyDeclared(t: TypeInfo, readObject: Materializer)
  {
    && (forall i | 0 <= i < |t.constructors| :: AccessThrowsUnchecked(t.constructors[i].access))
    && (forall i | 0 <= i < |t.constructors| :: ConstructorThrowsDeclared(t.constructors[i].invocation))
    && (forall d :: ReadThrowsDeclared(readObject(t, d)))
  }

  predicate AccessThrowsUnchecked(access: Option<Throwable>)
  {
    access.Some? ==> IsUnchecked(access.value) || IsError(access.value)
  }

  predicate ConstructorThrowsDeclared(inv: Invocation)
  {
    inv.Threw? ==>
      var e := inv.thrown;
      || (e.Raised? && (e.kind == InstantiationKind || e.kind == IllegalAccessKind))
      || e.InvocationTargetException?
      || IsUnchecked(e) || IsError(e)
  }

  predicate ReadThrowsDeclared(r: ReadOutcome)
  {
    r.ReadThrew? ==>
      var e := r.thrown;
      || (e.Raised? && (e.kind == IOExceptionKind || e.kind == ClassNotFoundKind))
      || IsUnchecked(e) || IsError(e)
  }

  // ---------------------------------------------------------------------------
  // Construction, as a specification

  datatype Construction = Constructed(values: map<FieldKey, Value>) | Throws(thrown: Throwable)

  const CONSTRUCTION_TYPE: string := "construction-type"

  /** An ObjectAccessException raised by the provider: it carries the
      constructed type's name under "construction-type". */
  function Tagged(message: string, cause: Option<Throwable>, t: TypeInfo): (e: Throwable)
    ensures IsTaggedFor(e, t)
  {
    ObjectAccessException(message, cause, map[CONSTRUCTION_TYPE := t.name])
  }

  predicate IsTaggedFor(e: Throwable, t: TypeInfo)
  {
    e.ObjectAccessException? && CONSTRUCTION_TYPE in e.context && e.context[CONSTRUCTION_TYPE] == t.name
  }

  predicate IsNoArg(c: ConstructorInfo)
  {
    |c.parameterTypes| == 0
  }

  /** The position of the first declared constructor without parameters. */
  function NoArgIndex(cs: seq<ConstructorInfo>): (r: Option<nat>)
    ensures r.Some? ==> r.value < |cs| && IsNoArg(cs[r.value]) && forall j | 0 <= j < r.value :: !IsNoArg(cs[j])
    ensures r.None? ==> forall j | 0 <= j < |cs| :: !IsNoArg(cs[j])
  {
    if cs == [] then None
    else if IsNoArg(cs[0]) then Some(0)
    else
      match NoArgIndex(cs[1..])
      case None => None
      case Some(i) => Some(i + 1)
  }

  /** What the invoked constructor itself threw, if anything: the target of
      an InvocationTargetException, or the throwable as it came. */
  function InvocationThrown(inv: Invocation): Option<Throwable>
  {
    match inv
    case Returned(_) => None
    case Threw(e) => Some(if e.InvocationTargetException? then e.target else e)
  }

  /** The catch clauses of newInstance around Constructor.newInstance: the
      object, or the constructor's own throwable either rethrown or as the
      cause of a tagged ObjectAccessException. */
  function InvocationOutcome(t: TypeInfo, inv: Invocation): (c: Construction)
    ensures c.Constructed? <==> inv.Returned?
    ensures c.Constructed? ==> c.values == inv.values
    ensures c.Throws? ==>
      || Some(c.thrown) == InvocationThrown(inv)
      || (IsTaggedFor(c.thrown, t) && c.thrown.cause == InvocationThrown(inv))
  {
    match inv
    case Returned(values) => Constructed(values)
    case Threw(e) =>
      if e.Raised? && (e.kind == InstantiationKind || e.kind == IllegalAccessKind) then
        Throws(Tagged("Cannot construct type", Some(e), t))
      else if e.InvocationTargetException? then
        if IsUnchecked(e.target) || IsError(e.target) then Throws(e.target)
        else Throws(Tagged("Constructor for type threw an exception", Some(e.target), t))
      else Throws(e)
  }

  /** The chosen constructor: the access step, then the invocation. A
      throwable of the access step is not caught by newInstance. */
  function ConstructorOutcome(t: TypeInfo, ctor: ConstructorInfo): (c: Construction)
    ensures ctor.access.Some? ==> c == Throws(ctor.access.value)
    ensures c.Constructed? ==> ctor.access.None? && ctor.invocation == Returned(c.values)
  {
    match ctor.access
    case Some(e) => Throws(e)
    case None => InvocationOutcome(t, ctor.invocation)
  }

  /** The catch clauses of instantiateUsingSerialization around readObject:
      the object, or readObject's throwable either rethrown or as the cause
      of a tagged ObjectAccessException. */
  function ReadConstruction(t: TypeInfo, r: ReadOutcome): (c: Construction)
    ensures c.Constructed? <==> r.Materialized?
    ensures c.Constructed? ==> c.values == r.values
    ensures c.Throws? ==> c.thrown == r.thrown || (IsTaggedFor(c.thrown, t) && c.thrown.cause == Some(r.thrown))
  {
    match r
    case Materialized(values) => Constructed(values)
    case ReadThrew(e) =>
      if e.Raised? && e.kind == IOExceptionKind then
        Throws(Tagged("Cannot create type by JDK serialization", Some(e), t))
      else if e.Raised? && e.kind == ClassNotFoundKind then
        Throws(Tagged("Cannot find class", Some(e), t))
      else Throws(e)
  }

  /** The IOException that writeUTF throws for an over-long name. */
  const UTF_DATA_FORMAT_EXCEPTION: Throwable := Raised(IOExceptionKind, "java.io.UTFDataFormatException")

  type PayloadCache = map<TypeInfo, seq<byte>>

  /** The payload instantiateUsingSerialization hands to readObject: the cached
      one when there is an entry, else a freshly written one; and the cache
      afterwards. */
  function CachedPayload(t: TypeInfo, cache: PayloadCache): (r: (Option<seq<byte>>, PayloadCache))
    ensures t in cache ==> r == (Some(cache[t]), cache)
    ensures r.0.None? <==> t !in cache && SerialStream.Payload(t.name, t.serialVersionUid).Failure?
    ensures r.0.Some? ==> t in r.1 && r.1[t] == r.0.value
    ensures r.1.Keys == cache.Keys + (if r.0.Some? then {t} else {})
    ensures forall u | u in cache :: r.1[u] == cache[u]
  {
    if t in cache then (Some(cache[t]), cache)
    else
      match SerialStream.Payload(t.name, t.serialVersionUid)
      case Failure(_) => (None, cache)
      case Success(data) => (Some(data), cache[t := data])
  }

  /** instantiateUsingSerialization: readObject on the cached or fresh
      payload, with its failures mapped; a name writeUTF refuses fails
      tagged. The cache afterwards is the lookup's. */
  function SerializationOutcome(t: TypeInfo, cache: PayloadCache, readObject: Materializer): (r: (Construction, PayloadCache))
    ensures r.1 == CachedPayload(t, cache).1
    ensures var data := CachedPayload(t, cache).0;
      && (r.0.Constructed? ==> data.Some? && readObject(t, data.value) == Materialized(r.0.values))
      && (r.0.Throws? ==> IsTaggedFor(r.0.thrown, t) || (data.Some? && readObject(t, data.value) == ReadThrew(r.0.thrown)))
  {
    var (data, cache') := CachedPayload(t, cache);
    match data
    case None => (Throws(Tagged("Cannot create type by JDK serialization", Some(UTF_DATA_FORMAT_EXCEPTION), t)), cache')
    case Some(bytes) => (ReadConstruction(t, readObject(t, bytes)), cache')
  }

  /** newInstance: the first no-argument constructor, else serialization for
      a Serializable class, else a tagged refusal. Only the serialization
      path touches the cache. */
  function NewInstanceOutcome(t: TypeInfo, cache: PayloadCache, readObject: Materializer): (r: (Construction, PayloadCache))
    ensures r.1 != cache ==> NoArgIndex(t.constructors).None? && t.serializable
    ensures r.0.Constructed? && NoArgIndex(t.constructors).Some? ==>
      var ctor := t.constructors[NoArgIndex(t.constructors).value];
      ctor.access.None? && ctor.invocation == Returned(r.0.values)
    ensures r.0.Constructed? && NoArgIndex(t.constructors).None? ==> t.serializable
  {
    match NoArgIndex(t.constructors)
    case Some(i) => (ConstructorOutcome(t, t.constructors[i]), cache)
    case None =>
      if t.serializable then SerializationOutcome(t, cache, readObject)
      else (Throws(Tagged("Cannot construct type as it does not have a no-args constructor", None, t)), cache)
  }

  /** Every cache entry is the payload of its own type. */
  ghost predicate CacheHoldsPayloads(cache: PayloadCache)
  {
    forall t | t in cache :: SerialStream.Payload(t.name, t.serialVersionUid) == Success(cache[t])
  }

  // ---------------------------------------------------------------------------
  // Fields, as a specification

  predicate FieldModifiersSupported(f: FieldInfo)
  {
    !(f.modifiers.isStatic || f.modifiers.isTransient)
  }

  /** The refusal of a final field before Java 5: an ObjectAccessException
      without cause and without "construction-type". */
  function InvalidFinalField(f: FieldInfo): (e: Throwable)
    ensures IsUnchecked(e) && e.ObjectAccessException? && e.cause.None?
    ensures forall t :: !IsTaggedFor(e, t)
  {
    ObjectAccessException("Invalid final field " + f.declaringClass + "." + f.name, None, map[])
  }

  /** validateFieldAccess: a field that is not final passes; a final one is
      refused before Java 5, and from Java 5 on is made accessible, which
      either succeeds or throws what the access step throws, unwrapped and
      untagged. */
  function ValidateFieldAccess(f: FieldInfo, jvm5: bool): (r: Option<Throwable>)
    ensures r.None? <==> !f.modifiers.isFinal || (jvm5 && f.access.None?)
    ensures r.Some? && !jvm5 ==> r.value == InvalidFinalField(f)
    ensures r.Some? && jvm5 ==> r == f.access
  {
    if !f.modifiers.isFinal then None
    else if jvm5 then f.access
    else Some(InvalidFinalField(f))
  }

  predicate Selects(f: FieldInfo, name: string, definedIn: Option<string>)
  {
    f.name == name && (definedIn.None? || f.declaringClass == definedIn.value)
  }

  /** Field resolution by (class, name, definedIn): the first field of the
      class's fieldsFor order with that name, declared in definedIn when one
      is given. */
  function FieldIndex(fs: seq<FieldInfo>, name: string, definedIn: Option<string>): (r: Option<nat>)
    ensures r.Some? ==> r.value < |fs| && Selects(fs[r.value], name, definedIn)
    ensures r.Some? ==> forall j | 0 <= j < r.value :: !Selects(fs[j], name, definedIn)
    ensures r.None? ==> forall j | 0 <= j < |fs| :: !Selects(fs[j], name, definedIn)
  {
    if fs == [] then None
    else if Selects(fs[0], name, definedIn) then Some(0)
    else
      match FieldIndex(fs[1..], name, definedIn)
      case None => None
      case Some(i) => Some(i + 1)
  }

  /** FieldDictionary.field: the first matching field, or a missing-field
      error for the class and the name. */
  function ResolveField(t: TypeInfo, name: string, definedIn: Option<string>): (r: Result<FieldInfo, Throwable>)
    ensures r.Success? <==> exists i | 0 <= i < |t.fields| :: Selects(t.fields[i], name, definedIn)
    ensures r.Success? ==> exists i | 0 <= i < |t.fields| ::
      && t.fields[i] == r.value
      && Selects(r.value, name, definedIn)
      && (forall j | 0 <= j < i :: !Selects(t.fields[j], name, definedIn))
    ensures r.Failure? ==> r.error == MissingFieldException(t.name, name)
  {
    match FieldIndex(t.fields, name, definedIn)
    case None => Failure(MissingFieldException(t.name, name))
    case Some(i) => Success(t.fields[i])
  }

  /** getFieldType: the declared type of the first matching field. */
  function GetFieldType(t: TypeInfo, name: string, definedIn: Option<string>): (r: Result<string, Throwable>)
    ensures r.Success? <==> exists i | 0 <= i < |t.fields| :: Selects(t.fields[i], name, definedIn)
    ensures r.Success? ==> exists i | 0 <= i < |t.fields| ::
      && Selects(t.fields[i], name, definedIn)
      && (forall j | 0 <= j < i :: !Selects(t.fields[j], name, definedIn))
      && t.fields[i].fieldType == r.value
    ensures r.Failure? ==> r.error == MissingFieldException(t.name, name)
  {
    match ResolveField(t, name, definedIn)
    case Failure(e) => Failure(e)
    case Success(f) => Success(f.fieldType)
  }

  /** fieldDefinedInClass: a field of that name resolves in the class (with no
      declaring class given) and is neither static nor transient. */
  function FieldDefinedInClass(name: string, t: TypeInfo): (r: bool)
    ensures r <==> exists i | 0 <= i < |t.fields| ::
      && t.fields[i].name == name
      && (forall j | 0 <= j < i :: t.fields[j].name != name)
      && FieldModifiersSupported(t.fields[i])
  {
    match FieldIndex(t.fields, name, None)
    case None => false
    case Some(i) => FieldModifiersSupported(t.fields[i])
  }

  /** writeField: the new field values, or what it throws. It changes exactly
      the resolved field, which reads back as the new value; every other
      field keeps its value. It fails when no field resolves, with the
      missing-field error, or when validateFieldAccess refuses the field, with
      what that throws, as it is: a final field before Java 5, or a final
      field whose access step throws from Java 5 on. */
  function FieldWrite(t: TypeInfo, values: map<FieldKey, Value>, name: string, value: Value, definedIn: Option<string>, jvm5: bool)
    : (r: Result<map<FieldKey, Value>, Throwable>)
    ensures ResolveField(t, name, definedIn).Failure? ==> r == Failure(MissingFieldException(t.name, name))
    ensures ResolveField(t, name, definedIn).Success? ==>
      var f := ResolveField(t, name, definedIn).value;
      && (r.Success? <==> !f.modifiers.isFinal || (jvm5 && f.access.None?))
      && (r.Failure? ==> if jvm5 then Some(r.error) == f.access else r.error == InvalidFinalField(f))
      && (r.Success? ==>
            && ReadValue(r.value, f) == value
            && (forall g :: KeyOf(g) != KeyOf(f) ==> ReadValue(r.value, g) == ReadValue(values, g)))
  {
    match ResolveField(t, name, definedIn)
    case Failure(e) => Failure(e)
    case Success(f) =>
      match ValidateFieldAccess(f, jvm5)
      case Some(e) => Failure(e)
      case None => Success(values[KeyOf(f) := value])
  }

  /** Fields.read: the current value of a field (a field never written reads
      as null). */
  function ReadValue(values: map<FieldKey, Value>, f: FieldInfo): Value
  {
    if KeyOf(f) in values then values[KeyOf(f)] else NullValue
  }

  datatype VisitCall = VisitCall(name: string, fieldType: string, definedIn: string, value: Value)

  function VisitOf(f: FieldInfo, values: map<FieldKey, Value>): VisitCall
  {
    VisitCall(f.name, f.fieldType, f.declaringClass, ReadValue(values, f))
  }

  datatype VisitRun = VisitRun(visits: seq<VisitCall>, failure: Option<Throwable>)

  /** The visitor calls visitSerializableFields makes over fields fs, and the
      exception that stops it, field by field as its loop goes. */
  function VisitFields(fs: seq<FieldInfo>, values: map<FieldKey, Value>, jvm5: bool): (r: VisitRun)
    ensures forall v | v in r.visits :: exists f | f in fs :: FieldModifiersSupported(f) && v == VisitOf(f, values)
    ensures r.failure.Some? ==> exists i | 0 <= i < |fs| :: FieldModifiersSupported(fs[i]) && r.failure == ValidateFieldAccess(fs[i], jvm5)
    decreases |fs|
  {
    if fs == [] then VisitRun([], None)
    else
      var prior := VisitFields(fs[..|fs| - 1], values, jvm5);
      var f := fs[|fs| - 1];
      if prior.failure.Some? || !FieldModifiersSupported(f) then prior
      else
        match ValidateFieldAccess(f, jvm5)
        case Some(e) => VisitRun(prior.visits, Some(e))
        case None => VisitRun(prior.visits + [VisitOf(f, values)], None)
  }

  /** The non-static, non-transient fields of fs, in order. */
  function SupportedFields(fs: seq<FieldInfo>): (r: seq<FieldInfo>)
    ensures forall f :: f in r <==> f in fs && FieldModifiersSupported(f)
  {
    if fs == [] then []
    else SupportedFields(fs[..|fs| - 1]) + (if FieldModifiersSupported(fs[|fs| - 1]) then [fs[|fs| - 1]] else [])
  }

  function VisitsOf(fs: seq<FieldInfo>, values: map<FieldKey, Value>): (r: seq<VisitCall>)
    ensures |r| == |fs| && forall i | 0 <= i < |fs| :: r[i] == VisitOf(fs[i], values)
  {
    seq(|fs|, i requires 0 <= i < |fs| => VisitOf(fs[i], values))
  }

  /** No field the visit reaches is refused by validateFieldAccess. */
  predicate NoFieldRefused(fs: seq<FieldInfo>, jvm5: bool)
  {
    forall i | 0 <= i < |fs| :: FieldModifiersSupported(fs[i]) ==> ValidateFieldAccess(fs[i], jvm5).None?
  }

  // ---------------------------------------------------------------------------
  // Properties of the specification

  /** A class with a no-argument constructor is built by the first such
      constructor; the serialization path and its cache are not touched. */
  lemma NoArgConstructorIsUsed(t: TypeInfo, cache: PayloadCache, readObject: Materializer, k: nat)
    requires k < |t.constructors| && IsNoArg(t.constructors[k])
    ensures exists i | 0 <= i <= k ::
      && IsNoArg(t.constructors[i])
      && (forall j | 0 <= j < i :: !IsNoArg(t.constructors[j]))
      && NewInstanceOutcome(t, cache, readObject) == (ConstructorOutcome(t, t.constructors[i]), cache)
  {
    var i := NoArgIndex(t.constructors).value;
    assert i <= k;
  }

  /** Without a no-argument constructor, a Serializable class goes through
      serialization and any other class is refused. */
  lemma FallbackWithoutNoArgConstructor(t: TypeInfo, cache: PayloadCache, readObject: Materializer)
    requires forall j | 0 <= j < |t.constructors| :: !IsNoArg(t.constructors[j])
    ensures t.serializable ==> NewInstanceOutcome(t, cache, readObject) == SerializationOutcome(t, cache, readObject)
    ensures !t.serializable ==> (NewInstanceOutcome(t, cache, readObject) ==
      (Throws(ObjectAccessException("Cannot construct type as it does not have a no-args constructor", None,
                                    map["construction-type" := t.name])), cache))
  {
  }

  /** A constructor's own RuntimeException or Error is rethrown as it is; any
      other exception it throws becomes the cause of an ObjectAccessException;
      InstantiationException and IllegalAccessException are wrapped too. */
  lemma ConstructorFailureRules(t: TypeInfo, e: Throwable)
    ensures IsUnchecked(e) || IsError(e) ==>
      InvocationOutcome(t, Threw(InvocationTargetException(e))) == Throws(e)
    ensures !(IsUnchecked(e) || IsError(e)) ==>
      InvocationOutcome(t, Threw(InvocationTargetException(e))) ==
        Throws(ObjectAccessException("Constructor for type threw an exception", Some(e), map["construction-type" := t.name]))
    ensures e.Raised? && (e.kind == InstantiationKind || e.kind == IllegalAccessKind) ==>
      InvocationOutcome(t, Threw(e)) ==
        Throws(ObjectAccessException("Cannot construct type", Some(e), map["construction-type" := t.name]))
  {
  }

  /** The throwable that code outside the provider raised on the path
      newInstance takes, if any: the access step's, the invoked constructor's
      (the target of an InvocationTargetException) or readObject's. */
  function CollaboratorFailure(t: TypeInfo, cache: PayloadCache, readObject: Materializer): Option<Throwable>
  {
    match NoArgIndex(t.constructors)
    case Some(i) =>
      if t.constructors[i].access.Some? then t.constructors[i].access
      else InvocationThrown(t.constructors[i].invocation)
    case None =>
      if !t.serializable then None
      else
        match CachedPayload(t, cache).0
        case None => None
        case Some(bytes) =>
          match readObject(t, bytes)
          case Materialized(_) => None
          case ReadThrew(e) => Some(e)
  }

  /** Every failure of newInstance is either an ObjectAccessException that
      carries "construction-type" = the class's name, or an unchecked
      throwable (RuntimeException or Error) of the code it calls (the access
      step, the constructor or readObject) rethrown unchanged. */
  lemma FailuresAreTaggedOrPropagated(t: TypeInfo, cache: PayloadCache, readObject: Materializer)
    requires ThrowsOnlyDeclared(t, readObject)
    ensures var c := NewInstanceOutcome(t, cache, readObject).0;
      c.Throws? ==>
        || IsTaggedFor(c.thrown, t)
        || (Some(c.thrown) == CollaboratorFailure(t, cache, readObject) && (IsUnchecked(c.thrown) || IsError(c.thrown)))
  {
    match NoArgIndex(t.constructors)
    case Some(i) =>
      assert AccessThrowsUnchecked(t.constructors[i].access);
      assert ConstructorThrowsDeclared(t.constructors[i].invocation);
    case None =>
      if t.serializable {
        match CachedPayload(t, cache).0
        case None =>
        case Some(bytes) =>
          assert ReadThrowsDeclared(readObject(t, bytes));
      }
  }

  /** A name whose modified UTF-8 form exceeds 65535 bytes cannot be written:
      the IOException from writeUTF surfaces as "Cannot create type by JDK
      serialization" and nothing is cached. */
  lemma OverlongNameFails(t: TypeInfo, cache: PayloadCache, readObject: Materializer)
    requires t !in cache && |Utf(t.name)| > SerialStream.MAX_UTF_LENGTH
    ensures SerializationOutcome(t, cache, readObject) ==
      (Throws(ObjectAccessException("Cannot create type by JDK serialization", Some(UTF_DATA_FORMAT_EXCEPTION),
                                    map["construction-type" := t.name])), cache)
  {
    SerialStream.PayloadLayout(t.name, t.serialVersionUid);
  }

  /** The payload is computed only on a cache miss and then stored; a hit uses
      the stored bytes; no other entry changes; and every entry remains the
      payload of its type, so readObject is always given a stream whose class
      descriptor names the class being built. */
  lemma CacheDiscipline(t: TypeInfo, cache: PayloadCache)
    requires WellFormed(t) && CacheHoldsPayloads(cache)
    ensures var (data, cache') := CachedPayload(t, cache);
      && (t in cache ==> data == Some(cache[t]) && cache' == cache)
      && (t !in cache && SerialStream.Payload(t.name, t.serialVersionUid).Success? ==>
            data == Some(SerialStream.Payload(t.name, t.serialVersionUid).value) && cache' == cache[t := data.value])
      && (t !in cache && SerialStream.Payload(t.name, t.serialVersionUid).Failure? ==> data == None && cache' == cache)
      && (forall u | u != t :: (u in cache' <==> u in cache) && (u in cache ==> cache'[u] == cache[u]))
      && CacheHoldsPayloads(cache')
      && (data.Some? ==> SerialStream.ParsePayload(data.value) == Some((t.name, t.serialVersionUid)))
  {
    var (data, cache') := CachedPayload(t, cache);
    if data.Some? {
      assert SerialStream.Payload(t.name, t.serialVersionUid) == Success(data.value);
      SerialStream.PayloadRoundTrip(t.name, t.serialVersionUid);
    }
  }

  /** Once a class has been materialised, another attempt finds the same bytes
      in the cache, leaves the cache as it is and has the same outcome. */
  lemma CacheReuse(t: TypeInfo, cache: PayloadCache, readObject: Materializer)
    ensures var (c1, cache1) := SerializationOutcome(t, cache, readObject);
      var (c2, cache2) := SerializationOutcome(t, cache1, readObject);
      cache2 == cache1 && (t in cache1 ==> c2 == c1)
  {
  }

  /** With no field refused, visitSerializableFields calls the visitor
      exactly once per non-static, non-transient field, in fieldsFor order,
      with that field's name, type, declaring class and current value. */
  lemma {:induction false} VisitsEverySupportedField(fs: seq<FieldInfo>, values: map<FieldKey, Value>, jvm5: bool)
    requires NoFieldRefused(fs, jvm5)
    ensures VisitFields(fs, values, jvm5) == VisitRun(VisitsOf(SupportedFields(fs), values), None)
    decreases |fs|
  {
    if fs != [] {
      var init := fs[..|fs| - 1];
      assert NoFieldRefused(init, jvm5) by {
        assert forall i | 0 <= i < |init| :: init[i] == fs[i];
      }
      VisitsEverySupportedField(init, values, jvm5);
      var f := fs[|fs| - 1];
      if FieldModifiersSupported(f) {
        assert VisitsOf(SupportedFields(fs), values) == VisitsOf(SupportedFields(init), values) + [VisitOf(f, values)];
      }
    }
  }

  /** The first non-static, non-transient field that validateFieldAccess
      refuses stops the visit with what it throws, after the fields before it
      have been visited. */
  lemma {:induction false} VisitStopsAtRefusedField(fs: seq<FieldInfo>, values: map<FieldKey, Value>, jvm5: bool, k: nat)
    requires k < |fs| && FieldModifiersSupported(fs[k]) && ValidateFieldAccess(fs[k], jvm5).Some?
    requires NoFieldRefused(fs[..k], jvm5)
    ensures VisitFields(fs, values, jvm5) == VisitRun(VisitsOf(SupportedFields(fs[..k]), values), ValidateFieldAccess(fs[k], jvm5))
    decreases |fs|
  {
    if k == |fs| - 1 {
      assert fs[..|fs| - 1] == fs[..k];
      VisitsEverySupportedField(fs[..k], values, jvm5);
    } else {
      var init := fs[..|fs| - 1];
      assert init[..k] == fs[..k];
      VisitStopsAtRefusedField(init, values, jvm5, k);
    }
  }

  /** Before Java 5 the first non-static, non-transient final field stops the
      visit with "Invalid final field C.f". */
  lemma VisitStopsAtFinalField(fs: seq<FieldInfo>, values: map<FieldKey, Value>, k: nat)
    requires k < |fs| && FieldModifiersSupported(fs[k]) && fs[k].modifiers.isFinal
    requires forall i | 0 <= i < k :: FieldModifiersSupported(fs[i]) ==> !fs[i].modifiers.isFinal
    ensures VisitFields(fs, values, false) == VisitRun(VisitsOf(SupportedFields(fs[..k]), values), Some(InvalidFinalField(fs[k])))
  {
    VisitStopsAtRefusedField(fs, values, false, k);
  }

  /** From Java 5 on, a final field whose access step throws stops the visit
      with that throwable itself: it is neither wrapped nor tagged. */
  lemma AccessFailureStopsVisit(fs: seq<FieldInfo>, values: map<FieldKey, Value>, k: nat, e: Throwable)
    requires k < |fs| && FieldModifiersSupported(fs[k]) && fs[k].modifiers.isFinal && fs[k].access == Some(e)
    requires NoFieldRefused(fs[..k], true)
    ensures VisitFields(fs, values, true) == VisitRun(VisitsOf(SupportedFields(fs[..k]), values), Some(e))
  {
    VisitStopsAtRefusedField(fs, values, true, k);
  }

  /** A field that fieldDefinedInClass reports is one that
      visitSerializableFields visits (on Java 5 or later, when no field's access
      step throws). */
  lemma DefinedFieldIsVisited(name: string, t: TypeInfo, values: map<FieldKey, Value>)
    requires FieldDefinedInClass(name, t)
    requires NoFieldRefused(t.fields, true)
    ensures exists v :: v in VisitFields(t.fields, values, true).visits && v.name == name
  {
    var i := FieldIndex(t.fields, name, None).value;
    var f := t.fields[i];
    VisitsEverySupportedField(t.fields, values, true);
    var sf := SupportedFields(t.fields);
    assert f in sf;
    var k :| 0 <= k < |sf| && sf[k] == f;
    assert VisitsOf(sf, values)[k].name == name;
  }

  // ---------------------------------------------------------------------------
  // The access step, as written and as intended

  /** The object passed to AccessibleObject.canAccess: null, or an instance of
      the named class. */
  datatype AccessTarget = NullTarget | InstanceOf(className: string)

  /** isSubclass(c, d): class c is d or a subclass of d. */
  type Subclassing = (string, string) -> bool

  const ILLEGAL_ARGUMENT: Throwable := Raised(RuntimeExceptionKind, "java.lang.IllegalArgumentException")
  const FIELD_CLASS: string := "java.lang.reflect.Field"
  const CONSTRUCTOR_CLASS: string := "java.lang.reflect.Constructor"

  /** AccessibleObject.canAccess(obj) as the class library documents it: a
      static member or a constructor takes only a null obj, an instance member
      only an instance of its declaring class or of a subclass, and anything
      else is an IllegalArgumentException; otherwise it answers whether the
      member is already accessible. */
  function CanAccess(staticOrConstructor: bool, declaringClass: string, obj: AccessTarget,
                     isSubclass: Subclassing, accessible: bool): Result<bool, Throwable>
  {
    if staticOrConstructor then
      if obj.NullTarget? then Success(accessible) else Failure(ILLEGAL_ARGUMENT)
    else if obj.InstanceOf? && isSubclass(obj.className, declaringClass) then Success(accessible)
    else Failure(ILLEGAL_ARGUMENT)
  }

  /** `if (!m.canAccess(obj)) m.setAccessible(true);`: what the two calls
      throw, if anything, where setAccessible is what setAccessible does. */
  function AccessStep(staticOrConstructor: bool, declaringClass: string, obj: AccessTarget, isSubclass: Subclassing,
                      accessible: bool, setAccessible: Option<Throwable>): Option<Throwable>
  {
    match CanAccess(staticOrConstructor, declaringClass, obj, isSubclass, accessible)
    case Failure(e) => Some(e)
    case Success(ok) => if ok then None else setAccessible
  }

  /** The constructor's access step as written: the constructor is its own
      canAccess argument. */
  function ConstructorAccessAsWritten(t: TypeInfo, isSubclass: Subclassing, accessible: bool,
                                      setAccessible: Option<Throwable>): Option<Throwable>
  {
    AccessStep(true, t.name, InstanceOf(CONSTRUCTOR_CLASS), isSubclass, accessible, setAccessible)
  }

  /** The constructor's access step as intended: a constructor is asked with
      null. Only setAccessible's own failure remains, and only when the
      constructor is not yet accessible. */
  function ConstructorAccessIntended(t: TypeInfo, isSubclass: Subclassing, accessible: bool,
                                     setAccessible: Option<Throwable>): (r: Option<Throwable>)
    ensures r == if accessible then None else setAccessible
  {
    AccessStep(true, t.name, NullTarget, isSubclass, accessible, setAccessible)
  }

  /** The field's access step as written: the field is its own canAccess
      argument. */
  function FieldAccessAsWritten(f: FieldInfo, isSubclass: Subclassing, accessible: bool,
                                setAccessible: Option<Throwable>): Option<Throwable>
  {
    AccessStep(f.modifiers.isStatic, f.declaringClass, InstanceOf(FIELD_CLASS), isSubclass, accessible, setAccessible)
  }

  /** The field's access step as intended: the object whose field it is, of
      class objectClass, or null for a static field. When the object is an
      instance of the declaring class, only setAccessible's own failure
      remains, and only when the field is not yet accessible. */
  function FieldAccessIntended(f: FieldInfo, objectClass: string, isSubclass: Subclassing, accessible: bool,
                               setAccessible: Option<Throwable>): (r: Option<Throwable>)
    ensures f.modifiers.isStatic || isSubclass(objectClass, f.declaringClass) ==>
      r == if accessible then None else setAccessible
  {
    AccessStep(f.modifiers.isStatic, f.declaringClass, if f.modifiers.isStatic then NullTarget else InstanceOf(objectClass),
               isSubclass, accessible, setAccessible)
  }

  /** As written, newInstance fails with IllegalArgumentException for every
      class that has a no-argument constructor, whatever that constructor
      would do. */
  lemma NewInstanceAsWrittenAlwaysThrows(t: TypeInfo, cache: PayloadCache, readObject: Materializer,
                                         isSubclass: Subclassing, accessible: bool, setAccessible: Option<Throwable>, k: nat)
    requires k < |t.constructors| && IsNoArg(t.constructors[k])
    requires forall i | 0 <= i < |t.constructors| ::
      t.constructors[i].access == ConstructorAccessAsWritten(t, isSubclass, accessible, setAccessible)
    ensures NewInstanceOutcome(t, cache, readObject) == (Throws(ILLEGAL_ARGUMENT), cache)
  {
    var i := NoArgIndex(t.constructors).value;
    assert t.constructors[i].access == Some(ILLEGAL_ARGUMENT);
  }

  /** As intended, an accessible no-argument constructor, or one that
      setAccessible opens, is invoked and its outcome decides. */
  lemma NewInstanceIntendedInvokes(t: TypeInfo, cache: PayloadCache, readObject: Materializer,
                                   isSubclass: Subclassing, accessible: bool, k: nat)
    requires k < |t.constructors| && IsNoArg(t.constructors[k])
    requires forall i | 0 <= i < |t.constructors| ::
      t.constructors[i].access == ConstructorAccessIntended(t, isSubclass, accessible, None)
    ensures exists i | 0 <= i <= k ::
      NewInstanceOutcome(t, cache, readObject) == (InvocationOutcome(t, t.constructors[i].invocation), cache)
  {
    var i := NoArgIndex(t.constructors).value;
    assert t.constructors[i].access == None;
  }

  /** As written, on Java 5 and later the first non-static, non-transient
      final field of a user class stops visitSerializableFields with
      IllegalArgumentException. */
  lemma VisitAsWrittenStopsAtFinalField(fs: seq<FieldInfo>, values: map<FieldKey, Value>, k: nat,
                                        isSubclass: Subclassing, accessible: bool, setAccessible: Option<Throwable>)
    requires k < |fs| && FieldModifiersSupported(fs[k]) && fs[k].modifiers.isFinal
    requires !isSubclass(FIELD_CLASS, fs[k].declaringClass)
    requires fs[k].access == FieldAccessAsWritten(fs[k], isSubclass, accessible, setAccessible)
    requires NoFieldRefused(fs[..k], true)
    ensures VisitFields(fs, values, true) == VisitRun(VisitsOf(SupportedFields(fs[..k]), values), Some(ILLEGAL_ARGUMENT))
  {
    VisitStopsAtRefusedField(fs, values, true, k);
  }

  /** As intended, accessible final fields, or ones setAccessible opens, do
      not stop the visit: every supported field is visited. */
  lemma VisitIntendedVisitsFinalFields(fs: seq<FieldInfo>, values: map<FieldKey, Value>, objectClass: string,
                                       isSubclass: Subclassing, accessible: bool)
    requires forall i | 0 <= i < |fs| :: isSubclass(objectClass, fs[i].declaringClass)
    requires forall i | 0 <= i < |fs| :: fs[i].access == FieldAccessIntended(fs[i], objectClass, isSubclass, accessible, None)
    ensures VisitFields(fs, values, true) == VisitRun(VisitsOf(SupportedFields(fs), values), None)
  {
    VisitsEverySupportedField(fs, values, true);
  }

  // ---------------------------------------------------------------------------
  // The imperative provider

  /** A Java object: its class and the current values of its fields. */
  class JavaObject {
    const class_: TypeInfo
    var values: map<FieldKey, Value>

    constructor (t: TypeInfo, values: map<FieldKey, Value>)
      ensures class_ == t && this.values == values
    {
      class_ := t;
      this.values := values;
    }
  }

  /** ReflectionProvider.Visitor, recording its calls. */
  class RecordingVisitor {
    var visits: seq<VisitCall>

    constructor ()
      ensures visits == []
    {
      visits := [];
    }

    method Visit(name: string, fieldType: string, definedIn: string, value: Value)
      modifies this
      ensures visits == old(visits) + [VisitCall(name, fieldType, definedIn, value)]
    {
      visits := visits + [VisitCall(name, fieldType, definedIn, value)];
    }
  }

  class PureJavaReflectionProvider {
    /** Synthesised payloads, per class, filled lazily. */
    var serializedDataCache: PayloadCache

    ghost predicate Valid()
      reads this
    {
      CacheHoldsPayloads(serializedDataCache)
    }

    constructor ()
      ensures Valid() && serializedDataCache == map[]
    {
      serializedDataCache := map[];
    }

    method NewInstance(t: TypeInfo, readObject: Materializer) returns (r: Result<JavaObject, Throwable>)
      requires Valid()
      modifies this
      ensures Valid()
      ensures serializedDataCache == NewInstanceOutcome(t, old(serializedDataCache), readObject).1
      ensures var c := NewInstanceOutcome(t, old(serializedDataCache), readObject).0;
        && (r.Success? <==> c.Constructed?)
        && (r.Success? ==> fresh(r.value) && r.value.class_ == t && r.value.values == c.values)
        && (r.Failure? ==> r.error == c.thrown)
    {
      var noArg := FindNoArgConstructor(t.constructors);
      if noArg.Some? {
        var ctor := t.constructors[noArg.value];
        if ctor.access.Some? {
          return Failure(ctor.access.value);
        }
        match InvocationOutcome(t, ctor.invocation)
        case Constructed(values) =>
          var o := new JavaObject(t, values);
          return Success(o);
        case Throws(e) =>
          return Failure(e);
      }
      if t.serializable {
        r := InstantiateUsingSerialization(t, readObject);
      } else {
        r := Failure(Tagged("Cannot construct type as it does not have a no-args constructor", None, t));
      }
    }

    method InstantiateUsingSerialization(t: TypeInfo, readObject: Materializer) returns (r: Result<JavaObject, Throwable>)
      requires Valid()
      modifies this
      ensures Valid()
      ensures serializedDataCache == SerializationOutcome(t, old(serializedDataCache), readObject).1
      ensures var c := SerializationOutcome(t, old(serializedDataCache), readObject).0;
        && (r.Success? <==> c.Constructed?)
        && (r.Success? ==> fresh(r.value) && r.value.class_ == t && r.value.values == c.values)
        && (r.Failure? ==> r.error == c.thrown)
    {
      var data := SerializedData(t);
      if data.None? {
        return Failure(Tagged("Cannot create type by JDK serialization", Some(UTF_DATA_FORMAT_EXCEPTION), t));
      }
      match ReadConstruction(t, readObject(t, data.value))
      case Constructed(values) =>
        var o := new JavaObject(t, values);
        r := Success(o);
      case Throws(e) =>
        r := Failure(e);
    }

    /** The loop of newInstance over the declared constructors: the first
        one without parameters. */
    method FindNoArgConstructor(constructors: seq<ConstructorInfo>) returns (found: Option<nat>)
      ensures found == NoArgIndex(constructors)
    {
      var i := 0;
      while i < |constructors|
        invariant 0 <= i <= |constructors|
        invariant forall j | 0 <= j < i :: !IsNoArg(constructors[j])
      {
        if |constructors[i].parameterTypes| == 0 {
          return Some(i);
        }
        i := i + 1;
      }
      return None;
    }

    /** The synchronized block: the cached payload, or a freshly written one
        that is then cached; None when writeUTF refused the name. */
    method SerializedData(t: TypeInfo) returns (data: Option<seq<byte>>)
      requires Valid()
      modifies this
      ensures Valid()
      ensures (data, serializedDataCache) == CachedPayload(t, old(serializedDataCache))
    {
      if t in serializedDataCache {
        return Some(serializedDataCache[t]);
      }
      var written := WritePayload(t.name, t.serialVersionUid);
      if written.Failure? {
        return None;
      }
      serializedDataCache := serializedDataCache[t := written.value];
      data := Some(written.value);
    }

    /** The stream writes of instantiateUsingSerialization, in order. */
    method WritePayload(className: string, suid: int) returns (data: Result<seq<byte>, SerialStream.WriteFailure>)
      ensures data == SerialStream.Payload(className, suid)
    {
      var stream := new SerialStream.DataOutputStream();
      WriteHeader(stream);
      var failure := stream.WriteUtf(className);
      if failure.Some? {
        return Failure(failure.value);
      }
      assert stream.written == SerialStream.Header() + SerialStream.UtfRecord(className).value;
      WriteDescriptorTail(stream, suid);
      data := Success(stream.written);
    }

    /** magic, version, TC_OBJECT, TC_CLASSDESC */
    method WriteHeader(stream: SerialStream.DataOutputStream)
      modifies stream
      ensures stream.written == old(stream.written) + SerialStream.Header()
    {
      stream.WriteShort(SerialStream.STREAM_MAGIC);
      stream.WriteShort(SerialStream.STREAM_VERSION);
      stream.WriteByte(SerialStream.TC_OBJECT);
      stream.WriteByte(SerialStream.TC_CLASSDESC);
    }

    /** The serial version UID, then flags, field count, TC_ENDBLOCKDATA and
        TC_NULL. */
    method WriteDescriptorTail(stream: SerialStream.DataOutputStream, suid: int)
      modifies stream
      ensures stream.written == old(stream.written) + BigEndian(suid, 8) + SerialStream.Trailer()
    {
      stream.WriteLong(suid);
      stream.WriteByte(SerialStream.SC_SERIALIZABLE);
      stream.WriteShort(0);
      stream.WriteByte(SerialStream.TC_ENDBLOCKDATA);
      stream.WriteByte(SerialStream.TC_NULL);
    }

    method VisitSerializableFields(o: JavaObject, visitor: RecordingVisitor, jvm5: bool) returns (failure: Option<Throwable>)
      modifies visitor
      ensures visitor.visits == old(visitor.visits) + VisitFields(o.class_.fields, o.values, jvm5).visits
      ensures failure == VisitFields(o.class_.fields, o.values, jvm5).failure
    {
      var fields := o.class_.fields;
      for i := 0 to |fields|
        invariant visitor.visits == old(visitor.visits) + VisitFields(fields[..i], o.values, jvm5).visits
        invariant VisitFields(fields[..i], o.values, jvm5).failure == None
      {
        var field := fields[i];
        assert fields[..i + 1][..i] == fields[..i];
        if !FieldModifiersSupported(field) {
          continue;
        }
        var refused := ValidateFieldAccess(field, jvm5);
        if refused.Some? {
          failure := refused;
          assert VisitFields(fields[..i + 1], o.values, jvm5).failure == refused;
          FailureIsFinal(fields, o.values, jvm5, i + 1);
          return;
        }
        var value := ReadValue(o.values, field);
        visitor.Visit(field.name, field.fieldType, field.declaringClass, value);
      }
      assert fields[..|fields|] == fields;
      failure := None;
    }

    method WriteField(o: JavaObject, name: string, value: Value, definedIn: Option<string>, jvm5: bool)
      returns (failure: Option<Throwable>)
      modifies o
      ensures var w := FieldWrite(o.class_, old(o.values), name, value, definedIn, jvm5);
        && (w.Success? ==> failure == None && o.values == w.value)
        && (w.Failure? ==> failure == Some(w.error) && o.values == old(o.values))
    {
      match ResolveField(o.class_, name, definedIn)
      case Failure(e) =>
        return Some(e);
      case Success(field) =>
        var refused := ValidateFieldAccess(field, jvm5);
        if refused.Some? {
          return refused;
        }
        o.values := o.values[KeyOf(field) := value];
        failure := None;
    }
  }

  /** Once the visit has failed, later fields change nothing. */
  lemma {:induction false} FailureIsFinal(fs: seq<FieldInfo>, values: map<FieldKey, Value>, jvm5: bool, k: nat)
    requires k <= |fs| && VisitFields(fs[..k], values, jvm5).failure.Some?
    ensures VisitFields(fs, values, jvm5) == VisitFields(fs[..k], values, jvm5)
    decreases |fs| - k
  {
    if k < |fs| {
      assert fs[..k + 1][..k] == fs[..k];
      FailureIsFinal(fs, values, jvm5, k + 1);
    } else {
      assert fs[..k] == fs;
    }
  }
}
