# XStream reflective core, modelled in Dafny

This project models four pieces of XStream and proves properties about them.

- **`PureJavaReflectionProvider`** builds objects in three ways, tried in order:
  - through the first declared constructor that takes no arguments;
  - for a `Serializable` class, by handing `ObjectInputStream` a minimal serialization stream the provider writes itself; these bytes are cached per class;
  - otherwise it fails.

  The provider also visits, reads and writes an object's fields by reflection.
- **`JavaMethodConverter`** writes a `java.lang.reflect.Method` or `Constructor` as child nodes: `class`, then (for methods) `name`, then `parameter-types`. It reads them back by position.
- **`PathTrackingWriter`** is a writer decorator. It keeps a stack of element names in step with the nodes being written.
- **`PrimitiveTypePermission`** is the security permission that admits primitive types and their boxes.

Modules:

| module | file | contents |
|---|---|---|
| `Wrappers` | `wrappers.dfy` | `Option`, `Result` |
| `Bytes` | `bytes.dfy` | big-endian integers as `DataOutputStream` writes them; Java strings as UTF-16 code units; modified UTF-8; a decoder for each, proved to invert it |
| `SerialStream` | `serial_stream.dfy` | the synthesised stream (section 6.4.1 grammar and section 6.4.2 constants of the Java Object Serialization Specification), a parser for it, and a `DataOutputStream` class |
| `Reflection` | `reflection.dfy` | reflection as data (a `TypeInfo` record with constructors, a `Serializable` flag, a serial version UID and fields in `fieldsFor` order), the provider's outcomes as functions, and the `PureJavaReflectionProvider` class with its payload cache |
| `HierarchicalStreams` | `hierarchical_streams.dfy` | node trees; writer calls as events; a recording `EventWriter`; a cursor `TreeReader` |
| `JavaMethodConverter` | `java_method_converter.dfy` | the encoding, the positional decoding, and the marshal and unmarshal methods over the stream objects |
| `PathTracking` | `path_tracking_writer.dfy` | `PathTracker`; `PathTrackingWriter`; the path as a function of the writer calls |
| `PrimitiveTypePermission` | `primitive_type_permission.dfy` | `allows` exactly as Java parses it; `equals`; `hashCode` |

Exceptions become values:

- The provider returns `Result<JavaObject, Throwable>`. Its `Throwable` datatype distinguishes:
  - `RuntimeException` and `Error`;
  - the checked exceptions the source catches;
  - `InvocationTargetException`;
  - `ObjectAccessException`, with message, cause and context map.
- A writer call that throws returns `false`.
- A reader or conversion failure is a `ConversionFailure`.

Each method is specified by a function of its inputs and old state. The properties are lemmas about those functions.

## Model

| member | source | states |
|---|---|---|
| `Reflection.NoArgIndex` | xstream/src/main/java/com/thoughtworks/xstream/converters/reflection/PureJavaReflectionProvider.java:64-73 | the constructor chosen is the first declared one with zero parameters, no earlier one has none, and there is no choice exactly when no constructor is parameterless |
| `Reflection.NoArgConstructorIsUsed` | xstream/src/main/java/com/thoughtworks/xstream/converters/reflection/PureJavaReflectionProvider.java:64-72 | a class with a zero-parameter constructor is built by the first such constructor; the serialization path is not taken and the cache is unchanged |
| `Reflection.ConstructorOutcome` | xstream/src/main/java/com/thoughtworks/xstream/converters/reflection/PureJavaReflectionProvider.java:68-71 | a throwable of the access step (canAccess, setAccessible) is thrown as it is and nothing is invoked; the object built comes from an accessible constructor that returned it |
| `Reflection.InvocationOutcome` | xstream/src/main/java/com/thoughtworks/xstream/converters/reflection/PureJavaReflectionProvider.java:71-91 | the invocation succeeds exactly when the constructor returns, with its field values; a failure is the constructor's own throwable rethrown, or a tagged ObjectAccessException whose cause is that throwable |
| `Reflection.NewInstanceOutcome` | xstream/src/main/java/com/thoughtworks/xstream/converters/reflection/PureJavaReflectionProvider.java:61-94 | only the serialization path changes the cache; an object comes from the first no-argument constructor, accessible and returning, or, when there is none, from a Serializable class |
| `Reflection.SerializationOutcome` | xstream/src/main/java/com/thoughtworks/xstream/converters/reflection/PureJavaReflectionProvider.java:96-133 | the cache afterwards is the lookup's; an object is what readObject materialised from the looked-up payload; a failure is tagged or is readObject's own throwable on that payload |
| `Reflection.ReadConstruction` | xstream/src/main/java/com/thoughtworks/xstream/converters/reflection/PureJavaReflectionProvider.java:124-129 | the read succeeds exactly when readObject materialises, with its values; a failure is readObject's throwable rethrown, or a tagged ObjectAccessException caused by it |
| `Reflection.CachedPayload` | xstream/src/main/java/com/thoughtworks/xstream/converters/reflection/PureJavaReflectionProvider.java:99-116 | a hit returns the stored bytes and keeps the cache; there are no bytes exactly on a miss whose name writeUTF refuses; bytes returned are stored under the class; the only key that can be added is the class, and existing entries keep their bytes |
| `Reflection.FallbackWithoutNoArgConstructor` | xstream/src/main/java/com/thoughtworks/xstream/converters/reflection/PureJavaReflectionProvider.java:74-78 | without a zero-parameter constructor, a Serializable class is instantiated by serialization; any other class fails with "Cannot construct type as it does not have a no-args constructor", tagged with its name |
| `Reflection.ConstructorFailureRules` | xstream/src/main/java/com/thoughtworks/xstream/converters/reflection/PureJavaReflectionProvider.java:79-91 | a RuntimeException or Error thrown by the constructor propagates unchanged; any other target exception becomes the cause of "Constructor for type threw an exception"; InstantiationException and IllegalAccessException are wrapped as "Cannot construct type" |
| `Reflection.Tagged` | xstream/src/main/java/com/thoughtworks/xstream/converters/reflection/PureJavaReflectionProvider.java:92-93 | the ObjectAccessExceptions that newInstance and instantiateUsingSerialization raise themselves map "construction-type" to the class's name; the one validateFieldAccess raises is untagged |
| `Reflection.FailuresAreTaggedOrPropagated` | xstream/src/main/java/com/thoughtworks/xstream/converters/reflection/PureJavaReflectionProvider.java:61-133 | when the invoked code throws only what Java lets it throw, every failure of newInstance is either tagged with "construction-type" = the class name, or is the invoked code's own RuntimeException or Error |
| `Reflection.OverlongNameFails` | xstream/src/main/java/com/thoughtworks/xstream/converters/reflection/PureJavaReflectionProvider.java:108-131 | a name whose modified UTF-8 form exceeds 65535 bytes fails with "Cannot create type by JDK serialization" caused by the UTFDataFormatException, and nothing is cached |
| `Reflection.CacheDiscipline` | xstream/src/main/java/com/thoughtworks/xstream/converters/reflection/PureJavaReflectionProvider.java:99-116 | a hit returns the stored bytes and leaves the cache alone; a miss computes the payload and stores it; other entries are untouched; every entry stays the payload of its own class and parses back to that class's name and UID |
| `Reflection.CacheReuse` | xstream/src/main/java/com/thoughtworks/xstream/converters/reflection/PureJavaReflectionProvider.java:99-124 | after one serialization attempt, a second attempt leaves the cache unchanged; once an entry exists it has the same outcome |
| `Reflection.FieldIndex` | xstream/src/main/java/com/thoughtworks/xstream/converters/reflection/PureJavaReflectionProvider.java:148 | field resolution finds the first field in fieldsFor order with that name and, when given, that declaring class; it finds none exactly when no field matches |
| `Reflection.ResolveField` | xstream/src/main/java/com/thoughtworks/xstream/converters/reflection/PureJavaReflectionProvider.java:148 | the field resolved is the first matching one in fieldsFor order; resolution fails, with a missing-field error for the class and name, exactly when no field matches |
| `Reflection.GetFieldType` | xstream/src/main/java/com/thoughtworks/xstream/converters/reflection/PureJavaReflectionProvider.java:153-155 | the result is the declared type of the first matching field in fieldsFor order; it fails, with a missing-field error for the class and name, exactly when no field matches |
| `Reflection.FieldDefinedInClass` | xstream/src/main/java/com/thoughtworks/xstream/converters/reflection/PureJavaReflectionProvider.java:160-163 | true iff the first field of that name resolves and is neither static nor transient |
| `Reflection.SupportedFields` | xstream/src/main/java/com/thoughtworks/xstream/converters/reflection/PureJavaReflectionProvider.java:165-168 | a field is kept exactly when it is neither static nor transient |
| `Reflection.VisitFields` | xstream/src/main/java/com/thoughtworks/xstream/converters/reflection/PureJavaReflectionProvider.java:135-145 | every visit is of a non-static, non-transient field with its current value, and a failure is validateFieldAccess's refusal of one such field |
| `Reflection.InvalidFinalField` | xstream/src/main/java/com/thoughtworks/xstream/converters/reflection/PureJavaReflectionProvider.java:176-177 | the refusal of a final field is an unchecked ObjectAccessException with no cause and no "construction-type" |
| `Reflection.ValidateFieldAccess` | xstream/src/main/java/com/thoughtworks/xstream/converters/reflection/PureJavaReflectionProvider.java:170-181 | a field passes exactly when it is not final, or is final on Java 5 or later and its access step succeeds; before Java 5 a final field is refused with "Invalid final field"; from Java 5 on the refusal is the access step's own throwable, neither wrapped nor tagged |
| `Reflection.FieldWrite` | xstream/src/main/java/com/thoughtworks/xstream/converters/reflection/PureJavaReflectionProvider.java:147-151 | a missing field fails with the missing-field error; a resolved field is written exactly when validateFieldAccess passes it, and otherwise the failure is what that throws; on success the field reads back as the new value and every other field keeps its value |
| `Reflection.VisitsEverySupportedField` | xstream/src/main/java/com/thoughtworks/xstream/converters/reflection/PureJavaReflectionProvider.java:135-145 | when validateFieldAccess refuses no field, the visitor is called exactly once per non-static, non-transient field, in fieldsFor order, with the field's name, type, declaring class and current value |
| `Reflection.VisitStopsAtRefusedField` | xstream/src/main/java/com/thoughtworks/xstream/converters/reflection/PureJavaReflectionProvider.java:139-141 | the first non-static, non-transient field that validateFieldAccess refuses stops the visit with what it throws, after the fields before it have been visited |
| `Reflection.VisitStopsAtFinalField` | xstream/src/main/java/com/thoughtworks/xstream/converters/reflection/PureJavaReflectionProvider.java:176-178 | before Java 5, the first supported final field stops the visit with "Invalid final field C.f", after the fields before it have been visited |
| `Reflection.AccessFailureStopsVisit` | xstream/src/main/java/com/thoughtworks/xstream/converters/reflection/PureJavaReflectionProvider.java:172-175 | from Java 5 on, a supported final field whose access step throws stops the visit with that throwable itself, unwrapped and untagged |
| `Reflection.FailureIsFinal` | xstream/src/main/java/com/thoughtworks/xstream/converters/reflection/PureJavaReflectionProvider.java:136-144 | once validateFieldAccess has thrown, later fields affect neither the visits nor the failure |
| `Reflection.DefinedFieldIsVisited` | xstream/src/main/java/com/thoughtworks/xstream/converters/reflection/PureJavaReflectionProvider.java:135-168 | a field that fieldDefinedInClass reports is visited by visitSerializableFields on Java 5 or later, when no field's access step throws |
| `Reflection.ConstructorAccessIntended` | xstream/src/main/java/com/thoughtworks/xstream/converters/reflection/PureJavaReflectionProvider.java:68-70 | asking canAccess with null, as a constructor requires, never fails: only setAccessible's own failure remains, and only for a constructor not yet accessible |
| `Reflection.NewInstanceAsWrittenAlwaysThrows` | xstream/src/main/java/com/thoughtworks/xstream/converters/reflection/PureJavaReflectionProvider.java:68-71 | with the constructor as its own canAccess argument, newInstance fails with IllegalArgumentException for every class that has a no-argument constructor |
| `Reflection.NewInstanceIntendedInvokes` | xstream/src/main/java/com/thoughtworks/xstream/converters/reflection/PureJavaReflectionProvider.java:68-71 | with the intended argument, a no-argument constructor that is accessible, or that setAccessible opens, is invoked and its outcome decides |
| `Reflection.FieldAccessIntended` | xstream/src/main/java/com/thoughtworks/xstream/converters/reflection/PureJavaReflectionProvider.java:173-174 | asking canAccess with the object (or null for a static field) never fails when the object is an instance of the declaring class: only setAccessible's own failure remains, and only for a field not yet accessible |
| `Reflection.VisitAsWrittenStopsAtFinalField` | xstream/src/main/java/com/thoughtworks/xstream/converters/reflection/PureJavaReflectionProvider.java:173-174 | with the field as its own canAccess argument, the first supported final field of a user class stops the visit with IllegalArgumentException |
| `Reflection.VisitIntendedVisitsFinalFields` | xstream/src/main/java/com/thoughtworks/xstream/converters/reflection/PureJavaReflectionProvider.java:173-174 | with the intended argument, final fields that are accessible, or that setAccessible opens, are visited like the others |
| `Reflection.PureJavaReflectionProvider.constructor` | xstream/src/main/java/com/thoughtworks/xstream/converters/reflection/PureJavaReflectionProvider.java:200-202 | the cache starts empty |
| `Reflection.PureJavaReflectionProvider.NewInstance` | xstream/src/main/java/com/thoughtworks/xstream/converters/reflection/PureJavaReflectionProvider.java:61-94 | the loop over the constructors returns a fresh object or throws exactly as the construction outcome says; the cache afterwards is as that outcome says; the cache invariant is kept |
| `Reflection.PureJavaReflectionProvider.FindNoArgConstructor` | xstream/src/main/java/com/thoughtworks/xstream/converters/reflection/PureJavaReflectionProvider.java:64-73 | the loop over the declared constructors finds the first one without parameters, or none when no such constructor exists |
| `Reflection.PureJavaReflectionProvider.InstantiateUsingSerialization` | xstream/src/main/java/com/thoughtworks/xstream/converters/reflection/PureJavaReflectionProvider.java:96-133 | the result and the new cache are those of the serialization outcome: the cache is looked up, the payload is written and stored on a miss, and readObject's failures are mapped as the catch clauses say |
| `Reflection.PureJavaReflectionProvider.SerializedData` | xstream/src/main/java/com/thoughtworks/xstream/converters/reflection/PureJavaReflectionProvider.java:99-116 | the synchronized block returns the cached bytes on a hit and otherwise writes the payload and caches it; nothing is cached when writeUTF refuses the name; every entry remains its class's payload |
| `Reflection.PureJavaReflectionProvider.WritePayload` | xstream/src/main/java/com/thoughtworks/xstream/converters/reflection/PureJavaReflectionProvider.java:102-114 | the ten stream writes produce exactly the payload, or fail in writeUTF |
| `Reflection.PureJavaReflectionProvider.WriteHeader` | xstream/src/main/java/com/thoughtworks/xstream/converters/reflection/PureJavaReflectionProvider.java:104-107 | the four header writes append the stream magic, the version, TC_OBJECT and TC_CLASSDESC |
| `Reflection.PureJavaReflectionProvider.WriteDescriptorTail` | xstream/src/main/java/com/thoughtworks/xstream/converters/reflection/PureJavaReflectionProvider.java:109-113 | the writes after the name append the eight UID bytes, then SC_SERIALIZABLE, a zero field count, TC_ENDBLOCKDATA and TC_NULL |
| `Reflection.PureJavaReflectionProvider.VisitSerializableFields` | xstream/src/main/java/com/thoughtworks/xstream/converters/reflection/PureJavaReflectionProvider.java:135-145 | the visitor receives exactly the visits of the field-visit specification, and the method throws what it says |
| `Reflection.PureJavaReflectionProvider.WriteField` | xstream/src/main/java/com/thoughtworks/xstream/converters/reflection/PureJavaReflectionProvider.java:147-151 | on success the object's fields are those of the field-write specification; on failure the object is unchanged |
| `Reflection.RecordingVisitor.Visit` | xstream/src/main/java/com/thoughtworks/xstream/converters/reflection/PureJavaReflectionProvider.java:143 | each visit call is appended to the log |
| `SerialStream.FramingBytes` | xstream/src/main/java/com/thoughtworks/xstream/converters/reflection/PureJavaReflectionProvider.java:104-113 | the header is AC ED 00 05 73 72 and the trailer is 02 00 00 78 70 |
| `SerialStream.UtfRecord` | xstream/src/main/java/com/thoughtworks/xstream/converters/reflection/PureJavaReflectionProvider.java:108 | writeUTF emits a 2-byte length and the modified UTF-8 bytes; it fails exactly when they exceed 65535 |
| `SerialStream.Payload` | xstream/src/main/java/com/thoughtworks/xstream/converters/reflection/PureJavaReflectionProvider.java:102-114 | the payload exists exactly when the name's modified UTF-8 form fits in 65535 bytes, and is then 21 bytes plus that form; otherwise the failure is UTFDataFormatException with that length |
| `SerialStream.ParsePayload` | xstream/src/main/java/com/thoughtworks/xstream/converters/reflection/PureJavaReflectionProvider.java:118-124 | a stream accepted as this shape starts with the header, ends with the trailer, and its length prefix accounts for all but its 21 framing bytes |
| `SerialStream.AsciiPayloadLength` | xstream/src/main/java/com/thoughtworks/xstream/converters/reflection/PureJavaReflectionProvider.java:108-114 | an ASCII name that fits gives a payload of 21 bytes plus one per character |
| `SerialStream.PayloadLayout` | xstream/src/main/java/com/thoughtworks/xstream/converters/reflection/PureJavaReflectionProvider.java:102-114 | the payload exists iff the name fits; it is 21 bytes plus the name's UTF length, laid out as magic, version, TC_OBJECT, TC_CLASSDESC, length, name, 8 UID bytes, SC_SERIALIZABLE, field count 0, TC_ENDBLOCKDATA, TC_NULL |
| `SerialStream.PayloadRoundTrip` | xstream/src/main/java/com/thoughtworks/xstream/converters/reflection/PureJavaReflectionProvider.java:102-124 | parsing the payload gives back the class name and the serial version UID |
| `SerialStream.DataOutputStream.WriteShort` | xstream/src/main/java/com/thoughtworks/xstream/converters/reflection/PureJavaReflectionProvider.java:104-105 | appends the two big-endian bytes |
| `SerialStream.DataOutputStream.WriteByte` | xstream/src/main/java/com/thoughtworks/xstream/converters/reflection/PureJavaReflectionProvider.java:106-107 | appends one byte |
| `SerialStream.DataOutputStream.WriteUtf` | xstream/src/main/java/com/thoughtworks/xstream/converters/reflection/PureJavaReflectionProvider.java:108 | appends the whole record, or throws UTFDataFormatException having written nothing |
| `SerialStream.DataOutputStream.WriteLong` | xstream/src/main/java/com/thoughtworks/xstream/converters/reflection/PureJavaReflectionProvider.java:109 | appends the eight big-endian bytes |
| `Bytes.BigEndian` | xstream/src/main/java/com/thoughtworks/xstream/converters/reflection/PureJavaReflectionProvider.java:104-113 | an n-byte write yields exactly n bytes |
| `Bytes.UnsignedBigEndian` | xstream/src/main/java/com/thoughtworks/xstream/converters/reflection/PureJavaReflectionProvider.java:104-113 | reading n written bytes gives the value modulo 256^n (Java's truncating cast) |
| `Bytes.ShortRoundTrip` | xstream/src/main/java/com/thoughtworks/xstream/converters/reflection/PureJavaReflectionProvider.java:108 | the 2-byte length prefix reads back as the length |
| `Bytes.LongRoundTrip` | xstream/src/main/java/com/thoughtworks/xstream/converters/reflection/PureJavaReflectionProvider.java:109 | writeLong followed by readLong gives back every Java long |
| `Bytes.Utf16RoundTrip` | xstream/src/main/java/com/thoughtworks/xstream/converters/reflection/PureJavaReflectionProvider.java:108 | a string is recovered from its UTF-16 code units |
| `Bytes.ModifiedUtf8RoundTrip` | xstream/src/main/java/com/thoughtworks/xstream/converters/reflection/PureJavaReflectionProvider.java:108 | code units are recovered from their modified UTF-8 bytes |
| `Bytes.UtfRoundTrip` | xstream/src/main/java/com/thoughtworks/xstream/converters/reflection/PureJavaReflectionProvider.java:108 | a class name is recovered from the bytes writeUTF emits for it |
| `Bytes.AsciiUtfLength` | xstream/src/main/java/com/thoughtworks/xstream/converters/reflection/PureJavaReflectionProvider.java:108 | an ASCII name takes one modified UTF-8 byte per character |
| `JavaMethodConverter.CanConvert` | xstream/src/main/java/com/thoughtworks/xstream/converters/extended/JavaMethodConverter.java:64-66 | true exactly for Method.class and Constructor.class |
| `JavaMethodConverter.WriteLeaf` | xstream/src/main/java/com/thoughtworks/xstream/converters/extended/JavaMethodConverter.java:82-84 | startNode, setValue, endNode append exactly the events of a leaf node, or the writer's failure is passed on |
| `JavaMethodConverter.ParameterNodes` | xstream/src/main/java/com/thoughtworks/xstream/converters/extended/JavaMethodConverter.java:93-98 | one "class" node per parameter type, in parameter order, carrying its converted name |
| `JavaMethodConverter.MethodNodes` | xstream/src/main/java/com/thoughtworks/xstream/converters/extended/JavaMethodConverter.java:80-100 | the children are "class" with the declaring class name, then "name" with the method name when there is one, then "parameter-types" holding the parameter nodes |
| `JavaMethodConverter.Encode` | xstream/src/main/java/com/thoughtworks/xstream/converters/extended/JavaMethodConverter.java:68-100 | a method is written as class, name, parameter-types and a constructor as class, parameter-types; the first carries the declaring class, a method's second its name, and parameter-types has exactly one class child per parameter, in order |
| `JavaMethodConverter.MarshalBalanced` | xstream/src/main/java/com/thoughtworks/xstream/converters/extended/JavaMethodConverter.java:80-100 | every startNode is matched by an endNode and no prefix closes more than it opened, so writer depth after marshal equals depth before |
| `JavaMethodConverter.WriteParameterTypes` | xstream/src/main/java/com/thoughtworks/xstream/converters/extended/JavaMethodConverter.java:93-99 | the loop writes the parameter-types node with its class children, or throws as the writer does |
| `JavaMethodConverter.WriteClassNodes` | xstream/src/main/java/com/thoughtworks/xstream/converters/extended/JavaMethodConverter.java:94-98 | the for loop writes one "class" node per parameter type, in order |
| `JavaMethodConverter.MarshalMethod` | xstream/src/main/java/com/thoughtworks/xstream/converters/extended/JavaMethodConverter.java:80-100 | the writer receives exactly the events of the method's nodes, or the writer's failure is passed on |
| `JavaMethodConverter.Marshal` | xstream/src/main/java/com/thoughtworks/xstream/converters/extended/JavaMethodConverter.java:68-78 | the writer receives exactly the events of the member's encoding |
| `JavaMethodConverter.DecodeParameters` | xstream/src/main/java/com/thoughtworks/xstream/converters/extended/JavaMethodConverter.java:119-126 | on success one class per child, each the resolution of that child's text; a failure is an unresolvable name |
| `JavaMethodConverter.DecodeParametersFailsAt` | xstream/src/main/java/com/thoughtworks/xstream/converters/extended/JavaMethodConverter.java:120-124 | an unresolvable parameter class name ends the read with that name's failure |
| `JavaMethodConverter.DecodeParametersFailure` | xstream/src/main/java/com/thoughtworks/xstream/converters/extended/JavaMethodConverter.java:118-127 | once a prefix of the parameter-types children fails to resolve, the whole list fails with that same failure: the loop is left at the first unresolvable name |
| `JavaMethodConverter.ReadParameterTypes` | xstream/src/main/java/com/thoughtworks/xstream/converters/extended/JavaMethodConverter.java:119-126 | the while loop reads exactly what the parameter specification says and ends past every child |
| `JavaMethodConverter.ReadParameterType` | xstream/src/main/java/com/thoughtworks/xstream/converters/extended/JavaMethodConverter.java:120-125 | one round of the loop reads the next child's text and resolves it; the cursor moves past that child only when the class resolves |
| `JavaMethodConverter.ReadNextParameterType` | xstream/src/main/java/com/thoughtworks/xstream/converters/extended/JavaMethodConverter.java:120-125 | one round of the loop, against the children unread when it began: an unresolvable name fails the whole list with that name; otherwise the list grows by the resolved class and the cursor moves past the child |
| `JavaMethodConverter.ReadParameterTypesNode` | xstream/src/main/java/com/thoughtworks/xstream/converters/extended/JavaMethodConverter.java:118-127 | it enters parameter-types, reads its children and leaves it; with no such child the read fails |
| `JavaMethodConverter.UnmarshalMember` | xstream/src/main/java/com/thoughtworks/xstream/converters/extended/JavaMethodConverter.java:111-133 | after the declaring class, the rest of the reading and the lookup give the specified result |
| `JavaMethodConverter.ReadDeclaringClass` | xstream/src/main/java/com/thoughtworks/xstream/converters/extended/JavaMethodConverter.java:106-109 | the first child's text is resolved to the declaring class; a missing child or an unresolvable name fails |
| `JavaMethodConverter.ReadChildValue` | xstream/src/main/java/com/thoughtworks/xstream/converters/extended/JavaMethodConverter.java:111-116 | the method name is the next child's text, and the cursor moves past that child |
| `JavaMethodConverter.Unmarshal` | xstream/src/main/java/com/thoughtworks/xstream/converters/extended/JavaMethodConverter.java:102-137 | the result is the positional decode of the current node's unread children; on success the cursor is back at its entry depth, past the 3 (method) or 2 (constructor) children read |
| `JavaMethodConverter.DecodeParameterNodes` | xstream/src/main/java/com/thoughtworks/xstream/converters/extended/JavaMethodConverter.java:93-126 | parameter types written as class nodes read back as the same list, in order |
| `JavaMethodConverter.RoundTrip` | xstream/src/main/java/com/thoughtworks/xstream/converters/extended/JavaMethodConverter.java:68-133 | decoding a member's encoding (whatever siblings follow) with its own required type gives the same declaring class, name and parameter types, when the class converter inverts itself and the member exists |
| `JavaMethodConverter.DecodeEncoded` | xstream/src/main/java/com/thoughtworks/xstream/converters/extended/JavaMethodConverter.java:68-136 | decoding an encoding gives the member when the class declares it, and the failure naming it otherwise |
| `JavaMethodConverter.MissingMemberReported` | xstream/src/main/java/com/thoughtworks/xstream/converters/extended/JavaMethodConverter.java:129-136 | a failed getDeclaredMethod or getDeclaredConstructor is reported as a conversion failure naming the member sought |
| `JavaMethodConverter.Decode` | xstream/src/main/java/com/thoughtworks/xstream/converters/extended/JavaMethodConverter.java:102-137 | a decoded member is read by position: at least 3 (method) or 2 (constructor) children; the declaring class resolves from the first child's text, a method's name is the second child's text, its parameter types are the decoding of the last child read; it is a method exactly when Method.class is required, and the class declares it; a NoSuchMember failure names a member the class does not declare; no children fails with NoChildNode |
| `JavaMethodConverter.DecodeMember` | xstream/src/main/java/com/thoughtworks/xstream/converters/extended/JavaMethodConverter.java:111-136 | after the declaring class: the name is the next child's text (methods only), the parameter types are the decoding of the following child, and the result is a member the class declares, or a NoSuchMember failure naming one it does not |
| `JavaMethodConverter.DecodeIgnoresNames` | xstream/src/main/java/com/thoughtworks/xstream/converters/extended/JavaMethodConverter.java:106-127 | renaming every node read, the class children of parameter-types included, changes nothing: the decoding is by position, and whether a name is read comes from the required type |
| `JavaMethodConverter.DecodeMemberIgnoresNames` | xstream/src/main/java/com/thoughtworks/xstream/converters/extended/JavaMethodConverter.java:111-127 | the same for the children after the declaring class |
| `PathTracking.PathTrackingWriter.constructor` | xstream/src/main/java/com/thoughtworks/xstream/io/path/PathTrackingWriter.java:31-35 | name encoding is on exactly when the underlying writer is an AbstractWriter |
| `PathTracking.Apply` | xstream/src/main/java/com/thoughtworks/xstream/io/path/PathTrackingWriter.java:37-51 | a startNode pushes the tracked name onto the path, an endNode takes the last name off, and any other call leaves the path as it is |
| `PathTracking.PathAfter` | xstream/src/main/java/com/thoughtworks/xstream/io/path/PathTrackingWriter.java:37-51 | each call lengthens the path by at most one name |
| `PathTracking.PathTracker.PushElement` | xstream/src/main/java/com/thoughtworks/xstream/io/path/PathTrackingWriter.java:38 | the name is pushed on top of the stack |
| `PathTracking.PathTracker.PopElement` | xstream/src/main/java/com/thoughtworks/xstream/io/path/PathTrackingWriter.java:50 | the top name is taken off the stack |
| `PathTracking.PathTrackingWriter.StartNode` | xstream/src/main/java/com/thoughtworks/xstream/io/path/PathTrackingWriter.java:37-40 | pushes the encoded (or raw) name, even when the forward then throws; forwards the unencoded name |
| `PathTracking.PathTrackingWriter.StartTypedNode` | xstream/src/main/java/com/thoughtworks/xstream/io/path/PathTrackingWriter.java:43-46 | the same for startNode(name, clazz), forwarding both arguments unchanged |
| `PathTracking.PathTrackingWriter.EndNode` | xstream/src/main/java/com/thoughtworks/xstream/io/path/PathTrackingWriter.java:48-51 | forwards, then pops; when the forward throws the path is not popped |
| `PathTracking.PathTrackingWriter.SetValue` | xstream/src/main/java/com/thoughtworks/xstream/io/path/PathTrackingWriter.java:26-52 | a call that is not overridden is forwarded and leaves the path unchanged |
| `PathTracking.PathTrackingWriter.AddAttribute` | xstream/src/main/java/com/thoughtworks/xstream/io/path/PathTrackingWriter.java:26-52 | the same for addAttribute |
| `PathTracking.StartsPushInOrder` | xstream/src/main/java/com/thoughtworks/xstream/io/path/PathTrackingWriter.java:37-46 | N startNode calls grow the path by N names, in call order |
| `PathTracking.EndsPop` | xstream/src/main/java/com/thoughtworks/xstream/io/path/PathTrackingWriter.java:48-51 | N endNode calls take the last N names off |
| `PathTracking.StartsThenEndsRestore` | xstream/src/main/java/com/thoughtworks/xstream/io/path/PathTrackingWriter.java:37-51 | N startNode calls then N endNode calls restore the path |
| `PathTracking.PathFollowsNesting` | xstream/src/main/java/com/thoughtworks/xstream/io/path/PathTrackingWriter.java:37-51 | in a stream that never closes an unopened node, the path's length is the starting length plus the nesting depth, and the starting path stays a prefix |
| `PathTracking.NodeKeepsPath` | xstream/src/main/java/com/thoughtworks/xstream/io/path/PathTrackingWriter.java:37-51 | writing a whole node leaves the path as it was |
| `PathTracking.ForestKeepsPath` | xstream/src/main/java/com/thoughtworks/xstream/io/path/PathTrackingWriter.java:37-51 | writing a sequence of whole nodes leaves the path as it was |
| `PrimitiveTypePermission.IsPrimitive` | xstream/src/main/java/com/thoughtworks/xstream/security/PrimitiveTypePermission.java:26 | Class.isPrimitive holds for the eight primitive types and for void |
| `PrimitiveTypePermission.Allows` | xstream/src/main/java/com/thoughtworks/xstream/security/PrimitiveTypePermission.java:25-28 | allows holds exactly for the non-void primitive types and whatever isBoxed accepts |
| `PrimitiveTypePermission.AllowsEveryPrimitive` | xstream/src/main/java/com/thoughtworks/xstream/security/PrimitiveTypePermission.java:26 | every primitive kind other than void is allowed |
| `PrimitiveTypePermission.BoxedAlwaysAllowed` | xstream/src/main/java/com/thoughtworks/xstream/security/PrimitiveTypePermission.java:27 | anything isBoxed accepts is allowed, whatever the other checks say |
| `PrimitiveTypePermission.OthersRefused` | xstream/src/main/java/com/thoughtworks/xstream/security/PrimitiveTypePermission.java:26-27 | null, an arbitrary class and a box class are refused unless isBoxed accepts them |
| `PrimitiveTypePermission.VoidExcludedWhenNotBoxed` | xstream/src/main/java/com/thoughtworks/xstream/security/PrimitiveTypePermission.java:12-28 | void and Void are refused, as the class description promises, provided isBoxed rejects both |
| `PrimitiveTypePermission.PrecedenceMatters` | xstream/src/main/java/com/thoughtworks/xstream/security/PrimitiveTypePermission.java:26-27 | the code as written differs from a reading in which the null and void checks also guard isBoxed: with a boxing test that counts Void, Void.class is allowed |
| `PrimitiveTypePermission.HashCode` | xstream/src/main/java/com/thoughtworks/xstream/security/PrimitiveTypePermission.java:30-32 | the hash code is 7 |
| `PrimitiveTypePermission.Equals` | xstream/src/main/java/com/thoughtworks/xstream/security/PrimitiveTypePermission.java:34-36 | a permission equals exactly the instances of PrimitiveTypePermission itself; null and subclass instances are not equal to it |
| `PrimitiveTypePermission.EqualsIsEquivalence` | xstream/src/main/java/com/thoughtworks/xstream/security/PrimitiveTypePermission.java:34-36 | among instances of the class, equals is reflexive, symmetric and transitive |
| `PrimitiveTypePermission.HashCodeConsistent` | xstream/src/main/java/com/thoughtworks/xstream/security/PrimitiveTypePermission.java:30-36 | equal objects have the same hash code |
| `PrimitiveTypePermission.SubclassBreaksSymmetry` | xstream/src/main/java/com/thoughtworks/xstream/security/PrimitiveTypePermission.java:34-36 | equals ignores its receiver: a subclass instance equals a plain permission, not the reverse, and does not equal itself |

## Left out

- Java reflection and materialisation are outcomes given as data. This covers `Constructor.newInstance`, `setAccessible`/`canAccess`, `ObjectInputStream.readObject`, and `resolveClass`/`Class.forName`. Each constructor carries two outcomes. Its `access` is what the `canAccess`/`setAccessible` step of lines 68-70 of PureJavaReflectionProvider.java does: nothing, or a throwable. Its `invocation` is what `newInstance` at line 71 does. Each field carries an `access` outcome for the `canAccess`/`setAccessible` step of lines 173-174. It is consulted only for a final field on Java 5 or later. `readObject` is a function parameter from class and payload to an outcome. The library semantics of `canAccess` enter only through `Reflection.CanAccess` and `Reflection.AccessStep`, which the Findings below use.
- The serial version UID is a field of the type record. `ObjectStreamClass.lookup` is not part of this model.
- The `synchronized` block and the `WeakHashMap`'s eviction are not modelled. They are concurrency and garbage-collector behaviour, so the cache is a plain map that only grows. The source keys the cache by `Class`; the model keys it by the whole type record.
- `FieldDictionary`, `ImmutableFieldKeySorter`, `Fields.read` and `Fields.write` are not part of this model. `fieldsFor` is the type record's field list. Field resolution is the first field in that order with the name and, when given, the declaring class. A missing field is a `MissingFieldException(class, field)` value without its message text. `Fields.read`/`Fields.write` are map lookup and update. Their own access failures are not modelled.
- `JVM.isVersion(5)` is a boolean parameter.
- `getField`, `getFieldOrNull` and `setFieldDictionary` delegate to the field dictionary and are outside the modelled core.
- `JavaClassConverter` and `ClassLoaderReference` are a pair of functions over an abstract class type. `getDeclaredMethod`/`getDeclaredConstructor` are a predicate saying whether the class declares the member. The round trip assumes the converter resolves every name it writes.
- The unmarshalling context reaches the converter only as its required type. The marshalling context is unused by the source and is left out.
- `HierarchicalStreamWriter` and `HierarchicalStreamReader` are not part of this model.
  - `EventWriter` stands in for the writer. It records the calls it accepts; one that fails (the `broken` flag) throws on every call.
  - `TreeReader` stands in for the reader, as a cursor over a node tree.
  - A `moveDown` with no child left fails with `NoChildNode`.
  - Parsing text into that tree is not modelled.
- `PathTracker` is not part of this model. It is a stack of names: the sibling indices that `Path` adds are not tracked. Popping an empty path is excluded from `PathTrackingWriter.EndNode` by its precondition, since a well-formed stream never ends more nodes than it started.
- `Primitives.isBoxed` is not part of this model and is a predicate parameter. The exclusion of `void` that the class description promises is stated only under the assumption that `isBoxed` rejects `void.class` and `Void.class`.
- The equality of `Class` objects (`type != void.class`) is equality of the class datatype.
- `JavaMethodConverter.Marshal`: a source object that is neither a `Method` nor a `Constructor` would raise a `ClassCastException`. The model's member type has only those two cases.
- `Utf16`, `FromUtf16`: characters are code points, so a lone surrogate, which a Java string can hold, is not represented, and the round trip is stated for code points only. `Pow256`, `BigEndian`, `Utf16` and `ModifiedUtf8` state only the length of what they produce; their contents are pinned down by the round-trip lemmas beside them.
- `Reflection.FieldWrite`: `Fields.write` on a static field is modelled as an update of the one object's value map, so a static field's value is not shared between instances.
- `Reflection.ReadValue`: a field absent from the value map reads as `NullValue`, also for a primitive field, where Java would give the type's zero.

## Findings

| source | as written | input that shows it | evidently intended | confidence | as-written member | corrected member |
|---|---|---|---|---|---|---|
| xstream/src/main/java/com/thoughtworks/xstream/converters/reflection/PureJavaReflectionProvider.java:68-70 | `constructor.canAccess(constructor)` passes the constructor itself as the object to test against | any class with a no-argument constructor on Java 9 or later: `canAccess` throws `IllegalArgumentException` for a constructor and a non-null argument | `constructor.canAccess(null)`, the only argument a constructor admits | not executed; follows the documented contract of `AccessibleObject.canAccess` | `Reflection.NewInstanceAsWrittenAlwaysThrows` | `Reflection.ConstructorAccessIntended` |
| xstream/src/main/java/com/thoughtworks/xstream/converters/reflection/PureJavaReflectionProvider.java:173-174 | `field.canAccess(field)` passes the `Field` object as the instance to test against | a final instance field of a user class on Java 9 or later: the `Field` object is not an instance of the declaring class, so `canAccess` throws `IllegalArgumentException` | `field.canAccess(isStatic ? null : object)` | not executed; follows the documented contract of `AccessibleObject.canAccess` | `Reflection.VisitAsWrittenStopsAtFinalField` | `Reflection.FieldAccessIntended` |

The rest of the model takes each `access` outcome to be that of the intended step: `Reflection.NewInstanceIntendedInvokes` and `Reflection.VisitIntendedVisitsFinalFields` show what `newInstance` and `visitSerializableFields` then do.
