/** PrimitiveTypePermission: the security permission that lets the eight
    primitive types and their boxed counterparts (but, by its description, not
    void) be deserialized. Whether a class is a boxed type is decided by
    Primitives.isBoxed, which is not part of this model and enters as a
    parameter. */
module PrimitiveTypePermission {
  import opened Wrappers

  datatype PrimitiveKind = Boolean | Byte | Char | Short | Int | Long | Float | Double

  /** The classes the permission can be asked about. */
  datatype JavaClass =
    | PrimitiveClass(kind: PrimitiveKind)   // int.class, ...
    | VoidPrimitive                         // void.class
    | BoxClass(kind: PrimitiveKind)         // Integer.class, ...
    | VoidBox                               // Void.class
    | OtherClass(name: string)

  /** Class.isPrimitive: true for the eight primitive types and for void. */
  function IsPrimitive(c: JavaClass): (b: bool)
    ensures b <==> c.PrimitiveClass? || c == VoidPrimitive
  {
    match c
    case PrimitiveClass(_) => true
    case VoidPrimitive => true
    case _ => false
  }

  /** A type argument: None stands for null. */
  type TypeArg = Option<JavaClass>

  /** The first operand of the disjunction in allows. */
  predicate PrimitiveOperand(t: TypeArg)
  {
    t != None && t != Some(VoidPrimitive) && t != Some(VoidBox) && IsPrimitive(t.value)
  }

  /** allows, parsed as Java parses it: && binds tighter than ||, so the
      checks for null and void guard only the isPrimitive test, not isBoxed.
      It admits exactly the non-void primitive types and whatever isBoxed
      accepts. */
  predicate Allows(t: TypeArg, isBoxed: TypeArg -> bool): (b: bool)
    ensures b <==> isBoxed(t) || (t.Some? && t.value.PrimitiveClass?)
  {
    PrimitiveOperand(t) || isBoxed(t)
  }

  lemma AllowsEveryPrimitive(k: PrimitiveKind, isBoxed: TypeArg -> bool)
    ensures Allows(Some(PrimitiveClass(k)), isBoxed)
  {
  }

  /** isBoxed overrides every other check, including the null and void ones. */
  lemma BoxedAlwaysAllowed(t: TypeArg, isBoxed: TypeArg -> bool)
    requires isBoxed(t)
    ensures Allows(t, isBoxed)
  {
  }

  /** An arbitrary class, and null, are refused unless isBoxed accepts them. */
  lemma OthersRefused(t: TypeArg, isBoxed: TypeArg -> bool)
    requires t == None || t.value.OtherClass? || t.value.BoxClass?
    requires !isBoxed(t)
    ensures !Allows(t, isBoxed)
  {
  }

  /** void is excluded, as the permission's description promises, only when
      isBoxed rejects void.class and Void.class. */
  lemma VoidExcludedWhenNotBoxed(isBoxed: TypeArg -> bool)
    requires !isBoxed(Some(VoidPrimitive)) && !isBoxed(Some(VoidBox))
    ensures !Allows(Some(VoidPrimitive), isBoxed) && !Allows(Some(VoidBox), isBoxed)
  {
  }

  /** The reading in which the null and void checks guard the whole
      disjunction. */
  predicate GuardedAllows(t: TypeArg, isBoxed: TypeArg -> bool)
  {
    t != None && t != Some(VoidPrimitive) && t != Some(VoidBox) && (IsPrimitive(t.value) || isBoxed(t))
  }

  /** The two readings differ: a boxing test that counts Void as a box lets
      Void.class through the code as written, not through the guarded one. */
  lemma PrecedenceMatters()
    ensures var boxedIncludingVoid := (t: TypeArg) => t.Some? && (t.value.BoxClass? || t.value == VoidBox);
      Allows(Some(VoidBox), boxedIncludingVoid) && !GuardedAllows(Some(VoidBox), boxedIncludingVoid)
  {
  }

  // ---------------------------------------------------------------------------
  // equals and hashCode

  const PERMISSION_CLASS: string := "com.thoughtworks.xstream.security.PrimitiveTypePermission"

  /** An object reference: null, or an instance of a runtime class. */
  datatype ObjectRef = Null | Instance(runtimeClass: string)

  /** equals, called on any permission object (its receiver plays no part):
      every PrimitiveTypePermission equals every other one; null and
      instances of any other runtime class, subclasses included, do not. */
  function Equals(self: ObjectRef, obj: ObjectRef): (b: bool)
    requires self != Null
    ensures b <==> obj == Instance(PERMISSION_CLASS)
  {
    obj != Null && obj.runtimeClass == PERMISSION_CLASS
  }

  function HashCode(self: ObjectRef): (h: int)
    requires self != Null
    ensures h == 7
  {
    7
  }

  /** Among instances of the class itself, equals is reflexive, symmetric and
      transitive. */
  lemma EqualsIsEquivalence(a: ObjectRef, b: ObjectRef, c: ObjectRef)
    requires a == Instance(PERMISSION_CLASS) && b == Instance(PERMISSION_CLASS)
    ensures Equals(a, a)
    ensures Equals(a, b) <==> Equals(b, a)
    ensures Equals(a, b) && Equals(b, c) ==> Equals(a, c)
  {
  }

  /** Equal objects have equal hash codes, as Object.hashCode requires: every
      permission hashes to 7. */
  lemma HashCodeConsistent(a: ObjectRef, b: ObjectRef)
    requires a != Null && b != Null && Equals(a, b)
    ensures HashCode(a) == HashCode(b) == 7
  {
  }

  /** The receiver is not consulted, so an instance of a subclass equals a
      plain permission while the plain one does not equal it back, and the
      subclass instance does not equal itself. */
  lemma SubclassBreaksSymmetry(sub: string)
    requires sub != PERMISSION_CLASS
    ensures Equals(Instance(sub), Instance(PERMISSION_CLASS))
    ensures !Equals(Instance(PERMISSION_CLASS), Instance(sub))
    ensures !Equals(Instance(sub), Instance(sub))
  {
  }
}
