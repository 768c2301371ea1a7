/**
 * The object graph the reflective helpers walk: Java classes with their
 * declared fields and superclass, values (null, strings, boxed integers,
 * references), and heap objects with their field values and, for maps and
 * collections, their contents in iteration order.
 */
module ObjectGraph {
  import opened Wrappers
  import opened JavaLang

  type ClassName = string

  /** A declared field; `accessible` says whether reflective access succeeds. */
  datatype FieldDecl = FieldDecl(accessible: bool)

  /** java.lang.Class: its declared fields and its superclass (None above java.lang.Object). */
  datatype Class = Class(name: ClassName, declaredFields: map<string, FieldDecl>, superclass: Option<Class>)

  /** java.lang.reflect.Field: a field as found on the class that declares it. */
  datatype Field = Field(declaringClass: ClassName, name: string, accessible: bool)

  /** The storage slot of a field in an object: a subclass may redeclare a superclass field's name. */
  datatype FieldId = FieldId(owner: ClassName, name: string)

  type Address = nat

  /**
   * A Java value. Strings and boxed Integer / Long compare by content;
   * every other object (enum constants, maps, collections, user objects)
   * is a reference into the heap and compares by identity.
   */
  datatype Value = Null | Str(s: string) | Int(i: int32) | Long(l: int64) | Ref(addr: Address)

  /** What an object holds besides its fields: nothing, map entries, or collection elements. */
  datatype Contents =
    | Plain
    | MapEntries(entries: seq<(Value, Value)>)
    | Elements(elements: seq<Value>)

  /**
   * A heap object. A field missing from `fields` reads as null, the default
   * of a reference field; a heap must list every primitive field's slot
   * (its boxed value), since Java's 0 / false defaults are not null.
   */
  datatype JavaObject = JavaObject(cls: Class, fields: map<FieldId, Value>, contents: Contents)

  type Objects = map<Address, JavaObject>

  const ObjectClass := Class("java.lang.Object", map[], None)
  const NumberClass := Class("java.lang.Number", map[], Some(ObjectClass))
  const StringClass := Class("java.lang.String", map[], Some(ObjectClass))
  const IntegerClass := Class("java.lang.Integer", map[], Some(NumberClass))
  const LongClass := Class("java.lang.Long", map[], Some(NumberClass))
  const EnumClassName: ClassName := "java.lang.Enum"

  /** A class followed by its superclasses, nearest first. */
  function Chain(c: Option<Class>): (chain: seq<Class>)
    ensures c.None? <==> chain == []
    ensures c.Some? ==> chain[0] == c.value
  {
    match c
    case None => []
    case Some(k) => [k] + Chain(k.superclass)
  }

  /** A value that is null or refers to an object present in the heap. */
  predicate Closed(objects: Objects, v: Value) {
    v.Ref? ==> v.addr in objects
  }

  predicate ObjectClosed(objects: Objects, o: JavaObject) {
    && (forall id | id in o.fields :: Closed(objects, o.fields[id]))
    && match o.contents
       case Plain => true
       case MapEntries(es) => forall i | 0 <= i < |es| :: Closed(objects, es[i].0) && Closed(objects, es[i].1)
       case Elements(xs) => forall i | 0 <= i < |xs| :: Closed(objects, xs[i])
  }

  /** The heap has no dangling references, as every JVM heap. */
  predicate HeapClosed(objects: Objects) {
    forall a | a in objects :: ObjectClosed(objects, objects[a])
  }

  /** Object.getClass() on a non-null value. */
  function ClassOf(objects: Objects, v: Value): Class
    requires v != Null && Closed(objects, v)
  {
    match v
    case Str(_) => StringClass
    case Int(_) => IntegerClass
    case Long(_) => LongClass
    case Ref(a) => objects[a].cls
  }

  /** `v instanceof Enum`: java.lang.Enum is among the superclasses of its class. */
  predicate IsEnumConstant(objects: Objects, v: Value)
    requires Closed(objects, v)
  {
    v.Ref? && exists i | 0 <= i < |Chain(Some(objects[v.addr].cls))| :: Chain(Some(objects[v.addr].cls))[i].name == EnumClassName
  }

  /** `v instanceof Map`. */
  predicate IsMap(objects: Objects, v: Value)
    requires Closed(objects, v)
  {
    v.Ref? && objects[v.addr].contents.MapEntries?
  }

  /** `v instanceof Collection`. */
  predicate IsCollection(objects: Objects, v: Value)
    requires Closed(objects, v)
  {
    v.Ref? && objects[v.addr].contents.Elements?
  }
}
