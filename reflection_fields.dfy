/**
 * Reflective field access: finding a field on a class or one of its
 * superclasses, reading it from an object, and writing it.
 */
module ReflectionFields {
  import opened Wrappers
  import opened ObjectGraph
  import opened ReflectionErrors

  /** The Field for `name` on a class that declares it. */
  function FieldIn(k: Class, name: string): Field
    requires name in k.declaredFields
  {
    Field(k.name, name, k.declaredFields[name].accessible)
  }

  /**
   * getDeclaredField: try the class itself, then each superclass in turn;
   * None when no class on the way declares the name.
   */
  function DeclaredField(c: Option<Class>, name: string): (f: Option<Field>)
    ensures c.None? ==> f.None?
    ensures c.Some? && name in c.value.declaredFields ==> f == Some(FieldIn(c.value, name))
    ensures f.Some? ==> f.value.name == name
  {
    match c
    case None => None
    case Some(k) => if name in k.declaredFields then Some(FieldIn(k, name)) else DeclaredField(k.superclass, name)
  }

  /** Class `i` of the chain declares `name` and none before it does. */
  predicate DeclaresFirst(chain: seq<Class>, i: int, name: string) {
    && 0 <= i < |chain|
    && name in chain[i].declaredFields
    && forall j | 0 <= j < i :: name !in chain[j].declaredFields
  }

  /** The first declaring class on the superclass chain wins; a name declared nowhere is not found. */
  lemma {:induction false} DeclaredFieldIsFirstOnChain(c: Option<Class>, name: string)
    ensures DeclaredField(c, name).None? <==> forall i | 0 <= i < |Chain(c)| :: name !in Chain(c)[i].declaredFields
    ensures DeclaredField(c, name).Some? ==>
              exists i :: DeclaresFirst(Chain(c), i, name) && DeclaredField(c, name).value == FieldIn(Chain(c)[i], name)
  {
    match c
    case None =>
    case Some(k) =>
      if name in k.declaredFields {
        assert name in Chain(c)[0].declaredFields;
        assert DeclaresFirst(Chain(c), 0, name);
      } else {
        DeclaredFieldIsFirstOnChain(k.superclass, name);
        assert Chain(c) == [k] + Chain(k.superclass);
        if DeclaredField(c, name).Some? {
          var i :| DeclaresFirst(Chain(k.superclass), i, name)
                   && DeclaredField(c, name).value == FieldIn(Chain(k.superclass)[i], name);
          assert DeclaresFirst(Chain(c), i + 1, name);
        }
      }
  }

  /** Strings and boxed numbers declare no fields in this model, so none is ever found on them. */
  lemma ValueClassesDeclareNothing(objects: Objects, v: Value, name: string)
    requires v != Null && Closed(objects, v)
    ensures !v.Ref? ==> DeclaredField(Some(ClassOf(objects, v)), name).None?
  {
    assert DeclaredField(Some(ObjectClass), name).None?;
    assert DeclaredField(Some(NumberClass), name).None?;
  }

  /** The value stored for a field found on an object's class; null for a reference field never set. */
  function Stored(objects: Objects, a: Address, f: Field): Value
    requires a in objects
  {
    var id := FieldId(f.declaringClass, f.name);
    if id in objects[a].fields then objects[a].fields[id] else Null
  }

  /**
   * getFieldValue(object, name): NullPointerException on a null object,
   * "does not exist" when no class on the chain declares the name,
   * "not accessible" when the field refuses access, else the stored value.
   */
  function FieldValue(objects: Objects, obj: Value, fieldName: string): (r: Result<Value, Error>)
    requires HeapClosed(objects) && Closed(objects, obj)
    ensures obj.Null? ==> r == Failure(NullPointer)
    ensures obj != Null ==>
              (r == Failure(FieldDoesNotExist(fieldName)) <==>
               forall i | 0 <= i < |Chain(Some(ClassOf(objects, obj)))| ::
                 fieldName !in Chain(Some(ClassOf(objects, obj)))[i].declaredFields)
    ensures r.Success? ==> Closed(objects, r.value)
    ensures r.Failure? ==> r.error in {NullPointer, FieldDoesNotExist(fieldName), FieldNotAccessible(fieldName)}
  {
    if obj.Null? then Failure(NullPointer)
    else
      DeclaredFieldIsFirstOnChain(Some(ClassOf(objects, obj)), fieldName);
      ValueClassesDeclareNothing(objects, obj, fieldName);
      match DeclaredField(Some(ClassOf(objects, obj)), fieldName)
      case None => Failure(FieldDoesNotExist(fieldName))
      case Some(f) =>
        if !f.accessible then Failure(FieldNotAccessible(fieldName))
        else Success(Stored(objects, obj.addr, f))
  }

  /**
   * setFieldValue(object, name, value): the same lookup and failures as a
   * read; on success the heap with that one field slot of that one object
   * replaced.
   */
  function FieldWrite(objects: Objects, obj: Value, name: string, value: Value): (r: Result<Objects, Error>)
    requires HeapClosed(objects) && Closed(objects, obj)
    ensures r.Success? ==> r.value.Keys == objects.Keys
    ensures r.Success? ==> obj.Ref? && forall a | a in objects && a != obj.addr :: r.value[a] == objects[a]
    ensures r.Success? ==>
              && r.value[obj.addr].cls == objects[obj.addr].cls
              && r.value[obj.addr].contents == objects[obj.addr].contents
    ensures r.Failure? ==> r.error in {NullPointer, FieldDoesNotExist(name), FieldNotAccessible(name)}
  {
    if obj.Null? then Failure(NullPointer)
    else
      ValueClassesDeclareNothing(objects, obj, name);
      match DeclaredField(Some(ClassOf(objects, obj)), name)
      case None => Failure(FieldDoesNotExist(name))
      case Some(f) =>
        if !f.accessible then Failure(FieldNotAccessible(name))
        else
          var o := objects[obj.addr];
          Success(objects[obj.addr := o.(fields := o.fields[FieldId(f.declaringClass, f.name) := value])])
  }

  /** A write fails exactly when a read of the same name fails, and with the same exception. */
  lemma WriteFailsExactlyWhenReadFails(objects: Objects, obj: Value, name: string, value: Value)
    requires HeapClosed(objects) && Closed(objects, obj)
    ensures FieldWrite(objects, obj, name, value).Failure? <==> FieldValue(objects, obj, name).Failure?
    ensures FieldWrite(objects, obj, name, value).Failure? ==>
              FieldWrite(objects, obj, name, value).error == FieldValue(objects, obj, name).error
  {
  }

  /** A successful write keeps the heap free of dangling references when the value has none. */
  lemma WriteKeepsHeapClosed(objects: Objects, obj: Value, name: string, value: Value)
    requires HeapClosed(objects) && Closed(objects, obj) && Closed(objects, value)
    requires FieldWrite(objects, obj, name, value).Success?
    ensures HeapClosed(FieldWrite(objects, obj, name, value).value)
  {
    var objects' := FieldWrite(objects, obj, name, value).value;
    forall a | a in objects' ensures ObjectClosed(objects', objects'[a]) {
      assert ObjectClosed(objects, objects[a]);
    }
  }

  /** After a successful write, reading the same name from the same object yields the written value. */
  lemma ReadAfterWrite(objects: Objects, obj: Value, name: string, value: Value)
    requires HeapClosed(objects) && Closed(objects, obj) && Closed(objects, value)
    requires FieldWrite(objects, obj, name, value).Success?
    ensures HeapClosed(FieldWrite(objects, obj, name, value).value)
    ensures FieldValue(FieldWrite(objects, obj, name, value).value, obj, name) == Success(value)
  {
    WriteKeepsHeapClosed(objects, obj, name, value);
  }

  /** A write changes no other read: another object, or another name on the same object. */
  lemma WriteLeavesOtherReads(objects: Objects, obj: Value, name: string, value: Value, other: Value, otherName: string)
    requires HeapClosed(objects) && Closed(objects, obj) && Closed(objects, value) && Closed(objects, other)
    requires FieldWrite(objects, obj, name, value).Success?
    requires other != obj || otherName != name
    ensures HeapClosed(FieldWrite(objects, obj, name, value).value)
    ensures FieldValue(FieldWrite(objects, obj, name, value).value, other, otherName) == FieldValue(objects, other, otherName)
  {
    WriteKeepsHeapClosed(objects, obj, name, value);
    var objects' := FieldWrite(objects, obj, name, value).value;
    if other != Null {
      assert ClassOf(objects', other) == ClassOf(objects, other);
      var f := DeclaredField(Some(ClassOf(objects, other)), otherName);
      if f.Some? && f.value.accessible && other.Ref? {
        ValueClassesDeclareNothing(objects, obj, name);
        assert Stored(objects', other.addr, f.value) == Stored(objects, other.addr, f.value);
      }
    }
  }
}
