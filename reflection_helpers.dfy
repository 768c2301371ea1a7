/**
 * The imperative surface of the reflective helpers: the superclass-climbing
 * field search, and the heap they read and write, with the path walk as a
 * loop over the entries.
 */
module ReflectionHelpers {
  import opened Wrappers
  import opened JavaLang
  import opened ObjectGraph
  import opened ReflectionErrors
  import opened ReflectionSyntax
  import opened ReflectionFields
  import opened ReflectionPath

  /** getDeclaredField: climb from the class through its superclasses until one declares the name. */
  method GetDeclaredField(c: Class, name: string) returns (f: Option<Field>)
    ensures f == DeclaredField(Some(c), name)
  {
    var k: Option<Class> := Some(c);
    while k.Some?
      invariant DeclaredField(k, name) == DeclaredField(Some(c), name)
      decreases k
    {
      if name in k.value.declaredFields {
        return Some(FieldIn(k.value, name));
      }
      k := k.value.superclass;
    }
    return None;
  }

  /** The JVM heap: every object the walk can reach, by address. */
  class Heap {
    var objects: Objects

    ghost predicate Valid()
      reads this
    {
      HeapClosed(objects)
    }

    constructor (objects: Objects)
      requires HeapClosed(objects)
      ensures Valid() && this.objects == objects
    {
      this.objects := objects;
    }

    /** getFieldValue(object, fieldName). */
    method ReadFieldValue(obj: Value, fieldName: string) returns (r: Result<Value, Error>)
      requires Valid() && Closed(objects, obj)
      ensures r == FieldValue(objects, obj, fieldName)
    {
      if obj.Null? {
        return Failure(NullPointer);
      }
      ValueClassesDeclareNothing(objects, obj, fieldName);
      var field := GetDeclaredField(ClassOf(objects, obj), fieldName);
      if field.None? {
        return Failure(FieldDoesNotExist(fieldName));
      }
      if !field.value.accessible {
        return Failure(FieldNotAccessible(fieldName));
      }
      return Success(Stored(objects, obj.addr, field.value));
    }

    /** getFieldValue(sourceObject, reflectionPath, serializer): the checks on the path, then the walk. */
    method GetFieldValue(sourceObject: Value, reflectionPath: Option<Path>, serializer: Option<Decoder>)
      returns (r: Result<Value, Error>)
      requires Valid() && Closed(objects, sourceObject)
      ensures r == Resolve(objects, sourceObject, reflectionPath, serializer)
    {
      if reflectionPath.None? || |reflectionPath.value| == 0 {
        return Success(Null);
      }
      if None in reflectionPath.value {
        return Failure(NullEntryInPath);
      }
      r := WalkPath(sourceObject, reflectionPath.value, serializer);
    }

    /** The loop over the entries of a path free of null entries. */
    method WalkPath(sourceObject: Value, path: Path, serializer: Option<Decoder>) returns (r: Result<Value, Error>)
      requires Valid() && Closed(objects, sourceObject) && None !in path
      ensures r == Walk(objects, sourceObject, path, serializer)
    {
      var fieldValue := sourceObject;
      var rest := path;
      while rest != []
        invariant None !in rest
        invariant Closed(objects, fieldValue)
        invariant Walk(objects, fieldValue, rest, serializer) == Walk(objects, sourceObject, path, serializer)
        decreases |rest|
      {
        var pathEntry := rest[0].value;
        if pathEntry == "." || fieldValue.Null? {
          break;
        }
        WalkUnfold(objects, fieldValue, rest, serializer);
        var step := StepEntry(fieldValue, pathEntry, serializer);
        if step.Failure? {
          return Failure(step.error);
        }
        fieldValue := step.value;
        rest := rest[1..];
      }
      return Success(fieldValue);
    }

    /** One entry of the walk on a non-null value: a map key, a collection index, or else a field name. */
    method StepEntry(fieldValue: Value, pathEntry: string, serializer: Option<Decoder>) returns (r: Result<Value, Error>)
      requires Valid() && Closed(objects, fieldValue) && fieldValue != Null
      ensures r == Step(objects, fieldValue, pathEntry, serializer)
    {
      if IsMapKey(Some(pathEntry)) {
        r := MapKeyEntry(fieldValue, pathEntry, serializer);
      } else if IsCollectionIndex(Some(pathEntry)) {
        r := IndexEntry(fieldValue, pathEntry);
      } else {
        r := ReadFieldValue(fieldValue, pathEntry);
      }
    }

    /** The collection-index branch: the value must be a Collection, and the index within its size. */
    method IndexEntry(fieldValue: Value, pathEntry: string) returns (r: Result<Value, Error>)
      requires Valid() && Closed(objects, fieldValue) && fieldValue != Null && IsCollectionIndex(Some(pathEntry))
      ensures r == IndexStep(objects, fieldValue, GetCollectionIndex(Some(pathEntry)).value, pathEntry)
    {
      var index := GetCollectionIndex(Some(pathEntry)).value;
      if !IsCollection(objects, fieldValue) {
        return Failure(NotACollection(pathEntry));
      }
      var elements := objects[fieldValue.addr].contents.elements;
      if index as int >= |elements| {
        return Failure(IndexBeyondSize(pathEntry));
      }
      return Success(elements[index]);
    }

    /**
     * The map-key branch of the walk on a non-null value: cast to Map, refuse
     * an empty map, take the key type from the first entry, decode the key
     * when it is not a String, and look it up.
     */
    method MapKeyEntry(fieldValue: Value, pathEntry: string, serializer: Option<Decoder>) returns (r: Result<Value, Error>)
      requires Valid() && Closed(objects, fieldValue) && fieldValue != Null && IsMapKey(Some(pathEntry))
      ensures r == MapStep(objects, fieldValue, GetMapKey(Some(pathEntry)).value, pathEntry, serializer)
    {
      var keyString := GetMapKey(Some(pathEntry)).value;
      if !IsMap(objects, fieldValue) {
        return Failure(ClassCast(pathEntry));
      }
      var entries := objects[fieldValue.addr].contents.entries;
      if |entries| == 0 {
        return Failure(EmptyMap(pathEntry));
      }
      var firstKey := entries[0].0;
      if firstKey.Null? {
        return Failure(NullPointer);
      }
      assert ObjectClosed(objects, objects[fieldValue.addr]);
      var key: Value;
      if firstKey.Str? {
        key := Str(keyString);
      } else if serializer.Some? {
        if IsEnumConstant(objects, firstKey) {
          keyString := "\"" + keyString + "\"";
        }
        var decoded := serializer.value(keyString, ClassOf(objects, firstKey));
        if decoded.None? {
          return Failure(KeyNotDeserialized(pathEntry));
        }
        key := decoded.value;
      } else {
        return Failure(KeyNotDeserialized(pathEntry));
      }
      var found := Lookup(entries, key);
      if found.None? {
        return Failure(KeyNotFound(pathEntry));
      }
      return Success(found.value);
    }

    /** getFieldValue(sourceObject, reflectionPath): the same walk with the default serializer. */
    method GetFieldValueWithDefault(sourceObject: Value, reflectionPath: Option<Path>, defaultSerializer: Option<Decoder>)
      returns (r: Result<Value, Error>)
      requires Valid() && Closed(objects, sourceObject)
      ensures r == Resolve(objects, sourceObject, reflectionPath, defaultSerializer)
    {
      r := GetFieldValue(sourceObject, reflectionPath, defaultSerializer);
    }

    /** setFieldValue(object, name, value): store into the field a read of `name` would find, and return the value. */
    method SetFieldValue(obj: Value, name: string, value: Value) returns (r: Result<Value, Error>)
      requires Valid() && Closed(objects, obj) && Closed(objects, value)
      modifies this
      ensures Valid()
      ensures var w := FieldWrite(old(objects), obj, name, value);
              && (w.Success? ==> r == Success(value) && objects == w.value)
              && (w.Failure? ==> r == Failure(w.error) && objects == old(objects))
      ensures r.Success? ==> FieldValue(objects, obj, name) == Success(value)
    {
      if obj.Null? {
        return Failure(NullPointer);
      }
      ValueClassesDeclareNothing(objects, obj, name);
      var field := GetDeclaredField(ClassOf(objects, obj), name);
      if field.None? {
        return Failure(FieldDoesNotExist(name));
      }
      if !field.value.accessible {
        return Failure(FieldNotAccessible(name));
      }
      ReadAfterWrite(objects, obj, name, value);
      var o := objects[obj.addr];
      objects := objects[obj.addr := o.(fields := o.fields[FieldId(field.value.declaringClass, field.value.name) := value])];
      return Success(value);
    }
  }
}
