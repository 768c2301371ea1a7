/**
 * The map-keyed walks of the unit tests on a small heap: a holder object
 * whose fields refer to a map keyed by enum constants and to a map keyed by
 * Integers, walked with a serializer that decodes as the tests' stub does.
 */
module ReflectionExamples {
  import opened Wrappers
  import opened ObjectGraph
  import opened ReflectionErrors
  import opened ReflectionSyntax
  import opened ReflectionFields
  import opened ReflectionPath

  const EnumClass := Class(EnumClassName, map[], Some(ObjectClass))
  const KeyEnumClass := Class("KeyEnum", map[], Some(EnumClass))
  const HashMapClass := Class("java.util.HashMap", map[], Some(ObjectClass))
  const HolderClass := Class("Hierarchical", map["enumMap" := FieldDecl(true), "integerMap" := FieldDecl(true)], Some(ObjectClass))

  /** 0 is the holder, 1 the enum-keyed map, 2 and 3 the constants KEY0 and KEY1, 4 the Integer-keyed map. */
  const TestObjects: Objects := map[
    0 := JavaObject(HolderClass, map[FieldId("Hierarchical", "enumMap") := Ref(1), FieldId("Hierarchical", "integerMap") := Ref(4)], Plain),
    1 := JavaObject(HashMapClass, map[], MapEntries([(Ref(2), Str("value0")), (Ref(3), Str("value1"))])),
    2 := JavaObject(KeyEnumClass, map[], Plain),
    3 := JavaObject(KeyEnumClass, map[], Plain),
    4 := JavaObject(HashMapClass, map[], MapEntries([(Int(0), Str("Number 0")), (Int(7), Str("Number 7"))]))
  ]

  /** The tests' serializer stub: "\"KEY0\"" as a KeyEnum, "7" as an Integer, anything else null. */
  function Stub(text: string, c: Class): Option<Value> {
    if text == "\"KEY0\"" && c == KeyEnumClass then Some(Ref(2))
    else if text == "7" && c == IntegerClass then Some(Int(7))
    else Some(Null)
  }

  lemma TestHeapClosed()
    ensures HeapClosed(TestObjects)
  {
    assert ObjectClosed(TestObjects, TestObjects[1]);
    assert ObjectClosed(TestObjects, TestObjects[4]);
  }

  /** The holder's map fields are read as stored. */
  lemma HolderFields()
    ensures HeapClosed(TestObjects)
    ensures FieldValue(TestObjects, Ref(0), "enumMap") == Success(Ref(1))
    ensures FieldValue(TestObjects, Ref(0), "integerMap") == Success(Ref(4))
  {
    TestHeapClosed();
  }

  /** A two-entry path, a field name and then any other entry, is that entry's step on the field's value. */
  lemma FieldThenEntry(objects: Objects, root: Value, f: string, entry: string, serializer: Option<Decoder>)
    requires HeapClosed(objects) && Closed(objects, root) && root != Null
    requires f != "." && !IsMapKey(Some(f)) && !IsCollectionIndex(Some(f)) && entry != "."
    requires FieldValue(objects, root, f).Success? && FieldValue(objects, root, f).value != Null
    ensures Resolve(objects, root, Some([Some(f), Some(entry)]), serializer)
            == Step(objects, FieldValue(objects, root, f).value, entry, serializer)
  {
    var path := [Some(f), Some(entry)];
    WalkUnfold(objects, root, path, serializer);
    assert path[1..] == [Some(entry)];
    WalkUnfold(objects, FieldValue(objects, root, f).value, path[1..], serializer);
    assert path[1..][1..] == [];
  }

  /** "[KEY0]" on the enum-keyed map: the key text is quoted, decoded as a KeyEnum, and looked up. */
  lemma EnumKeyStep()
    ensures HeapClosed(TestObjects)
    ensures Step(TestObjects, Ref(1), "[KEY0]", Some(Stub)) == Success(Str("value0"))
  {
    TestHeapClosed();
    assert Wrap('[', "KEY0", ']') == "[KEY0]";
    assert IsEnumConstant(TestObjects, Ref(2)) by {
      assert TestObjects[2].cls == KeyEnumClass;
      assert Chain(Some(KeyEnumClass)) == [KeyEnumClass, EnumClass, ObjectClass];
      assert Chain(Some(KeyEnumClass))[1].name == EnumClassName;
    }
    assert "\"" + "KEY0" + "\"" == "\"KEY0\"";
    MapKeyEntryStep(TestObjects, Ref(1), "KEY0", Some(Stub));
  }

  /** The enumMap test: ["enumMap", "[KEY0]"] yields "value0". */
  lemma EnumMapExample()
    ensures HeapClosed(TestObjects)
    ensures Resolve(TestObjects, Ref(0), Some([Some("enumMap"), Some("[KEY0]")]), Some(Stub)) == Success(Str("value0"))
  {
    HolderFields();
    EnumKeyStep();
    FieldThenEntry(TestObjects, Ref(0), "enumMap", "[KEY0]", Some(Stub));
  }

  /** Without a serializer the enum key cannot be decoded. */
  lemma EnumKeyStepWithoutSerializer()
    ensures HeapClosed(TestObjects)
    ensures Step(TestObjects, Ref(1), "[KEY0]", None) == Failure(KeyNotDeserialized("[KEY0]"))
  {
    TestHeapClosed();
    assert Wrap('[', "KEY0", ']') == "[KEY0]";
    MapKeyEntryStep(TestObjects, Ref(1), "KEY0", None);
  }

  /** The same walk with no serializer fails at the key. */
  lemma EnumMapWithoutSerializer()
    ensures HeapClosed(TestObjects)
    ensures Resolve(TestObjects, Ref(0), Some([Some("enumMap"), Some("[KEY0]")]), None) == Failure(KeyNotDeserialized("[KEY0]"))
  {
    HolderFields();
    EnumKeyStepWithoutSerializer();
    FieldThenEntry(TestObjects, Ref(0), "enumMap", "[KEY0]", None);
  }

  /** "[7]" and "[10]" on the Integer-keyed map: "7" decodes to a key that is present, "10" to null, which is not. */
  lemma IntegerKeySteps()
    ensures HeapClosed(TestObjects)
    ensures Step(TestObjects, Ref(4), "[7]", Some(Stub)) == Success(Str("Number 7"))
    ensures Step(TestObjects, Ref(4), "[10]", Some(Stub)) == Failure(KeyNotFound("[10]"))
  {
    TestHeapClosed();
    assert !IsEnumConstant(TestObjects, Int(0));
    assert Wrap('[', "7", ']') == "[7]";
    MapKeyEntryStep(TestObjects, Ref(4), "7", Some(Stub));
    assert Wrap('[', "10", ']') == "[10]";
    assert Stub("10", IntegerClass) == Some(Null);
    MapKeyEntryStep(TestObjects, Ref(4), "10", Some(Stub));
  }

  /** The integerMap tests: ["integerMap", "[7]"] yields "Number 7"; ["integerMap", "[10]"] does not exist. */
  lemma IntegerMapExamples()
    ensures HeapClosed(TestObjects)
    ensures Resolve(TestObjects, Ref(0), Some([Some("integerMap"), Some("[7]")]), Some(Stub)) == Success(Str("Number 7"))
    ensures Resolve(TestObjects, Ref(0), Some([Some("integerMap"), Some("[10]")]), Some(Stub)) == Failure(KeyNotFound("[10]"))
  {
    HolderFields();
    IntegerKeySteps();
    FieldThenEntry(TestObjects, Ref(0), "integerMap", "[7]", Some(Stub));
    FieldThenEntry(TestObjects, Ref(0), "integerMap", "[10]", Some(Stub));
  }
}
