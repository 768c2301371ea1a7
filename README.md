# oss-java-helpers: reflective path walk and assertion helpers, in Dafny

This project models the core of the `oss-java-helpers` Java library:

- **ReflectionHelpers**: the grammar of a reflection-path entry.
  - `[key]` is a map key.
  - `{n}`, with `n` a non-negative 32-bit decimal, is a collection index.
  - `.` stops the walk.
  - Anything else is a field name.
- **ReflectionHelpers**: the climb from a class through its superclasses to the first class that declares a field name.
- **ReflectionHelpers**: reading and writing a field reflectively.
- **ReflectionHelpers**: `getFieldValue(sourceObject, reflectionPath[, serializer])`, which walks a path entry by entry from a source object through fields, map entries and collection elements.
- **AssertHelpers / UncheckedAssertHelpers**: the five assertion helpers (`isFalse`, `isTrue`, `isNull`, `notFalse`, `notNull`). The checked class throws `AssertException`; the unchecked class throws `IllegalStateException`. Both treat a null `Boolean` as false.

Modules, one concern each:

| module | file | what it holds |
|---|---|---|
| `Wrappers` | wrappers.dfy | `Option`, `Result`, and `Outcome`. A `void` method either returns (`Pass`) or throws (`Fail`). |
| `JavaLang` | java_lang.dfy | Java's 32/64-bit integers, the nullable `Boolean`, `Integer.parseInt` in radix 10, and `Integer.toString` on non-negative values. |
| `AssertHelpers`, `UncheckedAssertHelpers` | assert_helpers.dfy, unchecked_assert_helpers.dfy | The assertion helpers as functions returning an `Outcome`. |
| `ObjectGraph` | object_graph.dfy | Classes with their declared fields and superclass chain, Java values and heap objects. Maps and collections keep their contents in iteration order. |
| `ReflectionErrors` | reflection_errors.dfy | One constructor per distinct exception cause. |
| `ReflectionSyntax` | reflection_syntax.dfy | `isMapKey`, `getMapKey`, `isCollectionIndex`, `getCollectionIndex`. |
| `ReflectionFields` | reflection_fields.dfy | The field search, plus field read and write as functions on the heap. |
| `ReflectionPath` | reflection_path.dfy | The path walk as a specification (`Step`, `Walk`, `Resolve`) and its properties. |
| `ReflectionExamples` | reflection_examples.dfy | The unit tests' enum-keyed and Integer-keyed map walks, on a small heap, with a serializer stub that decodes as the tests' mock does. |
| `ReflectionHelpers` | reflection_helpers.dfy | The imperative code. `GetDeclaredField` is the superclass loop. Class `Heap` holds the JVM heap: its `GetFieldValue` walks the path in a loop, and its `SetFieldValue` updates the heap in place. Each method is proved equal to its specification function. |

Modelling choices:

- A Java value is one of:
  - `Null`
  - a `String`
  - a boxed `Integer` or `Long`
  - a reference to a heap object.
- Only `String`, `Integer` and `Long` values compare by content. Every other object is a heap reference and compares by identity. This includes enum constants, maps and collections, and also the JDK types that Java compares by content: `Short`, `Byte`, `Double`, `Float`, `Boolean`, `Character`, `BigDecimal`, lists, sets and maps.
- A class is a datatype holding its declared fields and its superclass, so climbing the superclass chain always ends.
- A field belongs to the class that declares it: `FieldId(owner, name)`. A subclass field that hides a superclass field of the same name is a separate slot.
- A declared field carries an `accessible` flag. It records whether `Field.get` / `Field.set` succeed once `setAccessible(true)` has been called. When they do not, the helpers report "not accessible".
- The serializer (`Serializer.getObject(text, class)`) is a function parameter: `None` stands for a `DeserializingException`.
- An exception that the helpers do not convert to `ReflectionPathException` keeps its own constructor: `ClassCast`, `NullPointer`, `IllegalArgument`, `NumberFormat`.

Where the code and its documentation disagree, the model follows the code:

- The Javadoc says every path entry must be non-empty, and describes the index syntax as `{(0-9)*}`.
  - The code sends `""` to field lookup.
  - Integer.parseInt also accepts `{+3}`, `{007}` and `{-0}`.
  - `{two}` and `{-1}` are not collection indices, so they too become field names.
  - As a result, the "improperly formed index" handler (ReflectionHelpers.java:162-164) is never reached. `WalkNeverReportsMalformedIndex` proves this.
- A `[key]` entry on a value that is not a `Map` raises `ClassCastException`. The cast is unguarded.
- A `Map` whose first key is null raises `NullPointerException`, from `getClass()` on that key.
- The null-entry check scans the whole path before the walk begins. So a null entry after `.` still fails.
- A trailing `.` does not change the result of a non-empty path. However, `["."]` yields the source object while the empty path yields null.

## Model

| member | source | states |
|---|---|---|
| AssertHelpers.CheckIsFalse | src/main/java/com/clearcapital/oss/java/AssertHelpers.java:37-39 | true exactly when the Boolean is not TRUE (null or FALSE) |
| AssertHelpers.IsFalse | src/main/java/com/clearcapital/oss/java/AssertHelpers.java:7-11 | passes exactly when the Boolean is not TRUE; a failure is an AssertException with the caller's message |
| AssertHelpers.IsTrue | src/main/java/com/clearcapital/oss/java/AssertHelpers.java:13-17 | passes exactly on TRUE (null fails); a failure carries the caller's message |
| AssertHelpers.IsNull | src/main/java/com/clearcapital/oss/java/AssertHelpers.java:19-23 | passes exactly on null; a failure carries the caller's message |
| AssertHelpers.NotFalse | src/main/java/com/clearcapital/oss/java/AssertHelpers.java:25-29 | passes exactly on TRUE, so null fails despite the name; a failure carries the caller's message |
| AssertHelpers.NotNull | src/main/java/com/clearcapital/oss/java/AssertHelpers.java:31-35 | passes exactly on a non-null reference; a failure carries the caller's message |
| AssertHelpers.CheckIsNull | src/main/java/com/clearcapital/oss/java/AssertHelpers.java:41-43 | true exactly on null |
| AssertHelpers.NullActsAsFalse | src/main/java/com/clearcapital/oss/java/AssertHelpers.java:37-39 | isTrue and isFalse give the same outcome on null as on FALSE |
| AssertHelpers.NotFalseIsIsTrue | src/main/java/com/clearcapital/oss/java/AssertHelpers.java:13-29 | notFalse and isTrue are the same check for every input and message |
| AssertHelpers.ExactlyOneOfIsTrueIsFalse | src/main/java/com/clearcapital/oss/java/AssertHelpers.java:7-17 | for every Boolean, null included, exactly one of isTrue and isFalse passes |
| AssertHelpers.ExactlyOneOfIsNullNotNull | src/main/java/com/clearcapital/oss/java/AssertHelpers.java:19-35 | for every reference exactly one of isNull and notNull passes |
| UncheckedAssertHelpers.IsFalse | src/main/java/com/clearcapital/oss/java/UncheckedAssertHelpers.java:5-9 | passes exactly when the Boolean is not TRUE; a failure is an IllegalStateException with the caller's message |
| UncheckedAssertHelpers.IsTrue | src/main/java/com/clearcapital/oss/java/UncheckedAssertHelpers.java:11-15 | passes exactly on TRUE; a failure carries the caller's message |
| UncheckedAssertHelpers.IsNull | src/main/java/com/clearcapital/oss/java/UncheckedAssertHelpers.java:17-21 | passes exactly on null; a failure carries the caller's message |
| UncheckedAssertHelpers.NotFalse | src/main/java/com/clearcapital/oss/java/UncheckedAssertHelpers.java:23-27 | passes exactly on TRUE; a failure carries the caller's message |
| UncheckedAssertHelpers.NotNull | src/main/java/com/clearcapital/oss/java/UncheckedAssertHelpers.java:29-33 | passes exactly on a non-null reference; a failure carries the caller's message |
| UncheckedAssertHelpers.NotFalseIsIsTrue | src/main/java/com/clearcapital/oss/java/UncheckedAssertHelpers.java:11-27 | notFalse and isTrue are the same check |
| UncheckedAssertHelpers.AgreesWithCheckedHelpers | src/main/java/com/clearcapital/oss/java/UncheckedAssertHelpers.java:5-41 | each unchecked helper passes on exactly the inputs its checked namesake passes on, and on failure both carry the same message |
| JavaLang.ParseInt | src/main/java/com/clearcapital/oss/java/ReflectionHelpers.java:221-222 | a parse that succeeds ends in a digit, and is negative only after a '-'; an unsigned digit string parses exactly when its value fits in an int, and to that value |
| JavaLang.DecimalStringValue | src/main/java/com/clearcapital/oss/java/ReflectionHelpers.java:221-222 | the digits of the decimal text of n denote n |
| JavaLang.ParseIntOfDecimal | src/main/java/com/clearcapital/oss/java/ReflectionHelpers.java:221-222 | parseInt of toString(n) gives n back for 0 <= n <= Integer.MAX_VALUE and fails above it |
| JavaLang.ParseIntOfNegatedDecimal | src/main/java/com/clearcapital/oss/java/ReflectionHelpers.java:221-222 | a leading '-' negates; the result is accepted down to -2^31 and rejected below |
| JavaLang.ParseIntPlusSign | src/main/java/com/clearcapital/oss/java/ReflectionHelpers.java:221-222 | a leading '+' is accepted and leaves the value unchanged |
| JavaLang.ParseIntExamples | src/main/java/com/clearcapital/oss/java/ReflectionHelpers.java:221-222 | "1", "58" and "-1" parse to their values; "foo", "0xAF2" and "" are rejected |
| JavaLang.ParseIntSignExamples | src/main/java/com/clearcapital/oss/java/ReflectionHelpers.java:221-222 | "+3", "007" and "-0" parse to 3, 7 and 0 |
| ReflectionSyntax.IsMapKey | src/main/java/com/clearcapital/oss/java/ReflectionHelpers.java:186-189 | a map key is exactly a non-null string that is its own inner text wrapped in '[' and ']' |
| ReflectionSyntax.GetMapKey | src/main/java/com/clearcapital/oss/java/ReflectionHelpers.java:200-206 | succeeds exactly on map keys, and the text it returns, put back in brackets, is the entry; otherwise IllegalArgumentException |
| ReflectionSyntax.MapKeyRoundTrip | src/main/java/com/clearcapital/oss/java/ReflectionHelpers.java:186-206 | any text in brackets is a map key, and getMapKey returns that text unchanged |
| ReflectionSyntax.MapKeyIffBracketed | src/main/java/com/clearcapital/oss/java/ReflectionHelpers.java:186-189 | isMapKey holds exactly for non-null strings of the form "[" + k + "]" |
| ReflectionSyntax.IsCollectionIndex | src/main/java/com/clearcapital/oss/java/ReflectionHelpers.java:215-227 | a collection index is exactly a non-null string that is its inner text in braces, where the inner text parses as a non-negative int |
| ReflectionSyntax.GetCollectionIndex | src/main/java/com/clearcapital/oss/java/ReflectionHelpers.java:236-242 | succeeds exactly on collection indices with a non-negative int that is parseInt of the braced text; otherwise NumberFormatException |
| ReflectionSyntax.CollectionIndexRoundTrip | src/main/java/com/clearcapital/oss/java/ReflectionHelpers.java:215-242 | "{" + toString(n) + "}" is a collection index and yields n, for every n from 0 to Integer.MAX_VALUE |
| ReflectionSyntax.CollectionIndexOverflowRejected | src/main/java/com/clearcapital/oss/java/ReflectionHelpers.java:215-226 | braced decimal numbers beyond Integer.MAX_VALUE are not collection indices |
| ReflectionSyntax.CollectionIndexIffBracedNonNegative | src/main/java/com/clearcapital/oss/java/ReflectionHelpers.java:215-227 | isCollectionIndex holds exactly for "{" + t + "}" where parseInt(t) succeeds and is not negative; the length check adds nothing |
| ReflectionSyntax.MapKeyAndIndexDisjoint | src/main/java/com/clearcapital/oss/java/ReflectionHelpers.java:186-227 | no entry is both a map key and a collection index |
| ReflectionSyntax.MapKeyExamples | src/test/java/com/clearcapital/oss/java/ReflectionHelpersTest.java:131-177 | "[foo]", "[1]", "[ ]", "[]" are map keys; "", null, "{}", "{foo}", "[foo" are not; getMapKey yields "foo" and "" and refuses "[foo" |
| ReflectionSyntax.BracedIndex | src/main/java/com/clearcapital/oss/java/ReflectionHelpers.java:215-242 | a braced text is an index, with parseInt's value, exactly when parseInt accepts the text with a non-negative result |
| ReflectionSyntax.CollectionIndexExamples | src/test/java/com/clearcapital/oss/java/ReflectionHelpersTest.java:194-198 | "{1}" and "{58}" yield 1 and 58 |
| ReflectionSyntax.NonCollectionIndexExamples | src/test/java/com/clearcapital/oss/java/ReflectionHelpersTest.java:179-192 | "", null, "[]", "{1", "{}", "42", "{foo}", "{0xAF2}" and "{-1}" are not collection indices |
| ReflectionSyntax.CollectionIndexSignExamples | src/main/java/com/clearcapital/oss/java/ReflectionHelpers.java:215-242 | "{+3}", "{007}" and "{-0}" are accepted as indices 3, 7 and 0 |
| ReflectionFields.DeclaredField | src/main/java/com/clearcapital/oss/java/ReflectionHelpers.java:29-39 | no class finds nothing; a class that declares the name itself wins over its superclasses; a field found bears the requested name |
| ReflectionFields.DeclaredFieldIsFirstOnChain | src/main/java/com/clearcapital/oss/java/ReflectionHelpers.java:29-39 | the field found is the one declared by the nearest class on the superclass chain that declares the name; nothing is found exactly when no class on the chain declares it |
| ReflectionFields.ValueClassesDeclareNothing | src/main/java/com/clearcapital/oss/java/ReflectionHelpers.java:255-259 | no field is ever found on a String, Integer or Long value |
| ReflectionFields.FieldValue | src/main/java/com/clearcapital/oss/java/ReflectionHelpers.java:255-269 | NullPointerException on null; "does not exist" exactly when no class on the chain declares the name; otherwise "not accessible" or a value present in the heap |
| ReflectionFields.FieldWrite | src/main/java/com/clearcapital/oss/java/ReflectionHelpers.java:271-288 | a successful write changes only the target object, keeps its class and contents, and keeps the set of objects; failures are NullPointerException, "not found" or "could not set" |
| ReflectionFields.WriteFailsExactlyWhenReadFails | src/main/java/com/clearcapital/oss/java/ReflectionHelpers.java:271-288 | setFieldValue fails exactly when getFieldValue of the same name fails, with the same cause |
| ReflectionFields.WriteKeepsHeapClosed | src/main/java/com/clearcapital/oss/java/ReflectionHelpers.java:271-282 | a successful write of a valid value leaves no dangling reference in the heap |
| ReflectionFields.ReadAfterWrite | src/main/java/com/clearcapital/oss/java/ReflectionHelpers.java:271-282 | after a successful write, reading the same name from the same object yields the value written |
| ReflectionFields.WriteLeavesOtherReads | src/main/java/com/clearcapital/oss/java/ReflectionHelpers.java:271-282 | a write changes no read of another object, and no read of another name on the same object |
| ReflectionPath.Lookup | src/main/java/com/clearcapital/oss/java/ReflectionHelpers.java:152-155 | finds a value exactly when some entry has an equal key, and the pair found is an entry of the map |
| ReflectionPath.KeyFor | src/main/java/com/clearcapital/oss/java/ReflectionHelpers.java:132-150 | a String-keyed map uses the entry text as the key; otherwise the key is the serializer's decoding of the text (quoted for an enum key) as the first key's class; with no serializer or a failed decoding, "could not be deserialized" |
| ReflectionPath.MapStep | src/main/java/com/clearcapital/oss/java/ReflectionHelpers.java:123-155 | a map-key step yields a value of one of the map's entries, present in the heap, or fails with ClassCastException, "does not exist" (empty map or absent key), NullPointerException or "could not be deserialized" |
| ReflectionPath.IndexStep | src/main/java/com/clearcapital/oss/java/ReflectionHelpers.java:157-171 | an index step succeeds exactly on a collection with more elements than the index, yielding that element; otherwise "not a Collection" or "beyond the collection size" |
| ReflectionPath.Step | src/main/java/com/clearcapital/oss/java/ReflectionHelpers.java:123-173 | one entry's step yields a value present in the heap, or fails only with one of the causes a step can raise |
| ReflectionPath.Walk | src/main/java/com/clearcapital/oss/java/ReflectionHelpers.java:114-176 | the walk yields a value present in the heap, or fails only with a step's cause (never the null-entry or malformed-index cause) |
| ReflectionPath.Resolve | src/main/java/com/clearcapital/oss/java/ReflectionHelpers.java:104-177 | the result is a value present in the heap; the null-entry failure happens exactly when the path holds a null entry; every other failure is a step's |
| ReflectionPath.ResolveEmptyPath | src/main/java/com/clearcapital/oss/java/ReflectionHelpers.java:106-108 | a null or empty path yields null |
| ReflectionPath.ResolveRejectsNullEntry | src/main/java/com/clearcapital/oss/java/ReflectionHelpers.java:110-112 | a path holding a null entry anywhere fails with the null-entry exception |
| ReflectionPath.WalkFromNull | src/main/java/com/clearcapital/oss/java/ReflectionHelpers.java:120-122 | once the current value is null the rest of the path yields null |
| ReflectionPath.WalkDotTruncates | src/main/java/com/clearcapital/oss/java/ReflectionHelpers.java:116-119 | whatever follows a "." is never looked at |
| ReflectionPath.ResolveDotTruncates | src/main/java/com/clearcapital/oss/java/ReflectionHelpers.java:104-177 | a non-empty path followed by "." and any non-null entries gives the same result as the path alone |
| ReflectionPath.ResolveLeadingDot | src/main/java/com/clearcapital/oss/java/ReflectionHelpers.java:114-119 | a path starting with "." yields the source object itself |
| ReflectionPath.WalkAppend | src/main/java/com/clearcapital/oss/java/ReflectionHelpers.java:114-176 | walking p + q is walking p and then q from its result, when p holds no "." |
| ReflectionPath.WalkNeverReportsMalformedIndex | src/main/java/com/clearcapital/oss/java/ReflectionHelpers.java:157-164 | the malformed-index exception is never raised by the walk |
| ReflectionPath.MapKeyEntryStep | src/main/java/com/clearcapital/oss/java/ReflectionHelpers.java:123-155 | a "[k]" entry: ClassCastException on a non-map; "does not exist" on an empty map; NullPointerException on a null first key; with String keys, the value under k or "does not exist"; for other keys with no serializer, "could not be deserialized"; with a serializer, k (quoted when the first key is an enum constant) is decoded as the first key's class, a failed decoding is "could not be deserialized", and the decoded key is looked up |
| ReflectionPath.IndexEntryStep | src/main/java/com/clearcapital/oss/java/ReflectionHelpers.java:157-171 | a "{n}" entry: "not a Collection" on a non-collection, else the n-th element in iteration order, or "beyond the collection size" |
| ReflectionPath.NonIndexEntriesAreFieldNames | src/main/java/com/clearcapital/oss/java/ReflectionHelpers.java:172-173 | "{two}", "{-1}" and "" are looked up as field names |
| ReflectionExamples.EnumMapExample | src/test/java/com/clearcapital/oss/java/ReflectionHelpersTest.java:407-413 | on a heap like the test fixture, ["enumMap", "[KEY0]"] with the tests' serializer stub yields "value0" |
| ReflectionExamples.EnumMapWithoutSerializer | src/main/java/com/clearcapital/oss/java/ReflectionHelpers.java:147-150 | the same walk with no serializer fails with "could not be deserialized" |
| ReflectionExamples.IntegerMapExamples | src/test/java/com/clearcapital/oss/java/ReflectionHelpersTest.java:429-439 | ["integerMap", "[7]"] yields "Number 7"; ["integerMap", "[10]"], which the stub decodes to null, does not exist |
| ReflectionHelpers.GetDeclaredField | src/main/java/com/clearcapital/oss/java/ReflectionHelpers.java:29-39 | the superclass loop returns the field the search specification finds, or none |
| ReflectionHelpers.Heap.ReadFieldValue | src/main/java/com/clearcapital/oss/java/ReflectionHelpers.java:255-269 | reading a field returns exactly the specified read |
| ReflectionHelpers.Heap.GetFieldValue | src/main/java/com/clearcapital/oss/java/ReflectionHelpers.java:104-177 | the path walk returns exactly the specified resolution of the path |
| ReflectionHelpers.Heap.WalkPath | src/main/java/com/clearcapital/oss/java/ReflectionHelpers.java:114-176 | the loop over the entries returns exactly the specified walk |
| ReflectionHelpers.Heap.StepEntry | src/main/java/com/clearcapital/oss/java/ReflectionHelpers.java:123-173 | one entry's dispatch returns exactly the specified step |
| ReflectionHelpers.Heap.MapKeyEntry | src/main/java/com/clearcapital/oss/java/ReflectionHelpers.java:123-155 | the map-key branch returns exactly the specified map step |
| ReflectionHelpers.Heap.IndexEntry | src/main/java/com/clearcapital/oss/java/ReflectionHelpers.java:157-171 | the collection-index branch returns exactly the specified index step |
| ReflectionHelpers.Heap.GetFieldValueWithDefault | src/main/java/com/clearcapital/oss/java/ReflectionHelpers.java:69-72 | the two-argument overload is the walk with the default serializer |
| ReflectionHelpers.Heap.SetFieldValue | src/main/java/com/clearcapital/oss/java/ReflectionHelpers.java:271-288 | on success returns the value, replaces that one field slot and keeps the heap valid, and a later read of the name yields the value; on failure the heap is unchanged |

## Left out

- `getReflections(...)` and `getTypesAnnotatedWith(...)` (ReflectionHelpers.java:290 onwards) are left out. They scan the classpath through the Reflections library, which is foreign code working on I/O.
- The save and restore of a field's accessibility flag around `Field.get` / `Field.set` is left out: nothing observable depends on it here. Whether access succeeds after `setAccessible(true)` is the field's `accessible` flag.
- The static `defaultSerializer` is a parameter of `GetFieldValueWithDefault`, not global state.
- `JsonSerializer`, `Serializer`, `StackHelpers` and `CastHelpers` are not part of this model. The serializer appears only as the `Decoder` function parameter.
- Exception message texts other than the assertion helpers' caller-supplied message are left out. Each cause is a separate constructor instead.
- JavaLang.ParseInt: does not model the non-ASCII Unicode decimal digits that `Integer.parseInt` also accepts. Only '0'-'9' are digits here.
- ReflectionFields.FieldValue: the JDK-internal fields of `String`, `Integer` and `Long` (for example `value`) are left out. A field lookup on those values finds nothing.
- ReflectionFields.FieldWrite: field types, static fields and `final` checks are not modelled. A write never fails with the `IllegalArgumentException` that a type mismatch raises. `Field.set` refusing access is covered by the `accessible` flag.
- ReflectionPath.Lookup: `Map.containsKey` / `Map.get` are modelled with content equality only for `String`, `Integer` and `Long` keys. All other key types compare by identity: user-defined `equals` / `hashCode`, and JDK content equality for other boxed types, `BigDecimal` and collections. A key of such a type is found only when the decoder returns the map's own key reference.
- ReflectionPath.Step: a `Map` or `Collection` implementation that throws from `containsKey` or from iteration is left out.
- ReflectionHelpers.GetDeclaredField: the `SecurityException` that a security manager may raise is left out. It would be ignored, like a missing field.
- ReflectionPath.Resolve: a `reflectionPath` collection whose `contains(null)` throws `NullPointerException` is left out. The model scans for null like `ArrayList` does.
- ReflectionFields.Stored: primitive fields have no implicit default. A slot missing from an object reads as null, which is right only for reference fields. A heap must therefore list every primitive field's slot with its boxed value, since Java reads 0 / false there.
- Concurrency is left out: the walk assumes the heap does not change during the call.
