/**
 * The reflective path walk as a specification: each entry of the path is
 * resolved against the value the previous entries produced, left to right.
 */
module ReflectionPath {
  import opened Wrappers
  import opened JavaLang
  import opened ObjectGraph
  import opened ReflectionErrors
  import opened ReflectionSyntax
  import opened ReflectionFields

  /** A path as the caller passes it: each entry a possibly-null string. */
  type Path = seq<Option<string>>

  /**
   * Serializer.getObject(text, targetType): the decoded key, or None for a
   * DeserializingException.
   */
  type Decoder = (string, Class) -> Option<Value>

  /** Map.get for a key the map contains: the value of the first entry with an equal key. */
  function Lookup(entries: seq<(Value, Value)>, key: Value): (r: Option<Value>)
    ensures r.Some? <==> exists i | 0 <= i < |entries| :: entries[i].0 == key
    ensures r.Some? ==> (key, r.value) in entries
  {
    if entries == [] then None
    else if entries[0].0 == key then Some(entries[0].1)
    else
      var r := Lookup(entries[1..], key);
      assert forall i | 1 <= i < |entries| :: entries[i] == entries[1..][i - 1];
      r
  }

  /**
   * The key a map-key entry denotes: the text itself when the map's first
   * key is a String; otherwise decoded by the serializer as the first key's
   * class, an enum key's text first wrapped in double quotes.
   */
  function KeyFor(objects: Objects, firstKey: Value, keyString: string, entry: string, serializer: Option<Decoder>): (r: Result<Value, Error>)
    requires firstKey != Null && Closed(objects, firstKey)
    ensures firstKey.Str? ==> r == Success(Str(keyString))
    ensures r.Failure? ==> r.error == KeyNotDeserialized(entry)
    ensures !firstKey.Str? && serializer.None? ==> r.Failure?
    ensures !firstKey.Str? && serializer.Some? ==>
              var text := if IsEnumConstant(objects, firstKey) then "\"" + keyString + "\"" else keyString;
              (r.Success? <==> serializer.value(text, ClassOf(objects, firstKey)).Some?)
              && (r.Success? ==> serializer.value(text, ClassOf(objects, firstKey)) == Some(r.value))
  {
    if firstKey.Str? then Success(Str(keyString))
    else if serializer.None? then Failure(KeyNotDeserialized(entry))
    else
      var text := if IsEnumConstant(objects, firstKey) then "\"" + keyString + "\"" else keyString;
      match serializer.value(text, ClassOf(objects, firstKey))
      case None => Failure(KeyNotDeserialized(entry))
      case Some(key) => Success(key)
  }

  /** A map-key step `[keyString]` on a non-null value. */
  function MapStep(objects: Objects, current: Value, keyString: string, entry: string, serializer: Option<Decoder>): (r: Result<Value, Error>)
    requires HeapClosed(objects) && Closed(objects, current)
    ensures r.Success? ==> Closed(objects, r.value)
    ensures r.Success? ==>
              && IsMap(objects, current)
              && exists i | 0 <= i < |objects[current.addr].contents.entries| :: objects[current.addr].contents.entries[i].1 == r.value
    ensures r.Failure? ==>
              r.error in {ClassCast(entry), EmptyMap(entry), NullPointer, KeyNotDeserialized(entry), KeyNotFound(entry)}
  {
    if !IsMap(objects, current) then Failure(ClassCast(entry))
    else
      var entries := objects[current.addr].contents.entries;
      assert ObjectClosed(objects, objects[current.addr]);
      if |entries| == 0 then Failure(EmptyMap(entry))
      else if entries[0].0.Null? then Failure(NullPointer)
      else
        match KeyFor(objects, entries[0].0, keyString, entry, serializer)
        case Failure(e) => Failure(e)
        case Success(key) =>
          match Lookup(entries, key)
          case None => Failure(KeyNotFound(entry))
          case Some(v) => Success(v)
  }

  /** A collection-index step `{index}` on a non-null value: the element at that position in iteration order. */
  function IndexStep(objects: Objects, current: Value, index: int32, entry: string): (r: Result<Value, Error>)
    requires HeapClosed(objects) && Closed(objects, current) && index >= 0
    ensures r.Success? ==> Closed(objects, r.value)
    ensures r.Success? <==>
              IsCollection(objects, current) && (index as int) < |objects[current.addr].contents.elements|
    ensures r.Success? ==> r.value == objects[current.addr].contents.elements[index]
    ensures r.Failure? ==> r.error == (if IsCollection(objects, current) then IndexBeyondSize(entry) else NotACollection(entry))
  {
    if !IsCollection(objects, current) then Failure(NotACollection(entry))
    else
      var elements := objects[current.addr].contents.elements;
      assert ObjectClosed(objects, objects[current.addr]);
      if index as int < |elements| then Success(elements[index]) else Failure(IndexBeyondSize(entry))
  }

  /** One entry against a non-null value: a map key, else a collection index, else a field name. */
  function Step(objects: Objects, current: Value, entry: string, serializer: Option<Decoder>): (r: Result<Value, Error>)
    requires HeapClosed(objects) && Closed(objects, current) && current != Null
    ensures r.Success? ==> Closed(objects, r.value)
    ensures r.Failure? ==> IsStepError(r.error)
  {
    if IsMapKey(Some(entry)) then MapStep(objects, current, GetMapKey(Some(entry)).value, entry, serializer)
    else if IsCollectionIndex(Some(entry)) then IndexStep(objects, current, GetCollectionIndex(Some(entry)).value, entry)
    else FieldValue(objects, current, entry)
  }

  /**
   * The walk proper: "." stops and yields the current value, a null
   * current value stops and yields null, anything else is one step.
   */
  function Walk(objects: Objects, current: Value, path: Path, serializer: Option<Decoder>): (r: Result<Value, Error>)
    requires HeapClosed(objects) && Closed(objects, current) && None !in path
    ensures r.Success? ==> Closed(objects, r.value)
    ensures r.Failure? ==> IsStepError(r.error)
    decreases |path|
  {
    if path == [] then Success(current)
    else if path[0].value == "." then Success(current)
    else if current.Null? then Success(Null)
    else
      match Step(objects, current, path[0].value, serializer)
      case Failure(e) => Failure(e)
      case Success(next) => Walk(objects, next, path[1..], serializer)
  }

  /** One entry of the walk taken on its own: the step, then the rest of the path from where it led. */
  lemma WalkUnfold(objects: Objects, current: Value, path: Path, serializer: Option<Decoder>)
    requires HeapClosed(objects) && Closed(objects, current) && None !in path
    requires path != [] && path[0].value != "." && current != Null
    ensures None !in path[1..]
    ensures var step := Step(objects, current, path[0].value, serializer);
            Walk(objects, current, path, serializer)
            == if step.Failure? then Failure(step.error) else Walk(objects, step.value, path[1..], serializer)
  {
  }

  /**
   * getFieldValue(sourceObject, reflectionPath, serializer): a null or
   * empty path yields null; a path holding a null entry is refused before
   * anything is walked; otherwise the walk from the source object.
   */
  function Resolve(objects: Objects, root: Value, reflectionPath: Option<Path>, serializer: Option<Decoder>): (r: Result<Value, Error>)
    requires HeapClosed(objects) && Closed(objects, root)
    ensures r.Success? ==> Closed(objects, r.value)
    ensures r.Failure? ==> r.error == NullEntryInPath || IsStepError(r.error)
    ensures r == Failure(NullEntryInPath) <==> reflectionPath.Some? && None in reflectionPath.value
  {
    if reflectionPath.None? || |reflectionPath.value| == 0 then Success(Null)
    else if None in reflectionPath.value then Failure(NullEntryInPath)
    else Walk(objects, root, reflectionPath.value, serializer)
  }

  // ---------------------------------------------------------------------
  // Properties of the walk

  /** A null or empty path yields null whatever the source object. */
  lemma ResolveEmptyPath(objects: Objects, root: Value, serializer: Option<Decoder>)
    requires HeapClosed(objects) && Closed(objects, root)
    ensures Resolve(objects, root, None, serializer) == Success(Null)
    ensures Resolve(objects, root, Some([]), serializer) == Success(Null)
  {
  }

  /** A null entry anywhere, even after a ".", fails the whole call before any step. */
  lemma ResolveRejectsNullEntry(objects: Objects, root: Value, path: Path, serializer: Option<Decoder>)
    requires HeapClosed(objects) && Closed(objects, root)
    requires None in path
    ensures Resolve(objects, root, Some(path), serializer) == Failure(NullEntryInPath)
  {
  }

  /** A null source object, or a null reached on the way, yields null for the rest of the path. */
  lemma WalkFromNull(objects: Objects, path: Path, serializer: Option<Decoder>)
    requires HeapClosed(objects) && None !in path
    ensures Walk(objects, Null, path, serializer) == Success(Null)
  {
  }

  /** "." ends the walk: whatever follows it is never looked at. */
  lemma {:induction false} WalkDotTruncates(objects: Objects, current: Value, p: Path, rest: Path, serializer: Option<Decoder>)
    requires HeapClosed(objects) && Closed(objects, current) && None !in p && None !in rest
    ensures None !in p + [Some(".")] + rest
    ensures Walk(objects, current, p + [Some(".")] + rest, serializer) == Walk(objects, current, p, serializer)
    decreases |p|
  {
    var path := p + [Some(".")] + rest;
    if p != [] && p[0].value != "." && current != Null {
      assert path[0] == p[0] && path[1..] == p[1..] + [Some(".")] + rest;
      match Step(objects, current, p[0].value, serializer)
      case Failure(_) =>
      case Success(next) => WalkDotTruncates(objects, next, p[1..], rest, serializer);
    }
  }

  /**
   * The same at the top level: a non-empty path followed by "." and any
   * non-null entries resolves as the path alone. (An empty prefix differs:
   * the empty path yields null, ["."] yields the source object.)
   */
  lemma ResolveDotTruncates(objects: Objects, root: Value, p: Path, rest: Path, serializer: Option<Decoder>)
    requires HeapClosed(objects) && Closed(objects, root) && None !in p && None !in rest
    requires p != []
    ensures Resolve(objects, root, Some(p + [Some(".")] + rest), serializer) == Resolve(objects, root, Some(p), serializer)
  {
    WalkDotTruncates(objects, root, p, rest, serializer);
  }

  /** A path that starts with "." yields the source object itself. */
  lemma ResolveLeadingDot(objects: Objects, root: Value, rest: Path, serializer: Option<Decoder>)
    requires HeapClosed(objects) && Closed(objects, root) && None !in rest
    ensures Resolve(objects, root, Some([Some(".")] + rest), serializer) == Success(root)
  {
    assert None !in [Some(".")] + rest;
  }

  /**
   * Strictly left to right: walking p + q is walking p, then walking q
   * from whatever p produced, when p holds no ".".
   */
  lemma {:induction false} WalkAppend(objects: Objects, current: Value, p: Path, q: Path, serializer: Option<Decoder>)
    requires HeapClosed(objects) && Closed(objects, current) && None !in p && None !in q && Some(".") !in p
    ensures None !in p + q
    ensures Walk(objects, current, p + q, serializer) ==
              match Walk(objects, current, p, serializer)
              case Failure(e) => Failure(e)
              case Success(v) => Walk(objects, v, q, serializer)
    decreases |p|
  {
    if p == [] {
      assert p + q == q;
    } else if current == Null {
      WalkFromNull(objects, p + q, serializer);
      WalkFromNull(objects, q, serializer);
    } else {
      assert (p + q)[0] == p[0] && (p + q)[1..] == p[1..] + q;
      assert p[0] in p;
      match Step(objects, current, p[0].value, serializer)
      case Failure(_) =>
      case Success(next) => WalkAppend(objects, next, p[1..], q, serializer);
    }
  }

  /** Only step failures escape the walk: the malformed-index handler is never reached. */
  lemma WalkNeverReportsMalformedIndex(objects: Objects, root: Value, path: Path, serializer: Option<Decoder>)
    requires HeapClosed(objects) && Closed(objects, root)
    ensures var r := Resolve(objects, root, Some(path), serializer); r.Failure? ==> !r.error.IndexMalformed?
  {
  }

  // ---------------------------------------------------------------------
  // One step, by the shape of the entry

  /** A bracketed entry on each kind of value: the cases of the map-key branch. */
  lemma MapKeyEntryStep(objects: Objects, current: Value, k: string, serializer: Option<Decoder>)
    requires HeapClosed(objects) && Closed(objects, current) && current != Null
    ensures var entry := Wrap('[', k, ']');
            var r := Step(objects, current, entry, serializer);
            && (!IsMap(objects, current) ==> r == Failure(ClassCast(entry)))
            && (IsMap(objects, current) ==>
                  var entries := objects[current.addr].contents.entries;
                  && (entries == [] ==> r == Failure(EmptyMap(entry)))
                  && (entries != [] && entries[0].0 == Null ==> r == Failure(NullPointer))
                  && (entries != [] && entries[0].0.Str? ==>
                        r == match Lookup(entries, Str(k))
                             case None => Failure(KeyNotFound(entry))
                             case Some(v) => Success(v))
                  && (entries != [] && entries[0].0 != Null && !entries[0].0.Str? && serializer.None? ==>
                        r == Failure(KeyNotDeserialized(entry)))
                  && (entries != [] && entries[0].0 != Null && !entries[0].0.Str? && serializer.Some? ==>
                        var text := if IsEnumConstant(objects, entries[0].0) then "\"" + k + "\"" else k;
                        r == match serializer.value(text, ClassOf(objects, entries[0].0))
                             case None => Failure(KeyNotDeserialized(entry))
                             case Some(key) =>
                               match Lookup(entries, key)
                               case None => Failure(KeyNotFound(entry))
                               case Some(v) => Success(v)))
  {
    MapKeyRoundTrip(k);
  }

  /** A decimal index entry: the element at that position, or a failure saying why not. */
  lemma IndexEntryStep(objects: Objects, current: Value, n: nat, serializer: Option<Decoder>)
    requires HeapClosed(objects) && Closed(objects, current) && current != Null
    requires n <= INT_MAX
    ensures var entry := Wrap('{', DecimalString(n), '}');
            var r := Step(objects, current, entry, serializer);
            && (!IsCollection(objects, current) ==> r == Failure(NotACollection(entry)))
            && (IsCollection(objects, current) ==>
                  var elements := objects[current.addr].contents.elements;
                  r == if n < |elements| then Success(elements[n]) else Failure(IndexBeyondSize(entry)))
  {
    CollectionIndexRoundTrip(n);
    assert DecimalString(n)[0] != '[';
  }

  /** Entries that only look like indices are field names: "{two}", "{-1}" and "". */
  lemma NonIndexEntriesAreFieldNames(objects: Objects, current: Value, serializer: Option<Decoder>)
    requires HeapClosed(objects) && Closed(objects, current) && current != Null
    ensures Step(objects, current, "{two}", serializer) == FieldValue(objects, current, "{two}")
    ensures Step(objects, current, "{-1}", serializer) == FieldValue(objects, current, "{-1}")
    ensures Step(objects, current, "", serializer) == FieldValue(objects, current, "")
  {
    assert !IsCollectionIndex(Some("{two}")) by {
      assert "{two}"[1..4] == "two" && !IsDigit("two"[0]);
    }
    assert !IsCollectionIndex(Some("{-1}")) by {
      assert "{-1}"[1..3] == "-1" && "-1"[1..] == "1";
    }
  }
}
