/**
 * Classification of one path entry: `[key]` is a map key, `{n}` with a
 * non-negative 32-bit decimal n is a collection index.
 */
module ReflectionSyntax {
  import opened Wrappers
  import opened JavaLang
  import opened ReflectionErrors

  /** `open` + body + `close`, the shape of a map key or a collection index. */
  function Wrap(open: char, body: string, close: char): (s: string)
    ensures |s| == |body| + 2 && s[0] == open && s[|s| - 1] == close
    ensures s[1..|s| - 1] == body
  {
    [open] + body + [close]
  }

  lemma WrapInner(s: string)
    requires |s| >= 2
    ensures s == Wrap(s[0], s[1..|s| - 1], s[|s| - 1])
  {
    var w := Wrap(s[0], s[1..|s| - 1], s[|s| - 1]);
    assert forall i | 0 <= i < |s| :: s[i] == w[i];
  }

  /** isMapKey: non-null, at least two characters, starting with '[' and ending with ']'. */
  predicate IsMapKey(s: Option<string>)
    ensures IsMapKey(s) <==> s.Some? && |s.value| >= 2 && s.value == Wrap('[', s.value[1..|s.value| - 1], ']')
  {
    if s.Some? && |s.value| >= 2 then
      WrapInner(s.value);
      s.value[0] == '[' && s.value[|s.value| - 1] == ']'
    else false
  }

  /** getMapKey: the text inside the outer brackets, or IllegalArgumentException. */
  function GetMapKey(s: Option<string>): (r: Result<string, Error>)
    ensures r.Success? <==> IsMapKey(s)
    ensures r.Success? ==> s == Some(Wrap('[', r.value, ']'))
    ensures r.Failure? ==> r.error == IllegalArgument(s)
  {
    if IsMapKey(s) then
      WrapInner(s.value);
      Success(s.value[1..|s.value| - 1])
    else Failure(IllegalArgument(s))
  }

  /** Every bracketed text is a map key, and getMapKey gives the text back. */
  lemma MapKeyRoundTrip(k: string)
    ensures IsMapKey(Some(Wrap('[', k, ']')))
    ensures GetMapKey(Some(Wrap('[', k, ']'))) == Success(k)
  {
  }

  /** A string is a map key exactly when it is some text in brackets. */
  lemma MapKeyIffBracketed(s: Option<string>)
    ensures IsMapKey(s) <==> exists k :: s == Some(Wrap('[', k, ']'))
  {
    if IsMapKey(s) {
      WrapInner(s.value);
    }
  }

  /**
   * isCollectionIndex: non-null, longer than two characters, wrapped in
   * braces, and the inner text parses as an int that is not negative. The
   * length check adds nothing: the empty text never parses.
   */
  predicate IsCollectionIndex(s: Option<string>)
    ensures IsCollectionIndex(s) <==>
              && s.Some? && |s.value| >= 2
              && var t := s.value[1..|s.value| - 1];
                 s.value == Wrap('{', t, '}') && ParseInt(t).Some? && ParseInt(t).value >= 0
  {
    if s.Some? && |s.value| > 2 then
      WrapInner(s.value);
      && s.value[0] == '{' && s.value[|s.value| - 1] == '}'
      && var n := ParseInt(s.value[1..|s.value| - 1]); n.Some? && n.value >= 0
    else
      assert s.Some? && |s.value| == 2 ==> s.value[1..|s.value| - 1] == [];
      false
  }

  /** getCollectionIndex: the parsed index, or NumberFormatException. */
  function GetCollectionIndex(s: Option<string>): (r: Result<int32, Error>)
    ensures r.Success? <==> IsCollectionIndex(s)
    ensures r.Success? ==> r.value >= 0 && exists t :: s == Some(Wrap('{', t, '}')) && ParseInt(t) == Some(r.value)
    ensures r.Failure? ==> r.error == NumberFormat(s)
  {
    if IsCollectionIndex(s) then
      WrapInner(s.value);
      Success(ParseInt(s.value[1..|s.value| - 1]).value)
    else Failure(NumberFormat(s))
  }

  /** Every int index from 0 to Integer.MAX_VALUE, written in decimal and braced, round-trips. */
  lemma {:induction false} CollectionIndexRoundTrip(n: nat)
    requires n <= INT_MAX
    ensures IsCollectionIndex(Some(Wrap('{', DecimalString(n), '}')))
    ensures GetCollectionIndex(Some(Wrap('{', DecimalString(n), '}'))) == Success(n as int32)
  {
    ParseIntOfDecimal(n);
  }

  /** Decimal indices beyond Integer.MAX_VALUE are not collection indices. */
  lemma {:induction false} CollectionIndexOverflowRejected(n: nat)
    requires n > INT_MAX
    ensures !IsCollectionIndex(Some(Wrap('{', DecimalString(n), '}')))
    ensures GetCollectionIndex(Some(Wrap('{', DecimalString(n), '}'))).Failure?
  {
    ParseIntOfDecimal(n);
  }

  /** A string is a collection index exactly when it is braced text that parses as a non-negative int. */
  lemma CollectionIndexIffBracedNonNegative(s: Option<string>)
    ensures IsCollectionIndex(s) <==>
              exists t :: s == Some(Wrap('{', t, '}')) && ParseInt(t).Some? && ParseInt(t).value >= 0
  {
    if s.Some? && |s.value| >= 2 {
      WrapInner(s.value);
    }
  }

  /** No entry is both a map key and a collection index. */
  lemma MapKeyAndIndexDisjoint(s: Option<string>)
    ensures !(IsMapKey(s) && IsCollectionIndex(s))
  {
  }

  /** The map-key classifications the unit tests pin down. */
  lemma MapKeyExamples()
    ensures IsMapKey(Some("[foo]")) && IsMapKey(Some("[1]")) && IsMapKey(Some("[ ]")) && IsMapKey(Some("[]"))
    ensures !IsMapKey(Some("")) && !IsMapKey(None) && !IsMapKey(Some("{}")) && !IsMapKey(Some("{foo}"))
    ensures !IsMapKey(Some("[foo"))
    ensures GetMapKey(Some("[foo]")) == Success("foo") && GetMapKey(Some("[]")) == Success("")
    ensures GetMapKey(Some("[foo")) == Failure(IllegalArgument(Some("[foo")))
  {
    MapKeyRoundTrip("foo");
    assert Wrap('[', "foo", ']') == "[foo]";
    MapKeyRoundTrip("");
    assert Wrap('[', "", ']') == "[]";
  }

  /** A braced text is classified, and parsed, exactly as Integer.parseInt judges the text. */
  lemma BracedIndex(t: string)
    ensures GetCollectionIndex(Some(Wrap('{', t, '}'))) ==
              if ParseInt(t).Some? && ParseInt(t).value >= 0 then Success(ParseInt(t).value)
              else Failure(NumberFormat(Some(Wrap('{', t, '}'))))
  {
  }

  /** The collection indices the unit tests accept. */
  lemma CollectionIndexExamples()
    ensures GetCollectionIndex(Some("{1}")) == Success(1) && GetCollectionIndex(Some("{58}")) == Success(58)
  {
    ParseIntExamples();
    BracedIndex("1");
    assert Wrap('{', "1", '}') == "{1}";
    BracedIndex("58");
    assert Wrap('{', "58", '}') == "{58}";
  }

  /** The entries the unit tests reject as collection indices. */
  lemma NonCollectionIndexExamples()
    ensures !IsCollectionIndex(Some("")) && !IsCollectionIndex(None) && !IsCollectionIndex(Some("[]"))
    ensures !IsCollectionIndex(Some("{1")) && !IsCollectionIndex(Some("{}")) && !IsCollectionIndex(Some("42"))
    ensures !IsCollectionIndex(Some("{foo}")) && !IsCollectionIndex(Some("{0xAF2}")) && !IsCollectionIndex(Some("{-1}"))
  {
    assert !IsCollectionIndex(Some("{foo}")) by {
      assert "{foo}"[1..4] == "foo" && !IsDigit("foo"[0]);
    }
    assert !IsCollectionIndex(Some("{0xAF2}")) by {
      assert "{0xAF2}"[1..6] == "0xAF2" && !IsDigit("0xAF2"[1]);
    }
    assert !IsCollectionIndex(Some("{-1}")) by {
      assert "{-1}"[1..3] == "-1" && "-1"[1..] == "1";
    }
  }

  /** A braced text that parses as n >= 0 is the collection index n. */
  lemma BracedParse(t: string, n: int32)
    requires ParseInt(t) == Some(n) && n >= 0
    ensures GetCollectionIndex(Some(Wrap('{', t, '}'))) == Success(n)
  {
    BracedIndex(t);
  }

  /** Integer.parseInt lets a '+' sign, leading zeros and "-0" through. */
  lemma CollectionIndexSignExamples()
    ensures GetCollectionIndex(Some("{+3}")) == Success(3) && GetCollectionIndex(Some("{007}")) == Success(7)
    ensures GetCollectionIndex(Some("{-0}")) == Success(0)
  {
    ParseIntSignExamples();
    BracedParse("+3", 3);
    assert Wrap('{', "+3", '}') == "{+3}";
    BracedParse("007", 7);
    assert Wrap('{', "007", '}') == "{007}";
    BracedParse("-0", 0);
    assert Wrap('{', "-0", '}') == "{-0}";
  }
}
