/**
 * The checked assertion helpers: each check either returns normally or
 * throws an AssertException carrying the caller's message. A null Boolean
 * counts as false.
 */
module AssertHelpers {
  import opened Wrappers
  import opened JavaLang

  datatype AssertException = AssertException(message: string)

  /** True for FALSE and for null: only TRUE is "not false". */
  predicate CheckIsFalse(expression: Boolean)
    ensures CheckIsFalse(expression) <==> expression != Boxed(true)
  {
    expression == NullBoolean || !expression.b
  }

  predicate CheckIsNull<T>(obj: Option<T>)
    ensures CheckIsNull(obj) <==> obj == None
  {
    obj.None?
  }

  function IsFalse(expression: Boolean, message: string): (r: Outcome<AssertException>)
    ensures r.Pass? <==> expression != Boxed(true)
    ensures r.Fail? ==> r.error == AssertException(message)
  {
    if !CheckIsFalse(expression) then Fail(AssertException(message)) else Pass
  }

  function IsTrue(expression: Boolean, message: string): (r: Outcome<AssertException>)
    ensures r.Pass? <==> expression == Boxed(true)
    ensures r.Fail? ==> r.error == AssertException(message)
  {
    if CheckIsFalse(expression) then Fail(AssertException(message)) else Pass
  }

  function IsNull<T>(obj: Option<T>, message: string): (r: Outcome<AssertException>)
    ensures r.Pass? <==> obj.None?
    ensures r.Fail? ==> r.error == AssertException(message)
  {
    if !CheckIsNull(obj) then Fail(AssertException(message)) else Pass
  }

  function NotFalse(expression: Boolean, message: string): (r: Outcome<AssertException>)
    ensures r.Pass? <==> expression == Boxed(true)
    ensures r.Fail? ==> r.error == AssertException(message)
  {
    if CheckIsFalse(expression) then Fail(AssertException(message)) else Pass
  }

  function NotNull<T>(obj: Option<T>, message: string): (r: Outcome<AssertException>)
    ensures r.Pass? <==> obj.Some?
    ensures r.Fail? ==> r.error == AssertException(message)
  {
    if CheckIsNull(obj) then Fail(AssertException(message)) else Pass
  }

  /** A null Boolean is judged exactly as FALSE by both boolean checks. */
  lemma NullActsAsFalse(message: string)
    ensures IsTrue(NullBoolean, message) == IsTrue(Boxed(false), message)
    ensures IsFalse(NullBoolean, message) == IsFalse(Boxed(false), message)
  {
  }

  /** notFalse is indistinguishable from isTrue. */
  lemma NotFalseIsIsTrue(expression: Boolean, message: string)
    ensures NotFalse(expression, message) == IsTrue(expression, message)
  {
  }

  /** For every tri-state input exactly one of isTrue and isFalse passes. */
  lemma ExactlyOneOfIsTrueIsFalse(expression: Boolean, m1: string, m2: string)
    ensures IsTrue(expression, m1).Pass? != IsFalse(expression, m2).Pass?
  {
  }

  /** For every reference exactly one of isNull and notNull passes. */
  lemma ExactlyOneOfIsNullNotNull<T>(obj: Option<T>, m1: string, m2: string)
    ensures IsNull(obj, m1).Pass? != NotNull(obj, m2).Pass?
  {
  }
}
