/**
 * The unchecked assertion helpers: the same five checks as AssertHelpers,
 * throwing IllegalStateException instead. The private null-as-false and
 * null tests are the same as in AssertHelpers and are shared from there.
 */
module UncheckedAssertHelpers {
  import opened Wrappers
  import opened JavaLang
  import Checked = AssertHelpers

  datatype IllegalStateException = IllegalStateException(message: string)

  function IsFalse(expression: Boolean, message: string): (r: Outcome<IllegalStateException>)
    ensures r.Pass? <==> expression != Boxed(true)
    ensures r.Fail? ==> r.error == IllegalStateException(message)
  {
    if !Checked.CheckIsFalse(expression) then Fail(IllegalStateException(message)) else Pass
  }

  function IsTrue(expression: Boolean, message: string): (r: Outcome<IllegalStateException>)
    ensures r.Pass? <==> expression == Boxed(true)
    ensures r.Fail? ==> r.error == IllegalStateException(message)
  {
    if Checked.CheckIsFalse(expression) then Fail(IllegalStateException(message)) else Pass
  }

  function IsNull<T>(obj: Option<T>, message: string): (r: Outcome<IllegalStateException>)
    ensures r.Pass? <==> obj.None?
    ensures r.Fail? ==> r.error == IllegalStateException(message)
  {
    if !Checked.CheckIsNull(obj) then Fail(IllegalStateException(message)) else Pass
  }

  function NotFalse(expression: Boolean, message: string): (r: Outcome<IllegalStateException>)
    ensures r.Pass? <==> expression == Boxed(true)
    ensures r.Fail? ==> r.error == IllegalStateException(message)
  {
    if Checked.CheckIsFalse(expression) then Fail(IllegalStateException(message)) else Pass
  }

  function NotNull<T>(obj: Option<T>, message: string): (r: Outcome<IllegalStateException>)
    ensures r.Pass? <==> obj.Some?
    ensures r.Fail? ==> r.error == IllegalStateException(message)
  {
    if Checked.CheckIsNull(obj) then Fail(IllegalStateException(message)) else Pass
  }

  /** notFalse is indistinguishable from isTrue. */
  lemma NotFalseIsIsTrue(expression: Boolean, message: string)
    ensures NotFalse(expression, message) == IsTrue(expression, message)
  {
  }

  /**
   * Each unchecked helper passes on exactly the inputs its checked namesake
   * passes on, and on failure both carry the same message.
   */
  lemma AgreesWithCheckedHelpers<T>(expression: Boolean, obj: Option<T>, message: string)
    ensures IsFalse(expression, message).Pass? == Checked.IsFalse(expression, message).Pass?
    ensures IsTrue(expression, message).Pass? == Checked.IsTrue(expression, message).Pass?
    ensures IsNull(obj, message).Pass? == Checked.IsNull(obj, message).Pass?
    ensures NotFalse(expression, message).Pass? == Checked.NotFalse(expression, message).Pass?
    ensures NotNull(obj, message).Pass? == Checked.NotNull(obj, message).Pass?
    ensures IsTrue(expression, message).Fail? ==>
              IsTrue(expression, message).error.message == Checked.IsTrue(expression, message).error.message
    ensures IsFalse(expression, message).Fail? ==>
              IsFalse(expression, message).error.message == Checked.IsFalse(expression, message).error.message
    ensures IsNull(obj, message).Fail? ==>
              IsNull(obj, message).error.message == Checked.IsNull(obj, message).error.message
    ensures NotFalse(expression, message).Fail? ==>
              NotFalse(expression, message).error.message == Checked.NotFalse(expression, message).error.message
    ensures NotNull(obj, message).Fail? ==>
              NotNull(obj, message).error.message == Checked.NotNull(obj, message).error.message
  {
  }
}
