/**
  * The budget check of AddTask as compiled: `Sum(...) + newTaskHours` is an
  * addition of two 32-bit `int`s in C#'s default unchecked context, so a
  * large enough new-task estimate wraps round to a negative number and
  * passes the `<= 10` comparison. The rest of the model compares without
  * wrap-around, which is what the budget check evidently means.
  */
module BudgetOverflow {

  import opened TaskList

  const INT32_MIN: int := -0x8000_0000
  const INT32_MAX: int := 0x7FFF_FFFF

  predicate IsInt32(x: int)
  {
    INT32_MIN <= x <= INT32_MAX
  }

  /** Unchecked 32-bit addition: the exact sum brought back into range modulo 2^32. */
  function AddInt32(a: int, b: int): (r: int)
    requires IsInt32(a) && IsInt32(b)
    ensures IsInt32(r)
    ensures IsInt32(a + b) ==> r == a + b
    ensures a + b > INT32_MAX ==> r == a + b - 0x1_0000_0000
    ensures a + b < INT32_MIN ==> r == a + b + 0x1_0000_0000
  {
    var s := a + b;
    if s > INT32_MAX then s - 0x1_0000_0000
    else if s < INT32_MIN then s + 0x1_0000_0000
    else s
  }

  /** `VerifyHoursWithinLimit(newTaskHours)` with the addition wrapping as in the compiled code. */
  function WithinLimitWrapped(total: int, newTaskHours: int, hoursLimit: int): (r: bool)
    requires IsInt32(total) && IsInt32(newTaskHours)
    ensures 0 <= total && 0 <= newTaskHours && total + newTaskHours <= INT32_MAX ==>
      (r <==> total + newTaskHours <= hoursLimit)
  {
    AddInt32(total, newTaskHours) <= hoursLimit
  }

  /**
    * With one task of one hour listed, a new task of int.MaxValue hours
    * passes the wrapped check, and adding it takes the total far over the
    * budget of 10.
    */
  lemma MaxHoursPassesWrappedCheck()
    ensures var s := [TaskView(1, "a", 1, false)];
      && WithinLimitWrapped(TotalHours(s), INT32_MAX, 10)
      && TotalHours(s + [TaskView(2, "b", INT32_MAX, false)]) > 10
  {
    var s := [TaskView(1, "a", 1, false)];
    var v := TaskView(2, "b", INT32_MAX, false);
    assert TotalHours(s) == 1;
    assert AddInt32(1, INT32_MAX) == INT32_MIN;
    TotalHoursAppend(s, v);
  }
}
