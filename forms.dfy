/**
 * The control validators the two forms use, with the semantics of Angular's
 * built-in `Validators.required`, `Validators.minLength` and `Validators.email`.
 * The address pattern `Validators.email` tests is supplied as the predicate `isEmail`.
 */
module Forms {
  import opened Wrappers

  datatype Rule = Required | MinLength(min: nat) | Email

  /** The error a failing rule reports (`required`, `minlength`, `email`). */
  datatype ControlError = RequiredError | MinLengthError(requiredLength: nat, actualLength: nat) | EmailError

  /** `value.length` in JavaScript: the number of UTF-16 code units, so a character
      outside the Basic Multilingual Plane counts twice. */
  function JsLength(s: string): (n: nat)
    ensures |s| <= n <= 2 * |s|
    ensures n == 0 <==> |s| == 0
  {
    if s == [] then 0
    else (if s[0] as int >= 0x10000 then 2 else 1) + JsLength(s[1..])
  }

  /** One validator applied to a control value. An empty value is left to `required`:
      neither `minLength` nor `email` reports it. */
  function Check(rule: Rule, value: string, isEmail: string -> bool): Option<ControlError>
  {
    match rule
    case Required => if |value| == 0 then Some(RequiredError) else None
    case MinLength(n) => if |value| == 0 || JsLength(value) >= n then None else Some(MinLengthError(n, JsLength(value)))
    case Email => if |value| == 0 || isEmail(value) then None else Some(EmailError)
  }

  /** All errors a control with these validators reports, in rule order; none means valid. */
  function ControlErrors(rules: seq<Rule>, value: string, isEmail: string -> bool): (errs: seq<ControlError>)
    ensures errs == [] <==> forall k :: 0 <= k < |rules| ==> Check(rules[k], value, isEmail).None?
    ensures forall k :: 0 <= k < |rules| && Check(rules[k], value, isEmail).Some? ==>
      Check(rules[k], value, isEmail).value in errs
    ensures forall e :: e in errs ==> exists k :: 0 <= k < |rules| && Check(rules[k], value, isEmail) == Some(e)
  {
    if rules == [] then []
    else
      var rest := ControlErrors(rules[1..], value, isEmail);
      assert forall k :: 0 < k < |rules| ==> rules[k] == rules[1..][k - 1];
      match Check(rules[0], value, isEmail)
      case Some(e) => [e] + rest
      case None => rest
  }

  predicate ControlValid(rules: seq<Rule>, value: string, isEmail: string -> bool)
  {
    ControlErrors(rules, value, isEmail) == []
  }

  /** `error.message || fallback`: the message shown after a failed call. */
  function DisplayMessage(message: string, fallback: string): (shown: string)
    ensures message != "" ==> shown == message
    ensures message == "" ==> shown == fallback
    ensures fallback != "" ==> shown != ""
  {
    if message != "" then message else fallback
  }
}
