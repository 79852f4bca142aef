/** The exit code the command line reports for the outcome of an action: 0 for success,
    1 for failure. */
module Command {
  import opened Wrappers

  /** A truth value as an exit code. */
  function BoolStatusCode(success: bool): (code: int)
    ensures code == 0 || code == 1
    ensures code == 0 <==> success
  {
    if success then 0 else 1
  }

  /** An optional value as an exit code: success when there is a value. */
  function OptionStatusCode<T>(o: Option<T>): (code: int)
    ensures code == 0 || code == 1
    ensures code == 0 <==> o.Some?
  {
    BoolStatusCode(o.Some?)
  }

  /** A fallible value as an exit code: success when it is not an error, whatever the value. */
  function ResultStatusCode<T, E>(r: Result<T, E>): (code: int)
    ensures code == 0 || code == 1
    ensures code == 0 <==> r.Ok?
  {
    BoolStatusCode(r.Ok?)
  }

  /** The code of a fallible value depends on whether it failed and on nothing else. */
  lemma ResultStatusCodeIgnoresValue<T, E>(r: Result<T, E>, s: Result<T, E>)
    requires r.Ok? == s.Ok?
    ensures ResultStatusCode(r) == ResultStatusCode(s)
  {
  }
}
