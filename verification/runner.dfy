/** Running a recipe: the status a recipe reports and how it is read from the exit of the
    process. The process itself is not run here: what became of it is given. */
module Runner {

  /** The outcome of a recipe, after the exit codes of monitoring plugins. */
  datatype RecipeStatus = Success | Warning | Error | Unknown

  /** The status for an exit code: 0, 1 and 2 are success, warning and error; any other
      code is unknown. */
  function FromStatusCode(code: int): (status: RecipeStatus)
    ensures status == Success <==> code == 0
    ensures status == Warning <==> code == 1
    ensures status == Error <==> code == 2
    ensures status == Unknown <==> code != 0 && code != 1 && code != 2
  {
    if code == 0 then Success
    else if code == 1 then Warning
    else if code == 2 then Error
    else Unknown
  }

  /** The exit code standing for a status, from 0 for success to 3 for unknown. */
  function ToStatusCode(status: RecipeStatus): (code: int)
    ensures 0 <= code <= 3
    ensures code == 0 <==> status == Success
  {
    match status
    case Success => 0
    case Warning => 1
    case Error => 2
    case Unknown => 3
  }

  /** Every status survives the round trip through its exit code. */
  lemma StatusCodeRoundTrip(status: RecipeStatus)
    ensures FromStatusCode(ToStatusCode(status)) == status
  {
  }

  /** An exit code survives the round trip through a status exactly when it is one of the
      four codes a status stands for. */
  lemma CodeRoundTrip(code: int)
    ensures ToStatusCode(FromStatusCode(code)) == code <==> 0 <= code <= 3
  {
  }

  /** Different statuses have different exit codes. */
  lemma ToStatusCodeInjective(s: RecipeStatus, t: RecipeStatus)
    requires ToStatusCode(s) == ToStatusCode(t)
    ensures s == t
  {
    StatusCodeRoundTrip(s);
    StatusCodeRoundTrip(t);
  }

  /** A program to start: its path, its arguments and the variables it sets in its
      environment, on top of the ones it inherits. */
  datatype Invocation = Invocation(command: string, args: seq<string>, env: map<string, string>)

  /** The environment the started program sees: the inherited variables, overridden and
      extended by the ones the invocation sets. */
  function ProcessEnvironment(inherited: map<string, string>, inv: Invocation): (env: map<string, string>)
    ensures env.Keys == inherited.Keys + inv.env.Keys
    ensures forall k :: k in inv.env ==> env[k] == inv.env[k]
    ensures forall k :: k in inherited && k !in inv.env ==> env[k] == inherited[k]
  {
    inherited + inv.env
  }

  /** What became of a started program: it could not be spawned, it exited with a code, or
      it was ended by a signal and has no code. */
  datatype ProcessOutcome = SpawnFailed | Exited(code: int) | Signalled

  /** The status of a recipe run: an error when the program could not be spawned, unknown
      when a signal ended it, else the status its exit code stands for. */
  function Run(outcome: ProcessOutcome): (status: RecipeStatus)
    ensures status == Success <==> outcome == Exited(0)
    ensures outcome.SpawnFailed? ==> status == Error
    ensures outcome.Signalled? ==> status == Unknown
    ensures outcome.Exited? ==> status == FromStatusCode(outcome.code)
  {
    match outcome
    case SpawnFailed => Error
    case Signalled => Unknown
    case Exited(code) => FromStatusCode(code)
  }

  /** A program that exits with one of the four status codes reports the status that code
      stands for, and the code is recovered from the status. */
  lemma RunReportsExitCode(code: int)
    requires 0 <= code <= 3
    ensures ToStatusCode(Run(Exited(code))) == code
  {
    CodeRoundTrip(code);
  }

  /** An error status does not tell a failed spawn from a program exiting with 2. */
  lemma RunErrorAmbiguous()
    ensures Run(SpawnFailed) == Run(Exited(2)) == Error
  {
  }
}
