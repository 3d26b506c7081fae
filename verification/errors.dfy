/** The error value that every NativeLink call can return, and the way a caller that
    attempts several calls merges their errors into one. */
module Errors {

  datatype Code =
    | CodeOk | Cancelled | CodeUnknown | InvalidArgument | DeadlineExceeded | NotFound
    | AlreadyExists | PermissionDenied | ResourceExhausted | FailedPrecondition | Aborted
    | OutOfRange | Unimplemented | Internal | Unavailable | DataLoss | Unauthenticated

  /** One line of an error. Texts that come from elsewhere are `Text`; each text that the
      modelled code formats itself has its own constructor, which carries the identifier
      the text names. */
  datatype Message =
    | Text(text: string)
    | Separator // the line "---"
    | WorkerDisconnected | ConnectionResultFailed | InitialConnectionFailed | AddFailed
    | WorkerNotFound(worker: int) | StaleTimestamp(timestamp: int)
    | OperationNotRunning(op: int) | InUpdateOperation
    | CommandFailed(worker: int) | RemovalRequested | TimedOut(worker: int)
    | InAddAction | ListenerHungUp

  datatype Error = Error(code: Code, messages: seq<Message>) {
    function Append(m: Message): Error {
      this.(messages := messages + [m])
    }
  }

  /** `Result<(), Error>`. */
  datatype UnitResult = Ok | Err(error: Error) {
    /** `ResultExt::merge` on unit results: the code is that of the first error. */
    function Merge(other: UnitResult): UnitResult {
      match (this, other)
      case (Ok, _) => other
      case (Err(e), Ok) => this
      case (Err(e), Err(f)) => Err(Error(e.code, e.messages + [Separator] + f.messages))
    }

    /** `ResultExt::err_tip`: an error keeps its code and gains one message. */
    function Tip(m: Message): UnitResult {
      if Ok? then Ok else Err(error.Append(m))
    }
  }

  lemma MergeIsAMonoid(a: UnitResult, b: UnitResult, c: UnitResult)
    ensures Ok.Merge(a) == a && a.Merge(Ok) == a
    ensures a.Merge(b).Merge(c) == a.Merge(b.Merge(c))
  {
    if a.Err? && b.Err? && c.Err? {
      assert a.error.messages + [Separator] + b.error.messages + [Separator] + c.error.messages
          == a.error.messages + [Separator] + (b.error.messages + [Separator] + c.error.messages);
    }
  }

  /** The accumulator loop `result = result.merge(attempt)`, started at `acc`. */
  function MergeFrom(acc: UnitResult, attempts: seq<UnitResult>): UnitResult
    decreases |attempts|
  {
    if attempts == [] then acc else MergeFrom(acc.Merge(attempts[0]), attempts[1..])
  }

  function MergeAll(attempts: seq<UnitResult>): UnitResult {
    MergeFrom(Ok, attempts)
  }

  lemma {:induction false} MergeFromAppend(acc: UnitResult, a: seq<UnitResult>, b: seq<UnitResult>)
    ensures MergeFrom(acc, a + b) == MergeFrom(MergeFrom(acc, a), b)
    decreases |a|
  {
    if a == [] {
      assert a + b == b;
    } else {
      assert (a + b)[1..] == a[1..] + b;
      MergeFromAppend(acc.Merge(a[0]), a[1..], b);
    }
  }

  /** The errors among the attempts, in the order they happened. */
  function Failures(attempts: seq<UnitResult>): (r: seq<Error>)
    ensures r == [] <==> forall i :: 0 <= i < |attempts| ==> attempts[i].Ok?
    decreases |attempts|
  {
    if attempts == [] then [] else
      (if attempts[0].Err? then [attempts[0].error] else []) + Failures(attempts[1..])
  }

  /** The messages of a list of errors with one separator between neighbours. */
  function Joined(errors: seq<Error>): seq<Message> {
    if errors == [] then []
    else if |errors| == 1 then errors[0].messages
    else errors[0].messages + [Separator] + Joined(errors[1..])
  }

  lemma {:induction false} MergeFromShift(acc: UnitResult, attempts: seq<UnitResult>)
    ensures MergeFrom(acc, attempts) == acc.Merge(MergeAll(attempts))
    decreases |attempts|
  {
    if attempts == [] {
      MergeIsAMonoid(acc, acc, acc);
    } else {
      var a, rest := attempts[0], attempts[1..];
      MergeFromShift(acc.Merge(a), rest);
      MergeFromShift(Ok.Merge(a), rest);
      MergeIsAMonoid(acc, a, MergeAll(rest));
      MergeIsAMonoid(a, a, a);
    }
  }

  /** Merging a list of attempts keeps the first failing code and every failing message,
      in order, one separator between two errors; it is `Ok` only if nothing failed. */
  lemma {:induction false} MergeAllReportsEveryFailure(attempts: seq<UnitResult>)
    ensures MergeAll(attempts) ==
      (var f := Failures(attempts); if f == [] then Ok else Err(Error(f[0].code, Joined(f))))
    decreases |attempts|
  {
    if attempts != [] {
      var rest := attempts[1..];
      MergeAllReportsEveryFailure(rest);
      MergeFromShift(Ok.Merge(attempts[0]), rest);
      if attempts[0].Err? {
        var f := Failures(rest);
        assert Failures(attempts) == [attempts[0].error] + f;
        assert ([attempts[0].error] + f)[1..] == f;
      } else {
        assert Failures(attempts) == Failures(rest);
      }
    }
  }
}
