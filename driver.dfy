/** The end of the shell: `main` of the main module is called, standard
    output is flushed, and the outcome is reported and, unless it is a
    success, thrown on to the engine. */
module Driver {
  import opened Runtime
  import Stdio
  import Stdlib

  /** The messages the engine throws, as strings, for a WebAssembly trap. */
  const TrapMessages: seq<string> :=
    ["unreachable",
     "memory access out of bounds",
     "divide by zero",
     "divide result unrepresentable",
     "remainder by zero",
     "integer result unrepresentable",
     "invalid function",
     "function signature mismatch"]

  /** A runtime trap: a thrown string equal to one of the trap messages. */
  predicate IsTrap(e: Thrown)
  {
    e.JsString? && e.s in TrapMessages
  }

  /** `is_runtime_trap`: anything but a string is not a trap; a string is
      compared with each message in turn. */
  method IsRuntimeTrap(e: Thrown) returns (r: bool)
    ensures r <==> IsTrap(e)
  {
    if !e.JsString? {
      return false;
    }
    var msg := 0;
    while msg < |TrapMessages|
      invariant 0 <= msg <= |TrapMessages|
      invariant forall k :: 0 <= k < msg ==> TrapMessages[k] != e.s
    {
      if e.s == TrapMessages[msg] {
        return true;
      }
      msg := msg + 1;
    }
    return false;
  }

  /** One line the shell prints. The text of an unknown exception depends
      on the engine's conversion of the value to a string, so that line
      keeps the value itself. */
  datatype Line = Printed(text: string) | UnknownException(e: Thrown)

  /** What the shell prints, and what it throws to the engine (nothing on
      success). */
  datatype Outcome = Outcome(lines: seq<Line>, rethrown: Option<Thrown>)

  /** The `catch` block: standard output is flushed, then a termination
      reports and throws the stored exit code unless it is
      `EXIT_SUCCESS`, an unimplemented feature is reported and thrown on,
      and anything else is reported as a trap or as unknown and thrown on.
      `before` is what the `try` block printed, `pending` what is still
      buffered. */
  function Caught(e: Thrown, exitCode: int, pending: string, before: seq<Line>): Outcome
  {
    var flushed := before + [Printed(pending)];
    match e
    case TerminateWasm(reason) =>
      Outcome(flushed + [Printed("Program terminated with: Terminating WebAssembly: " + reason)],
              if exitCode != Stdlib.EXIT_SUCCESS then Some(JsNumber(exitCode)) else None)
    case NotYetImplemented(what) =>
      Outcome(flushed + [Printed("Not yet implemented: " + what)], Some(e))
    case _ =>
      Outcome(flushed + [if IsTrap(e) then Printed("Runtime trap: " + e.s) else UnknownException(e)],
              Some(e))
  }

  /** The whole `try`/`catch` around `main()`, given how the call ended, the
      exit code stored by then and the output still buffered. A non-zero
      return throws an `Error` inside the `try`, which the `catch` block
      handles like any other exception. */
  function Classify(mainName: Name, result: Completion<int>, exitCode: int, pending: string): Outcome
  {
    match result
    case Return(ret) =>
      var printed := [Printed(pending), Printed(mainName + "::main() returned " + Stdlib.IntToString(ret))];
      if ret == Stdlib.EXIT_SUCCESS then Outcome(printed, None)
      else Caught(JsError(PlainError, "main reported failure"), exitCode, "", printed)
    case Throw(e) => Caught(e, exitCode, pending, [])
  }

  /** The shell ends without throwing exactly when `main` returns 0, or
      when it terminates through `exit` or `_Exit` with `EXIT_SUCCESS`
      stored. */
  lemma SucceedsExactly(mainName: Name, result: Completion<int>, exitCode: int, pending: string)
    ensures Classify(mainName, result, exitCode, pending).rethrown.None? <==>
              (result == Return(0) || (result.Throw? && result.exc.TerminateWasm? && exitCode == 0))
  {
  }

  /** A non-zero return from `main` flushes twice (the second time
      nothing is left), is reported as an unknown `Error`, and that error
      is thrown on. */
  lemma NonZeroReturnIsUnknownError(mainName: Name, ret: int, exitCode: int, pending: string)
    requires ret != 0
    ensures var err := JsError(PlainError, "main reported failure");
      Classify(mainName, Return(ret), exitCode, pending) ==
        Outcome([Printed(pending),
                 Printed(mainName + "::main() returned " + Stdlib.IntToString(ret)),
                 Printed(""),
                 UnknownException(err)],
                Some(err))
  {
  }

  /** A termination is reported, and throws the stored exit code only when
      it is not `EXIT_SUCCESS`: after `abort` (which stores 1) it is always
      thrown, after `exit(0)` never. */
  lemma TerminationThrowsExitCode(mainName: Name, reason: string, exitCode: int, pending: string)
    ensures var out := Classify(mainName, Throw(TerminateWasm(reason)), exitCode, pending);
      && out.lines == [Printed(pending), Printed("Program terminated with: Terminating WebAssembly: " + reason)]
      && (exitCode == Stdlib.EXIT_SUCCESS <==> out.rethrown.None?)
      && (exitCode != Stdlib.EXIT_SUCCESS ==> out.rethrown == Some(JsNumber(exitCode)))
  {
  }

  /** An unimplemented feature is reported and always thrown on. */
  lemma NotYetImplementedRethrown(mainName: Name, what: string, exitCode: int, pending: string)
    ensures var out := Classify(mainName, Throw(NotYetImplemented(what)), exitCode, pending);
      && out.rethrown == Some(NotYetImplemented(what))
      && out.lines == [Printed(pending), Printed("Not yet implemented: " + what)]
  {
  }

  /** Any other exception is thrown on unchanged, and reported as a trap
      exactly when it is one. */
  lemma OtherExceptionsRethrown(mainName: Name, e: Thrown, exitCode: int, pending: string)
    requires !e.TerminateWasm? && !e.NotYetImplemented?
    ensures var out := Classify(mainName, Throw(e), exitCode, pending);
      && out.rethrown == Some(e)
      && |out.lines| == 2
      && out.lines[0] == Printed(pending)
      && (IsTrap(e) ==> out.lines[1] == Printed("Runtime trap: " + e.s))
      && (!IsTrap(e) ==> out.lines[1] == UnknownException(e))
  {
  }

  /** The end of the shell, run against the state of the stub tables:
      what it prints and throws is `Classify`, and the buffer is empty
      afterwards. */
  method Finish(io: Stdio.StdoutBuffer, lib: Stdlib.StdlibState, mainName: Name, result: Completion<int>)
    returns (out: Outcome)
    modifies io
    ensures out == Classify(mainName, result, lib.exitCode, old(io.buf))
    ensures io.buf == ""
  {
    var lines: seq<Line> := [];
    var e: Thrown;
    if result.Return? {
      var ret := result.value;
      var text := io.FlushStdout();
      lines := lines + [Printed(text)];
      lines := lines + [Printed(mainName + "::main() returned " + Stdlib.IntToString(ret))];
      if ret == Stdlib.EXIT_SUCCESS {
        return Outcome(lines, None);
      }
      e := JsError(PlainError, "main reported failure");
    } else {
      e := result.exc;
    }
    var text := io.FlushStdout();
    lines := lines + [Printed(text)];
    if e.TerminateWasm? {
      lines := lines + [Printed("Program terminated with: Terminating WebAssembly: " + e.reason)];
      if lib.exitCode != Stdlib.EXIT_SUCCESS {
        return Outcome(lines, Some(JsNumber(lib.exitCode)));
      }
      return Outcome(lines, None);
    } else if e.NotYetImplemented? {
      lines := lines + [Printed("Not yet implemented: " + e.what)];
      return Outcome(lines, Some(e));
    }
    var trap := IsRuntimeTrap(e);
    if trap {
      lines := lines + [Printed("Runtime trap: " + e.s)];
    } else {
      lines := lines + [UnknownException(e)];
    }
    return Outcome(lines, Some(e));
  }
}
