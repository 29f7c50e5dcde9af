/** `run_spinner` and the `spinner` decorator of deeplake/util/spinner.py:
    the process-wide state a spin session swaps out on entry and puts back
    on exit, whichever way the wrapped operation ends. */
module SpinnerSession {
  import opened Text
  import opened SpinnerTask
  import opened Interceptor

  /** The object bound to `sys.stdout` or `sys.stderr`: some stream that is
      not a proxy, or a `DummyFile` wrapping another stream for a spinner. */
  datatype StreamRef = Direct(id: nat) | Proxy(inner: StreamRef, spinnerId: nat)

  /** A handler of the "deeplake" logger: one installed elsewhere, or a
      `StreamHandler` writing to the given stream. */
  datatype Handler = ForeignHandler(id: nat) | StreamHandler(stream: StreamRef)

  datatype Option<T> = None | Some(value: T)

  /** The globals a session reads and writes: `sys.stdout`, `sys.stderr`, the
      logger's handler list and `ACTIVE_SPINNER`. */
  datatype Globals = Globals(stdout: StreamRef, stderr: StreamRef, handlers: seq<Handler>, active: Option<nat>)

  /** What entry saves for exit. */
  datatype Saved = Saved(stdout: StreamRef, stderr: StreamRef, handlers: seq<Handler>)

  /** How the wrapped operation ended: it returned a value or raised an error. */
  datatype Outcome<T, E> = Returned(value: T) | Raised(error: E)

  /** The entry guard: no proxy is installed yet and spinning is enabled. */
  predicate ShouldSpin(g: Globals, enabled: bool)
  {
    !g.stdout.Proxy? && enabled
  }

  /** Entry of `run_spinner` for spinner `id`: when the guard holds, both
      streams are wrapped in proxies, the logger is pointed at the stdout
      proxy alone and the spinner becomes the active one; otherwise nothing
      is touched and nothing is saved. */
  function Enter(g: Globals, enabled: bool, id: nat): (r: (Globals, Option<Saved>))
    ensures !ShouldSpin(g, enabled) ==> r == (g, None)
    ensures ShouldSpin(g, enabled) ==> r.1.Some? && r.0.stdout.Proxy? && r.0.stderr.Proxy?
    ensures ShouldSpin(g, enabled) ==>
      r.0.stdout.inner == g.stdout && r.0.stderr.inner == g.stderr
      && r.0.stdout.spinnerId == id && r.0.stderr.spinnerId == id
    ensures ShouldSpin(g, enabled) ==> r.0.handlers == [StreamHandler(r.0.stdout)] && r.0.active == Some(id)
  {
    if ShouldSpin(g, enabled) then
      var out := Proxy(g.stdout, id);
      (Globals(out, Proxy(g.stderr, id), [StreamHandler(out)], Some(id)), Some(Saved(g.stdout, g.stderr, g.handlers)))
    else (g, None)
  }

  /** The `finally` block of `run_spinner`, globals part: put back what was
      saved and clear the active spinner; nothing when nothing was saved. */
  function Exit(g: Globals, saved: Option<Saved>): (r: Globals)
    ensures saved.None? ==> r == g
    ensures saved.Some? ==>
      r.stdout == saved.value.stdout && r.stderr == saved.value.stderr
      && r.handlers == saved.value.handlers && r.active.None?
  {
    match saved
    case None => g
    case Some(sv) => Globals(sv.stdout, sv.stderr, sv.handlers, None)
  }

  /** Exit undoes entry whatever state the globals are in when the operation
      ends: the streams and handlers come back, the active spinner is
      cleared. When entry was skipped, exit leaves every global as it finds
      it. */
  lemma ExitUndoesEnter(g: Globals, enabled: bool, id: nat, atExit: Globals)
    ensures ShouldSpin(g, enabled) ==> Exit(atExit, Enter(g, enabled, id).1) == g.(active := None)
    ensures !ShouldSpin(g, enabled) ==> Exit(atExit, Enter(g, enabled, id).1) == atExit
  {
  }

  /** The globals seen by the operation and after the session, the final
      state of the stream the spinner was created on and of stderr, and what
      the caller receives. */
  datatype SessionRun<T, E> = SessionRun(during: Globals, after: Globals, console: Console, outcome: Outcome<T, E>)

  /** The texts that the writes among `events` send to `target`, oldest
      first, exactly as written. */
  function Written(events: seq<Event>, target: Target): seq<string>
    decreases |events|
  {
    if |events| == 0 then []
    else
      Written(events[..|events| - 1], target)
      + match events[|events| - 1]
        case Print(t, text) => if t == target then [text] else []
        case _ => []
  }

  /** The texts written by two runs in a row are those of the first run,
      then those of the second. */
  lemma {:induction false} WrittenConcat(a: seq<Event>, b: seq<Event>, target: Target)
    ensures Written(a + b, target) == Written(a, target) + Written(b, target)
    decreases |b|
  {
    if |b| == 0 {
      assert a + b == a;
    } else {
      var b' := b[..|b| - 1];
      assert (a + b)[..|a + b| - 1] == a + b';
      assert (a + b)[|a + b| - 1] == b[|b| - 1];
      WrittenConcat(a, b', target);
    }
  }

  /** An operation wrapped by the `spinner` decorator. The operation is
      given as the interleaving `events` of its writes with the spinner
      thread's steps, and the way it ended. A spinner is created on the
      current stdout `out`, with stderr `err`. If the session enters, the
      events run against the proxies, then the exit shows the cursor and
      stops the spinner. If spinning is disabled and no proxy is installed,
      no spinner runs and the operation's writes reach `out` and `err`
      unchanged. If a proxy is installed, the writes go to the outer
      session's proxy, whose streams belong to the outer session; the
      console is left as found. */
  function Spin<T, E>(g: Globals, enabled: bool, id: nat, out: Stream, err: seq<string>,
                      events: seq<Event>, outcome: Outcome<T, E>): (r: SessionRun<T, E>)
    ensures r.outcome == outcome
    ensures !ShouldSpin(g, enabled) ==> r.during == g && r.after == g && r.console.spinner == New(r.console.spinner.out)
    ensures g.stdout.Proxy? ==> r.console == Console(New(out), err)
    ensures !g.stdout.Proxy? && !enabled ==>
      r.console.spinner.out == out.(trace := out.trace + Written(events, StdOut))
      && r.console.err == err + Written(events, StdErr)
    ensures ShouldSpin(g, enabled) ==> r.after == g.(active := None)
    ensures ShouldSpin(g, enabled) ==> r.during.stdout == Proxy(g.stdout, id) && r.during.active == Some(id)
    ensures ShouldSpin(g, enabled) ==> r.console.spinner.phase == Exited
  {
    var (during, saved) := Enter(g, enabled, id);
    var c0 := Console(New(out), err);
    if saved.Some? then
      var c1 := Run(c0, events);
      RunOnlyAppends(c0, events);
      var s2 := Stop(ShowCursor(c1.spinner));
      SessionRun(during, Exit(during, saved), c1.(spinner := s2), outcome)
    else if g.stdout.Proxy? then
      SessionRun(during, Exit(during, saved), c0, outcome)
    else
      var direct := Console(New(out.(trace := out.trace + Written(events, StdOut))), err + Written(events, StdErr));
      SessionRun(during, Exit(during, saved), direct, outcome)
  }

  /** An entered session hands the spinner, after the operation's events,
      to the exit's cursor show and `stop`. */
  lemma SpinUnfolds<T, E>(g: Globals, enabled: bool, id: nat, out: Stream, err: seq<string>,
                          events: seq<Event>, outcome: Outcome<T, E>)
    requires ShouldSpin(g, enabled)
    ensures Spin(g, enabled, id, out, err, events, outcome).console
         == Run(Console(New(out), err), events).(spinner := Stop(ShowCursor(Run(Console(New(out), err), events).spinner)))
  {
  }

  /** What the exit of an entered session writes after the operation's
      events: the cursor show of the `finally` block, then `stop`, which may
      still let a thread in its start delay hide the cursor, clears the line
      and shows the cursor a second time. Stderr keeps what the run wrote. */
  lemma SpinEndsWithStop<T, E>(g: Globals, enabled: bool, id: nat, out: Stream, err: seq<string>,
                               events: seq<Event>, outcome: Outcome<T, E>)
    requires ShouldSpin(g, enabled)
    ensures var c1 := Run(Console(New(out), err), events);
      var r := Spin(g, enabled, id, out, err, events, outcome).console;
      && r.err == c1.err
      && r.spinner.out.trace == c1.spinner.out.trace
           + CursorText(out.isTty, ShowCursorSeq)
           + (if c1.spinner.phase == Sleeping && !c1.spinner.hidden then CursorText(out.isTty, HideCursorSeq) else [])
           + [ClearText(out.isTty, c1.spinner.curLineLen)]
           + CursorText(out.isTty, ShowCursorSeq)
    ensures out.trace <= Spin(g, enabled, id, out, err, events, outcome).console.spinner.out.trace
  {
    SpinUnfolds(g, enabled, id, out, err, events, outcome);
    var c0 := Console(New(out), err);
    RunOnlyAppends(c0, events);
    var s1 := Run(c0, events).spinner;
    var s2 := ShowCursor(s1);
    assert s2.out.trace == s1.out.trace + CursorText(out.isTty, ShowCursorSeq);
    assert s2.(out := s1.out) == s1;
  }

  /** The globals are consistent when a proxy is installed exactly when a
      spinner is active. */
  predicate Consistent(g: Globals)
  {
    g.active.Some? <==> g.stdout.Proxy?
  }

  /** From consistent globals a session, entered or not, leaves every global
      exactly as it found it, and the caller gets the operation's own
      return value or error. */
  lemma SpinRestoresGlobals<T, E>(g: Globals, enabled: bool, id: nat, out: Stream, err: seq<string>,
                                  events: seq<Event>, outcome: Outcome<T, E>)
    requires Consistent(g)
    ensures Spin(g, enabled, id, out, err, events, outcome).after == g
    ensures Spin(g, enabled, id, out, err, events, outcome).outcome == outcome
    ensures Consistent(Spin(g, enabled, id, out, err, events, outcome).during)
  {
  }

  /** Teardown does not depend on how the operation ended: a raise restores
      and stops exactly what a return does. */
  lemma TeardownIgnoresOutcome<T, E>(g: Globals, enabled: bool, id: nat, out: Stream, err: seq<string>,
                                     events: seq<Event>, v: T, e: E)
    ensures Spin(g, enabled, id, out, err, events, Outcome<T, E>.Returned(v)).after
         == Spin(g, enabled, id, out, err, events, Outcome<T, E>.Raised(e)).after
    ensures Spin(g, enabled, id, out, err, events, Outcome<T, E>.Returned(v)).console
         == Spin(g, enabled, id, out, err, events, Outcome<T, E>.Raised(e)).console
  {
  }

  /** A single write, with runs before and after it: its text stands
      between theirs on its own stream and adds nothing to the other. */
  lemma WrittenAround(pre: seq<Event>, text: string, post: seq<Event>)
    ensures Written(pre + [Print(StdOut, text)] + post, StdOut) == Written(pre, StdOut) + [text] + Written(post, StdOut)
    ensures Written(pre + [Print(StdOut, text)] + post, StdErr) == Written(pre, StdErr) + Written(post, StdErr)
  {
    var p := Print(StdOut, text);
    WrittenConcat(pre + [p], post, StdOut);
    WrittenConcat(pre + [p], post, StdErr);
    WrittenConcat(pre, [p], StdOut);
    WrittenConcat(pre, [p], StdErr);
    assert [p][..0] == [];
    assert Written([p], StdOut) == [text];
    assert Written([p], StdErr) == [];
  }

  /** With spinning disabled and no proxy installed, each write of the
      operation reaches its stream as it was written, in order, with no
      clear before it and no line feed added, and blank text is kept. */
  lemma DisabledSessionWritesThrough<T, E>(g: Globals, id: nat, out: Stream, err: seq<string>,
                                           pre: seq<Event>, text: string, post: seq<Event>,
                                           outcome: Outcome<T, E>)
    requires !g.stdout.Proxy?
    ensures var r := Spin(g, false, id, out, err, pre + [Print(StdOut, text)] + post, outcome);
      && r.console.spinner.out.trace == out.trace + Written(pre, StdOut) + [text] + Written(post, StdOut)
      && r.console.err == err + Written(pre, StdErr) + Written(post, StdErr)
      && r.after == g
  {
    WrittenAround(pre, text, post);
  }

  /** A second session inside a running one does nothing at all: it sees
      the proxy, starts no spinner, swaps nothing. */
  lemma NestedSessionIsNoop<T, E>(g: Globals, id: nat, out: Stream, err: seq<string>,
                                  events: seq<Event>, outcome: Outcome<T, E>)
    requires g.stdout.Proxy?
    ensures var r := Spin(g, true, id, out, err, events, outcome);
      r.during == g && r.after == g && r.console.spinner.out == out && r.console.err == err
  {
  }
}
