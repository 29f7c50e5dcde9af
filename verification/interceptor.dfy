/** The stream proxy `DummyFile` of deeplake/util/spinner.py, and the
    interleaving of foreground writes with the spinner thread. A run is a
    sequence of atomic steps: the foreground's writes, hides and shows each
    hold the spinner's lock, and a thread step is taken to read the hide
    event and act on it at once. `ThreadStepAsWritten` drops that last
    assumption. */
module Interceptor {
  import opened Text
  import opened SpinnerTask

  /** Which real stream a proxy wraps. */
  datatype Target = StdOut | StdErr

  /** The two real streams while a spinner is active. The spinner was created
      on the real stdout, so that stream lives inside it; stderr is only ever
      appended to. */
  datatype Console = Console(spinner: Spinner, err: seq<string>)

  /** `DummyFile.write`: blank text is dropped; anything else clears the
      spinner's line (on stdout, whichever stream is written) and is then
      written with a line feed appended. */
  function Write(c: Console, target: Target, text: string): (r: Console)
    ensures !HasContent(text) ==> r == c
    ensures HasContent(text) && target == StdOut ==>
      r.spinner.out.trace
        == c.spinner.out.trace + [ClearText(c.spinner.out.isTty, c.spinner.curLineLen), text + "\n"]
      && r.err == c.err
    ensures HasContent(text) && target == StdErr ==>
      r.spinner.out.trace == c.spinner.out.trace + [ClearText(c.spinner.out.isTty, c.spinner.curLineLen)]
      && r.err == c.err + [text + "\n"]
    ensures r.spinner == c.spinner.(out := r.spinner.out) && r.spinner.out.isTty == c.spinner.out.isTty
  {
    if HasContent(text) then
      var s := ClearLine(c.spinner);
      match target
      case StdOut => Console(Emit(s, text + "\n"), c.err)
      case StdErr => Console(s, c.err + [text + "\n"])
    else c
  }

  /** One atomic step of a running session: the background thread moves,
      the wrapped operation writes to a proxy, or it hides or shows the
      spinner. */
  datatype Event =
    | ThreadMoves
    | Print(target: Target, text: string)
    | HideSpinner
    | ShowSpinner

  function Apply(c: Console, e: Event): Console
  {
    match e
    case ThreadMoves => c.(spinner := ThreadStep(c.spinner))
    case Print(target, text) => Write(c, target, text)
    case HideSpinner => c.(spinner := Hide(c.spinner))
    case ShowSpinner => c.(spinner := Show(c.spinner))
  }

  /** A whole interleaving, oldest event first. */
  function Run(c: Console, events: seq<Event>): Console
    decreases |events|
  {
    if |events| == 0 then c else Apply(Run(c, events[..|events| - 1]), events[|events| - 1])
  }

  /** Nothing in a run sets the stop event, and every step only appends to
      the two streams: the prefix written before the run is never altered. */
  lemma {:induction false} RunOnlyAppends(c: Console, events: seq<Event>)
    ensures Run(c, events).spinner.stopRequested == c.spinner.stopRequested
    ensures Run(c, events).spinner.out.isTty == c.spinner.out.isTty
    ensures c.spinner.out.trace <= Run(c, events).spinner.out.trace
    ensures c.err <= Run(c, events).err
    decreases |events|
  {
    if |events| > 0 {
      RunOnlyAppends(c, events[..|events| - 1]);
    }
  }

  /** Blank writes reach neither stream. */
  lemma BlankWriteIsDropped(c: Console, target: Target, text: string)
    requires forall i :: 0 <= i < |text| ==> IsSpace(text[i])
    ensures Write(c, target, text) == c
  {
    HasContentIff(text);
  }

  /** A write with a visible character always reaches its stream, right
      after a clear of the spinner's line. */
  lemma VisibleWriteIsForwarded(c: Console, target: Target, text: string, k: nat)
    requires k < |text| && !IsSpace(text[k])
    ensures HasContent(text)
    ensures target == StdOut ==>
      Write(c, target, text).spinner.out.trace == c.spinner.out.trace + [ClearText(c.spinner.out.isTty, c.spinner.curLineLen), text + "\n"]
    ensures target == StdErr ==> Write(c, target, text).err == c.err + [text + "\n"]
  {
    HasContentIff(text);
  }

  /** The thread's step as the source writes it. The hide event is read
      before the prologue's cursor hide (lines 76-77, which take no lock)
      and before the loop takes the lock to draw (lines 79-82), so the
      foreground steps `gap` can run between that read and the write that
      depends on it. With no gap this is the atomic `ThreadStep`. */
  function ThreadStepAsWritten(c: Console, gap: seq<Event>): (r: Console)
    requires forall i :: 0 <= i < |gap| ==> !gap[i].ThreadMoves?
    ensures gap == [] ==> r == Apply(c, ThreadMoves)
    ensures r.err == Run(c, gap).err
  {
    var sawHidden := c.spinner.hidden;
    var m := Run(c, gap);
    var s := m.spinner;
    match c.spinner.phase
    case Sleeping => m.(spinner := (if !sawHidden then HideCursor(s) else s).(phase := Looping))
    case Looping =>
      if s.stopRequested then m.(spinner := s.(phase := Exited))
      else if sawHidden then m
      else m.(spinner := DrawFrame(s))
    case Exited => m
  }

  /** A run splits at any point into the run of its prefix followed by the
      run of the rest. */
  lemma {:induction false} RunSplit(c: Console, events: seq<Event>, k: nat)
    requires k <= |events|
    ensures Run(c, events) == Run(Run(c, events[..k]), events[k..])
    decreases |events|
  {
    if k == |events| {
      assert events[..k] == events;
      assert events[k..] == [];
    } else {
      var n := |events|;
      var pre := events[..n - 1];
      var mid := Run(c, events[..k]);
      var rest := events[k..];
      RunSplit(c, pre, k);
      assert pre[..k] == events[..k];
      assert Run(c, pre) == Run(mid, pre[k..]);
      assert rest[..|rest| - 1] == pre[k..];
      assert rest[|rest| - 1] == events[n - 1];
      calc {
        Run(mid, rest);
        Apply(Run(mid, rest[..|rest| - 1]), rest[|rest| - 1]);
        Apply(Run(mid, pre[k..]), events[n - 1]);
        Apply(Run(c, pre), events[n - 1]);
        Run(c, events);
      }
    }
  }
}
