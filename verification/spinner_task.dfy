/** The spinner thread of deeplake/util/spinner.py (class `Spinner`) as a
    state machine. Every method body that runs under the stream lock is one
    atomic step here, and so is each step of the thread: its test of the
    hide event together with the write that depends on it. The source makes
    that test outside the lock; module Interceptor models that race
    separately. The sleeps and the 0.1 s cadence are not modelled. */
module SpinnerTask {
  import opened Text

  /** A real output stream: whether it reports itself as a terminal, and
      every chunk written to it, oldest first. Flushing has no effect on it. */
  datatype Stream = Stream(isTty: bool, trace: seq<string>)

  /** Where the background thread is: still in its start delay, in the
      render loop, or returned from `run`. */
  datatype Phase = Sleeping | Looping | Exited

  /** The spinner: the stream it was created on (`self.file`), the hide
      event, the length of the line it last left unterminated, how many
      frames it has rendered, the stop event, and the thread's phase. */
  datatype Spinner = Spinner(
    out: Stream,
    hidden: bool,
    curLineLen: nat,
    frameIdx: nat,
    stopRequested: bool,
    phase: Phase)

  /** A spinner as constructed: nothing hidden, nothing written, not started. */
  function New(out: Stream): (r: Spinner)
    ensures r.out == out && !r.hidden && !r.stopRequested && r.phase == Sleeping
    ensures r.curLineLen == 0 && r.frameIdx == 0
  {
    Spinner(out, false, 0, 0, false, Sleeping)
  }

  /** Append one chunk to the spinner's stream. */
  function Emit(s: Spinner, chunk: string): Spinner
  {
    s.(out := s.out.(trace := s.out.trace + [chunk]))
  }

  /** What `_clear_line` writes: the ANSI erase on a terminal, otherwise a
      carriage return, one blank per character last left on the line, and a
      carriage return. */
  function ClearText(isTty: bool, curLineLen: nat): (t: string)
    ensures isTty ==> t == EraseLine
    ensures !isTty ==> |t| == curLineLen + 2 && t[0] == '\r' && t[|t| - 1] == '\r'
    ensures !isTty ==> forall i :: 0 < i < |t| - 1 ==> t[i] == ' '
  {
    if isTty then EraseLine else "\r" + Spaces(curLineLen) + "\r"
  }

  /** `_clear_line`. */
  function ClearLine(s: Spinner): (r: Spinner)
    ensures r.out.trace == s.out.trace + [ClearText(s.out.isTty, s.curLineLen)]
    ensures r.curLineLen == s.curLineLen
    ensures r == s.(out := r.out) && r.out.isTty == s.out.isTty
  {
    Emit(s, ClearText(s.out.isTty, s.curLineLen))
  }

  /** `_hide_cursor`: DECTCEM off, on a terminal only. */
  function HideCursor(s: Spinner): (r: Spinner)
    ensures s.out.isTty ==> r.out.trace == s.out.trace + [HideCursorSeq]
    ensures !s.out.isTty ==> r == s
    ensures r == s.(out := r.out) && r.out.isTty == s.out.isTty
  {
    if s.out.isTty then Emit(s, HideCursorSeq) else s
  }

  /** `_show_cursor`: DECTCEM on, on a terminal only. */
  function ShowCursor(s: Spinner): (r: Spinner)
    ensures s.out.isTty ==> r.out.trace == s.out.trace + [ShowCursorSeq]
    ensures !s.out.isTty ==> r == s
    ensures r == s.(out := r.out) && r.out.isTty == s.out.isTty
  {
    if s.out.isTty then Emit(s, ShowCursorSeq) else s
  }

  /** The cursor sequences a terminal needs, and nothing otherwise. */
  function CursorText(isTty: bool, seqText: string): seq<string>
  {
    if isTty then [seqText] else []
  }

  /** `hide`: take the spinner off the line and give the cursor back. */
  function Hide(s: Spinner): (r: Spinner)
    ensures s.hidden ==> r == s
    ensures !s.hidden ==> r.hidden && r.(hidden := false, out := s.out) == s
    ensures r.out.isTty == s.out.isTty
    ensures !s.hidden ==>
      r.out.trace == s.out.trace + [ClearText(s.out.isTty, s.curLineLen)] + CursorText(s.out.isTty, ShowCursorSeq)
  {
    if !s.hidden then ShowCursor(ClearLine(s.(hidden := true))) else s
  }

  /** `show`: clear what is on the line, hide the cursor, resume rendering. */
  function Show(s: Spinner): (r: Spinner)
    ensures !s.hidden ==> r == s
    ensures s.hidden ==> !r.hidden && r.(hidden := true, out := s.out) == s
    ensures r.out.isTty == s.out.isTty
    ensures s.hidden ==>
      r.out.trace == s.out.trace + [ClearText(s.out.isTty, s.curLineLen)] + CursorText(s.out.isTty, HideCursorSeq)
  {
    if s.hidden then HideCursor(ClearLine(s.(hidden := false))) else s
  }

  /** The locked block of the render loop: the line is cleared and the next
      frame written, which leaves one character on the line. */
  function DrawFrame(s: Spinner): (r: Spinner)
    ensures r.out.trace == s.out.trace + [ClearText(s.out.isTty, s.curLineLen), [Frame(s.frameIdx)]]
    ensures r == s.(out := r.out, curLineLen := 1, frameIdx := s.frameIdx + 1) && r.out.isTty == s.out.isTty
  {
    Emit(ClearLine(s), [Frame(s.frameIdx)]).(curLineLen := 1, frameIdx := s.frameIdx + 1)
  }

  /** One iteration of the render loop of `run`, the stop test aside: a
      hidden spinner only waits; otherwise it draws the next frame. */
  function Tick(s: Spinner): (r: Spinner)
    ensures s.hidden ==> r == s
    ensures !s.hidden ==>
      r.out.trace == s.out.trace + [ClearText(s.out.isTty, s.curLineLen), [Frame(s.frameIdx)]]
    ensures !s.hidden ==> r.curLineLen == 1 && r.frameIdx == s.frameIdx + 1
    ensures r.hidden == s.hidden && r.phase == s.phase && r.stopRequested == s.stopRequested
    ensures r.out.isTty == s.out.isTty
  {
    if s.hidden then s
    else DrawFrame(s)
  }

  /** The next atomic step of the background thread. Out of the start delay
      it hides the cursor unless the spinner is hidden and enters the loop;
      in the loop it either observes the stop event and returns, or ticks. */
  function ThreadStep(s: Spinner): (r: Spinner)
    ensures s.phase == Sleeping && !s.hidden ==> r == HideCursor(s).(phase := Looping)
    ensures s.phase == Sleeping && s.hidden ==> r == s.(phase := Looping)
    ensures s.phase == Looping && s.stopRequested ==> r == s.(phase := Exited)
    ensures s.phase == Looping && !s.stopRequested ==> r == Tick(s)
    ensures s.phase == Exited ==> r == s
  {
    match s.phase
    case Sleeping => (if !s.hidden then HideCursor(s) else s).(phase := Looping)
    case Looping => if s.stopRequested then s.(phase := Exited) else Tick(s)
    case Exited => s
  }

  function PhaseRank(p: Phase): nat
  {
    match p
    case Sleeping => 2
    case Looping => 1
    case Exited => 0
  }

  /** `join` after the stop event is set: the thread runs until `run`
      returns. Once stop is requested it renders no further frame; the only
      thing it can still write is the cursor hide of a thread that had not
      left its start delay yet. */
  function Join(s: Spinner): (r: Spinner)
    requires s.stopRequested
    ensures r.phase == Exited
    ensures r.(out := s.out, phase := s.phase) == s && r.out.isTty == s.out.isTty
    ensures r.out.trace == s.out.trace
      + (if s.phase == Sleeping && !s.hidden then CursorText(s.out.isTty, HideCursorSeq) else [])
    decreases PhaseRank(s.phase)
  {
    if s.phase == Exited then s else Join(ThreadStep(s))
  }

  /** `stop`: set the stop event, join the thread, clear the line and give
      the cursor back. */
  function Stop(s: Spinner): (r: Spinner)
    ensures r.phase == Exited && r.stopRequested
    ensures r.hidden == s.hidden && r.curLineLen == s.curLineLen && r.frameIdx == s.frameIdx
    ensures r.out.isTty == s.out.isTty
    ensures r.out.trace == s.out.trace
      + (if s.phase == Sleeping && !s.hidden then CursorText(s.out.isTty, HideCursorSeq) else [])
      + [ClearText(s.out.isTty, s.curLineLen)]
      + CursorText(s.out.isTty, ShowCursorSeq)
  {
    ShowCursor(ClearLine(Join(s.(stopRequested := true))))
  }

  /** Hiding twice is hiding once. */
  lemma HideIdempotent(s: Spinner)
    ensures Hide(Hide(s)) == Hide(s)
    ensures Hide(s).hidden
  {
  }

  /** Showing twice is showing once. */
  lemma ShowIdempotent(s: Spinner)
    ensures Show(Show(s)) == Show(s)
    ensures !Show(s).hidden
  {
  }

  /** Show undoes hide: every field but the stream comes back, and the
      stream has received two clears and, on a terminal, the cursor shown
      and hidden again. */
  lemma ShowUndoesHide(s: Spinner)
    requires !s.hidden
    ensures Show(Hide(s)).(out := s.out) == s
    ensures Show(Hide(s)).out.trace == s.out.trace
      + [ClearText(s.out.isTty, s.curLineLen)] + CursorText(s.out.isTty, ShowCursorSeq)
      + [ClearText(s.out.isTty, s.curLineLen)] + CursorText(s.out.isTty, HideCursorSeq)
  {
  }

  /** On a stream that is not a terminal no cursor sequence is ever written. */
  lemma CursorOnlyOnTerminal(s: Spinner)
    requires !s.out.isTty
    ensures HideCursor(s) == s && ShowCursor(s) == s
    ensures Hide(s).out.trace == s.out.trace + (if s.hidden then [] else [ClearText(false, s.curLineLen)])
    ensures Show(s).out.trace == s.out.trace + (if s.hidden then [ClearText(false, s.curLineLen)] else [])
  {
  }

  /** n ticks from a visible spinner keep what was written and append n
      pairs, each opened by a clear. The first clear erases the recorded
      line, every later one the one-character frame before it. */
  lemma {:induction false} TicksClearBetween(s: Spinner, n: nat)
    requires !s.hidden
    ensures |TickN(s, n).out.trace| == |s.out.trace| + 2 * n
    ensures s.out.trace <= TickN(s, n).out.trace
    ensures forall j :: 0 <= j < n ==>
      TickN(s, n).out.trace[|s.out.trace| + 2 * j] == ClearText(s.out.isTty, if j == 0 then s.curLineLen else 1)
    decreases n
  {
    if n > 0 {
      TicksClearBetween(s, n - 1);
      var p := TickN(s, n - 1);
      var t := TickN(s, n).out.trace;
      var b := |s.out.trace|;
      assert t == p.out.trace + [ClearText(p.out.isTty, p.curLineLen), [Frame(p.frameIdx)]];
      assert p.curLineLen == if n == 1 then s.curLineLen else 1;
      forall j | 0 <= j < n - 1
        ensures t[b + 2 * j] == ClearText(s.out.isTty, if j == 0 then s.curLineLen else 1)
      {
        assert t[b + 2 * j] == p.out.trace[b + 2 * j];
      }
      assert t[b + 2 * (n - 1)] == ClearText(s.out.isTty, p.curLineLen);
    }
  }

  /** n ticks from a visible spinner render the next n frames, in order. */
  lemma {:induction false} TicksDrawFrames(s: Spinner, n: nat)
    requires !s.hidden
    ensures TickN(s, n).frameIdx == s.frameIdx + n
    ensures |TickN(s, n).out.trace| == |s.out.trace| + 2 * n
    ensures forall j :: 0 <= j < n ==> TickN(s, n).out.trace[|s.out.trace| + 2 * j + 1] == [Frame(s.frameIdx + j)]
    decreases n
  {
    if n > 0 {
      TicksDrawFrames(s, n - 1);
      var p := TickN(s, n - 1);
      var t := TickN(s, n).out.trace;
      var b := |s.out.trace|;
      assert t == p.out.trace + [ClearText(p.out.isTty, p.curLineLen), [Frame(p.frameIdx)]];
      forall j | 0 <= j < n - 1
        ensures t[b + 2 * j + 1] == [Frame(s.frameIdx + j)]
      {
        assert t[b + 2 * j + 1] == p.out.trace[b + 2 * j + 1];
      }
    }
  }

  /** The k-th rendered frame is the k-th symbol of `/-\|`, cyclically:
      n ticks from a visible spinner append n clear-and-frame pairs, in
      order, to what was already written. */
  lemma {:induction false} TicksCycleFrames(s: Spinner, n: nat)
    requires !s.hidden
    ensures TickN(s, n).frameIdx == s.frameIdx + n
    ensures |TickN(s, n).out.trace| == |s.out.trace| + 2 * n
    ensures s.out.trace <= TickN(s, n).out.trace
    ensures forall j :: 0 <= j < n ==>
      TickN(s, n).out.trace[|s.out.trace| + 2 * j] == ClearText(s.out.isTty, if j == 0 then s.curLineLen else 1)
    ensures forall j :: 0 <= j < n ==>
      TickN(s, n).out.trace[|s.out.trace| + 2 * j + 1] == [Frames[(s.frameIdx + j) % 4]]
  {
    TicksClearBetween(s, n);
    TicksDrawFrames(s, n);
  }

  /** n consecutive render iterations. */
  function TickN(s: Spinner, n: nat): (r: Spinner)
    ensures r.hidden == s.hidden && r.out.isTty == s.out.isTty
    decreases n
  {
    if n == 0 then s else Tick(TickN(s, n - 1))
  }
}
