/** What the spinner's output means on a terminal. Each operation is checked
    against the terminal of module Terminal: clearing leaves a blank line,
    a tick shows exactly one frame, an intercepted write lands on a clean
    line of its own, and a session leaves the line blank and the cursor
    visible. */
module Rendering {
  import opened Text
  import opened Terminal
  import opened SpinnerTask
  import opened Interceptor
  import opened SpinnerSession

  /** The stdout screen once the spinner's stream has been interpreted,
      starting from screen `init`. */
  function View(init: Screen, s: Spinner): Screen
  {
    Render(init, s.out.trace)
  }

  /** Every visible character of the current line lies within the first n
      columns, and the cursor is on the line. With n the spinner's
      `_cur_line_len`, this is what makes the non-terminal erase complete. */
  predicate LineTracked(n: nat, sc: Screen)
  {
    Wf(sc) && forall i :: 0 <= i < |sc.line| && sc.line[i] != ' ' ==> i < n
  }

  /** On a terminal, while the render loop runs the cursor is visible
      exactly when the spinner is hidden; a spinner hidden before its
      thread woke up has left the cursor visible. */
  predicate CursorTracked(s: Spinner, sc: Screen)
  {
    s.out.isTty ==>
      && (s.phase == Looping ==> (sc.cursorVisible <==> s.hidden))
      && (s.phase == Sleeping && s.hidden ==> sc.cursorVisible)
  }

  /** While the spinner is hidden, nothing of it is on the line. */
  predicate HiddenLineBlank(s: Spinner, sc: Screen)
  {
    s.hidden ==> Blank(sc.line)
  }

  predicate Inv(init: Screen, s: Spinner)
  {
    && LineTracked(s.curLineLen, View(init, s))
    && CursorTracked(s, View(init, s))
    && HiddenLineBlank(s, View(init, s))
  }

  /** No chunk holds an escape character. */
  predicate EscapeFree(trace: seq<string>)
  {
    forall i :: 0 <= i < |trace| ==> ESC !in trace[i]
  }

  /** Events whose written text holds no escape character. */
  predicate EventEscapeFree(e: Event)
  {
    e.Print? ==> ESC !in e.text
  }

  predicate EventsEscapeFree(events: seq<Event>)
  {
    forall i :: 0 <= i < |events| ==> EventEscapeFree(events[i])
  }

  lemma ViewEmit(init: Screen, s: Spinner, chunk: string)
    ensures View(init, Emit(s, chunk)) == Feed(View(init, s), chunk)
  {
    RenderSnoc(init, s.out.trace, chunk);
  }

  lemma ViewHideCursor(init: Screen, s: Spinner)
    ensures View(init, HideCursor(s))
         == if s.out.isTty then View(init, s).(cursorVisible := false) else View(init, s)
  {
    if s.out.isTty {
      ViewEmit(init, s, HideCursorSeq);
      FeedHideCursor(View(init, s));
    }
  }

  lemma ViewShowCursor(init: Screen, s: Spinner)
    ensures View(init, ShowCursor(s))
         == if s.out.isTty then View(init, s).(cursorVisible := true) else View(init, s)
  {
    if s.out.isTty {
      ViewEmit(init, s, ShowCursorSeq);
      FeedShowCursor(View(init, s));
    }
  }

  /** Interpreting escape-free text keeps the cursor on the line, keeps its
      visibility, and only ever adds finished lines. */
  lemma {:induction false} FeedEscapeFree(sc: Screen, t: string)
    requires Wf(sc) && ESC !in t
    ensures Wf(Feed(sc, t))
    ensures Feed(sc, t).cursorVisible == sc.cursorVisible
    ensures sc.lines <= Feed(sc, t).lines
    decreases |t|
  {
    if |t| > 0 {
      NoEscapeStart(t);
      assert ESC !in t[1..] by { assert forall i :: 0 <= i < |t[1..]| ==> t[1..][i] == t[i + 1]; }
      FeedEscapeFree(PutChar(sc, t[0]), t[1..]);
    }
  }

  /** `_clear_line` leaves a blank line with the cursor at column 0, on a
      terminal an empty one, as long as the recorded line length covers
      what is visible. Finished lines and the cursor are untouched. */
  lemma ClearLineBlanks(init: Screen, s: Spinner)
    requires LineTracked(s.curLineLen, View(init, s))
    ensures var v := View(init, s); var w := View(init, ClearLine(s));
      && w.lines == v.lines && w.cursorVisible == v.cursorVisible
      && w.col == 0 && Blank(w.line) && Wf(w)
    ensures s.out.isTty ==> View(init, ClearLine(s)).line == []
  {
    var v := View(init, s);
    ViewEmit(init, s, ClearText(s.out.isTty, s.curLineLen));
    if s.out.isTty {
      FeedEraseLine(v);
    } else {
      FeedBlankOut(v, s.curLineLen);
      var l := Overlay(v.line, 0, Spaces(s.curLineLen));
      forall i | 0 <= i < |l| ensures l[i] == ' ' {
        if i >= s.curLineLen { assert l[i] == v.line[i]; }
      }
    }
  }

  /** A rendered tick leaves exactly the frame on the line: the frame in
      column 0, blanks after it, the cursor after the frame. */
  lemma TickShowsFrame(init: Screen, s: Spinner)
    requires LineTracked(s.curLineLen, View(init, s)) && !s.hidden
    ensures var v := View(init, s); var w := View(init, Tick(s));
      && w.lines == v.lines && w.cursorVisible == v.cursorVisible
      && |w.line| >= 1 && w.line[0] == Frame(s.frameIdx) && Blank(w.line[1..]) && w.col == 1
    ensures s.out.isTty ==> View(init, Tick(s)).line == [Frame(s.frameIdx)]
    ensures LineTracked(Tick(s).curLineLen, View(init, Tick(s)))
  {
    var c := ClearLine(s);
    ClearLineBlanks(init, s);
    var f := Frame(s.frameIdx);
    ViewEmit(init, c, [f]);
    assert View(init, Tick(s)) == View(init, Emit(c, [f]));
    var vc := View(init, c);
    FeedChar(vc, f);
    var w := View(init, Tick(s));
    assert w.line == Overlay(vc.line, 0, [f]);
    assert forall i :: 1 <= i < |w.line| ==> w.line[i] == vc.line[i];
    assert Blank(w.line[1..]) by {
      forall i | 0 <= i < |w.line[1..]| ensures w.line[1..][i] == ' ' {
        assert w.line[1..][i] == vc.line[i + 1];
      }
    }
  }

  /** A single-line write through the stdout proxy becomes a finished line
      of its own: it starts with the text and the rest is blank; on a
      terminal it is the text exactly. The new current line is empty. */
  lemma PrintCommitsLine(init: Screen, c: Console, text: string)
    requires LineTracked(c.spinner.curLineLen, View(init, c.spinner))
    requires Plain(text) && HasContent(text)
    ensures var v := View(init, c.spinner); var w := View(init, Write(c, StdOut, text).spinner);
      && |w.lines| == |v.lines| + 1 && w.lines[..|v.lines|] == v.lines
      && |w.lines[|v.lines|]| >= |text|
      && w.lines[|v.lines|][..|text|] == text
      && Blank(w.lines[|v.lines|][|text|..])
      && w.line == [] && w.col == 0 && w.cursorVisible == v.cursorVisible
    ensures c.spinner.out.isTty ==>
      View(init, Write(c, StdOut, text).spinner).lines == View(init, c.spinner).lines + [text]
  {
    var s := ClearLine(c.spinner);
    ClearLineBlanks(init, c.spinner);
    var vc := View(init, s);
    ViewEmit(init, s, text + "\n");
    assert Write(c, StdOut, text).spinner == Emit(s, text + "\n");
    FeedLine(vc, text);
    var v := View(init, c.spinner);
    var w := View(init, Write(c, StdOut, text).spinner);
    var l := Overlay(vc.line, 0, text);
    assert w.lines == v.lines + [l];
    assert w.lines[|v.lines|] == l;
    assert l[..|text|] == text;
    assert Blank(l[|text|..]) by {
      forall i | 0 <= i < |l[|text|..]| ensures l[|text|..][i] == ' ' {
        assert l[|text|..][i] == vc.line[i + |text|];
      }
    }
    if c.spinner.out.isTty {
      assert l == text;
    }
  }

  /** The spinner's view is preserved by any single step of a running
      session whose writes hold no escape character. */
  lemma StepKeepsInv(init: Screen, c: Console, e: Event)
    requires Inv(init, c.spinner) && !c.spinner.stopRequested && EventEscapeFree(e)
    ensures Inv(init, Apply(c, e).spinner)
    ensures View(init, c.spinner).lines <= View(init, Apply(c, e).spinner).lines
  {
    var s := c.spinner;
    var v := View(init, s);
    match e
    case ThreadMoves =>
      match s.phase {
        case Sleeping =>
          if !s.hidden { ViewHideCursor(init, s); }
        case Looping =>
          if !s.hidden { TickShowsFrame(init, s); }
        case Exited =>
      }
    case Print(target, text) =>
      if HasContent(text) {
        var s1 := ClearLine(s);
        ClearLineBlanks(init, s);
        var v1 := View(init, s1);
        match target {
          case StdOut =>
            ViewEmit(init, s1, text + "\n");
            assert Apply(c, e).spinner == Emit(s1, text + "\n");
            FeedConcat(v1, text, "\n");
            FeedEscapeFree(v1, text);
          case StdErr =>
            assert Apply(c, e).spinner == s1;
        }
      }
    case HideSpinner =>
      if !s.hidden {
        var s1 := ClearLine(s.(hidden := true));
        ClearLineBlanks(init, s.(hidden := true));
        ViewShowCursor(init, s1);
      }
    case ShowSpinner =>
      if s.hidden {
        var s1 := ClearLine(s.(hidden := false));
        ClearLineBlanks(init, s.(hidden := false));
        ViewHideCursor(init, s1);
      }
  }

  /** Any interleaving of thread steps and escape-free foreground writes,
      hides and shows keeps the invariant, and finished lines are never
      taken back. */
  lemma {:induction false} RunKeepsInv(init: Screen, c: Console, events: seq<Event>)
    requires Inv(init, c.spinner) && !c.spinner.stopRequested && EventsEscapeFree(events)
    ensures Inv(init, Run(c, events).spinner)
    ensures View(init, c.spinner).lines <= View(init, Run(c, events).spinner).lines
    decreases |events|
  {
    if |events| > 0 {
      var pre := events[..|events| - 1];
      assert EventsEscapeFree(pre) by {
        forall i | 0 <= i < |pre| ensures EventEscapeFree(pre[i]) { assert pre[i] == events[i]; }
      }
      RunKeepsInv(init, c, pre);
      RunOnlyAppends(c, pre);
      StepKeepsInv(init, Run(c, pre), events[|events| - 1]);
    }
  }

  /** The prologue race of lines 76-77, as the source writes it: the
      thread reads the hide event as clear, `hide` runs to completion and
      gives the cursor back, and the thread then hides the cursor. It
      enters the loop with the spinner hidden and the cursor invisible,
      which the invariant forbids. */
  lemma PrologueRace(init: Screen, c: Console)
    requires c.spinner.out.isTty && c.spinner.phase == Sleeping && !c.spinner.hidden
    ensures var r := ThreadStepAsWritten(c, [HideSpinner]).spinner;
      && r.phase == Looping && r.hidden && !View(init, r).cursorVisible
      && !Inv(init, r)
  {
    assert Run(c, [HideSpinner]) == Apply(c, HideSpinner) by { assert [HideSpinner][..0] == []; }
    var h := Hide(c.spinner);
    ViewHideCursor(init, h);
    assert View(init, ThreadStepAsWritten(c, [HideSpinner]).spinner) == View(init, HideCursor(h));
  }

  /** The loop race of lines 79-82, as the source writes it: the thread
      reads the hide event as clear, `hide` runs to completion, and the
      thread then takes the lock and draws a frame. The spinner is hidden,
      yet its frame is on the line, which the invariant forbids. */
  lemma FrameAfterHide(init: Screen, c: Console)
    requires c.spinner.phase == Looping && !c.spinner.hidden && !c.spinner.stopRequested
    requires LineTracked(c.spinner.curLineLen, View(init, c.spinner))
    ensures var r := ThreadStepAsWritten(c, [HideSpinner]).spinner;
      && r.hidden && |View(init, r).line| >= 1 && View(init, r).line[0] == Frame(c.spinner.frameIdx)
      && !Inv(init, r)
  {
    assert Run(c, [HideSpinner]) == Apply(c, HideSpinner) by { assert [HideSpinner][..0] == []; }
    var s := c.spinner;
    var h := Hide(s);
    ClearLineBlanks(init, s.(hidden := true));
    ViewShowCursor(init, ClearLine(s.(hidden := true)));
    var u := h.(hidden := false);
    assert View(init, u) == View(init, h);
    TickShowsFrame(init, u);
    var r := ThreadStepAsWritten(c, [HideSpinner]).spinner;
    assert r == DrawFrame(h);
    assert View(init, r) == View(init, Tick(u));
    assert View(init, r).line[0] != ' ';
  }

  /** `stop` leaves a blank line with the cursor at column 0 and, on a
      terminal, an empty line and a visible cursor, whatever phase the
      thread was in and whether or not the spinner was hidden. */
  lemma StopCleansUp(init: Screen, s: Spinner)
    requires LineTracked(s.curLineLen, View(init, s))
    ensures var v := View(init, s); var w := View(init, Stop(s));
      && w.lines == v.lines && Blank(w.line) && w.col == 0
    ensures s.out.isTty ==> View(init, Stop(s)).line == [] && View(init, Stop(s)).cursorVisible
  {
    var s0 := s.(stopRequested := true);
    var j := Join(s0);
    assert View(init, s0) == View(init, s);
    if s0.phase == Sleeping && !s0.hidden && s0.out.isTty {
      assert j.out.trace == s0.out.trace + [HideCursorSeq];
      assert j == Emit(j.(out := s0.out), HideCursorSeq);
      ViewEmit(init, j.(out := s0.out), HideCursorSeq);
      assert View(init, j.(out := s0.out)) == View(init, s);
      FeedHideCursor(View(init, s));
    } else {
      assert j.out.trace == s0.out.trace;
    }
    assert View(init, j).line == View(init, s).line && View(init, j).col == View(init, s).col;
    ClearLineBlanks(init, j);
    ViewShowCursor(init, ClearLine(j));
  }

  /** A spinner as created, on a stream whose current line is blank, meets
      the invariant. */
  lemma NewSpinnerInv(init: Screen, out: Stream)
    requires Wf(Render(init, out.trace)) && Blank(Render(init, out.trace).line)
    ensures Inv(init, New(out))
  {
  }

  /** A session that enters and starts on a blank line ends on a blank
      line, with the cursor at column 0 and, on a terminal, an empty line
      and a visible cursor; the finished lines written before are kept. */
  lemma SessionLeavesTerminalClean<T, E>(init: Screen, g: Globals, enabled: bool, id: nat, out: Stream,
                                         err: seq<string>, events: seq<Event>, outcome: Outcome<T, E>)
    requires ShouldSpin(g, enabled)
    requires Wf(Render(init, out.trace)) && Blank(Render(init, out.trace).line)
    requires EventsEscapeFree(events)
    ensures var w := View(init, Spin(g, enabled, id, out, err, events, outcome).console.spinner);
      && Blank(w.line) && w.col == 0 && Render(init, out.trace).lines <= w.lines
    ensures out.isTty ==>
      View(init, Spin(g, enabled, id, out, err, events, outcome).console.spinner).line == []
      && View(init, Spin(g, enabled, id, out, err, events, outcome).console.spinner).cursorVisible
  {
    var c0 := Console(New(out), err);
    SpinUnfolds(g, enabled, id, out, err, events, outcome);
    NewSpinnerInv(init, out);
    RunKeepsInv(init, c0, events);
    RunOnlyAppends(c0, events);
    var s1 := Run(c0, events).spinner;
    assert LineTracked(s1.curLineLen, View(init, s1));
    assert View(init, c0.spinner) == Render(init, out.trace);
    ViewShowCursor(init, s1);
    var s2 := ShowCursor(s1);
    assert View(init, s2).line == View(init, s1).line && View(init, s2).lines == View(init, s1).lines;
    StopCleansUp(init, s2);
    assert Spin(g, enabled, id, out, err, events, outcome).console.spinner == Stop(s2);
  }

  /** On a stream that is not a terminal the spinner writes no escape
      character in any step, so logs and files stay free of control
      sequences. */
  lemma StepNeverEscapes(c: Console, e: Event)
    requires !c.spinner.out.isTty && EscapeFree(c.spinner.out.trace) && EventEscapeFree(e)
    ensures EscapeFree(Apply(c, e).spinner.out.trace)
  {
  }

  lemma {:induction false} RunNeverEscapes(c: Console, events: seq<Event>)
    requires !c.spinner.out.isTty && EscapeFree(c.spinner.out.trace) && EventsEscapeFree(events)
    ensures EscapeFree(Run(c, events).spinner.out.trace)
    decreases |events|
  {
    if |events| > 0 {
      var pre := events[..|events| - 1];
      assert EventsEscapeFree(pre) by {
        forall i | 0 <= i < |pre| ensures EventEscapeFree(pre[i]) { assert pre[i] == events[i]; }
      }
      RunNeverEscapes(c, pre);
      RunOnlyAppends(c, pre);
      StepNeverEscapes(Run(c, pre), events[|events| - 1]);
    }
  }

  lemma EventsEscapeFreeSlice(events: seq<Event>, i: nat, j: nat)
    requires EventsEscapeFree(events) && i <= j <= |events|
    ensures EventsEscapeFree(events[i..j])
  {
    forall x | 0 <= x < j - i ensures EventEscapeFree(events[i..j][x]) {
      assert events[i..j][x] == events[i + x];
    }
  }

  /** Some finished line starts with the text and is blank after it. */
  predicate ShowsLine(lines: seq<string>, text: string)
  {
    exists j :: 0 <= j < |lines| && |lines[j]| >= |text| && lines[j][..|text|] == text && Blank(lines[j][|text|..])
  }

  /** A line written through the stdout proxy at any point of a run is still
      on the screen, intact, when the run is over: it is the finished line
      right after those present when it was written, and no frame, clear or
      later write can take it back. */
  lemma PrintedLineSurvives(init: Screen, c: Console, events: seq<Event>, k: nat, text: string)
    requires Inv(init, c.spinner) && !c.spinner.stopRequested && EventsEscapeFree(events)
    requires k < |events| && events[k] == Print(StdOut, text) && Plain(text) && HasContent(text)
    ensures var m := |View(init, Run(c, events[..k]).spinner).lines|;
      var lines := View(init, Run(c, events).spinner).lines;
      && m < |lines| && |lines[m]| >= |text| && lines[m][..|text|] == text && Blank(lines[m][|text|..])
  {
    var pre := events[..k];
    EventsEscapeFreeSlice(events, 0, k);
    RunKeepsInv(init, c, pre);
    RunOnlyAppends(c, pre);
    var cp := Run(c, pre);
    var c1 := Apply(cp, events[k]);
    assert events[..k + 1][..k] == pre;
    assert Run(c, events[..k + 1]) == c1;
    PrintCommitsLine(init, cp, text);
    var m := |View(init, cp.spinner).lines|;
    var lines1 := View(init, c1.spinner).lines;
    assert |lines1[m]| >= |text| && lines1[m][..|text|] == text && Blank(lines1[m][|text|..]);
    StepKeepsInv(init, cp, events[k]);
    RunOnlyAppends(cp, [events[k]]);
    assert Run(cp, [events[k]]) == c1 by { assert [events[k]][..0] == []; }
    RunSplit(c, events, k + 1);
    EventsEscapeFreeSlice(events, k + 1, |events|);
    RunKeepsInv(init, c1, events[k + 1..]);
    var linesEnd := View(init, Run(c, events).spinner).lines;
    assert lines1 <= linesEnd;
    assert linesEnd[m] == lines1[m];
  }

  /** The scenario of a wrapped operation that prints "done" and returns 42,
      on a stream that is not a terminal, from consistent globals and a
      blank line: whatever the interleaving with the spinner, the caller
      gets 42, every global is as before, and "done" stands on a finished
      line of its own, followed only by blanks. */
  lemma DoneAndFortyTwo(init: Screen, g: Globals, id: nat, out: Stream, err: seq<string>,
                        events: seq<Event>, k: nat)
    requires Consistent(g) && ShouldSpin(g, true) && !out.isTty
    requires Wf(Render(init, out.trace)) && Blank(Render(init, out.trace).line)
    requires EventsEscapeFree(events) && k < |events| && events[k] == Print(StdOut, "done")
    ensures var r := Spin(g, true, id, out, err, events, Outcome<int, string>.Returned(42));
      && r.outcome == Returned(42) && r.after == g
      && ShowsLine(View(init, r.console.spinner).lines, "done")
  {
    var o := Outcome<int, string>.Returned(42);
    SpinRestoresGlobals(g, true, id, out, err, events, o);
    HasContentIff("done");
    assert !IsSpace("done"[0]);
    var c0 := Console(New(out), err);
    NewSpinnerInv(init, out);
    PrintedLineSurvives(init, c0, events, k, "done");
    var m := |View(init, Run(c0, events[..k]).spinner).lines|;
    RunKeepsInv(init, c0, events);
    RunOnlyAppends(c0, events);
    var s1 := Run(c0, events).spinner;
    ViewShowCursor(init, s1);
    var s2 := ShowCursor(s1);
    StopCleansUp(init, s2);
    SpinUnfolds(g, true, id, out, err, events, o);
    assert View(init, Stop(s2)).lines == View(init, s1).lines;
    var lines := View(init, Stop(s2)).lines;
    assert m < |lines| && |lines[m]| >= 4 && lines[m][..4] == "done" && Blank(lines[m][4..]);
  }

  /** The texts an escape-free run sends to a stream hold no escape
      character. */
  lemma {:induction false} WrittenEscapeFree(events: seq<Event>, target: Target)
    requires EventsEscapeFree(events)
    ensures EscapeFree(Written(events, target))
    decreases |events|
  {
    if |events| > 0 {
      var pre := events[..|events| - 1];
      EventsEscapeFreeSlice(events, 0, |events| - 1);
      WrittenEscapeFree(pre, target);
      assert EventEscapeFree(events[|events| - 1]);
    }
  }

  /** A whole session on a stream that is not a terminal, exit included,
      writes no escape character. */
  lemma SessionNeverEscapes<T, E>(g: Globals, enabled: bool, id: nat, out: Stream, err: seq<string>,
                                  events: seq<Event>, outcome: Outcome<T, E>)
    requires !out.isTty && EscapeFree(out.trace) && EventsEscapeFree(events)
    ensures EscapeFree(Spin(g, enabled, id, out, err, events, outcome).console.spinner.out.trace)
  {
    if ShouldSpin(g, enabled) {
      var c0 := Console(New(out), err);
      RunNeverEscapes(c0, events);
      RunOnlyAppends(c0, events);
      var s1 := Run(c0, events).spinner;
      SpinUnfolds(g, enabled, id, out, err, events, outcome);
      var clear := ClearText(false, s1.curLineLen);
      assert ESC !in clear by {
        forall i | 0 <= i < |clear| ensures clear[i] != ESC {
          if 0 < i < |clear| - 1 { assert clear[i] == ' '; }
        }
      }
      assert Stop(ShowCursor(s1)).out.trace == s1.out.trace + [clear];
    } else if !g.stdout.Proxy? {
      WrittenEscapeFree(events, StdOut);
    }
  }
}
