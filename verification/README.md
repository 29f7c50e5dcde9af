# Terminal spinner of deeplake, as a verified state machine

`deeplake/util/spinner.py` animates a one-character spinner (`/ - \ |`) on
stdout while a decorated function runs. It swaps `sys.stdout` and
`sys.stderr` for `DummyFile` proxies, so that anything the function prints
first erases the spinner's frame, and it points the "deeplake" logger at the
stdout proxy. On the way out it puts back stdout, stderr and the logger's
handlers and clears the active spinner, whether the function returned or
raised.

This project models that core without threads or clocks:

- `text.dfy` (module `Text`): the control sequences the spinner writes.
  These are ECMA-48 EL (`\r ESC[K`) and DEC private mode 25
  (`ESC[?25l` / `ESC[?25h`). It also holds the frame set, and Python's
  `str.strip()`/`str.isspace()` as used by the proxy's blank-text test.
- `spinner_task.dfy` (module `SpinnerTask`): the `Spinner` thread as an
  immutable record. The record holds the stream (`isTty` plus an
  append-only trace of chunks), the hide and stop events, `_cur_line_len`,
  the number of frames rendered, and the thread's phase (start delay, render
  loop, returned). `_clear_line`, `_hide_cursor`, `_show_cursor`, `hide`,
  `show`, one iteration of the `run` loop, the `run` prologue, `join` and
  `stop` are pure functions on it.
- `interceptor.dfy` (module `Interceptor`): `DummyFile.write` on either
  proxy. It also models a run of the session: any interleaving of thread
  steps with foreground writes, hides and shows. The foreground steps hold
  the spinner's lock. A thread step reads the hide event and acts on it in
  one atomic step, which the source does not guarantee.
  `ThreadStepAsWritten` models the source's order, where foreground steps
  can run between the read and the write (see "## Findings").
- `session.dfy` (module `SpinnerSession`): `run_spinner` and the `spinner`
  decorator over abstract globals (`sys.stdout`, `sys.stderr`, the logger's
  handler list, `ACTIVE_SPINNER`). The wrapped function is given as its
  events and its outcome (`Returned(v)` or `Raised(e)`).
- `terminal.dfy` (module `Terminal`): a small terminal that interprets
  `\r`, `\n`, EL and mode 25. It is the independent reference that gives
  the output its meaning.
- `rendering.dfy` (module `Rendering`): what the output means on that
  terminal. Clearing leaves a blank line. A tick shows exactly one frame.
  An intercepted line lands intact on a line of its own and stays there.
  A session ends on a blank line with the cursor visible. A stream that is
  not a terminal never receives an escape character.

The start delay (`SPINNER_START_DELAY`) appears only as the thread's
`Sleeping` phase. `SPINNER_ENABLED` is the `enabled` parameter of the
session.

`hide` and `show` set or clear the hide event before they write. The
thread reads that event without taking the lock (lines 76 and 79), so it
can see the new value before the write is done; the atomic thread step of
the model does not distinguish the two orders. `_cur_line_len`
is not reset when an intercepted write ends a line. The next non-terminal
clear therefore blanks an already empty line, which is harmless.
`Rendering.LineTracked` states the weaker fact that does hold: every
visible character of the current line lies within `_cur_line_len` columns.

## Model

| member | source | states |
|---|---|---|
| `SpinnerTask.ClearText` | deeplake/util/spinner.py:111-117 | On a terminal the erase is exactly `\r ESC[K`. Otherwise it is a carriage return, one blank per recorded character, and a carriage return. |
| `SpinnerTask.ClearLine` | deeplake/util/spinner.py:111-117 | `_clear_line` appends exactly that erase. It leaves `_cur_line_len` and every other field unchanged. |
| `SpinnerTask.HideCursor` | deeplake/util/spinner.py:119-123 | On a terminal it appends `ESC[?25l`. Otherwise the spinner is left exactly as it was. |
| `SpinnerTask.ShowCursor` | deeplake/util/spinner.py:125-129 | On a terminal it appends `ESC[?25h`. Otherwise the spinner is left exactly as it was. |
| `SpinnerTask.New` | deeplake/util/spinner.py:64-71 | A fresh spinner is bound to the current stdout, is neither hidden nor stopped, has not started its thread, has rendered no frame and records an empty line. |
| `SpinnerTask.Hide` | deeplake/util/spinner.py:90-96 | A hidden spinner is unchanged. A visible one becomes hidden, and nothing else changes but the stream, which stays the same terminal or non-terminal. The stream receives a clear and, on a terminal only, the cursor-show sequence. |
| `SpinnerTask.Show` | deeplake/util/spinner.py:98-103 | A visible spinner is unchanged. A hidden one becomes visible, keeps its stream kind, and gets a clear and, on a terminal only, the cursor-hide sequence. |
| `SpinnerTask.DrawFrame` | deeplake/util/spinner.py:82-86 | The locked block of the loop writes a clear and then frame `"/-\|"[k mod 4]`, records one character on the line and counts the frame. Nothing else changes. |
| `SpinnerTask.Tick` | deeplake/util/spinner.py:75-86 | A hidden spinner writes nothing. Otherwise it writes a clear and then frame `"/-\|"[k mod 4]`, where k counts rendered frames. It then records one character on the line. |
| `SpinnerTask.ThreadStep` | deeplake/util/spinner.py:73-88 | Out of the start delay, the thread hides the cursor unless the spinner is hidden, then enters the loop. In the loop it either sees the stop event and returns, or ticks. |
| `SpinnerTask.Join` | deeplake/util/spinner.py:105-107 | Once stop is set, the thread reaches its end without rendering another frame. Its only possible output is the prologue's cursor hide, if it was still in its start delay. Each thread step is atomic here, so a step that tested the stop event before it was set is placed before `stop` (see "## Left out"). |
| `SpinnerTask.Stop` | deeplake/util/spinner.py:105-109 | After `stop` the thread has exited. The stream ends with a clear and, on a terminal, the cursor-show sequence. Hidden state, line length and frame count are untouched. |
| `SpinnerTask.HideIdempotent` | deeplake/util/spinner.py:90-96 | Hiding twice equals hiding once, and afterwards the spinner is hidden. |
| `SpinnerTask.ShowIdempotent` | deeplake/util/spinner.py:98-103 | Showing twice equals showing once, and afterwards the spinner is visible. |
| `SpinnerTask.ShowUndoesHide` | deeplake/util/spinner.py:90-103 | Show after hide restores every field but the stream. The stream has received clear, cursor shown, clear, cursor hidden, in that order. |
| `SpinnerTask.CursorOnlyOnTerminal` | deeplake/util/spinner.py:119-129 | Off a terminal, the cursor operations are identities. There, `hide` and `show` write only a clear. |
| `SpinnerTask.TicksCycleFrames` | deeplake/util/spinner.py:75-86 | n ticks of a visible spinner keep what was written and append n clear-and-frame pairs, the frames in the cyclic order of `/-\|`. The first clear erases the recorded line length, each later one the one-character frame before it. |
| `SpinnerTask.TicksClearBetween` | deeplake/util/spinner.py:82-86 | n ticks keep what was written. Each of the n pairs opens with a clear of the recorded length for the first pair, and of the one-character frame for every later pair. |
| `SpinnerTask.TicksDrawFrames` | deeplake/util/spinner.py:75-86 | The j-th of n ticks writes frame number k + j, where k counts the frames rendered before. |
| `Text.HasContentIff` | deeplake/util/spinner.py:22 | `len(text.strip()) > 0` holds exactly when the text has a character outside Python's whitespace set. |
| `Interceptor.Write` | deeplake/util/spinner.py:21-25 | Blank text changes nothing. Other text appends a clear to the spinner's stdout, then `text + "\n"` to the wrapped stream, and `_cur_line_len` is kept. |
| `Interceptor.BlankWriteIsDropped` | deeplake/util/spinner.py:21-25 | A write made only of whitespace reaches neither stream. |
| `Interceptor.VisibleWriteIsForwarded` | deeplake/util/spinner.py:21-25 | A write holding any visible character is forwarded with a line feed, right after a clear. |
| `Interceptor.ThreadStepAsWritten` | deeplake/util/spinner.py:73-88 | With no foreground step between the read of the hide event and the write that depends on it, the thread step is exactly the atomic one. Stderr gets only what the foreground steps wrote. |
| `Interceptor.RunOnlyAppends` | deeplake/util/spinner.py:21-103 | No foreground or thread step sets the stop event or rewrites anything already written to either stream. |
| `SpinnerSession.Enter` | deeplake/util/spinner.py:34-51 | Without a proxy and with spinning enabled, both streams are wrapped for this spinner, the logger is pointed at the stdout proxy only, and the spinner becomes active. Otherwise nothing changes and nothing is saved. |
| `SpinnerSession.Exit` | deeplake/util/spinner.py:53-60 | Exit of a skipped session changes nothing. Exit of an entered one puts back the saved stdout, stderr and handlers, and clears the active spinner. |
| `SpinnerSession.ExitUndoesEnter` | deeplake/util/spinner.py:53-60 | Whatever the globals are at exit, an entered session restores stdout, stderr and handlers, and clears the active spinner. A skipped session leaves the globals as it finds them. |
| `SpinnerSession.Spin` | deeplake/util/spinner.py:132-140 | The caller gets the wrapped outcome unchanged. A skipped session touches no global and starts no spinner. If it was skipped because spinning is disabled, the function's writes reach stdout and stderr as written. An entered session restores the globals and ends with the thread exited. |
| `SpinnerSession.WrittenConcat` | deeplake/util/spinner.py:48-52 | The raw texts two runs in a row send to a stream are those of the first run, then those of the second. |
| `SpinnerSession.DisabledSessionWritesThrough` | deeplake/util/spinner.py:48-52 | With spinning disabled and no proxy installed, a write reaches its stream unchanged and in order: no clear before it, no line feed added, blank text kept. The globals are left as found. |
| `SpinnerSession.SpinEndsWithStop` | deeplake/util/spinner.py:54-56 | After the run, an entered session writes: the cursor show of the `finally` block; the prologue's cursor hide, if the thread never left its start delay and the spinner is visible; a clear; and a second cursor show. Cursor sequences appear only on a terminal. Stderr and earlier output are kept. |
| `SpinnerSession.SpinRestoresGlobals` | deeplake/util/spinner.py:31-60 | From consistent globals (a proxy installed exactly when a spinner is active), every global is identical after the session, and it stays consistent during it. |
| `SpinnerSession.TeardownIgnoresOutcome` | deeplake/util/spinner.py:52-60 | A raise restores the same globals and writes the same output as a return. |
| `SpinnerSession.NestedSessionIsNoop` | deeplake/util/spinner.py:35 | With a proxy already installed, the session swaps nothing and writes nothing. |
| `Rendering.ClearLineBlanks` | deeplake/util/spinner.py:111-117 | If the recorded length covers every visible character, a clear leaves a blank line with the cursor at column 0. On a terminal the line is empty. |
| `Rendering.TickShowsFrame` | deeplake/util/spinner.py:82-86 | A rendered tick leaves exactly the frame on screen: the frame in column 0 and blanks after it. |
| `Rendering.PrintCommitsLine` | deeplake/util/spinner.py:21-25 | A write through the stdout proxy becomes a finished line of its own: the text followed only by blanks, and exactly the text on a terminal. No piece of a frame is mixed into it. |
| `Rendering.StepKeepsInv` | deeplake/util/spinner.py:73-103 | Every atomic step keeps the invariant. The line stays within `_cur_line_len`. On a terminal inside the loop, the cursor is visible exactly while the spinner is hidden. While the spinner is hidden, its line is blank. |
| `Rendering.RunKeepsInv` | deeplake/util/spinner.py:73-103 | Any interleaving keeps that invariant and never takes back a finished line. |
| `Rendering.PrologueRace` | deeplake/util/spinner.py:76-77 | In the source's order, a `hide` between the thread's test and its cursor hide leaves the loop running with the spinner hidden and the cursor invisible, which breaks the invariant. |
| `Rendering.FrameAfterHide` | deeplake/util/spinner.py:79-86 | In the source's order, a `hide` between the thread's test and its lock leaves a frame on the line of a hidden spinner, which breaks the invariant. |
| `Rendering.StopCleansUp` | deeplake/util/spinner.py:105-109 | If the recorded length covers every visible character, `stop` leaves a blank line at column 0, whatever the thread's phase. On a terminal the line is empty and the cursor is visible. |
| `Rendering.SessionLeavesTerminalClean` | deeplake/util/spinner.py:54-56 | A session that starts on a blank line ends on one. On a terminal the line is empty and the cursor is visible. Earlier lines are kept. |
| `Rendering.PrintedLineSurvives` | deeplake/util/spinner.py:21-25 | A line printed at any point of a run is the finished line right after those present when it was written. At the end of the run it is still there, intact. |
| `Rendering.DoneAndFortyTwo` | deeplake/util/spinner.py:132-140 | A function that prints "done" and returns 42, on a stream that is not a terminal: under any interleaving the caller gets 42, the globals are restored, and "done" stands on its own line. |
| `Rendering.StepNeverEscapes` | deeplake/util/spinner.py:111-129 | On a stream that is not a terminal, no step writes an escape character. |
| `Rendering.RunNeverEscapes` | deeplake/util/spinner.py:111-129 | The same holds for any interleaving of steps. |
| `Rendering.WrittenEscapeFree` | deeplake/util/spinner.py:48-52 | Escape-free writes passed straight to a stream leave no escape character in it. |
| `Rendering.SessionNeverEscapes` | deeplake/util/spinner.py:48-60 | The same holds for a whole session, exit included, and for a disabled session whose writes pass straight through. |

## Left out

- Threads, the lock, `daemon` and `join` as blocking calls are not modelled. Each locked block and each thread step is one atomic step. A run is any sequence of such steps. The source's unlocked reads of the hide event are modelled only by `Interceptor.ThreadStepAsWritten`.
- The 0.1 s cadence and the interruptible waits are not modelled. Ticks are discrete steps. The start delay is the `Sleeping` phase, and `SPINNER_ENABLED` is a parameter.
- A thread step that lands between the exit's `_show_cursor` and the setting of the stop event is placed, whole, before the exit. So is a step that tested the stop event (line 78) before line 106 sets it, and then draws a clear and a frame during `join`. The model does not interleave steps into the exit sequence. Such a frame is erased by `stop`'s clear, because `_cur_line_len` is then 1.
- Real stream objects, `flush` and the `__getattr__` forwarding of `DummyFile` are not modelled. A stream is an `isTty` flag and a trace, and flushing has no effect on it.
- `logging`, `StreamHandler` objects and the unused `configure_logger` import are not modelled. Handlers are an opaque list that is saved and restored.
- The case where `spinner.start()` raises before `spinner_started` is bound is not modelled. That is a Python `NameError` artefact, and `start` is taken to succeed.
- In a session skipped because a proxy is already installed, the function's writes go to the outer session's proxy. The outer session's streams are not part of this session's console, so `Spin` leaves that console as it found it. A session skipped because spinning is disabled is modelled: its writes reach the real streams unchanged.
- Rendering.PrintCommitsLine: states the on-screen effect only for text without escape, carriage return or line feed. For such text the result is a single line, and `Interceptor.Write` still covers every text at the trace level.
- Rendering.StepKeepsInv: assumes the written text holds no escape character, because such text could move the terminal's cursor state behind the spinner's back. It also takes each thread step as atomic: the test of the hide event (lines 76 and 79) and the cursor hide or frame that follows it. In the source these are separate, and a `hide` between them breaks the invariant (`Rendering.PrologueRace`, `Rendering.FrameAfterHide`).
- Rendering.RunKeepsInv: the same escape-free assumption for every write of the run, and the same atomic thread step, so it holds for the source only when no `hide` lands inside a thread step's test-then-act window.
- Rendering.PrintedLineSurvives: the same escape-free assumption, and single-line text for the printed line.
- Rendering.SessionLeavesTerminalClean: assumes the session starts on a blank line and that every write of the session is escape-free, as for `Rendering.RunKeepsInv`. Text left unterminated before the session is not erased by the non-terminal fallback, since `_cur_line_len` starts at 0.
- Rendering.StepNeverEscapes: assumes the written text holds no escape character. Text that does is forwarded unchanged.
- Rendering.RunNeverEscapes: the same assumption, for every write of the run.
- Rendering.SessionNeverEscapes: the same assumption, for every write of the session.

## Findings

| source | as written | input that shows it | evidently intended | confidence | as-written member | corrected member |
|---|---|---|---|---|---|---|
| deeplake/util/spinner.py:76-77 | The prologue tests the hide event and then hides the cursor. No lock covers the two. | A terminal spinner still in its start delay. The thread finds the hide event clear at line 76, the foreground calls `hide()`, which shows the cursor, and the thread then runs line 77. | After `hide()` returns the cursor stays visible until `show()`. | medium, not executed (needs that thread timing) | `Interceptor.ThreadStepAsWritten`, `Rendering.PrologueRace` | `SpinnerTask.ThreadStep`, `Rendering.RunKeepsInv` |
| deeplake/util/spinner.py:79-86 | The loop tests the hide event at line 79, before it takes the lock at line 82. | A spinner in its render loop, visible. The thread finds the hide event clear at line 79, the foreground calls `hide()` and it completes, and the thread then clears the line and writes a frame. | A hidden spinner draws nothing: after `hide()` returns its line stays blank until `show()`. | medium, not executed (needs that thread timing) | `Interceptor.ThreadStepAsWritten`, `Rendering.FrameAfterHide` | `SpinnerTask.ThreadStep`, `Rendering.RunKeepsInv` |
