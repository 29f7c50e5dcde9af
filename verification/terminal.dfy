/** A minimal terminal: what a reader of the stream sees once the chunks
    written to it have been interpreted. It understands carriage return,
    line feed, ECMA-48 EL (erase to end of line) and DEC private mode 25
    (cursor visibility); every other character is printed in place.
    This is the reference against which the spinner's output is judged. */
module Terminal {
  import opened Text

  /** Finished lines, the line being written, the cursor column and whether
      the cursor is shown. */
  datatype Screen = Screen(lines: seq<string>, line: string, col: nat, cursorVisible: bool)

  /** The cursor never stands beyond the end of the current line. */
  predicate Wf(sc: Screen)
  {
    sc.col <= |sc.line|
  }

  /** Only blanks on the line. */
  predicate Blank(l: string)
  {
    forall i :: 0 <= i < |l| ==> l[i] == ' '
  }

  /** Text that prints in place: no escape, carriage return or line feed. */
  predicate Plain(t: string)
  {
    forall i :: 0 <= i < |t| ==> t[i] != ESC && t[i] != '\r' && t[i] != '\n'
  }

  /** Line l with t written over it from column c onwards. */
  function Overlay(l: string, c: nat, t: string): (r: string)
    requires c <= |l|
    ensures |r| == if c + |t| <= |l| then |l| else c + |t|
    ensures forall i :: 0 <= i < |r| ==> r[i] == if c <= i < c + |t| then t[i - c] else l[i]
  {
    l[..c] + t + (if c + |t| <= |l| then l[c + |t|..] else [])
  }

  function PutChar(sc: Screen, ch: char): Screen
  {
    if ch == '\r' then sc.(col := 0)
    else if ch == '\n' then sc.(lines := sc.lines + [sc.line], line := [], col := 0)
    else if sc.col < |sc.line| then sc.(line := sc.line[sc.col := ch], col := sc.col + 1)
    else sc.(line := sc.line + [ch], col := sc.col + 1)
  }

  /** ECMA-48 EL with its default parameter: erase from the cursor to the end of the line. */
  const EraseToEnd: string := "\U{1B}[K"

  predicate StartsWith(s: string, p: string)
  {
    |p| <= |s| && s[..|p|] == p
  }

  lemma StartsWithAt(s: string, p: string, k: nat)
    requires StartsWith(s, p) && k < |p|
    ensures s[k] == p[k]
  {
    assert s[..|p|][k] == s[k];
  }

  /** Interpret one chunk. */
  function Feed(sc: Screen, s: string): Screen
    decreases |s|
  {
    if |s| == 0 then sc
    else if StartsWith(s, EraseToEnd) then
      Feed(sc.(line := if sc.col <= |sc.line| then sc.line[..sc.col] else sc.line), s[3..])
    else if StartsWith(s, HideCursorSeq) then
      Feed(sc.(cursorVisible := false), s[6..])
    else if StartsWith(s, ShowCursorSeq) then
      Feed(sc.(cursorVisible := true), s[6..])
    else Feed(PutChar(sc, s[0]), s[1..])
  }

  /** Interpret a whole trace of chunks, oldest first. */
  function Render(sc: Screen, trace: seq<string>): Screen
    decreases |trace|
  {
    if |trace| == 0 then sc else Feed(Render(sc, trace[..|trace| - 1]), trace[|trace| - 1])
  }

  lemma RenderSnoc(sc: Screen, trace: seq<string>, chunk: string)
    ensures Render(sc, trace + [chunk]) == Feed(Render(sc, trace), chunk)
  {
    assert (trace + [chunk])[..|trace|] == trace;
  }

  /** A chunk that does not open with ESC starts with an ordinary character. */
  lemma NoEscapeStart(s: string)
    requires |s| > 0 && s[0] != ESC
    ensures !StartsWith(s, EraseToEnd) && !StartsWith(s, HideCursorSeq) && !StartsWith(s, ShowCursorSeq)
  {
    if StartsWith(s, EraseToEnd) { StartsWithAt(s, EraseToEnd, 0); }
    if StartsWith(s, HideCursorSeq) { StartsWithAt(s, HideCursorSeq, 0); }
    if StartsWith(s, ShowCursorSeq) { StartsWithAt(s, ShowCursorSeq, 0); }
  }

  /** An escape-free prefix is interpreted on its own. */
  lemma {:induction false} FeedConcat(sc: Screen, a: string, b: string)
    requires ESC !in a
    ensures Feed(sc, a + b) == Feed(Feed(sc, a), b)
    decreases |a|
  {
    if |a| == 0 {
      assert a + b == b;
    } else {
      var ab := a + b;
      assert ab[0] == a[0] && a[0] != ESC;
      NoEscapeStart(ab);
      NoEscapeStart(a);
      assert ab[1..] == a[1..] + b;
      FeedConcat(PutChar(sc, a[0]), a[1..], b);
    }
  }

  /** An ordinary character overwrites the cell under the cursor, or extends the line. */
  lemma PutCharPlain(sc: Screen, ch: char)
    requires Wf(sc) && ch != '\r' && ch != '\n'
    ensures PutChar(sc, ch) == sc.(line := Overlay(sc.line, sc.col, [ch]), col := sc.col + 1)
  {
    var l1 := Overlay(sc.line, sc.col, [ch]);
    if sc.col < |sc.line| {
      assert sc.line[sc.col := ch] == l1;
    } else {
      assert sc.line + [ch] == l1;
    }
  }

  /** Writing t[0] and then the rest is writing t. */
  lemma OverlayStep(l: string, c: nat, t: string)
    requires c <= |l| && |t| > 0
    ensures Overlay(Overlay(l, c, [t[0]]), c + 1, t[1..]) == Overlay(l, c, t)
  {
    var l1 := Overlay(l, c, [t[0]]);
    var l2 := Overlay(l1, c + 1, t[1..]);
    var l3 := Overlay(l, c, t);
    assert |l2| == |l3|;
    forall i | 0 <= i < |l2| ensures l2[i] == l3[i] {
      if c + 1 <= i < c + |t| {
        assert l2[i] == t[1..][i - c - 1];
      }
    }
  }

  lemma PlainTail(t: string)
    requires Plain(t) && |t| > 0
    ensures Plain(t[1..])
  {
    forall i | 0 <= i < |t[1..]| ensures t[1..][i] != ESC && t[1..][i] != '\r' && t[1..][i] != '\n' {
      assert t[1..][i] == t[i + 1];
    }
  }

  /** Plain text is written over the line from the cursor onwards. */
  lemma {:induction false} FeedPlain(sc: Screen, t: string)
    requires Wf(sc) && Plain(t)
    ensures Feed(sc, t) == sc.(line := Overlay(sc.line, sc.col, t), col := sc.col + |t|)
    decreases |t|
  {
    if |t| == 0 {
      assert Overlay(sc.line, sc.col, t) == sc.line;
    } else {
      assert t[0] != ESC && t[0] != '\r' && t[0] != '\n';
      NoEscapeStart(t);
      var sc1 := PutChar(sc, t[0]);
      assert Feed(sc, t) == Feed(sc1, t[1..]);
      PutCharPlain(sc, t[0]);
      PlainTail(t);
      FeedPlain(sc1, t[1..]);
      OverlayStep(sc.line, sc.col, t);
    }
  }

  lemma FeedEraseLine(sc: Screen)
    ensures Feed(sc, EraseLine) == sc.(line := [], col := 0)
  {
    var s := EraseLine;
    NoEscapeStart(s);
    assert s[1..] == EraseToEnd;
    var sc1 := PutChar(sc, '\r');
    assert Feed(sc, s) == Feed(sc1, EraseToEnd);
    assert StartsWith(EraseToEnd, EraseToEnd);
    assert EraseToEnd[3..] == [];
  }

  lemma FeedHideCursor(sc: Screen)
    ensures Feed(sc, HideCursorSeq) == sc.(cursorVisible := false)
  {
    if StartsWith(HideCursorSeq, EraseToEnd) { StartsWithAt(HideCursorSeq, EraseToEnd, 2); }
    assert StartsWith(HideCursorSeq, HideCursorSeq);
    assert HideCursorSeq[6..] == [];
  }

  lemma FeedShowCursor(sc: Screen)
    ensures Feed(sc, ShowCursorSeq) == sc.(cursorVisible := true)
  {
    if StartsWith(ShowCursorSeq, EraseToEnd) { StartsWithAt(ShowCursorSeq, EraseToEnd, 2); }
    if StartsWith(ShowCursorSeq, HideCursorSeq) { StartsWithAt(ShowCursorSeq, HideCursorSeq, 5); }
    assert StartsWith(ShowCursorSeq, ShowCursorSeq);
    assert ShowCursorSeq[6..] == [];
  }

  /** The non-terminal erase: return, n blanks, return. */
  lemma FeedBlankOut(sc: Screen, n: nat)
    requires Wf(sc)
    ensures Feed(sc, "\r" + Spaces(n) + "\r")
         == sc.(line := Overlay(sc.line, 0, Spaces(n)), col := 0)
  {
    var sp := Spaces(n);
    assert ESC !in "\r" + sp;
    FeedConcat(sc, "\r" + sp, "\r");
    assert ESC !in "\r";
    FeedConcat(sc, "\r", sp);
    assert Feed(sc, "\r") == sc.(col := 0);
    FeedPlain(sc.(col := 0), sp);
    var sc2 := sc.(line := Overlay(sc.line, 0, sp), col := n);
    assert Feed(sc2, "\r") == sc2.(col := 0);
  }

  /** Plain text followed by a line feed becomes a finished line. */
  lemma FeedLine(sc: Screen, t: string)
    requires Wf(sc) && Plain(t)
    ensures Feed(sc, t + "\n")
         == sc.(lines := sc.lines + [Overlay(sc.line, sc.col, t)], line := [], col := 0)
  {
    assert ESC !in t;
    FeedConcat(sc, t, "\n");
    FeedPlain(sc, t);
  }

  /** A single plain character. */
  lemma FeedChar(sc: Screen, ch: char)
    requires Wf(sc) && ch != ESC && ch != '\r' && ch != '\n'
    ensures Feed(sc, [ch]) == sc.(line := Overlay(sc.line, sc.col, [ch]), col := sc.col + 1)
  {
    FeedPlain(sc, [ch]);
  }
}
