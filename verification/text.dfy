/** Characters, control sequences and the frame set written by the spinner,
    and the whitespace test applied to intercepted writes. */
module Text {

  /** The escape character that opens every ANSI control sequence. */
  const ESC: char := '\U{1B}'

  /** Carriage return followed by ECMA-48 EL ("erase in line", parameter 0):
      back to column 0, then erase from the cursor to the end of the line. */
  const EraseLine: string := "\r\U{1B}[K"

  /** DEC private mode 25 reset (DECTCEM off): the cursor becomes invisible. */
  const HideCursorSeq: string := "\U{1B}[?25l"

  /** DEC private mode 25 set (DECTCEM on): the cursor becomes visible. */
  const ShowCursorSeq: string := "\U{1B}[?25h"

  /** The rotating animation, one character per frame. */
  const Frames: string := "/-\\|"

  /** The frame shown by the k-th rendered tick (counting from 0). */
  function Frame(k: nat): (c: char)
    ensures c in Frames
    ensures c != ESC && c != '\r' && c != '\n' && c != ' '
  {
    Frames[k % 4]
  }

  /** A run of n blanks, used by the non-terminal erase fallback. */
  function Spaces(n: nat): (r: string)
    ensures |r| == n
    ensures forall i :: 0 <= i < n ==> r[i] == ' '
  {
    seq(n, _ => ' ')
  }

  /** The characters for which Python's `str.isspace` holds, which are
      exactly the ones `str.strip()` removes when given no argument. */
  predicate IsSpace(c: char)
  {
    || c == ' ' || c == '\t' || c == '\n' || c == '\r'
    || c == '\U{0B}' || c == '\U{0C}'
    || c == '\U{1C}' || c == '\U{1D}' || c == '\U{1E}' || c == '\U{1F}'
    || c == '\U{85}' || c == '\U{A0}' || c == '\U{1680}'
    || ('\U{2000}' <= c <= '\U{200A}')
    || c == '\U{2028}' || c == '\U{2029}' || c == '\U{202F}'
    || c == '\U{205F}' || c == '\U{3000}'
  }

  /** Every character of t is whitespace (the empty string included). */
  predicate IsBlank(t: string)
  {
    forall i :: 0 <= i < |t| ==> IsSpace(t[i])
  }

  /** Leading whitespace removed. */
  function StripLeft(t: string): string
    decreases |t|
  {
    if |t| > 0 && IsSpace(t[0]) then StripLeft(t[1..]) else t
  }

  /** Trailing whitespace removed. */
  function StripRight(t: string): string
    decreases |t|
  {
    if |t| > 0 && IsSpace(t[|t| - 1]) then StripRight(t[..|t| - 1]) else t
  }

  /** Python's `text.strip()`. */
  function Strip(t: string): string
  {
    StripRight(StripLeft(t))
  }

  /** The test an intercepted write applies before touching the stream:
      `len(text.strip()) > 0`. */
  predicate HasContent(t: string)
  {
    |Strip(t)| > 0
  }

  lemma {:induction false} StripLeftEmpty(t: string)
    ensures StripLeft(t) == [] <==> IsBlank(t)
    ensures StripLeft(t) != [] ==> !IsSpace(StripLeft(t)[0])
    decreases |t|
  {
    if |t| > 0 && IsSpace(t[0]) {
      StripLeftEmpty(t[1..]);
      assert IsBlank(t) <==> IsBlank(t[1..]) by {
        if IsBlank(t[1..]) {
          forall i | 0 <= i < |t| ensures IsSpace(t[i]) {
            if i > 0 { assert t[i] == t[1..][i - 1]; }
          }
        }
      }
    }
  }

  lemma {:induction false} StripRightEmpty(t: string)
    ensures StripRight(t) == [] <==> IsBlank(t)
    decreases |t|
  {
    if |t| > 0 && IsSpace(t[|t| - 1]) {
      var p := t[..|t| - 1];
      StripRightEmpty(p);
      assert IsBlank(t) <==> IsBlank(p) by {
        if IsBlank(p) {
          forall i | 0 <= i < |t| ensures IsSpace(t[i]) {
            if i < |t| - 1 { assert t[i] == p[i]; }
          }
        }
      }
    }
  }

  /** The source's `len(text.strip()) > 0` holds exactly when the text has a
      character that is not whitespace, wherever it sits. */
  lemma HasContentIff(t: string)
    ensures HasContent(t) <==> exists i :: 0 <= i < |t| && !IsSpace(t[i])
  {
    StripLeftEmpty(t);
    var l := StripLeft(t);
    StripRightEmpty(l);
    if l != [] {
      assert !IsBlank(l) by { assert !IsSpace(l[0]); }
    }
  }
}
