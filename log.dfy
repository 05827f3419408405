/** The console half of haymaker/log.py: a message is wrapped into lines
    of at most `width` characters under a `HH:MM:SS  [LEVEL]  ` header,
    continuation lines indented by as many spaces, and warnings and errors
    are followed by their stack frames. */
module Log {
  import opened Text

  datatype Level = Trace | Info | Warn | Error

  /** `Level.value`. */
  function LevelValue(level: Level): string
  {
    match level
    case Trace => "Trace"
    case Info => "Info"
    case Warn => "Warning"
    case Error => "Error"
  }

  /** The header of the first line; `timeStr` is the `strftime` of the
      current time. */
  function Header(timeStr: string, level: Level): string
  {
    timeStr + "  [" + Upper(LevelValue(level)) + "]  "
  }

  /** The text of the lines with the first `h` characters of each
      (header or indent) removed, laid end to end. */
  function Bodies(lines: seq<string>, h: nat): string
    requires forall k | 0 <= k < |lines| :: |lines[k]| >= h
  {
    if |lines| == 0 then "" else Bodies(lines[..|lines| - 1], h) + lines[|lines| - 1][h..]
  }

  lemma BodiesSnoc(lines: seq<string>, line: string, h: nat)
    requires forall k | 0 <= k < |lines| :: |lines[k]| >= h
    requires |line| >= h
    ensures Bodies(lines + [line], h) == Bodies(lines, h) + line[h..]
  {
    assert (lines + [line])[..|lines|] == lines;
  }

  /** The first line starts with the header, every later one with the indent. */
  predicate Prefixed(lines: seq<string>, header: string, indent: string)
  {
    forall k | 0 <= k < |lines| :: StartsWith(lines[k], if k == 0 then header else indent)
  }

  /** A `\n` of the message can only be the last character of a line. */
  predicate NewlinesEndLines(lines: seq<string>, h: nat)
  {
    forall k, j | 0 <= k < |lines| && h <= j < |lines[k]| :: lines[k][j] == '\n' ==> j == |lines[k]| - 1
  }

  /** A line that ends the way the loop ends lines: full, or at a `\n`. */
  predicate Closed(line: string, width: int)
  {
    |line| >= width || (|line| > 0 && line[|line| - 1] == '\n')
  }

  /** Lines are only broken when they are full or at a `\n`. */
  predicate BrokenWhenFull(lines: seq<string>, width: int)
  {
    forall k | 0 <= k < |lines| - 1 :: Closed(lines[k], width)
  }

  /** What the lines of the wrapping loop satisfy at every step. */
  predicate LinesOk(lines: seq<string>, header: string, indent: string, width: int)
  {
    var h := |header|;
    (forall k | 0 <= k < |lines| :: |lines[k]| >= h)
    && Prefixed(lines, header, indent)
    && NewlinesEndLines(lines, h)
    && (h < width ==> forall k | 0 <= k < |lines| :: |lines[k]| <= width)
  }

  /** A line is still open after its first `h` characters: it holds no
      `\n` there and, once it holds any text, it is shorter than `width`. */
  predicate Open(line: string, h: nat, width: int)
    requires |line| >= h
  {
    '\n' !in line[h..] && (|line| > h ==> |line| < width)
  }

  /** Each line was closed by the first character that could close it: it
      holds text after its first `h` characters, and without its last
      character it was still open. */
  predicate ClosedAtOnce(lines: seq<string>, h: nat, width: int)
  {
    forall k | 0 <= k < |lines| ::
      |lines[k]| > h && Closed(lines[k], width) && Open(lines[k][..|lines[k]| - 1], h, width)
  }

  /** The shape of the wrapped output: the first line under the header,
      the others under the indent, every line but the last closed at its
      first chance, and the last one still open. */
  predicate Layout(lines: seq<string>, header: string, indent: string, width: int)
  {
    |lines| >= 1 && |indent| == |header|
    && (forall k | 0 <= k < |lines| :: |lines[k]| >= |header|)
    && Prefixed(lines, header, indent)
    && ClosedAtOnce(lines[..|lines| - 1], |header|, width)
    && Open(lines[|lines| - 1], |header|, width)
  }

  /** The line being filled: it starts with the header (on the first line)
      or the indent and is still open. */
  predicate Filling(lines: seq<string>, s: string, header: string, indent: string, width: int)
  {
    |s| >= |header| && StartsWith(s, if |lines| == 0 then header else indent)
    && Open(s, |header|, width)
  }

  /** The text read so far after one more character `c`, when the line
      is closed after it and a fresh line of `h` characters started. */
  lemma BodiesPush(lines: seq<string>, s: string, c: char, next: string, h: nat, read: string)
    requires forall k | 0 <= k < |lines| :: |lines[k]| >= h
    requires |s| >= h && |next| == h
    requires Bodies(lines, h) + s[h..] == read
    ensures forall k | 0 <= k < |lines| + 1 :: |(lines + [s + [c]])[k]| >= h
    ensures Bodies(lines + [s + [c]], h) + next[h..] == read + [c]
  {
    var l := lines + [s + [c]];
    forall k | 0 <= k < |l|
      ensures |l[k]| >= h
    {
      if k < |lines| {
        assert l[k] == lines[k];
      }
    }
    var done := Bodies(lines, h);
    calc {
      Bodies(l, h) + next[h..];
      { assert next[h..] == []; }
      Bodies(l, h);
      { BodiesSnoc(lines, s + [c], h); }
      done + (s + [c])[h..];
      { assert (s + [c])[h..] == s[h..] + [c]; }
      (done + s[h..]) + [c];
    }
  }

  /** The same when the character stays on the current line. */
  lemma BodiesKeep(lines: seq<string>, s: string, c: char, h: nat, read: string)
    requires forall k | 0 <= k < |lines| :: |lines[k]| >= h
    requires |s| >= h
    requires Bodies(lines, h) + s[h..] == read
    ensures Bodies(lines, h) + (s + [c])[h..] == read + [c]
  {
    assert (s + [c])[h..] == s[h..] + [c];
  }

  /** Closing the current line once the character `c` is added. */
  lemma PushLine(lines: seq<string>, s: string, c: char, header: string, indent: string, width: int)
    requires LinesOk(lines, header, indent, width) && Filling(lines, s, header, indent, width)
    requires ClosedAtOnce(lines, |header|, width)
    requires c == '\n' || |s| + 1 >= width
    ensures LinesOk(lines + [s + [c]], header, indent, width)
    ensures ClosedAtOnce(lines + [s + [c]], |header|, width)
  {
    var l := lines + [s + [c]];
    var h := |header|;
    assert (s + [c])[h..] == s[h..] + [c];
    assert (s + [c])[..|s|] == s;
    assert forall k | 0 <= k < |lines| :: l[k] == lines[k];
    assert StartsWith(s + [c], if |lines| == 0 then header else indent) by {
      assert (s + [c])[..h] == s[..h];
    }
  }

  /** Adding a character that neither is `\n` nor fills the line. */
  lemma KeepFilling(lines: seq<string>, s: string, c: char, header: string, indent: string, width: int)
    requires Filling(lines, s, header, indent, width)
    requires c != '\n' && |s| + 1 < width
    ensures Filling(lines, s + [c], header, indent, width)
  {
    var h := |header|;
    assert (s + [c])[h..] == s[h..] + [c];
    assert (s + [c])[..h] == s[..h];
  }

  /** A fresh line is the indent alone. */
  lemma StartLine(lines: seq<string>, header: string, indent: string, width: int)
    requires |indent| == |header| && |lines| > 0
    ensures Filling(lines, indent, header, indent, width)
  {
    assert indent[|header|..] == [];
  }

  /** The final, possibly short line. */
  lemma LastLine(lines: seq<string>, s: string, header: string, indent: string, width: int)
    requires |indent| == |header|
    requires LinesOk(lines, header, indent, width) && Filling(lines, s, header, indent, width)
    requires ClosedAtOnce(lines, |header|, width)
    ensures LinesOk(lines + [s], header, indent, width)
    ensures BrokenWhenFull(lines + [s], width)
    ensures Layout(lines + [s], header, indent, width)
  {
    var l := lines + [s];
    assert l[..|lines|] == lines;
    assert forall k | 0 <= k < |lines| :: l[k] == lines[k];
  }

  /** The wrapping loop of `_log_to_console`. Every line starts with the
      header (the first) or an indent of as many spaces (the others);
      without them the lines give back the message; a line ends early only
      at a `\n`, and with a header shorter than `width` no line is longer
      than `width`. There is always at least one line, and each line is
      closed by the first character that can close it, so that the last
      line may be the bare indent (`LayoutUnique`: these say which lines). */
  method WrapLines(message: string, header: string, width: int) returns (lines: seq<string>)
    ensures |lines| >= 1
    ensures LinesOk(lines, header, Repeat(' ', |header|), width)
    ensures BrokenWhenFull(lines, width)
    ensures Layout(lines, header, Repeat(' ', |header|), width)
    ensures Bodies(lines, |header|) == message
  {
    var h := |header|;
    var indent := Repeat(' ', h);
    var s := header;
    lines := [];
    for i := 0 to |message|
      invariant LinesOk(lines, header, indent, width) && Filling(lines, s, header, indent, width)
      invariant ClosedAtOnce(lines, h, width)
      invariant Bodies(lines, h) + s[h..] == message[..i]
    {
      var c := message[i];
      assert message[..i + 1] == message[..i] + [c];
      if c == '\n' || |s| + 1 >= width {
        PushLine(lines, s, c, header, indent, width);
        BodiesPush(lines, s, c, indent, h, message[..i]);
        lines := lines + [s + [c]];
        s := indent;
        StartLine(lines, header, indent, width);
      } else {
        KeepFilling(lines, s, c, header, indent, width);
        BodiesKeep(lines, s, c, h, message[..i]);
        s := s + [c];
      }
    }
    LastLine(lines, s, header, indent, width);
    BodiesSnoc(lines, s, h);
    assert message[..|message|] == message;
    lines := lines + [s];
  }

  /** `Bodies` read from the front. */
  lemma {:induction false} BodiesCons(lines: seq<string>, h: nat)
    requires |lines| >= 1 && forall k | 0 <= k < |lines| :: |lines[k]| >= h
    ensures Bodies(lines, h) == lines[0][h..] + Bodies(lines[1..], h)
    decreases |lines|
  {
    if |lines| == 1 {
      assert lines[..0] == [] && lines[1..] == [];
    } else {
      var init := lines[..|lines| - 1];
      BodiesCons(init, h);
      assert init[1..] == lines[1..][..|lines| - 2];
      assert init[0] == lines[0];
    }
  }

  /** A layout without its first line is a layout under the indent. */
  lemma LayoutTail(lines: seq<string>, header: string, indent: string, width: int)
    requires Layout(lines, header, indent, width) && |lines| >= 2
    ensures Layout(lines[1..], indent, indent, width)
  {
    var t := lines[1..];
    assert forall k | 0 <= k < |t| :: t[k] == lines[k + 1];
    assert t[..|t| - 1] == lines[..|lines| - 1][1..];
  }

  /** A line that starts with `header` is the header and its body. */
  lemma SplitLine(line: string, header: string)
    requires StartsWith(line, header)
    ensures line == header + line[|header|..]
  {
    assert line[..|header|] == header;
  }

  /** What a layout says of its first line, in terms of its body `x`:
      closed at its first chance unless it is the only line, in which case
      it is open. */
  predicate FirstBody(header: string, x: string, only: bool, width: int)
  {
    if only then Open(header + x, |header|, width)
    else |x| > 0 && Closed(header + x, width) && Open(header + x[..|x| - 1], |header|, width)
  }

  lemma FirstLine(lines: seq<string>, header: string, indent: string, width: int)
    requires Layout(lines, header, indent, width)
    ensures lines[0] == header + lines[0][|header|..]
    ensures FirstBody(header, lines[0][|header|..], |lines| == 1, width)
  {
    SplitLine(lines[0], header);
    if |lines| > 1 {
      var x := lines[0][|header|..];
      assert lines[..|lines| - 1][0] == lines[0];
      assert lines[0][..|lines[0]| - 1] == header + x[..|x| - 1];
    }
  }

  /** The loop may close a line at character `i` of the text that
      follows its header or indent: a `\n`, or the character that fills it. */
  predicate Stops(m: string, i: int, h: nat, width: int)
    requires 0 <= i < |m|
  {
    m[i] == '\n' || h + i + 1 >= width
  }

  predicate FirstStop(m: string, i: int, h: nat, width: int)
  {
    0 <= i < |m| && Stops(m, i, h, width) && forall j | 0 <= j < i :: !Stops(m, j, h, width)
  }

  predicate NoStop(m: string, h: nat, width: int)
  {
    forall j | 0 <= j < |m| :: !Stops(m, j, h, width)
  }

  /** A first line ends at the first place the text lets it stop, and a
      line that is the only one has no such place. */
  lemma FirstBodyStops(header: string, x: string, r: string, only: bool, width: int)
    requires FirstBody(header, x, only, width) && (only ==> r == [])
    ensures only ==> NoStop(x + r, |header|, width)
    ensures !only ==> FirstStop(x + r, |x| - 1, |header|, width)
  {
    var h, m := |header|, x + r;
    if only {
      assert (header + x)[h..] == x;
      assert forall j | 0 <= j < |m| :: m[j] == x[j] && x[j] in x;
    } else {
      var z := x[..|x| - 1];
      assert (header + z)[h..] == z;
      assert (header + x)[|header + x| - 1] == m[|x| - 1];
      assert forall j | 0 <= j < |x| - 1 :: m[j] == z[j] && z[j] in z;
    }
  }

  /** Two first lines over the same text split it at the same place. */
  lemma FirstBodiesAgree(header: string, x: string, r1: string, only1: bool, y: string, r2: string, only2: bool, width: int)
    requires x + r1 == y + r2
    requires FirstBody(header, x, only1, width) && (only1 ==> r1 == [])
    requires FirstBody(header, y, only2, width) && (only2 ==> r2 == [])
    ensures only1 == only2 && x == y && r1 == r2
  {
    FirstBodyStops(header, x, r1, only1, width);
    FirstBodyStops(header, y, r2, only2, width);
    assert |x| == |y|;
    assert x == y by { assert (x + r1)[..|x|] == x && (y + r2)[..|x|] == y; }
    assert r1 == r2 by { assert (x + r1)[|x|..] == r1 && (y + r2)[|x|..] == r2; }
  }

  /** A layout is determined by the text of its bodies: what `WrapLines`
      promises leaves it no choice of lines. */
  lemma {:induction false} LayoutUnique(l1: seq<string>, l2: seq<string>, header: string, indent: string, width: int)
    requires Layout(l1, header, indent, width) && Layout(l2, header, indent, width)
    requires Bodies(l1, |header|) == Bodies(l2, |header|)
    ensures l1 == l2
    decreases |l1|
  {
    var h := |header|;
    BodiesCons(l1, h);
    BodiesCons(l2, h);
    FirstLine(l1, header, indent, width);
    FirstLine(l2, header, indent, width);
    FirstBodiesAgree(header, l1[0][h..], Bodies(l1[1..], h), |l1| == 1, l2[0][h..], Bodies(l2[1..], h), |l2| == 1, width);
    if |l1| > 1 {
      LayoutTail(l1, header, indent, width);
      LayoutTail(l2, header, indent, width);
      LayoutUnique(l1[1..], l2[1..], indent, indent, width);
      assert l1 == [l1[0]] + l1[1..] && l2 == [l2[0]] + l2[1..];
    }
  }

  /** One stack frame as `_build_trace` reports it. */
  datatype Frame = Frame(file: string, line: int, func: string, context: string)

  /** Python's `str.isspace` on one character: the ASCII controls from
      `\t` to `\r` and `\x1c` to `\x1f`, the space, `\x85`, the
      no-break space and the other Unicode space and separator characters. */
  predicate IsSpace(c: char)
  {
    ('\U{9}' <= c <= '\U{D}') || ('\U{1C}' <= c <= '\U{20}')
    || c == '\U{85}' || c == '\U{A0}' || c == '\U{1680}'
    || ('\U{2000}' <= c <= '\U{200A}') || c == '\U{2028}' || c == '\U{2029}'
    || c == '\U{202F}' || c == '\U{205F}' || c == '\U{3000}'
  }

  /** Python `s.lstrip()`: the longest suffix of `s` that does not start
      with white space; everything removed is white space. */
  function LStrip(s: string): (r: string)
    ensures EndsWith(s, r) && (|r| > 0 ==> !IsSpace(r[0]))
    ensures forall i | 0 <= i < |s| - |r| :: IsSpace(s[i])
  {
    if |s| > 0 && IsSpace(s[0]) then LStrip(s[1..]) else s
  }

  /** What the trace loop prints for one frame. */
  function FrameText(f: Frame): seq<string>
  {
    ["  File \"" + f.file + "\", line " + FormatInt(f.line, 0) + ", in " + f.func]
      + (if f.context != "" then ["    " + LStrip(f.context)] else [])
  }

  /** What the trace loop prints for every frame, in order. */
  function FramesText(trace: seq<Frame>): seq<string>
  {
    if |trace| == 0 then [] else FramesText(trace[..|trace| - 1]) + FrameText(trace[|trace| - 1])
  }

  /** Stack frames are shown for warnings and errors only. */
  predicate ShowsTrace(level: Level)
  {
    !(level == Trace || level == Info)
  }

  /** The trace loop of `_log_to_console`. */
  method PrintTrace(trace: seq<Frame>) returns (printed: seq<string>)
    ensures printed == FramesText(trace)
  {
    printed := [];
    for i := 0 to |trace|
      invariant printed == FramesText(trace[..i])
    {
      var frame := trace[i];
      assert trace[..i + 1][..i] == trace[..i];
      printed := printed + ["  File \"" + frame.file + "\", line " + FormatInt(frame.line, 0) + ", in " + frame.func];
      if frame.context != "" {
        printed := printed + ["    " + LStrip(frame.context)];
      }
    }
    assert trace[..|trace|] == trace;
  }

  /** `_log_to_console`: the wrapped message as one printed text, then for
      a warning or an error the frames of the trace. The time is passed in
      rather than read from the clock. */
  method LogToConsole(message: string, level: Level, trace: seq<Frame>, width: int, timeStr: string)
    returns (lines: seq<string>, printed: seq<string>)
    ensures |lines| >= 1
    ensures LinesOk(lines, Header(timeStr, level), Repeat(' ', |Header(timeStr, level)|), width)
    ensures BrokenWhenFull(lines, width)
    ensures Layout(lines, Header(timeStr, level), Repeat(' ', |Header(timeStr, level)|), width)
    ensures Bodies(lines, |Header(timeStr, level)|) == message
    ensures printed == [Join(lines, "\n")] + (if ShowsTrace(level) then FramesText(trace) else [])
  {
    var header := Header(timeStr, level);
    lines := WrapLines(message, header, width);
    printed := [Join(lines, "\n")];
    if level == Trace || level == Info {
      return;
    }
    var frames := PrintTrace(trace);
    printed := printed + frames;
  }
}
