/** Assembling IRC lines from whatever pieces a connection delivers. */
module IrcLines {
  import opened Common

  const LINE_MAX: nat := 16384

  // ---------- what a byte stream amounts to ----------

  /** What the buffer still holds of a run of characters with no LF: the character that
      finds it full is lost together with everything before it. */
  function Kept(run: string): string {
    run[|run| / LINE_MAX * LINE_MAX..]
  }

  /** The line an LF after this run completes. */
  function Line(run: string): string {
    CString(StripCr(Kept(run)))
  }

  /** The characters after the last LF. */
  function Rest(stream: string): string {
    if stream == [] || stream[|stream| - 1] == '\n' then []
    else Rest(stream[..|stream| - 1]) + [stream[|stream| - 1]]
  }

  function NonEmpty(line: string): seq<string> {
    if line == [] then [] else [line]
  }

  /** The lines handed over by the end of a stream. */
  function Handled(stream: string): seq<string> {
    if stream == [] then []
    else
      var before := stream[..|stream| - 1];
      Handled(before) + if stream[|stream| - 1] == '\n' then NonEmpty(Line(Rest(before))) else []
  }

  // ---------- the accumulator ----------

  class LineBuffer {
    const acc: array<char>
    var len: nat
    ghost var stream: string

    ghost predicate Valid()
      reads this, acc
    {
      && acc.Length == LINE_MAX
      && len < LINE_MAX
      && acc[..len] == Kept(Rest(stream))
    }

    constructor ()
      ensures Valid() && stream == [] && fresh(acc)
    {
      acc := new char[LINE_MAX](_ => '\0');
      len, stream := 0, [];
    }

    /** Takes one character; an LF hands over the line before it unless that is empty. */
    method Push(ch: char) returns (line: Option<string>)
      requires Valid()
      modifies this, acc
      ensures Valid() && stream == old(stream) + [ch]
      ensures Handled(stream) == old(Handled(stream)) + if line.Some? then [line.value] else []
    {
      hide Kept, Rest, CString, Handled;
      ghost var held := Kept(Rest(stream));
      PushRest(stream, ch);
      line := None;
      if ch == '\n' {
        if len > 0 && acc[len - 1] == '\r' { len := len - 1; }
        acc[len] := '\0';
        assert acc[..len] == StripCr(held);
        var text := TextOf(acc, len);
        if |text| > 0 { line := Some(text); }
        len := 0;
        assert acc[..0] == [];
      } else if len < LINE_MAX - 1 {
        acc[len] := ch;
        len := len + 1;
        assert acc[..len] == held + [ch];
      } else {
        len := 0;
        assert acc[..0] == [];
      }
      stream := stream + [ch];
    }
  }

  /** The C string at the start of a buffer. */
  method TextOf(a: array<char>, len: nat) returns (text: string)
    requires len <= a.Length
    ensures text == CString(a[..len])
  {
    text := [];
    var i: nat := 0;
    assert a[..len][0..] == a[..len];
    while i < len
      invariant i <= len && text + CString(a[..len][i..]) == CString(a[..len])
    {
      DropOfDrop(a[..len], i, 1);
      if a[i] == '\0' { return; }
      Assoc(text, [a[i]], CString(a[..len][i + 1..]));
      text := text + [a[i]];
      i := i + 1;
    }
  }

  lemma PushRest(stream: string, ch: char)
    ensures Rest(stream + [ch]) == if ch == '\n' then [] else Rest(stream) + [ch]
    ensures Handled(stream + [ch]) == Handled(stream) + if ch == '\n' then NonEmpty(Line(Rest(stream))) else []
    ensures |Kept(Rest(stream))| < LINE_MAX
    ensures Kept(Rest(stream + [ch])) ==
      if ch == '\n' || |Kept(Rest(stream))| == LINE_MAX - 1 then [] else Kept(Rest(stream)) + [ch]
  {
    hide Line;
    assert (stream + [ch])[..|stream|] == stream;
    KeptSnoc(Rest(stream), ch);
  }

  lemma KeptSnoc(run: string, ch: char)
    ensures |Kept(run)| == |run| % LINE_MAX
    ensures Kept(run + [ch]) == if |Kept(run)| == LINE_MAX - 1 then [] else Kept(run) + [ch]
  {
    var base := |run| / LINE_MAX * LINE_MAX;
    assert |run| == base + |run| % LINE_MAX;
    if |run| % LINE_MAX == LINE_MAX - 1 {
      assert (|run| + 1) / LINE_MAX * LINE_MAX == |run| + 1;
    } else {
      assert (|run| + 1) / LINE_MAX == |run| / LINE_MAX;
    }
  }

  // ---------- the lines of a stream ----------

  ghost predicate NoLf(s: string) {
    '\n' !in s
  }

  /** Each run followed by an LF. */
  function Terminated(runs: seq<string>): string {
    if runs == [] then [] else runs[0] + "\n" + Terminated(runs[1..])
  }

  /** The lines of some runs, without the empty ones. */
  function Lines(runs: seq<string>): seq<string> {
    if runs == [] then [] else NonEmpty(Line(runs[0])) + Lines(runs[1..])
  }

  lemma {:induction false} AppendRun(stream: string, run: string)
    requires NoLf(run)
    ensures Rest(stream + run) == Rest(stream) + run && Handled(stream + run) == Handled(stream)
  {
    if run == [] {
      assert stream + run == stream;
    } else {
      var front, last := run[..|run| - 1], run[|run| - 1];
      assert run == front + [last];
      Assoc(stream, front, [last]);
      AppendRun(stream, front);
      PushRest(stream + front, last);
      Assoc(Rest(stream), front, [last]);
    }
  }

  lemma RunThenLf(stream: string, run: string)
    requires NoLf(run) && Rest(stream) == []
    ensures Rest(stream + (run + "\n")) == []
    ensures Handled(stream + (run + "\n")) == Handled(stream) + NonEmpty(Line(run))
  {
    hide Line, Kept;
    AppendRun(stream, run);
    PushRest(stream + run, '\n');
    Assoc(stream, run, "\n");
    assert Rest(stream) + run == run;
  }

  lemma {:induction false} HandledFrom(stream: string, runs: seq<string>)
    requires Rest(stream) == [] && forall i :: 0 <= i < |runs| ==> NoLf(runs[i])
    ensures Rest(stream + Terminated(runs)) == [] && Handled(stream + Terminated(runs)) == Handled(stream) + Lines(runs)
    decreases |runs|
  {
    hide Rest, Handled, Line;
    if runs == [] {
      assert stream + Terminated(runs) == stream;
    } else {
      var first := runs[0] + "\n";
      RunThenLf(stream, runs[0]);
      HandledFrom(stream + first, runs[1..]);
      Assoc(stream, first, Terminated(runs[1..]));
      Assoc(Handled(stream), NonEmpty(Line(runs[0])), Lines(runs[1..]));
    }
  }

  /** Whatever the stream, the lines handed over are those of its LF-terminated runs. */
  lemma StreamIsItsRuns(runs: seq<string>, tail: string)
    requires NoLf(tail) && forall i :: 0 <= i < |runs| ==> NoLf(runs[i])
    ensures Handled(Terminated(runs) + tail) == Lines(runs) && Rest(Terminated(runs) + tail) == tail
  {
    hide Lines, Terminated;
    HandledFrom([], runs);
    assert [] + Terminated(runs) == Terminated(runs);
    AppendRun(Terminated(runs), tail);
  }

  /** Every stream is LF-terminated runs and a tail. */
  lemma {:induction false} EveryStreamIsRuns(stream: string) returns (runs: seq<string>, tail: string)
    ensures NoLf(tail) && forall i :: 0 <= i < |runs| ==> NoLf(runs[i])
    ensures stream == Terminated(runs) + tail
    decreases |stream|
  {
    if stream == [] {
      runs, tail := [], [];
    } else {
      runs, tail := EveryStreamIsRuns(stream[1..]);
      if stream[0] == '\n' {
        assert ([[]] + runs)[1..] == runs;
        runs := [[]] + runs;
      } else if runs == [] {
        tail := [stream[0]] + tail;
      } else {
        var first := [stream[0]] + runs[0];
        assert ([first] + runs[1..])[1..] == runs[1..];
        runs := [first] + runs[1..];
      }
    }
  }

  // ---------- lines within the limit ----------

  /** A run is kept whole exactly when it is shorter than the buffer; of a longer one the
      tail is taken for a line. */
  lemma KeptWholeIffShort(run: string)
    ensures Kept(run) == run <==> |run| < 16384
  {
    if |run| >= LINE_MAX {
      assert |run| / LINE_MAX >= 1;
    } else {
      assert |run| / LINE_MAX == 0;
    }
  }

  /** An overlong run is handled as its tail, however many times it fills the buffer. */
  lemma OverlongKeepsItsTail(dropped: string, tail: string)
    requires |dropped| % LINE_MAX == 0 && |tail| < LINE_MAX
    ensures Line(dropped + tail) == Line(tail)
  {
    var n := |dropped + tail|;
    assert n / LINE_MAX * LINE_MAX == |dropped| && |tail| / LINE_MAX == 0;
    assert (dropped + tail)[|dropped|..] == tail && tail[0..] == tail;
  }

  /** Whether a run comes to nothing: its kept part is empty, starts with a NUL or is a
      single CR. */
  predicate Vanishes(run: string) {
    || |run| % 16384 == 0
    || run[|run| / 16384 * 16384] == '\0'
    || (|run| % 16384 == 1 && run[|run| - 1] == '\r')
  }

  lemma EmptyLineIff(run: string)
    ensures Line(run) == [] <==> Vanishes(run)
  {
    KeptLength(run);
    if |run| % LINE_MAX == 1 { assert Kept(run) == [run[|run| - 1]]; }
  }

  lemma KeptLength(run: string)
    ensures |Kept(run)| == |run| % LINE_MAX
    ensures Kept(run) != [] ==> Kept(run)[0] == run[|run| / LINE_MAX * LINE_MAX]
    ensures Kept(run) != [] ==> Kept(run)[|Kept(run)| - 1] == run[|run| - 1]
  {
  }

  /** An oversized line is dropped exactly when a whole number of buffers is all it has,
      or what comes after them is a NUL first or a lone CR: otherwise one line is handled,
      its tail. This holds after any complete lines. */
  lemma OverlongIsDroppedIff(stream: string, run: string)
    requires Rest(stream) == [] && NoLf(run) && |run| >= 16384
    ensures Handled(stream + (run + "\n")) == Handled(stream) <==> Vanishes(run)
    ensures !Vanishes(run) ==> Handled(stream + (run + "\n")) == Handled(stream) + [Line(run)]
    ensures Line(run) == Line(run[|run| / 16384 * 16384..])
  {
    hide Handled, Rest, Line, Kept, Vanishes;
    RunThenLf(stream, run);
    EmptyLineIff(run);
    if Line(run) == [] { assert Handled(stream) + [] == Handled(stream); }
    var n := |run| / LINE_MAX * LINE_MAX;
    assert run == run[..n] + run[n..];
    OverlongKeepsItsTail(run[..n], run[n..]);
  }

  /** A run of 16388 characters of which the last four are handled as a line. */
  lemma OverlongRunIsHandled()
    ensures var run := seq(16384, _ => 'x') + "QUIT";
      |run| > LINE_MAX && NoLf(run) && Handled(run + "\n") == ["QUIT"]
  {
    hide Handled, Rest, Line;
    var dropped := seq(LINE_MAX, _ => 'x');
    var run := dropped + "QUIT";
    NothingYet();
    RunThenLf([], run);
    OverlongKeepsItsTail(dropped, "QUIT");
    ShortLine("QUIT");
    assert [] + (run + "\n") == run + "\n";
  }

  lemma NothingYet()
    ensures Rest([]) == [] && Handled([]) == []
  {
  }

  lemma ShortLine(line: string)
    requires Sendable(line)
    ensures Line(line) == line
  {
    KeptWholeIffShort(line);
    NoNul(line);
  }

  /** A line that can be sent: it fits, and holds neither CR, LF nor NUL. */
  ghost predicate Sendable(line: string) {
    line != [] && |line| < LINE_MAX - 1 && '\r' !in line && '\n' !in line && '\0' !in line
  }

  lemma {:induction false} NoNul(s: string)
    requires '\0' !in s
    ensures CString(s) == s
  {
    if s != [] { NoNul(s[1..]); }
  }

  /** The text on the wire: each line followed by CR and LF. */
  function Wire(lines: seq<string>): string {
    if lines == [] then [] else lines[0] + "\r\n" + Wire(lines[1..])
  }

  lemma OneLineArrives(line: string)
    requires Sendable(line)
    ensures Line(line + "\r") == line && NoLf(line + "\r")
  {
    KeptWholeIffShort(line + "\r");
    assert (line + "\r")[..|line|] == line;
    NoNul(line);
  }

  lemma {:induction false} WireFrom(stream: string, lines: seq<string>)
    requires Rest(stream) == [] && forall i :: 0 <= i < |lines| ==> Sendable(lines[i])
    ensures Rest(stream + Wire(lines)) == [] && Handled(stream + Wire(lines)) == Handled(stream) + lines
    decreases |lines|
  {
    hide Rest, Handled, Line, Sendable;
    if lines == [] {
      assert stream + Wire(lines) == stream;
    } else {
      var line := lines[0];
      OneLineArrives(line);
      RunThenLf(stream, line + "\r");
      assert line + "\r\n" == line + "\r" + "\n";
      NotEmpty(line);
      WireFrom(stream + (line + "\r\n"), lines[1..]);
      Assoc(stream, line + "\r\n", Wire(lines[1..]));
      Assoc(Handled(stream), [line], lines[1..]);
      assert [line] + lines[1..] == lines;
    }
  }

  lemma NotEmpty(line: string)
    requires Sendable(line)
    ensures NonEmpty(line) == [line]
  {
  }

  /** Lines sent with CR LF arrive as they were, in order. */
  lemma LinesArrive(lines: seq<string>)
    requires forall i :: 0 <= i < |lines| ==> Sendable(lines[i])
    ensures Handled(Wire(lines)) == lines
  {
    hide Wire;
    WireFrom([], lines);
    assert [] + Wire(lines) == Wire(lines);
  }

  /** A line ends at a NUL in it. */
  lemma NulEndsLine(text: string, more: string)
    requires '\0' !in text && |text| + 1 + |more| < LINE_MAX
    ensures Line(text + ("\0" + more)) == text
  {
    hide Kept, CString;
    var run := text + ("\0" + more);
    KeptWholeIffShort(run);
    var rest := if more != "" then more[..|more| - 1] else "";
    CutAtNul(text, more);
    CutAtNul(text, rest);
    assert more != "" ==> run[..|run| - 1] == text + ("\0" + rest);
  }

  /** Only one CR is taken off its end. */
  lemma OneCrIsStripped(text: string)
    requires '\0' !in text && |text| + 2 < LINE_MAX
    ensures Line(text + "\r" + "\r") == text + "\r"
  {
    hide Kept, CString;
    var two := text + "\r" + "\r";
    KeptWholeIffShort(two);
    assert two[..|two| - 1] == text + "\r";
    NoNul(text + "\r");
  }

  lemma {:induction false} CutAtNul(text: string, more: string)
    requires '\0' !in text
    ensures CString(text + ("\0" + more)) == text
    decreases |text|
  {
    if text == "" {
      assert "" + ("\0" + more) == "\0" + more;
    } else {
      assert (text + ("\0" + more))[1..] == text[1..] + ("\0" + more);
      CutAtNul(text[1..], more);
    }
  }
}
