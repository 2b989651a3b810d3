/** Text replies of the Gopher protocol: a body of lines closed by a lone period, with
    a period put before every line that starts with one (the TextFile rule in the
    Appendix of RFC 1436), undone in the receive buffer itself. */
module GopherText {
  import opened Common

  const LF: Byte := 10
  const CR: Byte := 13
  const DOT: Byte := 0x2E

  // ---------- line by line ----------

  /** The length of the first line, its LF included. */
  function LineEnd(s: seq<Byte>): (n: nat)
    ensures n <= |s| && (s != [] ==> n > 0)
  {
    if s == [] then 0 else if s[0] == LF then 1 else 1 + LineEnd(s[1..])
  }

  /** A period alone on a line, with or without its line end. */
  predicate IsEnd(line: seq<Byte>) {
    line == [DOT] || line == [DOT, LF] || line == [DOT, CR, LF]
  }

  /** A line without the period put before it. */
  function Bare(line: seq<Byte>): seq<Byte> {
    if |line| >= 2 && line[0] == DOT && line[1] == DOT then line[1..] else line
  }

  /** The text a reply stands for. */
  function Undot(s: seq<Byte>): (t: seq<Byte>)
    ensures |t| <= |s|
    decreases |s|
  {
    if s == [] then []
    else
      var n := LineEnd(s);
      if IsEnd(s[..n]) then [] else Bare(s[..n]) + Undot(s[n..])
  }

  // ---------- in place ----------

  /** Moves bytes to lower addresses; the two ranges may overlap. */
  method MoveDown(buf: array<Byte>, to: nat, from: nat, n: nat)
    requires to <= from && from + n <= buf.Length
    modifies buf
    ensures forall k :: to <= k < to + n ==> buf[k] == old(buf[k + (from - to)])
    ensures forall k :: 0 <= k < to || to + n <= k < buf.Length ==> buf[k] == old(buf[k])
  {
    for i := 0 to n
      invariant forall k :: to <= k < to + i ==> buf[k] == old(buf[k + (from - to)])
      invariant forall k :: 0 <= k < to || to + i <= k < buf.Length ==> buf[k] == old(buf[k])
    {
      buf[to + i] := buf[from + i];
    }
  }

  /** Keeps one line of the text, moving it down to the write index. */
  method KeepLine(buf: array<Byte>, w: nat, start: nat, n: nat, ghost line: seq<Byte>) returns (w': nat)
    requires w <= start && 0 < n && start + n <= buf.Length
    requires |line| == n && forall k :: start <= k < start + n ==> buf[k] == line[k - start]
    modifies buf
    ensures w <= w' <= start + n && buf[..w'] == old(buf[..w]) + Bare(line)
    ensures forall k :: start + n <= k < buf.Length ==> buf[k] == old(buf[k])
  {
    ghost var kept := Bare(line);
    if n >= 2 && buf[start] == DOT && buf[start + 1] == DOT {
      MoveDown(buf, w, start + 1, n - 1);
      w' := w + (n - 1);
      assert forall k :: w <= k < w' ==> buf[k] == line[1..][k - w];
    } else {
      if w != start {
        MoveDown(buf, w, start, n);
      }
      w' := w + n;
      assert forall k :: w <= k < w' ==> buf[k] == line[k - w];
    }
    assert forall k :: w <= k < w' ==> buf[k] == kept[k - w];
    assert buf[..w'] == old(buf[..w]) + kept;
  }

  /** Undoes the stuffing of the first len bytes of a buffer, in the buffer. The write
      index never passes the start of the line being read. */
  method UndotInPlace(buf: array<Byte>, len: nat) returns (w: nat)
    requires len <= buf.Length
    modifies buf
    ensures w <= len && buf[..w] == Undot(old(buf[..len]))
    ensures forall k :: len <= k < buf.Length ==> buf[k] == old(buf[k])
  {
    hide Undot, Bare, LineEnd, IsEnd;
    var r: nat := 0;
    w := 0;
    ghost var text := buf[..len];
    assert text[0..] == text;
    while r < len
      invariant w <= r <= len
      invariant forall k :: r <= k < buf.Length ==> buf[k] == old(buf[k])
      invariant Undot(text) == buf[..w] + Undot(text[r..])
    {
      var start := r;
      r := FindLineEnd(buf, len, start, text);
      UndotAt(text, start);
      ghost var line := text[start..r];
      var n := r - start;
      var ended := IsLonePeriod(buf, start, n, line);
      if ended {
        assert buf[..w] + [] == buf[..w];
        return;
      }
      Assoc(buf[..w], Bare(line), Undot(text[r..]));
      w := KeepLine(buf, w, start, n, line);
    }
    NothingLeft();
    assert text[r..] == [] && buf[..w] + [] == buf[..w];
  }

  method IsLonePeriod(buf: array<Byte>, start: nat, n: nat, ghost line: seq<Byte>) returns (ended: bool)
    requires 0 < n && start + n <= buf.Length
    requires |line| == n && forall k :: start <= k < start + n ==> buf[k] == line[k - start]
    ensures ended <==> IsEnd(line)
  {
    ended := (n == 2 && buf[start] == DOT && buf[start + 1] == LF) ||
             (n == 3 && buf[start] == DOT && buf[start + 1] == CR && buf[start + 2] == LF) ||
             (n == 1 && buf[start] == DOT);
  }

  lemma NothingLeft()
    ensures Undot([]) == []
  {
  }

  /** Scans to just after the next LF, or to the end. */
  method FindLineEnd(buf: array<Byte>, len: nat, start: nat, ghost text: seq<Byte>) returns (r: nat)
    requires start < len <= buf.Length
    requires |text| == len && forall k :: start <= k < len ==> buf[k] == text[k]
    ensures start < r <= len && r == start + LineEnd(text[start..])
  {
    r := start;
    while r < len && buf[r] != LF
      invariant start <= r <= len
      invariant r + LineEnd(text[r..]) == start + LineEnd(text[start..])
    {
      DropOfDrop(text, r, 1);
      r := r + 1;
    }
    if r < len { r := r + 1; }
  }

  /** The transform from the start of a line. */
  lemma UndotAt(text: seq<Byte>, start: nat)
    requires start < |text|
    ensures var r := start + LineEnd(text[start..]);
      && start < r <= |text|
      && Undot(text[start..]) == if IsEnd(text[start..r]) then [] else Bare(text[start..r]) + Undot(text[r..])
  {
    hide LineEnd, IsEnd, Bare;
    var n := LineEnd(text[start..]);
    DropOfDrop(text, start, n);
    assert text[start..][..n] == text[start..start + n];
  }

  // ---------- stuffing undone ----------

  /** What a server sends for a text: a period before each line that starts with one. */
  function Stuff(t: seq<Byte>): seq<Byte>
    decreases |t|
  {
    if t == [] then []
    else
      var n := LineEnd(t);
      (if t[0] == DOT then [DOT] else []) + t[..n] + Stuff(t[n..])
  }

  const TERMINATOR: seq<Byte> := [DOT, CR, LF]

  ghost predicate EndsInLf(t: seq<Byte>) {
    t == [] || t[|t| - 1] == LF
  }

  /** The first line of a text with something put before it. */
  lemma {:induction false} LineEndOfAppend(line: seq<Byte>, more: seq<Byte>)
    requires line != [] && LineEnd(line) == |line|
    ensures line[|line| - 1] == LF ==> LineEnd(line + more) == |line|
    ensures line[|line| - 1] != LF ==> LineEnd(line + more) == |line| + LineEnd(more)
    decreases |line|
  {
    var s := line + more;
    assert s[1..] == line[1..] + more;
    if line[0] != LF {
      if |line| == 1 {
        assert s[1..] == more;
      } else {
        LineEndOfAppend(line[1..], more);
      }
    }
  }

  lemma {:induction false} LineEndIsLine(t: seq<Byte>)
    ensures LineEnd(t[..LineEnd(t)]) == LineEnd(t)
    ensures LineEnd(t) < |t| ==> t[LineEnd(t) - 1] == LF
    decreases |t|
  {
    if t != [] && t[0] != LF {
      var n := LineEnd(t);
      LineEndIsLine(t[1..]);
      assert t[..n][1..] == t[1..][..n - 1];
    }
  }

  /** A stuffed line, taken off the front of a reply, comes out as it was. */
  lemma UndotLine(line: seq<Byte>, more: seq<Byte>)
    requires line != [] && LineEnd(line) == |line| && line[|line| - 1] == LF
    ensures var stuffed := (if line[0] == DOT then [DOT] else []) + line;
      Undot(stuffed + more) == line + Undot(more)
  {
    var stuffed := (if line[0] == DOT then [DOT] else []) + line;
    if line[0] == DOT {
      assert stuffed[1..] == line;
      assert LineEnd(stuffed) == 1 + LineEnd(line);
    } else {
      assert stuffed == line;
    }
    LineEndOfAppend(stuffed, more);
    assert (stuffed + more)[..|stuffed|] == stuffed && (stuffed + more)[|stuffed|..] == more;
    assert !IsEnd(stuffed) && Bare(stuffed) == line;
  }

  /** The terminator ends the text, whatever follows. */
  lemma UndotTerminator(junk: seq<Byte>)
    ensures Undot(TERMINATOR + junk) == []
  {
    var s := TERMINATOR + junk;
    var t, u := s[1..], s[1..][1..];
    assert u[0] == LF && LineEnd(u) == 1;
    assert t[0] == CR && LineEnd(t) == 2;
    assert LineEnd(s) == 3;
    assert s[..3] == TERMINATOR;
  }

  lemma {:induction false} Unstuffed(t: seq<Byte>, junk: seq<Byte>)
    requires EndsInLf(t)
    ensures Undot(Stuff(t) + TERMINATOR + junk) == t
    decreases |t|
  {
    hide Undot, LineEnd, Stuff;
    if t == [] {
      NothingStuffed(junk);
    } else {
      var n := LineEnd(t);
      var line, tail := t[..n], t[n..];
      LineEndIsLine(t);
      Unstuffed(tail, junk);
      FirstUnstuffed(t, junk);
    }
  }

  lemma NothingStuffed(junk: seq<Byte>)
    ensures Undot(Stuff([]) + TERMINATOR + junk) == []
  {
    UndotTerminator(junk);
    assert Stuff([]) + TERMINATOR + junk == TERMINATOR + junk;
  }

  lemma FirstUnstuffed(t: seq<Byte>, junk: seq<Byte>)
    requires t != [] && t[LineEnd(t) - 1] == LF
    ensures Undot(Stuff(t) + TERMINATOR + junk) == t[..LineEnd(t)] + Undot(Stuff(t[LineEnd(t)..]) + TERMINATOR + junk)
  {
    hide Undot, LineEnd;
    var line, tail := t[..LineEnd(t)], t[LineEnd(t)..];
    LineEndIsLine(t);
    UndotLine(line, Stuff(tail) + TERMINATOR + junk);
    var stuffed := (if line[0] == DOT then [DOT] else []) + line;
    assert Stuff(t) == stuffed + Stuff(tail);
    Assoc(stuffed, Stuff(tail), TERMINATOR);
    Assoc(stuffed, Stuff(tail) + TERMINATOR, junk);
  }

  /** A last line without its LF swallows the terminator. */
  lemma {:induction false} LastLineSwallows(t: seq<Byte>, junk: seq<Byte>)
    requires !EndsInLf(t)
    ensures Undot(Stuff(t) + TERMINATOR + junk) == t + TERMINATOR + Undot(junk)
    decreases |t|
  {
    hide Undot, LineEnd;
    var n := LineEnd(t);
    var line, tail := t[..n], t[n..];
    LineEndIsLine(t);
    var stuffed := (if line[0] == DOT then [DOT] else []) + line;
    assert Stuff(t) == stuffed + Stuff(tail);
    if tail == [] {
      assert Stuff(t) == stuffed && line == t;
      SwallowedLine(line, junk);
    } else {
      LastLineSwallows(tail, junk);
      FirstUnstuffed(t, junk);
      Assoc(line, tail, TERMINATOR);
      Assoc(line, tail + TERMINATOR, Undot(junk));
      assert t == line + tail;
    }
  }

  lemma SwallowedLine(line: seq<Byte>, junk: seq<Byte>)
    requires line != [] && LineEnd(line) == |line| && line[|line| - 1] != LF
    ensures var stuffed := (if line[0] == DOT then [DOT] else []) + line;
      Undot(stuffed + TERMINATOR + junk) == line + TERMINATOR + Undot(junk)
  {
    var whole := line + TERMINATOR;
    LineEndOfAppend(line, TERMINATOR);
    var t, u := TERMINATOR[1..], TERMINATOR[1..][1..];
    assert u[0] == LF && LineEnd(u) == 1;
    assert t[0] == CR && LineEnd(t) == 2;
    assert LineEnd(TERMINATOR) == 3;
    UndotLine(whole, junk);
    assert whole[0] == line[0];
    var dot: seq<Byte> := if line[0] == DOT then [DOT] else [];
    Assoc(dot, line, TERMINATOR);
  }

  /** A stuffed and terminated text comes back exactly when it is empty or ends in LF,
      whatever the server sends after the terminator. */
  lemma StuffingIsUndone(t: seq<Byte>, junk: seq<Byte>)
    ensures Undot(Stuff(t) + TERMINATOR + junk) == t <==> EndsInLf(t)
  {
    if EndsInLf(t) {
      Unstuffed(t, junk);
    } else {
      LastLineSwallows(t, junk);
    }
  }

  // ---------- what becomes of each line ----------

  lemma {:induction false} LineEndOfLine(line: seq<Byte>, more: seq<Byte>)
    requires 10 !in line
    ensures LineEnd(line + [10] + more) == |line| + 1 && LineEnd(line) == |line|
    decreases |line|
  {
    var s := line + [10] + more;
    if line != [] {
      assert s[1..] == line[1..] + [10] + more;
      LineEndOfLine(line[1..], more);
    }
  }

  /** A reply is read line by line: a line of one period, with or without a CR, ends the
      text; of two periods that start a line one goes; and any other line is kept as it
      is, one that starts with a single period too. */
  lemma ReplyLine(line: seq<Byte>, more: seq<Byte>)
    requires 10 !in line
    ensures Undot(line + [10] + more) ==
      if line == [46] || line == [46, 13] then []
      else (if [46, 46] <= line then line[1..] else line) + [10] + Undot(more)
  {
    LineEndOfLine(line, more);
    hide LineEnd;
    var s, whole := line + [10] + more, line + [10];
    assert s[..|line| + 1] == whole && s[|line| + 1..] == more;
    assert IsEnd(whole) <==> line == [46] || line == [46, 13] by {
      assert whole[..|line|] == line;
      assert line == [46, 13] ==> whole == [46, 13, 10];
    }
    assert [46, 46] <= line ==> whole[1..] == line[1..] + [10];
  }

  /** The same for a last line without a line end; there only the bare period ends. */
  lemma ReplyWithoutEnd(line: seq<Byte>)
    requires 10 !in line
    ensures Undot(line) == if line == [46] then [] else if [46, 46] <= line then line[1..] else line
  {
    LineEndOfLine(line, []);
    hide LineEnd;
    assert line[..|line|] == line && line[|line|..] == [];
  }
}
