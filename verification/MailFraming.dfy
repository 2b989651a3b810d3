/** Sending a mail body: sanitizing it, and framing it so that the receiver finds its
    end exactly. Nothing is dot-stuffed; a line that is a lone period ends the mail
    (the MAIL command of RFC 765). */
module MailFraming {
  import opened Common

  const TAB: Byte := 9
  const LF: Byte := 10
  const CR: Byte := 13
  const ESC: Byte := 0x1B
  const BRACKET: Byte := 0x5B
  const PERIOD: Byte := 0x2E

  const CRLF: seq<Byte> := [CR, LF]
  const TERMINATOR: seq<Byte> := [PERIOD, CR, LF]

  // ---------- sanitizing ----------

  /** What follows the parameters and final byte of an escape sequence. */
  function AfterSequence(s: seq<Byte>): (t: seq<Byte>)
    ensures |t| <= |s|
  {
    if s == [] then [] else if 0x40 <= s[0] <= 0x7E then s[1..] else AfterSequence(s[1..])
  }

  /** The sanitized text: escape sequences and controls go, TAB stays, and every CR LF,
      CR or LF becomes CR LF. */
  function Clean(s: seq<Byte>): seq<Byte>
    decreases |s|
  {
    if s == [] then []
    else if s[0] == ESC then
      if |s| > 1 && s[1] == BRACKET then Clean(AfterSequence(s[2..])) else Clean(s[1..])
    else if s[0] == CR then CRLF + Clean(if |s| > 1 && s[1] == LF then s[2..] else s[1..])
    else if s[0] == LF then CRLF + Clean(s[1..])
    else if s[0] < 0x20 && s[0] != TAB then Clean(s[1..])
    else [s[0]] + Clean(s[1..])
  }

  /** Text of printing bytes and TABs in which CR and LF occur only as CR LF. */
  predicate Tidy(t: seq<Byte>)
    decreases |t|
  {
    if t == [] then true
    else if t[0] == CR then |t| > 1 && t[1] == LF && Tidy(t[2..])
    else (t[0] >= 0x20 || t[0] == TAB) && Tidy(t[1..])
  }

  /** Byte by byte: each CR is followed by an LF, each LF follows a CR, and no other
      control but TAB is left. */
  lemma {:induction false} TidyBytes(t: seq<Byte>, k: nat)
    requires Tidy(t) && k < |t|
    ensures t[k] >= 0x20 || t[k] == TAB || t[k] == CR || t[k] == LF
    ensures t[k] == CR ==> k + 1 < |t| && t[k + 1] == LF
    ensures t[k] == LF ==> k > 0 && t[k - 1] == CR
    decreases |t|
  {
    if t[0] == CR {
      if k >= 2 { TidyBytes(t[2..], k - 2); }
    } else if k > 0 {
      TidyBytes(t[1..], k - 1);
    }
  }

  lemma {:induction false} CleanIsTidy(s: seq<Byte>)
    ensures Tidy(Clean(s))
    decreases |s|
  {
    if s == [] {
    } else if s[0] == ESC {
      CleanIsTidy(if |s| > 1 && s[1] == BRACKET then AfterSequence(s[2..]) else s[1..]);
    } else if s[0] == CR || s[0] == LF {
      var rest := if s[0] == CR && |s| > 1 && s[1] == LF then s[2..] else s[1..];
      CleanIsTidy(rest);
      assert (CRLF + Clean(rest))[2..] == Clean(rest);
    } else {
      CleanIsTidy(s[1..]);
      assert ([s[0]] + Clean(s[1..]))[1..] == Clean(s[1..]);
    }
  }

  /** Sanitizing leaves a text alone exactly when it is tidy. */
  lemma {:induction false} CleanKeepsTidy(t: seq<Byte>)
    ensures Clean(t) == t <==> Tidy(t)
    decreases |t|
  {
    CleanIsTidy(t);
    if Tidy(t) {
      if t == [] {
      } else if t[0] == CR {
        CleanKeepsTidy(t[2..]);
        assert t == CRLF + t[2..];
      } else {
        CleanKeepsTidy(t[1..]);
        assert t == [t[0]] + t[1..];
      }
    }
  }

  lemma CleanIsIdempotent(s: seq<Byte>)
    ensures Clean(Clean(s)) == Clean(s)
  {
    CleanIsTidy(s);
    CleanKeepsTidy(Clean(s));
  }

  // ---------- what each piece of a text becomes ----------

  /** A text piece by piece: a printing byte or TAB, a line end in any of its three forms,
      an escape sequence, an escape that starts none, or another control. */
  datatype Piece =
    | Plain(b: Byte) | CrLf | LoneCr | LoneLf
    | Sequence(parameters: seq<Byte>, last: Byte) | Escape | Control(b: Byte)
  {
    ghost predicate Valid() {
      match this
      case Plain(b) => b >= 32 || b == 9
      case Sequence(parameters, last) => 64 <= last <= 126 && forall i :: 0 <= i < |parameters| ==> !(64 <= parameters[i] <= 126)
      case Control(b) => b < 32 && b != 9 && b != 10 && b != 13 && b != 27
      case _ => true
    }

    function Bytes(): (bytes: seq<Byte>)
      ensures bytes != []
    {
      match this
      case Plain(b) => [b]
      case CrLf => [13, 10]
      case LoneCr => [13]
      case LoneLf => [10]
      case Sequence(parameters, last) => [27, 91] + parameters + [last]
      case Escape => [27]
      case Control(b) => [b]
    }

    /** What is left of it. */
    function Cleaned(): seq<Byte> {
      match this
      case Plain(b) => [b]
      case CrLf => [13, 10]
      case LoneCr => [13, 10]
      case LoneLf => [13, 10]
      case _ => []
    }

    /** Whether it stays itself before some text. */
    ghost predicate Before(text: seq<Byte>) {
      (LoneCr? ==> text == [] || text[0] != 10) && (Escape? ==> text == [] || text[0] != 91)
    }
  }

  function AllBytes(pieces: seq<Piece>): seq<Byte> {
    if pieces == [] then [] else pieces[0].Bytes() + AllBytes(pieces[1..])
  }

  function AllCleaned(pieces: seq<Piece>): seq<Byte> {
    if pieces == [] then [] else pieces[0].Cleaned() + AllCleaned(pieces[1..])
  }

  ghost predicate Apart(pieces: seq<Piece>) {
    pieces == [] || (pieces[0].Valid() && pieces[0].Before(AllBytes(pieces[1..])) && Apart(pieces[1..]))
  }

  lemma {:induction false} AfterParameters(parameters: seq<Byte>, last: Byte, more: seq<Byte>)
    requires 64 <= last <= 126 && forall i :: 0 <= i < |parameters| ==> !(64 <= parameters[i] <= 126)
    ensures AfterSequence(parameters + [last] + more) == more
    ensures AfterSequence(parameters) == []
    decreases |parameters|
  {
    var s := parameters + [last] + more;
    if parameters == [] {
      assert s[1..] == more;
    } else {
      assert s[1..] == parameters[1..] + [last] + more;
      AfterParameters(parameters[1..], last, more);
    }
  }

  lemma CleanSequence(parameters: seq<Byte>, last: Byte, more: seq<Byte>)
    requires 64 <= last <= 126 && forall i :: 0 <= i < |parameters| ==> !(64 <= parameters[i] <= 126)
    ensures Clean([27, 91] + parameters + [last] + more) == Clean(more)
  {
    var s := [27, 91] + parameters + [last] + more;
    assert s[2..] == parameters + [last] + more;
    AfterParameters(parameters, last, more);
    hide AfterSequence;
  }

  lemma CleanCrLf(more: seq<Byte>)
    ensures Clean([13, 10] + more) == [13, 10] + Clean(more)
  {
    hide AfterSequence;
    assert ([13, 10] + more)[2..] == more;
  }

  lemma CleanByte(b: Byte, more: seq<Byte>)
    requires b == 13 ==> more == [] || more[0] != 10
    requires b == 27 ==> more == [] || more[0] != 91
    ensures Clean([b] + more) ==
      (if b == 13 || b == 10 then [13, 10] else if b >= 32 || b == 9 then [b] else []) + Clean(more)
  {
    hide AfterSequence;
    assert ([b] + more)[1..] == more;
  }

  lemma CleanPiece(piece: Piece, more: seq<Byte>)
    requires piece.Valid() && piece.Before(more)
    ensures Clean(piece.Bytes() + more) == piece.Cleaned() + Clean(more)
  {
    hide Clean;
    match piece {
      case Sequence(parameters, last) => CleanSequence(parameters, last, more);
      case CrLf => CleanCrLf(more);
      case Plain(b) => CleanByte(b, more);
      case LoneCr => CleanByte(13, more);
      case LoneLf => CleanByte(10, more);
      case Escape => CleanByte(27, more);
      case Control(b) => CleanByte(b, more);
    }
  }

  /** Sanitizing keeps printing bytes and TABs, makes every line end CR LF, and drops the
      rest: escape sequences to their final byte, other escapes and controls. */
  lemma {:induction false} CleanOfPieces(pieces: seq<Piece>)
    requires Apart(pieces)
    ensures Clean(AllBytes(pieces)) == AllCleaned(pieces)
    decreases |pieces|
  {
    hide Clean;
    if pieces == [] {
      NothingToClean([]);
    } else {
      CleanPiece(pieces[0], AllBytes(pieces[1..]));
      CleanOfPieces(pieces[1..]);
    }
  }

  /** An escape sequence that never ends takes the rest of the text with it. */
  lemma NothingToClean(parameters: seq<Byte>)
    requires forall i :: 0 <= i < |parameters| ==> !(64 <= parameters[i] <= 126)
    ensures Clean([]) == [] && Clean([27, 91] + parameters) == []
  {
    AfterParameters(parameters, 64, []);
    assert ([27, 91] + parameters)[2..] == parameters;
  }

  /** Skips an escape sequence whose parameters start at `start`. */
  method SkipSequence(src: seq<Byte>, start: nat) returns (i: nat)
    requires start <= |src|
    ensures start <= i <= |src| && src[i..] == AfterSequence(src[start..])
  {
    i := start;
    while i < |src|
      invariant start <= i <= |src|
      invariant AfterSequence(src[i..]) == AfterSequence(src[start..])
    {
      var p := src[i];
      assert src[i..][1..] == src[i + 1..];
      i := i + 1;
      if 0x40 <= p <= 0x7E { return; }
    }
  }

  /** Sanitizes src into dst. Room for two bytes for each byte of src and the final
      NUL is enough never to truncate; with less, a prefix comes out. */
  method Sanitize(src: seq<Byte>, dst: array<Byte>) returns (j: nat)
    requires dst.Length >= 1
    modifies dst
    ensures j < dst.Length && dst[j] == 0
    ensures dst[..j] <= Clean(src)
    ensures dst.Length >= 2 * |src| + 1 ==> dst[..j] == Clean(src)
  {
    var i: nat := 0;
    j := 0;
    assert src[0..] == src && dst[..0] == [];
    while i < |src| && j + 2 < dst.Length
      invariant i <= |src| && j < dst.Length && j <= 2 * i
      invariant Clean(src) == dst[..j] + Clean(src[i..])
      decreases |src| - i
    {
      var c := src[i];
      ghost var rest, done := src[i..], dst[..j];
      assert rest[1..] == src[i + 1..];
      if c == ESC && i + 1 < |src| && src[i + 1] == BRACKET {
        assert rest[2..] == src[i + 2..];
        i := SkipSequence(src, i + 2);
      } else if c == ESC {
        i := i + 1;
      } else if c == CR || c == LF {
        dst[j] := CR;
        dst[j + 1] := LF;
        j := j + 2;
        i := i + 1;
        if c == CR && i < |src| && src[i] == LF {
          assert rest[2..] == src[i + 1..];
          i := i + 1;
        }
        Assoc(done, CRLF, Clean(src[i..]));
        assert dst[..j] == done + CRLF;
      } else if c < 0x20 && c != TAB {
        i := i + 1;
      } else {
        dst[j] := c;
        j := j + 1;
        i := i + 1;
        Assoc(done, [c], Clean(src[i..]));
        assert dst[..j] == done + [c];
      }
    }
    dst[j] := 0;
    assert i == |src| ==> src[i..] == [];
  }

  // ---------- lines ----------

  /** The length of the first line: up to the first CR LF, or everything. */
  function LineLen(s: seq<Byte>): (n: nat)
    ensures n <= |s|
    ensures n < |s| ==> n + 2 <= |s| && s[n] == CR && s[n + 1] == LF
  {
    if |s| < 2 then |s| else if s[0] == CR && s[1] == LF then 0 else 1 + LineLen(s[1..])
  }

  /** No CR LF comes before the end of the first line. */
  lemma {:induction false} LineLenIsFirst(s: seq<Byte>, i: nat)
    requires i < LineLen(s) && i + 1 < |s|
    ensures !(s[i] == 13 && s[i + 1] == 10)
    decreases |s|
  {
    if i > 0 { LineLenIsFirst(s[1..], i - 1); }
  }

  /** The first line does not depend on what follows its CR LF. */
  lemma {:induction false} LineLenOfPrefix(s: seq<Byte>, more: seq<Byte>)
    requires LineLen(s) < |s|
    ensures LineLen(s + more) == LineLen(s)
    decreases |s|
  {
    if !(s[0] == CR && s[1] == LF) {
      assert (s + more)[1..] == s[1..] + more;
      LineLenOfPrefix(s[1..], more);
    }
  }

  /** An unfinished line is finished by a CR LF put after it. */
  lemma {:induction false} LineLenFinished(s: seq<Byte>, more: seq<Byte>)
    requires LineLen(s) == |s|
    ensures LineLen(s + CRLF + more) == |s|
    decreases |s|
  {
    var t := s + CRLF + more;
    if s != [] {
      assert t[1..] == s[1..] + CRLF + more;
      LineLenFinished(s[1..], more);
      assert |s| >= 2 ==> t[0] == s[0] && t[1] == s[1];
    }
  }

  /** Where the first line that is exactly one period starts. */
  function FirstPeriod(s: seq<Byte>): (off: Option<nat>)
    ensures off.Some? ==> off.value < |s|
    decreases |s|
  {
    var n := LineLen(s);
    if n == 1 && s[0] == PERIOD then Some(0)
    else if n == |s| then None
    else Shifted(FirstPeriod(s[n + 2..]), n + 2)
  }

  /** An offset counted from k bytes earlier. */
  function Shifted(off: Option<nat>, k: nat): Option<nat> {
    match off case None => None case Some(n) => Some(k + n)
  }

  function EndsInCrlf(s: seq<Byte>): bool {
    |s| >= 2 && s[|s| - 2] == CR && s[|s| - 1] == LF
  }

  /** Everything the sender puts on the wire after the 354 reply. */
  function Wire(body: seq<Byte>): seq<Byte> {
    match FirstPeriod(body)
    case Some(off) => body[..off] + TERMINATOR
    case None => body + (if EndsInCrlf(body) then TERMINATOR else CRLF + TERMINATOR)
  }

  // ---------- the receiver ----------

  /** A receiver taking lines up to the first lone period: the mail text, and what is
      left to be read as commands. None while the end has not arrived. */
  function Receive(stream: seq<Byte>): Option<(seq<Byte>, seq<Byte>)>
    decreases |stream|
  {
    var n := LineLen(stream);
    if n == |stream| then None
    else if n == 1 && stream[0] == PERIOD then Some(([], stream[3..]))
    else match Receive(stream[n + 2..])
      case None => None
      case Some((text, rest)) => Some((stream[..n + 2] + text, rest))
  }

  /** The mail the sender means: up to the first lone period, or all of the body, made
      to end in CR LF. */
  function Meant(body: seq<Byte>): seq<Byte> {
    match FirstPeriod(body)
    case Some(off) => body[..off]
    case None => if EndsInCrlf(body) then body else body + CRLF
  }

  lemma ReceiveLine(line: seq<Byte>, stream: seq<Byte>)
    requires LineLen(line + CRLF) == |line| && line != [PERIOD]
    ensures Receive(line + CRLF + stream) ==
      match Receive(stream) case None => None case Some((text, rest)) => Some((line + CRLF + text, rest))
  {
    var s := line + CRLF + stream;
    LineLenOfPrefix(line + CRLF, stream);
    assert s[|line| + 2..] == stream && s[..|line| + 2] == line + CRLF;
    assert |line| == 1 ==> s[0] == line[0];
  }

  lemma ReceiveTerminator(rest: seq<Byte>)
    ensures Receive(TERMINATOR + rest) == Some(([], rest))
  {
    var s := TERMINATOR + rest;
    assert s[1..][0] == CR && s[1..][1] == LF && LineLen(s[1..]) == 0;
    assert s[3..] == rest;
  }

  lemma {:induction false} NoLineIsNoCrlf(s: seq<Byte>)
    requires LineLen(s) == |s|
    ensures !EndsInCrlf(s)
    decreases |s|
  {
    if |s| > 2 { NoLineIsNoCrlf(s[1..]); }
  }

  /** Receiver and sender agree on every body: the receiver gets what was meant, and
      consumes exactly what was sent, whatever comes after. */
  lemma {:induction false} FramingIsExact(body: seq<Byte>, rest: seq<Byte>)
    ensures Receive(Wire(body) + rest) == Some((Meant(body), rest))
    decreases |body|
  {
    var n := LineLen(body);
    if n == 1 && body[0] == PERIOD {
      assert Wire(body) == TERMINATOR;
      ReceiveTerminator(rest);
    } else if n == |body| {
      UnfinishedFramed(body, rest);
    } else {
      var line, tail := body[..n], body[n + 2..];
      assert body == line + CRLF + tail;
      LineIsWhole(body);
      if tail == [] {
        LastLineFramed(line, rest);
        assert body == line + CRLF;
      } else {
        FramingIsExact(tail, rest);
        LineFramed(line, tail, rest);
      }
    }
  }

  lemma UnfinishedFramed(body: seq<Byte>, rest: seq<Byte>)
    requires LineLen(body) == |body| && body != [PERIOD]
    ensures Receive(Wire(body) + rest) == Some((Meant(body), rest))
  {
    hide LineLen, Receive;
    NoLineIsNoCrlf(body);
    LineLenFinished(body, []);
    assert body + CRLF + [] == body + CRLF;
    ReceiveLine(body, TERMINATOR + rest);
    ReceiveTerminator(rest);
    Assoc(body, CRLF, TERMINATOR);
    Assoc(body + CRLF, TERMINATOR, rest);
  }

  lemma LineFramed(line: seq<Byte>, tail: seq<Byte>, rest: seq<Byte>)
    requires LineLen(line + CRLF) == |line| && line != [PERIOD] && tail != []
    requires Receive(Wire(tail) + rest) == Some((Meant(tail), rest))
    ensures Receive(Wire(line + CRLF + tail) + rest) == Some((Meant(line + CRLF + tail), rest))
  {
    hide LineLen, Wire, Meant, Receive;
    WireOfLine(line, tail);
    Assoc(line + CRLF, Wire(tail), rest);
    ReceiveLine(line, Wire(tail) + rest);
  }

  lemma LastLineFramed(line: seq<Byte>, rest: seq<Byte>)
    requires LineLen(line + CRLF) == |line| && line != [PERIOD]
    ensures Receive(Wire(line + CRLF) + rest) == Some((Meant(line + CRLF), rest))
  {
    hide LineLen, Receive;
    PeriodAfterLine(line, []);
    assert line + CRLF + [] == line + CRLF && FirstPeriod([]).None?;
    ReceiveLine(line, TERMINATOR + rest);
    ReceiveTerminator(rest);
    Assoc(line + CRLF, TERMINATOR, rest);
  }

  lemma {:induction false} LineIsWhole(body: seq<Byte>)
    requires LineLen(body) < |body|
    ensures LineLen(body[..LineLen(body)] + CRLF) == LineLen(body)
    decreases |body|
  {
    var n := LineLen(body);
    var s := body[..n] + CRLF;
    if n > 0 {
      LineIsWhole(body[1..]);
      assert body[1..][..n - 1] == body[..n][1..];
      assert s[1..] == body[1..][..n - 1] + CRLF;
      assert n >= 2 ==> s[1] == body[1];
    }
  }

  lemma PeriodAfterLine(line: seq<Byte>, tail: seq<Byte>)
    requires LineLen(line + CRLF) == |line| && line != [PERIOD]
    ensures FirstPeriod(line + CRLF + tail) == Shifted(FirstPeriod(tail), |line| + 2)
  {
    hide LineLen;
    var body := line + CRLF + tail;
    LineLenOfPrefix(line + CRLF, tail);
    assert body[|line| + 2..] == tail;
    assert |line| == 1 ==> body[0] == line[0];
  }

  lemma EndAfterLine(line: seq<Byte>, tail: seq<Byte>)
    requires tail != []
    ensures EndsInCrlf(line + CRLF + tail) == EndsInCrlf(tail)
  {
    var body := line + CRLF + tail;
    assert body[|body| - 1] == tail[|tail| - 1];
    if |tail| == 1 { assert body[|body| - 2] == LF; } else { assert body[|body| - 2] == tail[|tail| - 2]; }
  }

  lemma CutAfter<T>(head: seq<T>, tail: seq<T>, n: nat)
    requires n <= |tail|
    ensures (head + tail)[..|head| + n] == head + tail[..n]
  {
  }

  /** A line in front only puts itself in front, of the wire and of what is meant. */
  lemma WireOfLine(line: seq<Byte>, tail: seq<Byte>)
    requires LineLen(line + CRLF) == |line| && line != [PERIOD] && tail != []
    ensures Wire(line + CRLF + tail) == line + CRLF + Wire(tail)
    ensures Meant(line + CRLF + tail) == line + CRLF + Meant(tail)
  {
    hide *;
    PeriodAfterLine(line, tail);
    EndAfterLine(line, tail);
    assert |line + CRLF| == |line| + 2 by { CrlfIsTwo(); }
    WireAfter(line + CRLF, tail);
  }

  lemma WireAfter(head: seq<Byte>, tail: seq<Byte>)
    requires FirstPeriod(head + tail) == Shifted(FirstPeriod(tail), |head|)
    requires EndsInCrlf(head + tail) == EndsInCrlf(tail)
    ensures Wire(head + tail) == head + Wire(tail)
    ensures Meant(head + tail) == head + Meant(tail)
  {
    hide *;
    WireCases(head + tail);
    WireCases(tail);
    ShiftedCases(FirstPeriod(tail), |head|);
    match FirstPeriod(tail)
    case Some(off) =>
      CutAfter(head, tail, off);
      Assoc(head, tail[..off], TERMINATOR);
    case None =>
      Assoc(head, tail, TERMINATOR);
      Assoc(head, tail, CRLF + TERMINATOR);
      Assoc(head, tail, CRLF);
  }

  lemma CrlfIsTwo()
    ensures |CRLF| == 2
  {
  }

  lemma ShiftedCases(off: Option<nat>, k: nat)
    ensures off.None? ==> Shifted(off, k) == None
    ensures off.Some? ==> Shifted(off, k) == Some(k + off.value)
  {
  }

  lemma WireCases(body: seq<Byte>)
    ensures FirstPeriod(body).Some? ==>
      Wire(body) == body[..FirstPeriod(body).value] + TERMINATOR && Meant(body) == body[..FirstPeriod(body).value]
    ensures FirstPeriod(body).None? && EndsInCrlf(body) ==> Wire(body) == body + TERMINATOR && Meant(body) == body
    ensures FirstPeriod(body).None? && !EndsInCrlf(body) ==> Wire(body) == body + (CRLF + TERMINATOR) && Meant(body) == body + CRLF
  {
  }

  // ---------- sending ----------

  /** Scans for the first lone period, line by line. */
  method FindPeriod(clean: seq<Byte>) returns (off: Option<nat>)
    ensures off == FirstPeriod(clean)
  {
    hide LineLen, FirstPeriod;
    var i: nat := 0;
    off := None;
    assert clean[0..] == clean;
    while i < |clean|
      invariant i <= |clean|
      invariant FirstPeriod(clean) == Shifted(FirstPeriod(clean[i..]), i)
      decreases |clean| - i
    {
      var e := FindLineEnd(clean, i);
      PeriodAt(clean, i);
      if e - i == 1 && clean[i] == PERIOD {
        return Some(i);
      }
      if e >= |clean| { return; }
      i := e + 2;
    }
    NoPeriodLeft();
  }

  lemma NoPeriodLeft()
    ensures FirstPeriod([]).None?
  {
  }

  /** The search from the start of a line. */
  lemma PeriodAt(s: seq<Byte>, i: nat)
    requires i < |s|
    ensures var e := i + LineLen(s[i..]);
      if e == i + 1 && s[i] == PERIOD then FirstPeriod(s[i..]) == Some(0)
      else if e >= |s| then FirstPeriod(s[i..]) == None
      else e + 2 <= |s| && FirstPeriod(s[i..]) == Shifted(FirstPeriod(s[e + 2..]), e + 2 - i)
  {
    hide LineLen;
    var n := LineLen(s[i..]);
    if n + 2 <= |s| - i { DropOfDrop(s, i, n + 2); }
  }

  method FindLineEnd(clean: seq<Byte>, i: nat) returns (e: nat)
    requires i <= |clean|
    ensures e == i + LineLen(clean[i..])
  {
    e := i;
    while e < |clean|
      invariant i <= e <= |clean|
      invariant e + LineLen(clean[e..]) == i + LineLen(clean[i..])
    {
      if e + 1 < |clean| && clean[e] == CR && clean[e + 1] == LF { return; }
      assert clean[e..][1..] == clean[e + 1..];
      e := e + 1;
    }
  }

  /** Sends a body after the 354 reply; `wire` is what goes out, in order. */
  method SendBody(raw: seq<Byte>) returns (wire: seq<Byte>)
    ensures wire == Wire(Clean(raw))
  {
    var buffer := new Byte[|raw| * 2 + 8];
    var cleanLen := Sanitize(raw, buffer);
    var clean := buffer[..cleanLen];
    var period := FindPeriod(clean);
    wire := [];
    if period.Some? {
      if period.value > 0 { wire := clean[..period.value]; }
      wire := wire + TERMINATOR;
    } else {
      if cleanLen > 0 { wire := clean; }
      var ended := cleanLen >= 2 && clean[cleanLen - 2] == CR && clean[cleanLen - 1] == LF;
      wire := wire + if ended then TERMINATOR else CRLF + TERMINATOR;
    }
  }

  /** From the typed text to the receiver: it takes exactly the bytes sent and gets
      the sanitized mail, which is tidy and empty or ends in CR LF. */
  lemma MailArrives(raw: seq<Byte>, rest: seq<Byte>)
    ensures Receive(Wire(Clean(raw)) + rest) == Some((Meant(Clean(raw)), rest))
    ensures Tidy(Meant(Clean(raw)))
    ensures Meant(Clean(raw)) == [] || EndsInCrlf(Meant(Clean(raw)))
    ensures Meant(Clean(raw)) <= Clean(raw) || Meant(Clean(raw)) == Clean(raw) + CRLF
  {
    var t := Clean(raw);
    CleanIsTidy(raw);
    FramingIsExact(t, rest);
    MeantIsTidy(t);
  }

  lemma {:induction false} TidyAppend(t: seq<Byte>, u: seq<Byte>)
    requires Tidy(t)
    ensures Tidy(t + u) == Tidy(u)
    decreases |t|
  {
    if t == [] {
      assert t + u == u;
    } else if t[0] == CR {
      assert (t + u)[2..] == t[2..] + u;
      TidyAppend(t[2..], u);
    } else {
      assert (t + u)[1..] == t[1..] + u;
      TidyAppend(t[1..], u);
    }
  }

  /** A tidy text can be cut just before any byte that is not an LF. */
  lemma {:induction false} TidyPrefix(t: seq<Byte>, n: nat)
    requires Tidy(t) && n < |t| && t[n] != LF
    ensures Tidy(t[..n])
    decreases |t|
  {
    if n > 0 {
      if t[0] == CR {
        assert t[..n][2..] == t[2..][..n - 2];
        TidyPrefix(t[2..], n - 2);
      } else {
        assert t[..n][1..] == t[1..][..n - 1];
        TidyPrefix(t[1..], n - 1);
      }
    }
  }

  lemma MeantIsTidy(t: seq<Byte>)
    requires Tidy(t)
    ensures Tidy(Meant(t)) && (Meant(t) == [] || EndsInCrlf(Meant(t)))
  {
    match FirstPeriod(t)
    case Some(off) =>
      PeriodStartsLine(t);
      TidyPrefix(t, off);
    case None =>
      if !EndsInCrlf(t) {
        TidyAppend(t, CRLF);
        assert CRLF[2..] == [];
      }
  }

  lemma {:induction false} PeriodStartsLine(s: seq<Byte>)
    requires FirstPeriod(s).Some?
    ensures s[FirstPeriod(s).value] == PERIOD
    ensures FirstPeriod(s).value == 0 || EndsInCrlf(s[..FirstPeriod(s).value])
    decreases |s|
  {
    var n := LineLen(s);
    if !(n == 1 && s[0] == PERIOD) {
      var tail := s[n + 2..];
      PeriodStartsLine(tail);
      var off := FirstPeriod(tail).value;
      if off > 0 {
        var cut := s[..n + 2 + off];
        assert cut[|cut| - 2] == tail[..off][off - 2] && cut[|cut| - 1] == tail[..off][off - 1];
      }
    }
  }

  // ---------- line by line on the wire ----------

  /** Lines, each with its CR LF. */
  function Joined(lines: seq<seq<Byte>>): seq<Byte> {
    if lines == [] then [] else lines[0] + [13, 10] + Joined(lines[1..])
  }

  /** The lines before the first that is one period. */
  function BeforeDot(lines: seq<seq<Byte>>): seq<seq<Byte>> {
    if lines == [] || lines[0] == [46] then [] else [lines[0]] + BeforeDot(lines[1..])
  }

  lemma {:induction false} LineLenOfLine(line: seq<Byte>, more: seq<Byte>)
    requires 13 !in line
    ensures LineLen(line + [13, 10] + more) == |line| && LineLen(line) == |line|
    decreases |line|
  {
    var s := line + [13, 10] + more;
    if line != [] {
      assert s[1..] == line[1..] + [13, 10] + more;
      LineLenOfLine(line[1..], more);
    }
  }

  lemma PeriodOfLine(line: seq<Byte>, more: seq<Byte>)
    requires 13 !in line
    ensures FirstPeriod(line + [13, 10] + more) ==
      if line == [46] then Some(0) else Shifted(FirstPeriod(more), |line| + 2)
  {
    LineLenOfLine(line, more);
    hide LineLen;
    var s := line + [13, 10] + more;
    assert s[|line| + 2..] == more;
    assert |line| == 1 ==> s[0] == line[0];
  }

  /** A body of whole lines goes out as the lines before its first lone period, and then
      the period, CR, LF that end the mail. */
  lemma {:induction false} WireOfLines(lines: seq<seq<Byte>>)
    requires lines != [] && forall i :: 0 <= i < |lines| ==> 13 !in lines[i]
    ensures Wire(Joined(lines)) == Joined(BeforeDot(lines)) + [46, 13, 10]
    ensures Meant(Joined(lines)) == Joined(BeforeDot(lines))
    decreases |lines|
  {
    hide FirstPeriod;
    var line, tail := lines[0], Joined(lines[1..]);
    PeriodOfLine(line, tail);
    var body := line + [13, 10] + tail;
    if line == [46] {
      assert body[..0] == [];
    } else if |lines| == 1 {
      NoPeriodInNothing();
      assert tail == [] && body == line + [13, 10];
      assert BeforeDot(lines) == [line] + [] && Joined([line]) == line + [13, 10];
    } else {
      WireOfLines(lines[1..]);
      var first := line + [13, 10];
      assert BeforeDot(lines)[1..] == BeforeDot(lines[1..]);
      assert Joined(BeforeDot(lines)) == first + Joined(BeforeDot(lines[1..]));
      OneMoreLine(first, tail);
    }
  }

  lemma NoPeriodInNothing()
    ensures FirstPeriod([]) == None
  {
  }

  lemma EndOfTail(head: seq<Byte>, tail: seq<Byte>)
    requires |tail| >= 2
    ensures EndsInCrlf(head + tail) == EndsInCrlf(tail)
  {
  }

  lemma OneMoreLine(first: seq<Byte>, tail: seq<Byte>)
    requires |tail| >= 2 && FirstPeriod(first + tail) == Shifted(FirstPeriod(tail), |first|)
    ensures Wire(first + tail) == first + Wire(tail) && Meant(first + tail) == first + Meant(tail)
  {
    hide *;
    EndOfTail(first, tail);
    WireAfter(first, tail);
  }

  /** A body that is one unfinished line gets its CR LF, unless it is a period. */
  lemma WireOfUnfinished(line: seq<Byte>)
    requires 13 !in line
    ensures Wire(line) == if line == [46] then [46, 13, 10] else line + [13, 10, 46, 13, 10]
  {
    LineLenOfLine(line, []);
    hide LineLen;
    assert CRLF + TERMINATOR == [13, 10, 46, 13, 10];
  }
}
