/** The two-bit delta-modulation decoder: a leaky integrator stepped by each code. */
module DeltaMod {
  import opened Common

  const LEAK_NUM := 255
  const LEAK_DEN := 256
  /** The bound that keeps all arithmetic within 32 bits. */
  const ROOM := 126464
  /** The level the integrator settles at under the largest step. */
  const PEAK := 126209

  type Code = c: int | 0 <= c < 4

  function StepOf(code: Code): int {
    match code
    case 0 => 160
    case 1 => 494
    case 2 => -160
    case _ => -494
  }

  /** Division that truncates toward zero. */
  function Quotient(n: int, d: nat): int
    requires d > 0
  {
    if n >= 0 then n / d else -(-n / d)
  }

  function Next(acc: int, code: Code): int {
    Quotient(acc * LEAK_NUM, LEAK_DEN) + StepOf(code)
  }

  function Clamp16(v: int): (r: int)
    ensures -32768 <= r <= 32767
    ensures -32768 <= v <= 32767 ==> r == v
    ensures (v > 32767 ==> r == 32767) && (v < -32768 ==> r == -32768)
  {
    if v > 32767 then 32767 else if v < -32768 then -32768 else v
  }

  /** The four codes of a byte, the most significant pair first. */
  function Codes(b: Byte): (codes: seq<Code>)
    ensures |codes| == 4
  {
    [b / 64, b / 16 % 4, b / 4 % 4, b % 4]
  }

  function AllCodes(input: seq<Byte>): seq<Code> {
    if input == [] then [] else AllCodes(input[..|input| - 1]) + Codes(input[|input| - 1])
  }

  /** The level after some codes. */
  function Level(acc: int, codes: seq<Code>): int {
    if codes == [] then acc else Next(Level(acc, codes[..|codes| - 1]), codes[|codes| - 1])
  }

  /** The samples some codes give. */
  function Samples(acc: int, codes: seq<Code>): (s: seq<int>)
    ensures |s| == |codes|
  {
    if codes == [] then [] else Samples(acc, codes[..|codes| - 1]) + [Clamp16(Level(acc, codes))]
  }

  predicate InRoom(acc: int) {
    -ROOM <= acc <= ROOM
  }

  class Decoder {
    var acc: int

    constructor ()
      ensures acc == 0
    {
      acc := 0;
    }

    /** Decodes bytes into samples; every level on the way fits its 32-bit variable. */
    method Decode(input: seq<Byte>, output: array<int>) returns (n: nat)
      requires InRoom(acc) && output.Length >= 4 * |input|
      modifies this, output
      ensures n == 4 * |input|
      ensures output[..n] == Samples(old(acc), AllCodes(input))
      ensures acc == Level(old(acc), AllCodes(input)) && InRoom(acc)
      ensures output[n..] == old(output[4 * |input|..])
    {
      hide Next, Codes, Clamp16;
      n := 0;
      var a: int := acc;
      ghost var tail := output[4 * |input|..];
      ghost var done: seq<Code> := [];
      assert input[..0] == [];
      for i := 0 to |input|
        invariant n == 4 * i == |done| && done == AllCodes(input[..i])
        invariant a == Level(old(acc), done) && InRoom(a)
        invariant output[..n] == Samples(old(acc), done)
        invariant output[4 * |input|..] == tail && acc == old(acc)
      {
        PrefixSnoc(input, i);
        var codes := Codes(input[i]);
        ghost var before := done;
        assert before + codes[..0] == before;
        for s := 0 to 4
          invariant n == 4 * i + s == |done| && done == before + codes[..s]
          invariant a == Level(old(acc), done) && InRoom(a)
          invariant output[..n] == Samples(old(acc), done)
          invariant output[4 * |input|..] == tail && acc == old(acc)
        {
          NextFits(a, codes[s]);
          LevelSnoc(old(acc), done, codes[s]);
          PrefixSnoc(codes, s);
          Assoc(before, codes[..s], [codes[s]]);
          ghost var shown := output[..n];
          a := Next(a, codes[s]);
          output[n] := Clamp16(a);
          assert output[..n + 1] == shown + [Clamp16(a)];
          done := done + [codes[s]];
          n := n + 1;
        }
        assert codes[..4] == codes;
      }
      assert input[..|input|] == input;
      acc := a;
    }
  }

  lemma LevelSnoc(acc: int, codes: seq<Code>, code: Code)
    ensures Level(acc, codes + [code]) == Next(Level(acc, codes), code)
    ensures Samples(acc, codes + [code]) == Samples(acc, codes) + [Clamp16(Next(Level(acc, codes), code))]
  {
    hide Next, Clamp16;
    assert (codes + [code])[..|codes|] == codes;
  }

  // ---------- bounded for ever ----------

  /** One step from within the room stays there, and so does the product it is made of
      within 32 bits. */
  lemma NextFits(acc: int, code: Code)
    requires InRoom(acc)
    ensures InRoom(Next(acc, code)) && -0x8000_0000 <= acc * LEAK_NUM < 0x8000_0000
  {
  }

  lemma NextBelowPeak(acc: int, code: Code)
    requires -PEAK <= acc <= PEAK
    ensures -PEAK <= Next(acc, code) <= PEAK
  {
  }

  /** On endless input the level never leaves the band up to the peak. */
  lemma {:induction false} LevelIsBounded(acc: int, codes: seq<Code>)
    requires -PEAK <= acc <= PEAK
    ensures -PEAK <= Level(acc, codes) <= PEAK
    decreases |codes|
  {
    hide Next;
    if codes != [] {
      LevelIsBounded(acc, codes[..|codes| - 1]);
      NextBelowPeak(Level(acc, codes[..|codes| - 1]), codes[|codes| - 1]);
    }
  }

  function Repeat(code: Code, n: nat): seq<Code> {
    if n == 0 then [] else Repeat(code, n - 1) + [code]
  }

  lemma Climbs(acc: int)
    requires 0 <= acc < PEAK
    ensures acc < Next(acc, 1) <= PEAK
  {
  }

  lemma {:induction false} ClimbsBy(n: nat)
    requires n <= PEAK
    ensures n <= Level(0, Repeat(1, n)) <= PEAK
  {
    hide Next;
    if n > 0 {
      ClimbsBy(n - 1);
      LevelSnoc(0, Repeat(1, n - 1), 1);
      var before := Level(0, Repeat(1, n - 1));
      if before < PEAK { Climbs(before); } else { NextBelowPeak(before, 1); PeakStays(); }
    }
  }

  lemma PeakStays()
    ensures Next(PEAK, 1) == PEAK && Next(-PEAK, 3) == -PEAK
  {
  }

  /** The peak is the least bound: the large step repeated gets there, and stays. */
  lemma PeakIsReached()
    ensures Level(0, Repeat(1, PEAK)) == PEAK && Next(PEAK, 1) == PEAK
  {
    ClimbsBy(PEAK);
    PeakStays();
  }

  // ---------- decoding in parts ----------

  lemma {:induction false} LevelAppend(acc: int, a: seq<Code>, b: seq<Code>)
    ensures Level(acc, a + b) == Level(Level(acc, a), b)
    ensures Samples(acc, a + b) == Samples(acc, a) + Samples(Level(acc, a), b)
    decreases |b|
  {
    hide Next, Clamp16;
    if b == [] {
      assert a + b == a;
    } else {
      var front, last := b[..|b| - 1], b[|b| - 1];
      assert b == front + [last];
      Assoc(a, front, [last]);
      LevelAppend(acc, a, front);
      LevelSnoc(acc, a + front, last);
      LevelSnoc(Level(acc, a), front, last);
      Assoc(Samples(acc, a), Samples(Level(acc, a), front), [Clamp16(Next(Level(acc, a + front), last))]);
    }
  }

  lemma {:induction false} AllCodesAppend(x: seq<Byte>, y: seq<Byte>)
    ensures AllCodes(x + y) == AllCodes(x) + AllCodes(y)
    decreases |y|
  {
    hide Codes;
    if y == [] {
      assert x + y == x;
    } else {
      var front := y[..|y| - 1];
      assert (x + y)[..|x + y| - 1] == x + front;
      AllCodesAppend(x, front);
      Assoc(AllCodes(x), AllCodes(front), Codes(y[|y| - 1]));
    }
  }

  /** Decoding two buffers one after the other is decoding them joined. */
  lemma DecodeInParts(acc: int, x: seq<Byte>, y: seq<Byte>)
    ensures var mid := Level(acc, AllCodes(x));
      && Samples(acc, AllCodes(x + y)) == Samples(acc, AllCodes(x)) + Samples(mid, AllCodes(y))
      && Level(acc, AllCodes(x + y)) == Level(mid, AllCodes(y))
  {
    AllCodesAppend(x, y);
    LevelAppend(acc, AllCodes(x), AllCodes(y));
  }

  // ---------- two decoders on one stream ----------

  lemma QuotientMonotone(a: int, b: int)
    requires a <= b
    ensures 0 <= Quotient(b * LEAK_NUM, LEAK_DEN) - Quotient(a * LEAK_NUM, LEAK_DEN) <= b - a
  {
    if a < 0 <= b {
      LeakShrinks(b);
      LeakShrinks(-a);
    } else if 0 <= a {
      LeakGap(a, b);
    } else {
      LeakGap(-b, -a);
    }
  }

  lemma LeakShrinks(a: nat)
    ensures 0 <= a * LEAK_NUM / LEAK_DEN <= a
  {
  }

  lemma LeakGap(a: nat, b: nat)
    requires a <= b
    ensures 0 <= b * LEAK_NUM / LEAK_DEN - a * LEAK_NUM / LEAK_DEN <= b - a
  {
  }

  /** From different levels, the same bytes never change the order of two decoders nor
      widen their gap. */
  lemma {:induction false} OrderIsKept(low: int, high: int, codes: seq<Code>)
    requires low <= high
    ensures 0 <= Level(high, codes) - Level(low, codes) <= high - low
    decreases |codes|
  {
    hide Quotient;
    if codes != [] {
      var front := codes[..|codes| - 1];
      OrderIsKept(low, high, front);
      QuotientMonotone(Level(low, front), Level(high, front));
    }
  }

  /** Nor do their samples cross or drift apart. */
  lemma {:induction false} SamplesKeepOrder(low: int, high: int, codes: seq<Code>, i: nat)
    requires low <= high && i < |codes|
    ensures 0 <= Samples(high, codes)[i] - Samples(low, codes)[i] <= high - low
    decreases |codes|
  {
    hide Next;
    var front := codes[..|codes| - 1];
    if i < |front| {
      SamplesKeepOrder(low, high, front, i);
    } else {
      OrderIsKept(low, high, codes);
    }
  }

  // ---------- worked out ----------

  /** The codes of a byte are its bit pairs from the top. */
  lemma CodesBuildByte(a: Code, b: Code, c: Code, d: Code)
    ensures 0 <= a * 64 + b * 16 + c * 4 + d < 256
    ensures Codes(a * 64 + b * 16 + c * 4 + d) == [a, b, c, d]
  {
    var v: Byte := a * 64 + b * 16 + c * 4 + d;
    assert v / 4 == a * 16 + b * 4 + c && v / 16 == a * 4 + b && v / 64 == a;
    assert (a * 16 + b * 4 + c) % 4 == c && (a * 4 + b) % 4 == b && v % 4 == d;
  }

  function Mirror(code: Code): Code {
    match code
    case 0 => 2
    case 1 => 3
    case 2 => 0
    case _ => 1
  }

  function Mirrored(codes: seq<Code>): (m: seq<Code>)
    ensures |m| == |codes|
  {
    if codes == [] then [] else Mirrored(codes[..|codes| - 1]) + [Mirror(codes[|codes| - 1])]
  }

  /** The decoder treats up and down alike: the opposite codes from the opposite level lead
      to the opposite level. */
  lemma {:induction false} MirrorImage(acc: int, codes: seq<Code>)
    ensures Level(-acc, Mirrored(codes)) == -Level(acc, codes)
    decreases |codes|
  {
    if codes != [] {
      var front, last := codes[..|codes| - 1], codes[|codes| - 1];
      MirrorImage(acc, front);
      hide Next, Clamp16;
      NextMirrors(Level(acc, front), last);
      LevelSnoc(-acc, Mirrored(front), Mirror(last));
      LevelSnoc(acc, front, last);
      assert codes == front + [last];
    }
  }

  lemma NextMirrors(acc: int, code: Code)
    ensures Next(-acc, Mirror(code)) == -Next(acc, code)
  {
  }

  /** One byte with each code in turn, from rest, and one that goes down four times. */
  lemma FirstSamples()
    ensures Samples(0, AllCodes([0x1B])) == [160, 653, 490, -6]
    ensures Samples(0, AllCodes([0xAA])) == [-160, -319, -477, -635]
  {
    StepsWorkedOut();
    hide Next, Codes;
    CodesBuildByte(0, 1, 2, 3);
    CodesBuildByte(2, 2, 2, 2);
    OneByte(0x1B);
    OneByte(0xAA);
    FourSamples(0, 0, 1, 2, 3);
    FourSamples(0, 2, 2, 2, 2);
  }

  lemma StepsWorkedOut()
    ensures Next(0, 0) == 160 && Next(160, 1) == 653 && Next(653, 2) == 490 && Next(490, 3) == -6
    ensures Next(0, 2) == -160 && Next(-160, 2) == -319 && Next(-319, 2) == -477 && Next(-477, 2) == -635
  {
  }

  lemma OneByte(b: Byte)
    ensures AllCodes([b]) == Codes(b)
  {
    assert [b][..0] == [];
    assert [] + Codes(b) == Codes(b);
  }

  lemma FourSamples(acc: int, a: Code, b: Code, c: Code, d: Code)
    ensures var w := Next(acc, a); var x := Next(w, b); var y := Next(x, c); var z := Next(y, d);
      Samples(acc, [a, b, c, d]) == [Clamp16(w), Clamp16(x), Clamp16(y), Clamp16(z)]
  {
    hide Next, Clamp16;
    LevelSnoc(acc, [], a);
    LevelSnoc(acc, [a], b);
    LevelSnoc(acc, [a, b], c);
    LevelSnoc(acc, [a, b, c], d);
    assert [] + [a] == [a] && [a] + [b] == [a, b] && [a, b] + [c] == [a, b, c] && [a, b, c] + [d] == [a, b, c, d];
  }
}
