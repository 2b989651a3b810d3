/** The 16-gray 8x8-square video decoder: eight 4-bit pixels packed in a 32-bit row,
    predicted from the row above by one subtraction, over a persistent frame. */
module VideoDecoder {
  import opened Common
  import opened Digits

  const WIDTH: nat := 160
  const HEIGHT: nat := 120
  const PIXELS: nat := 19200
  const SQUARE_COLS: nat := 20
  const SQUARES: nat := 300
  const ROW: nat := 8  // pixels in a row of a square

  type Nibble = n: int | 0 <= n < 16
  type Word = w: int | 0 <= w < 0x1_0000_0000

  const MID_ROW: Word := 0x88888888  // the row above the first

  // ---------- the code table ----------

  /** The constant subtracted from the row above. */
  function Inter(c: Nibble): Word {
    [0x00000000, 0xDDDDDDDE, 0xEEEEEEEF, 0x00000000,
     0xEEEEEEEF, 0x00000000, 0x11111111, 0x00000000,
     0x11111111, 0x22222222, 0x11111111, 0x22222222,
     0x33333333, 0x22222222, 0x33333333, 0x44444444][c]
  }

  /** The number of data bytes a row of this code takes. */
  function IntraBytes(c: Nibble): (n: nat)
    ensures n == 0 || n == 1 || n == 2 || n == 4
  {
    if c == 0 then 4 else (c + 2) % 3
  }

  /** What a code subtracts from each pixel. */
  function Offset(c: Nibble): int {
    [0, -2, -1, 0, -1, 0, 1, 0, 1, 2, 1, 2, 3, 2, 3, 4][c]
  }

  /** Every table constant is a signed pixel offset repeated in all eight nibbles,
      modulo 2^32. */
  lemma InterIsPixelOffset(c: Nibble)
    ensures Inter(c) == Offset(c) * 0x11111111 % 0x1_0000_0000
    ensures Value(16, Ones(8)) == 0x11111111
  {
    var o := Ones(8);
    forall k | 0 <= k < 8 ensures Value(16, o[..k + 1]) == Value(16, o[..k]) * 16 + 1 {
      assert o[..k + 1][..k] == o[..k];
    }
    assert o[..0] == [] && o[..8] == o;
    assert Value(16, o[..1]) == 0x1;
    assert Value(16, o[..2]) == 0x11;
    assert Value(16, o[..3]) == 0x111;
    assert Value(16, o[..4]) == 0x1111;
    assert Value(16, o[..5]) == 0x11111;
    assert Value(16, o[..6]) == 0x111111;
    assert Value(16, o[..7]) == 0x1111111;
  }

  // ---------- one row ----------

  /** The code tables in closed form: from 1 up, the codes go in threes that add no, one and
      two bits, and what they subtract rises by one within and between the threes. */
  lemma TablesInClosedForm(c: Nibble)
    ensures IntraBytes(0) == 4
    ensures c > 0 ==> IntraBytes(c) == (c - 1) % 3
    ensures c > 0 ==> Offset(c) == (c - 1) / 3 + (c - 1) % 3 - 2
  {
  }

  /** Pixel x of a row, leftmost first. */
  function Pixel(row: Word, x: nat): Nibble
    requires x < 8
  {
    row / Pow(16, 7 - x) % 16
  }

  /** The data bits of a row, spread over its nibbles. */
  function Intra(c: Nibble, data: seq<Byte>): int
    requires |data| >= IntraBytes(c)
  {
    if IntraBytes(c) == 1 then Value(16, Expand(2, ROW, data[0]))
    else if IntraBytes(c) == 2 then Value(16, Expand(4, ROW, Word16(data[0], data[1])))
    else 0
  }

  function RowFrom(prev: Word, c: Nibble, data: seq<Byte>): Word
    requires |data| >= IntraBytes(c)
  {
    if IntraBytes(c) == 4 then Word16(data[0], data[1]) * 0x10000 + Word16(data[2], data[3])
    else (prev - Inter(c) + Intra(c, data)) % 0x1_0000_0000
  }

  lemma Pow16()
    ensures Pow(16, 8) == 0x1_0000_0000 && Pow(2, 8) == 256 && Pow(4, 8) == 65536
  {
    assert Pow(16, 4) == 65536;
    assert Pow(2, 4) == 16;
    assert Pow(4, 4) == 256;
  }

  /** The packed subtraction and addition refine the per-pixel rule: every pixel
      becomes its predecessor less the offset plus its own data bits, exactly when
      none of them leaves 0..15. */
  lemma PackedArithmeticIsPerPixel(prev: seq<int>, c: Nibble, bits: seq<int>)
    requires |prev| == 8 && |bits| == 8
    ensures var next := Shifted(prev, Offset(c), bits);
            var row := (Value(16, prev) - Inter(c) + Value(16, bits)) % 0x1_0000_0000;
      AreDigits(16, next) <==> Expand(16, ROW, row) == next
  {
    var next := Shifted(prev, Offset(c), bits);
    var row := (Value(16, prev) - Inter(c) + Value(16, bits)) % 0x1_0000_0000;
    PackedSum(prev, c, bits);
    Pow16();
    KeptDigits(16, next);
  }

  lemma PackedSum(prev: seq<int>, c: Nibble, bits: seq<int>)
    requires |prev| == 8 && |bits| == 8
    ensures (Value(16, prev) - Inter(c) + Value(16, bits)) % 0x1_0000_0000
         == Value(16, Shifted(prev, Offset(c), bits)) % 0x1_0000_0000
  {
    hide *;
    ValueShifted(16, prev, Offset(c), bits);
    InterIsPixelOffset(c);
    ModShift(Value(16, prev) + Value(16, bits), Offset(c) * 0x11111111, 0x1_0000_0000);
  }

  lemma ModShift(a: int, b: int, m: nat)
    requires m > 0
    ensures (a - b % m) % m == (a - b) % m
  {
    var x, y := (a - b % m) % m, (a - b) % m;
    assert a - b % m == m * ((a - b % m) / m) + x;
    assert a - b == m * ((a - b) / m) + y;
    assert b == m * (b / m) + b % m;
    var e := (a - b) / m + b / m - (a - b % m) / m;
    assert m * e == x - y by {
      MulPlus(m, (a - b) / m, b / m);
      MulPlus(m, (a - b) / m + b / m, -((a - b % m) / m));
    }
    if 1 <= e {
      MulLe(m, 1, e);
      assert false;
    } else if e <= -1 {
      MulLe(m, e, -1);
      assert false;
    }
  }

  /** Spreads eight data bits, one to a nibble. */
  method Intra8(b: Byte) returns (r: Word)
    ensures r == Value(16, Expand(2, ROW, b))
  {
    hide Expand;
    ghost var n := |Expand(2, ROW, b)|;
    var acc := 0;
    for k := 0 to 8
      invariant acc == Value(16, Expand(2, n, b)[..k]) * Pow(16, n - k)
    {
      SpreadStep(2, 16, n, b, k);
      var bit := b / Pow(2, 7 - k) % 2;
      acc := acc + bit * Pow(16, 7 - k);
    }
    SpreadFits(2, n, b);
    r := acc;
  }

  /** Spreads sixteen data bits, two to a nibble. */
  method Intra16(b0: Byte, b1: Byte) returns (r: Word)
    ensures r == Value(16, Expand(4, ROW, Word16(b0, b1)))
  {
    var w := Word16(b0, b1);
    hide Expand;
    ghost var n := |Expand(4, ROW, w)|;
    var acc := 0;
    for k := 0 to 8
      invariant acc == Value(16, Expand(4, n, w)[..k]) * Pow(16, n - k)
    {
      SpreadStep(4, 16, n, w, k);
      var pair := w / Pow(4, 7 - k) % 4;
      acc := acc + pair * Pow(16, 7 - k);
    }
    SpreadFits(4, n, w);
    r := acc;
  }

  /** Eight spread digits fill one row. */
  lemma SpreadFits(from: nat, n: nat, v: nat)
    requires 0 < from <= 16 && n == 8
    ensures Expand(from, n, v)[..n] == Expand(from, n, v)
    ensures 0 <= Value(16, Expand(from, n, v)) < 0x1_0000_0000
  {
    ExpandDigits(from, n, v);
    ValueBound(16, Expand(from, n, v));
    Pow16();
  }

  /** The data bits of pixel k: a bit of one byte, or a pair of bits of two, from the top. */
  function Added(c: Nibble, data: seq<Byte>, k: nat): int
    requires |data| >= IntraBytes(c) && k < 8
  {
    if IntraBytes(c) == 1 then data[0] / Pow(2, 7 - k) % 2
    else if IntraBytes(c) == 2 then (data[0] * 256 + data[1]) / Pow(4, 7 - k) % 4
    else 0
  }

  lemma AddedIsIntra(c: Nibble, data: seq<Byte>)
    requires |data| >= IntraBytes(c) && c != 0
    ensures Intra(c, data) == Value(16, seq(8, k requires 0 <= k < 8 => Added(c, data, k)))
  {
    hide Value, Expand;
    var bits := seq(8, k requires 0 <= k < 8 => Added(c, data, k));
    if IntraBytes(c) == 0 {
      assert bits == Zeros(8);
      ZerosAreNothing();
    } else {
      var base, v := if IntraBytes(c) == 1 then 2 else 4, if IntraBytes(c) == 1 then data[0] else Word16(data[0], data[1]);
      forall k | 0 <= k < 8 ensures Expand(base, ROW, v)[k] == bits[k] { ExpandAt(base, ROW, v, k); }
      assert Expand(base, ROW, v) == bits;
    }
  }

  function Zeros(n: nat): seq<int> {
    seq(n, _ => 0)
  }

  lemma {:induction false} ZerosAreNothing(n: nat := 8)
    ensures Value(16, Zeros(n)) == 0
  {
    if n > 0 {
      assert Zeros(n)[..n - 1] == Zeros(n - 1);
      ZerosAreNothing(n - 1);
    }
  }

  /** The row of any code but 0, pixel by pixel: the one above less the offset of the code
      plus the data bits, as long as that leaves no pixel of the row outside 0..15. */
  lemma PixelsOfRow(above: seq<int>, c: Nibble, data: seq<Byte>, k: nat)
    requires |above| == 8 && AreDigits(16, above) && c != 0 && |data| >= IntraBytes(c) && k < 8
    requires forall j :: 0 <= j < 8 ==> 0 <= above[j] - Offset(c) + Added(c, data, j) <= 15
    ensures 0 <= Value(16, above) < 0x1_0000_0000 && Pixel(Value(16, above), k) == above[k]
    ensures Pixel(RowFrom(Value(16, above), c, data), k) == above[k] - Offset(c) + Added(c, data, k)
  {
    hide Value, Expand, Added, Offset, Inter, Intra;
    ValueBound(16, above);
    Pow16();
    var bits := seq(8, j requires 0 <= j < 8 => Added(c, data, j));
    AddedIsIntra(c, data);
    PackedArithmeticIsPerPixel(above, c, bits);
    var next := Shifted(above, Offset(c), bits);
    ExpandValue(16, above);
    ExpandAt(16, ROW, Value(16, above), k);
    ExpandAt(16, ROW, RowFrom(Value(16, above), c, data), k);
  }

  // ---------- one square ----------

  /** A decoded square: its number and its rows from the top. */
  datatype Square = Square(id: nat, rows: seq<Word>)

  function Need(codes: seq<Nibble>): nat {
    if codes == [] then 0 else Need(codes[..|codes| - 1]) + IntraBytes(codes[|codes| - 1])
  }

  function Above(rows: seq<Word>): Word {
    if rows == [] then MID_ROW else rows[|rows| - 1]
  }

  function Rows(codes: seq<Nibble>, data: seq<Byte>): (rows: seq<Word>)
    requires |data| >= Need(codes)
    ensures |rows| == |codes|
  {
    if codes == [] then []
    else
      var init, c := codes[..|codes| - 1], codes[|codes| - 1];
      var rows := Rows(init, data);
      rows + [RowFrom(Above(rows), c, data[Need(init)..Need(codes)])]
  }

  /** The eight row codes, high nibble first. */
  function CodesOf(data: seq<Byte>): (codes: seq<Nibble>)
    requires |data| >= 4
    ensures |codes| == 8
  {
    [data[0] / 16, data[0] % 16, data[1] / 16, data[1] % 16, data[2] / 16, data[2] % 16, data[3] / 16, data[3] % 16]
  }

  /** The square a block starts with: nothing if the block is too short for one or
      its number is out of range. */
  function FirstSquare(data: seq<Byte>): Option<Square> {
    if |data| < 6 then None
    else
      var id, codes := Word16(data[0], data[1]), CodesOf(data[2..]);
      if id >= SQUARES || 6 + Need(codes) > |data| then None
      else Some(Square(id, Rows(codes, data[6..])))
  }

  /** The bytes it takes. */
  function FirstSize(data: seq<Byte>): (n: nat)
    requires FirstSquare(data).Some?
    ensures 6 <= n <= |data|
  {
    6 + Need(CodesOf(data[2..]))
  }

  /** The bytes in front of the rows: the number of the square, high byte first, and eight
      codes, high half first. */
  function Header(id: nat, codes: seq<Nibble>): (h: seq<Byte>)
    requires id < 0x10000 && |codes| == 8
    ensures |h| == 6
  {
    [id / 256, id % 256, codes[0] as int * 16 + codes[1], codes[2] as int * 16 + codes[3],
     codes[4] as int * 16 + codes[5], codes[6] as int * 16 + codes[7]]
  }

  lemma HeaderIs(id: nat, codes: seq<Nibble>)
    requires id < 0x10000 && |codes| == 8
    ensures Word16(Header(id, codes)[0], Header(id, codes)[1]) == id
    ensures CodesOf(Header(id, codes)[2..]) == codes
  {
    var h := Header(id, codes);
    assert h[2..] == [h[2], h[3], h[4], h[5]];
  }

  lemma CodesOfPrefix(h: seq<Byte>, data: seq<Byte>)
    requires |h| == 6
    ensures CodesOf((h + data)[2..]) == CodesOf(h[2..])
  {
    assert (h + data)[2..] == h[2..] + data;
  }

  /** A square is read from its header and the data of its rows exactly if its number is
      below 300 and the data is all there. */
  lemma SquareBytes(id: nat, codes: seq<Nibble>, data: seq<Byte>)
    requires id < 0x10000 && |codes| == 8
    ensures var b := Header(id, codes) + data;
      if id < 300 && Need(codes) <= |data| then
        FirstSquare(b) == Some(Square(id, Rows(codes, data))) && FirstSize(b) == 6 + Need(codes)
      else FirstSquare(b) == None
  {
    hide Need, Rows, CodesOf, Header, Word16;
    HeaderIs(id, codes);
    CodesOfPrefix(Header(id, codes), data);
    assert (Header(id, codes) + data)[6..] == data;
  }

  /** The squares of a block, up to the first that is not whole and valid. */
  function Squares(data: seq<Byte>): seq<Square>
    decreases |data|
  {
    if FirstSquare(data).None? then []
    else [FirstSquare(data).value] + Squares(data[FirstSize(data)..])
  }

  /** Whether a block is whole valid squares with nothing left over. */
  predicate Whole(data: seq<Byte>)
    decreases |data|
  {
    data == [] || (FirstSquare(data).Some? && Whole(data[FirstSize(data)..]))
  }

  // ---------- the frame ----------

  /** The number of the square a pixel belongs to. */
  function SquareOf(a: nat): nat {
    a / WIDTH / 8 * SQUARE_COLS + a % WIDTH / 8
  }

  /** The frame after a square, or its top rows, has been drawn. */
  function Paint(frame: seq<Byte>, s: Square): (f: seq<Byte>)
    ensures |f| == |frame|
  {
    seq(|frame|, a requires 0 <= a < |frame| =>
      if SquareOf(a) == s.id && a / WIDTH % 8 < |s.rows| then Pixel(s.rows[a / WIDTH % 8], a % 8) else frame[a])
  }

  function PaintAll(frame: seq<Byte>, squares: seq<Square>): (f: seq<Byte>)
    ensures |f| == |frame|
    decreases |squares|
  {
    if squares == [] then frame else PaintAll(Paint(frame, squares[0]), squares[1..])
  }

  /** The pixels of line i of a square. */
  lemma SquareLine(a: nat, id: nat, i: nat)
    requires a < PIXELS && id < SQUARES && i < 8
    ensures SquareOf(a) == id && a / WIDTH % 8 == i <==>
            a / WIDTH == id / SQUARE_COLS * 8 + i && id % SQUARE_COLS * 8 <= a % WIDTH < id % SQUARE_COLS * 8 + 8
    ensures SquareOf(a) == id ==> a % 8 == a % WIDTH - id % SQUARE_COLS * 8
  {
    var line, x := a / 160, a % 160;
    DivMod(20, line / 8, x / 8);
    DivParts(id, 20);
    SameInEighths(line, x);
    DivParts(a, 160);
  }

  lemma SameInEighths(line: nat, x: nat)
    ensures (160 * line + x) % 8 == x % 8
  {
  }

  /** Drawing one row more of a square. */
  lemma PaintStep(frame: seq<Byte>, id: nat, before: seq<Word>, row: Word, a: nat)
    requires |frame| == PIXELS && a < PIXELS && id < SQUARES && |before| < 8
    ensures Paint(frame, Square(id, before + [row]))[a] ==
      if a / WIDTH == id / SQUARE_COLS * 8 + |before| && id % SQUARE_COLS * 8 <= a % WIDTH < id % SQUARE_COLS * 8 + 8
      then Pixel(row, a % WIDTH - id % SQUARE_COLS * 8) else Paint(frame, Square(id, before))[a]
  {
    hide SquareOf, Pixel;
    SquareLine(a, id, |before|);
  }

  class Video {
    const pix: array<Byte>
    var gotAny: bool

    ghost predicate Valid()
      reads this, pix
    {
      pix.Length == PIXELS && forall a :: 0 <= a < PIXELS ==> pix[a] < 16
    }

    /** A gray frame. */
    constructor ()
      ensures Valid() && fresh(pix) && !gotAny
      ensures forall a :: 0 <= a < PIXELS ==> pix[a] == 8
    {
      pix := new Byte[PIXELS](_ => 8);
      gotAny := false;
    }

    /** Writes one row of eight pixels at (px, py), leaving out what falls outside. */
    method PutRow(px: int, py: int, row: Word)
      requires Valid()
      modifies pix
      ensures Valid()
      ensures forall a :: 0 <= a < PIXELS ==>
        pix[a] == if a / WIDTH == py && px <= a % WIDTH < px + 8 then Pixel(row, a % WIDTH - px) else old(pix[a])
    {
      if py < 0 || py >= HEIGHT { return; }
      for x := 0 to 8
        invariant Valid()
        invariant forall a :: 0 <= a < PIXELS ==>
          pix[a] == if a / WIDTH == py && px <= a % WIDTH < px + x then Pixel(row, a % WIDTH - px) else old(pix[a])
      {
        var gx := px + x;
        if 0 <= gx < WIDTH {
          pix[py * WIDTH + gx] := Pixel(row, x);
        }
      }
    }

    /** How much data a square's codes call for. */
    static method TotalNeed(codes: seq<Nibble>) returns (need: nat)
      ensures need == Need(codes)
    {
      need := 0;
      for i := 0 to |codes|
        invariant need == Need(codes[..i])
      {
        assert codes[..i + 1][..i] == codes[..i];
        need := need + IntraBytes(codes[i]);
      }
      assert codes[..|codes|] == codes;
    }

    /** Reads one row of data at p. */
    static method NextRow(prev: Word, c: Nibble, data: seq<Byte>, p: nat) returns (row: Word, q: nat)
      requires p + IntraBytes(c) <= |data|
      ensures q == p + IntraBytes(c) && row == RowFrom(prev, c, data[p..q])
    {
      var bytes := IntraBytes(c);
      q := p + bytes;
      if bytes == 1 {
        var intra := Intra8(data[p]);
        row := (prev - Inter(c) + intra) % 0x1_0000_0000;
      } else if bytes == 2 {
        var intra := Intra16(data[p], data[p + 1]);
        row := (prev - Inter(c) + intra) % 0x1_0000_0000;
      } else if bytes == 4 {
        row := Word16(data[p], data[p + 1]) * 0x10000 + Word16(data[p + 2], data[p + 3]);
      } else {
        row := (prev - Inter(c)) % 0x1_0000_0000;
      }
    }

    /** Decodes the rows of one square whose data is known to be there. */
    method DecodeRows(data: seq<Byte>, start: nat, id: nat, codes: seq<Nibble>) returns (p: nat)
      requires Valid() && id < SQUARES && |codes| == 8 && start + Need(codes) <= |data|
      modifies pix
      ensures Valid() && p == start + Need(codes)
      ensures pix[..] == Paint(old(pix[..]), Square(id, Rows(codes, data[start..])))
    {
      hide RowFrom, Rows, Need, IntraBytes, Paint, Pixel, Above;
      ghost var frame := pix[..];
      NoRows(frame, id, data[start..]);
      assert codes[..0] == [];
      var px, py := id % SQUARE_COLS * 8, id / SQUARE_COLS * 8;
      var prev := MID_ROW;
      p := start;
      for i := 0 to 8
        invariant Valid() && p == start + Need(codes[..i]) <= |data|
        invariant prev == Above(Rows(codes[..i], data[start..]))
        invariant forall a :: 0 <= a < PIXELS ==> pix[a] == Paint(frame, Square(id, Rows(codes[..i], data[start..])))[a]
      {
        ghost var before := Rows(codes[..i], data[start..]);
        NeedStep(codes, i);
        RowsStep(codes[..i], codes[i], data[start..]);
        SliceOfDrop(data, start, Need(codes[..i]), IntraBytes(codes[i]));
        var row;
        row, p := NextRow(prev, codes[i], data, p);
        PutRow(px, py + i, row);
        forall a | 0 <= a < PIXELS ensures pix[a] == Paint(frame, Square(id, before + [row]))[a] {
          PaintStep(frame, id, before, row, a);
        }
        LastOf(before, row);
        prev := row;
      }
      assert codes[..8] == codes;
    }

    /** Decodes all the squares of one packet and returns how many there were. */
    method Decode(data: seq<Byte>) returns (squares: nat)
      requires Valid()
      modifies this`gotAny, pix
      ensures Valid()
      ensures squares == |Squares(data)| && pix[..] == PaintAll(old(pix[..]), Squares(data))
      ensures gotAny == (old(gotAny) || Squares(data) != [])
    {
      hide Rows, Paint, FirstSquare, PaintAll, Squares, Need, CodesOf;
      var p: nat := 0;
      squares := 0;
      assert data[0..] == data;
      while p + 6 <= |data|
        invariant Valid() && p <= |data|
        invariant squares + |Squares(data[p..])| == |Squares(data)|
        invariant PaintAll(pix[..], Squares(data[p..])) == PaintAll(old(pix[..]), Squares(data))
        invariant gotAny == (old(gotAny) || squares > 0)
        decreases |data| - p
      {
        SquaresAt(pix[..], data, p);
        var id := Word16(data[p], data[p + 1]);
        var codes := CodesOf(data[p + 2..p + 6]);
        if id >= SQUARES { return; }
        var need := TotalNeed(codes);
        if p + 6 + need > |data| { return; }
        p := DecodeRows(data, p + 6, id, codes);
        squares := squares + 1;
        gotAny := true;
      }
      SquaresAt(pix[..], data, p);
    }
  }

  /** What a block holds from p on: its first square, if whole and valid, and then
      what follows that square. */
  lemma SquaresAt(frame: seq<Byte>, data: seq<Byte>, p: nat)
    requires p <= |data|
    ensures |data| < p + 6 ==> Squares(data[p..]) == [] && PaintAll(frame, Squares(data[p..])) == frame
    ensures p + 6 <= |data| ==>
      var id, codes := Word16(data[p], data[p + 1]), CodesOf(data[p + 2..p + 6]);
      var size := 6 + Need(codes);
      if id >= SQUARES || p + size > |data| then
        Squares(data[p..]) == [] && PaintAll(frame, Squares(data[p..])) == frame
      else
        && Squares(data[p..]) == [Square(id, Rows(codes, data[p + 6..]))] + Squares(data[p + size..])
        && PaintAll(frame, Squares(data[p..])) ==
             PaintAll(Paint(frame, Square(id, Rows(codes, data[p + 6..]))), Squares(data[p + size..]))
  {
    hide Rows, Paint, Need;
    var rest := data[p..];
    if p + 6 <= |data| {
      var codes := CodesOf(data[p + 2..p + 6]);
      assert rest[2..][..4] == data[p + 2..p + 6];
      assert CodesOf(rest[2..]) == codes;
      DropOfDrop(data, p, 6);
      if p + 6 + Need(codes) <= |data| && Word16(data[p], data[p + 1]) < SQUARES {
        DropOfDrop(data, p, 6 + Need(codes));
        var f := Square(Word16(data[p], data[p + 1]), Rows(codes, data[p + 6..]));
        assert Squares(rest) == [f] + Squares(data[p + 6 + Need(codes)..]);
        assert Squares(rest)[1..] == Squares(data[p + 6 + Need(codes)..]);
      }
    }
  }

  lemma {:induction false} NeedOfPrefix(codes: seq<Nibble>, i: nat)
    requires i <= |codes|
    ensures Need(codes[..i]) <= Need(codes)
  {
    if i < |codes| {
      var init := codes[..|codes| - 1];
      NeedOfPrefix(init, i);
      assert codes[..i] == init[..i];
    } else {
      assert codes[..i] == codes;
    }
  }

  lemma NeedSnoc(codes: seq<Nibble>, c: Nibble)
    ensures Need(codes + [c]) == Need(codes) + IntraBytes(c)
  {
    hide IntraBytes;
    assert (codes + [c])[..|codes|] == codes;
  }

  lemma NeedStep(codes: seq<Nibble>, i: nat)
    requires i < |codes|
    ensures codes[..i + 1] == codes[..i] + [codes[i]]
    ensures Need(codes[..i]) + IntraBytes(codes[i]) == Need(codes[..i + 1]) <= Need(codes)
  {
    hide *;
    PrefixSnoc(codes, i);
    NeedSnoc(codes[..i], codes[i]);
    NeedOfPrefix(codes, i + 1);
  }

  lemma NoRows(frame: seq<Byte>, id: nat, data: seq<Byte>)
    ensures Need([]) == 0 && Rows([], data) == [] && Above([]) == MID_ROW && Paint(frame, Square(id, [])) == frame
  {
  }

  lemma LastOf(rows: seq<Word>, row: Word)
    ensures Above(rows + [row]) == row
  {
  }

  /** Decoding one row more. */
  lemma RowsStep(codes: seq<Nibble>, c: Nibble, data: seq<Byte>)
    requires Need(codes) + IntraBytes(c) <= |data|
    ensures Need(codes + [c]) == Need(codes) + IntraBytes(c)
    ensures Rows(codes + [c], data) ==
              Rows(codes, data) + [RowFrom(Above(Rows(codes, data)), c, data[Need(codes)..Need(codes) + IntraBytes(c)])]
  {
    hide RowFrom, IntraBytes, Above, Need;
    NeedSnoc(codes, c);
    assert (codes + [c])[..|codes|] == codes;
  }
}
