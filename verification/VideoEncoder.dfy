/** Encoders for the video decoder: any choice of row codes that cover the image is
    undone by decoding, for every image and whatever the frame showed before. */
module VideoEncoder {
  import opened Common
  import opened Digits
  import opened VideoDecoder
  import opened VideoStream

  // ---------- rows ----------

  /** Eight pixels of four bits. */
  ghost predicate IsRow(row: seq<int>) {
    |row| == ROW && AreDigits(16, row)
  }

  /** What the data bits of a row have to add under a code. */
  function Residue(above: seq<int>, c: Nibble, row: seq<int>): (d: seq<int>)
    requires |above| == ROW && |row| == ROW
    ensures |d| == ROW
  {
    seq(ROW, k requires 0 <= k < ROW => row[k] - above[k] + Offset(c))
  }

  /** The number of values a code's data can add to a pixel. */
  function Levels(c: Nibble): nat {
    if IntraBytes(c) == 2 then 4 else if IntraBytes(c) == 1 then 2 else 1
  }

  /** Whether a code can take the row above to this row. */
  ghost predicate Covers(above: seq<int>, c: Nibble, row: seq<int>)
    requires |above| == ROW && |row| == ROW
  {
    IntraBytes(c) == 4 || AreDigits(Levels(c), Residue(above, c, row))
  }

  /** Code 0 sends the row itself, so it can always be chosen. */
  lemma CodeZeroAlwaysCovers(above: seq<int>, row: seq<int>)
    requires |above| == ROW && |row| == ROW
    ensures Covers(above, 0, row)
  {
  }

  /** A code but 0 can take the row above to this row exactly if what its data has to add to
      each pixel is 0, one bit, or two bits, by which of its three the code is. */
  lemma CoversIff(above: seq<int>, c: Nibble, row: seq<int>)
    requires |above| == 8 && |row| == 8 && c != 0
    ensures Covers(above, c, row) <==>
      forall k :: 0 <= k < 8 ==>
        0 <= row[k] - above[k] + Offset(c) < if (c - 1) % 3 == 0 then 1 else if (c - 1) % 3 == 1 then 2 else 4
  {
    hide Offset;
    var d := Residue(above, c, row);
    assert forall k :: 0 <= k < 8 ==> d[k] == row[k] - above[k] + Offset(c);
  }

  /** The data bytes of a row under a code that covers it. */
  function EncodeRow(above: seq<int>, c: Nibble, row: seq<int>): (data: seq<Byte>)
    requires IsRow(above) && IsRow(row) && Covers(above, c, row)
    ensures |data| == IntraBytes(c)
  {
    var d := Residue(above, c, row);
    if IntraBytes(c) == 4 then
      [TwoNibbles(row[0], row[1]), TwoNibbles(row[2], row[3]), TwoNibbles(row[4], row[5]), TwoNibbles(row[6], row[7])]
    else if IntraBytes(c) == 2 then
      WordFits(4, d);
      [Value(4, d) / 256, Value(4, d) % 256]
    else if IntraBytes(c) == 1 then
      WordFits(2, d);
      [Value(2, d)]
    else []
  }

  lemma WordFits(base: nat, digits: seq<int>)
    requires 2 <= base <= 16 && |digits| == ROW && AreDigits(base, digits)
    ensures 0 <= Value(base, digits)
    ensures base == 2 ==> Value(base, digits) < 256
    ensures base == 4 ==> Value(base, digits) < 65536
    ensures base == 16 ==> Value(base, digits) < 0x1_0000_0000
  {
    hide Value;
    Pow16();
    ValueBound(base, digits);
  }

  /** The value of eight nibbles, two at a time. */
  lemma ValueOfRow(row: seq<int>)
    requires |row| == ROW
    ensures Value(16, row) == (((row[0] * 16 + row[1]) * 256 + (row[2] * 16 + row[3])) * 256
                             + (row[4] * 16 + row[5])) * 256 + (row[6] * 16 + row[7])
  {
    ValueOfPair(row[..2]);
    ValueOfPair(row[..4]);
    ValueOfPair(row[..6]);
    ValueOfPair(row);
    assert row[..2][..0] == [] && row[..4][..2] == row[..2] && row[..6][..4] == row[..4];
    hide *;
  }

  lemma ValueOfPair(digits: seq<int>)
    requires |digits| >= 2
    ensures Value(16, digits) == Value(16, digits[..|digits| - 2]) * 256 + (digits[|digits| - 2] * 16 + digits[|digits| - 1])
  {
    assert digits[..|digits| - 1][..|digits| - 2] == digits[..|digits| - 2];
  }

  /** Adding the residue to the prediction gives the row back. */
  lemma ResidueUndone(above: seq<int>, c: Nibble, row: seq<int>)
    requires IsRow(above) && IsRow(row)
    ensures (Value(16, above) - Inter(c) + Value(16, Residue(above, c, row))) % 0x1_0000_0000 == Value(16, row)
  {
    hide Value, Inter, Offset;
    var d := Residue(above, c, row);
    assert Shifted(above, Offset(c), d) == row;
    PackedSum(above, c, d);
    WordFits(16, row);
    ModOf(Value(16, row), 0x1_0000_0000);
  }

  lemma {:induction false} ValueOfZeros(digits: seq<int>)
    requires AreDigits(1, digits)
    ensures Value(16, digits) == 0
  {
    if digits != [] {
      ValueOfZeros(digits[..|digits| - 1]);
    }
  }

  /** Decoding an encoded row gives the row, whatever covering code was chosen. */
  lemma RowRoundTrip(above: seq<int>, c: Nibble, row: seq<int>)
    requires IsRow(above) && IsRow(row) && Covers(above, c, row)
    ensures 0 <= Value(16, above) < 0x1_0000_0000
    ensures RowFrom(Value(16, above), c, EncodeRow(above, c, row)) == Value(16, row)
  {
    hide Value, Inter, Expand, Residue;
    WordFits(16, above);
    var d := Residue(above, c, row);
    if IntraBytes(c) == 4 {
      ValueOfRow(row);
    } else {
      ResidueUndone(above, c, row);
      if IntraBytes(c) == 2 {
        WordFits(4, d);
        ExpandValue(4, d);
      } else if IntraBytes(c) == 1 {
        WordFits(2, d);
        ExpandValue(2, d);
      } else {
        ValueOfZeros(d);
      }
    }
  }

  // ---------- squares ----------

  type PixelRow = r: seq<Nibble> | |r| == 8 witness [8, 8, 8, 8, 8, 8, 8, 8]

  const MID_PIXELS: PixelRow := [8, 8, 8, 8, 8, 8, 8, 8]

  function RowAbove(rows: seq<PixelRow>): PixelRow {
    if rows == [] then MID_PIXELS else rows[|rows| - 1]
  }

  function PackedRow(row: PixelRow): Word {
    WordFits(16, row);
    Value(16, row)
  }

  function Packed(rows: seq<PixelRow>): (packed: seq<Word>)
    ensures |packed| == |rows|
  {
    if rows == [] then [] else Packed(rows[..|rows| - 1]) + [PackedRow(rows[|rows| - 1])]
  }

  /** Whether each code covers its row, given the row above it. */
  ghost predicate Codable(codes: seq<Nibble>, rows: seq<PixelRow>)
    decreases |rows|
  {
    && |codes| == |rows|
    && (rows == [] ||
        var n := |rows| - 1;
        Codable(codes[..n], rows[..n]) && Covers(RowAbove(rows[..n]), codes[n], rows[n]))
  }

  /** Choosing code 0 throughout always works. */
  lemma {:induction false} RawIsCodable(rows: seq<PixelRow>)
    ensures Codable(seq(|rows|, _ => 0), rows)
    decreases |rows|
  {
    if rows != [] {
      var n := |rows| - 1;
      var codes: seq<Nibble> := seq(|rows|, _ => 0);
      RawIsCodable(rows[..n]);
      assert codes[..n] == seq(n, _ => 0);
    }
  }

  function EncodeRows(codes: seq<Nibble>, rows: seq<PixelRow>): (data: seq<Byte>)
    requires Codable(codes, rows)
    ensures |data| == Need(codes)
    decreases |rows|
  {
    if rows == [] then []
    else
      var n := |rows| - 1;
      EncodeRows(codes[..n], rows[..n]) + EncodeRow(RowAbove(rows[..n]), codes[n], rows[n])
  }

  lemma {:induction false} RowsRoundTrip(codes: seq<Nibble>, rows: seq<PixelRow>)
    requires Codable(codes, rows)
    ensures Rows(codes, EncodeRows(codes, rows)) == Packed(rows)
    decreases |rows|
  {
    hide RowFrom, EncodeRow, Covers, PackedRow, Need, IntraBytes, RowAbove;
    if rows != [] {
      var n := |rows| - 1;
      RowsRoundTrip(codes[..n], rows[..n]);
      hide Rows;
      LastRowRoundTrip(codes[..n], rows[..n], codes[n], rows[n]);
      assert codes == codes[..n] + [codes[n]];
    }
  }

  lemma LastRowRoundTrip(codes: seq<Nibble>, rows: seq<PixelRow>, c: Nibble, row: PixelRow)
    requires Codable(codes, rows) && Covers(RowAbove(rows), c, row)
    requires Rows(codes, EncodeRows(codes, rows)) == Packed(rows)
    ensures Need(codes + [c]) == Need(codes) + IntraBytes(c)
    ensures Rows(codes + [c], EncodeRows(codes, rows) + EncodeRow(RowAbove(rows), c, row)) == Packed(rows) + [PackedRow(row)]
  {
    hide RowFrom, EncodeRow, Rows, Covers, Value, IntraBytes, Codable, EncodeRows;
    var data, last := EncodeRows(codes, rows), EncodeRow(RowAbove(rows), c, row);
    RowsOfPrefix(codes, data, last);
    NeedSnoc(codes, c);
    RowsStep(codes, c, data + last);
    assert (data + last)[Need(codes)..Need(codes) + IntraBytes(c)] == last;
    if rows == [] { ValueOfRow(MID_PIXELS); }
    RowRoundTrip(RowAbove(rows), c, row);
  }

  function TwoNibbles(hi: int, lo: int): (b: Byte)
    requires 0 <= hi < 16 && 0 <= lo < 16
    ensures b / 16 == hi && b % 16 == lo
  {
    hi * 16 + lo
  }

  function EncodeSquare(id: nat, codes: seq<Nibble>, rows: seq<PixelRow>): (data: seq<Byte>)
    requires id < SQUARES && |rows| == 8 && Codable(codes, rows)
  {
    Header(id, codes) + EncodeRows(codes, rows)
  }

  /** An encoded square is one whole square and decodes to its rows. */
  lemma SquareRoundTrip(id: nat, codes: seq<Nibble>, rows: seq<PixelRow>)
    requires id < SQUARES && |rows| == 8 && Codable(codes, rows)
    ensures Whole(EncodeSquare(id, codes, rows))
    ensures Squares(EncodeSquare(id, codes, rows)) == [Square(id, Packed(rows))]
  {
    CodableLength(codes, rows);
    hide Rows, Packed, EncodeRows, Need, Codable, Header, FirstSquare, FirstSize;
    var data := EncodeRows(codes, rows);
    RowsRoundTrip(codes, rows);
    SquareBytes(id, codes, data);
    OnlySquare(Header(id, codes) + data, Square(id, Packed(rows)));
  }

  lemma CodableLength(codes: seq<Nibble>, rows: seq<PixelRow>)
    requires Codable(codes, rows)
    ensures |codes| == |rows|
  {
  }

  /** A block that starts with a square and has nothing after it. */
  lemma OnlySquare(b: seq<Byte>, s: Square)
    requires FirstSquare(b) == Some(s) && FirstSize(b) == |b|
    ensures Whole(b) && Squares(b) == [s]
  {
    hide FirstSquare, FirstSize;
    assert b[FirstSize(b)..] == [];
    NothingEncoded();
  }

  // ---------- images ----------

  /** A 160 x 120 image of 4-bit grays. */
  type Image = i: seq<Nibble> | |i| == 19200 witness seq(19200, _ => 0)

  /** The rows of one square of an image. */
  function RowOfImage(image: Image, id: nat, i: nat): PixelRow
    requires id < SQUARES && i < 8
  {
    seq(8, k requires 0 <= k < 8 => image[(id / SQUARE_COLS * 8 + i) * WIDTH + id % SQUARE_COLS * 8 + k])
  }

  function RowsOfImage(image: Image, id: nat): (rows: seq<PixelRow>)
    requires id < SQUARES
    ensures |rows| == 8
  {
    seq(8, i requires 0 <= i < 8 => RowOfImage(image, id, i))
  }

  /** A choice of row codes for every square of an image. */
  ghost predicate Encodes(choice: seq<seq<Nibble>>, image: Image) {
    |choice| == SQUARES && forall id: nat :: id < SQUARES ==> Codable(choice[id], RowsOfImage(image, id))
  }

  /** Every image has an encoding. */
  lemma EveryImageCanBeEncoded(image: Image) returns (choice: seq<seq<Nibble>>)
    ensures Encodes(choice, image)
  {
    hide Codable, RowsOfImage;
    var raw: seq<Nibble> := seq(8, _ => 0);
    choice := seq(SQUARES, _ => raw);
    forall id: nat | id < SQUARES ensures Codable(choice[id], RowsOfImage(image, id)) {
      RawIsCodable(RowsOfImage(image, id));
      assert seq(|RowsOfImage(image, id)|, _ => 0) == raw;
    }
  }

  /** The first n squares of an image, encoded. */
  function EncodeImage(image: Image, choice: seq<seq<Nibble>>, n: nat): seq<Byte>
    requires n <= SQUARES && Encodes(choice, image)
  {
    if n == 0 then [] else EncodeImage(image, choice, n - 1) + EncodeSquare(n - 1, choice[n - 1], RowsOfImage(image, n - 1))
  }

  function SquaresOfImage(image: Image, n: nat): seq<Square>
    requires n <= SQUARES
  {
    if n == 0 then [] else SquaresOfImage(image, n - 1) + [Square(n - 1, Packed(RowsOfImage(image, n - 1)))]
  }

  lemma {:induction false} EncodedSquares(image: Image, choice: seq<seq<Nibble>>, n: nat)
    requires n <= SQUARES && Encodes(choice, image)
    ensures Whole(EncodeImage(image, choice, n)) && Squares(EncodeImage(image, choice, n)) == SquaresOfImage(image, n)
  {
    hide Whole, Squares, EncodeSquare, RowsOfImage, Packed, Codable;
    if n == 0 {
      NothingEncoded();
    } else {
      var rows := RowsOfImage(image, n - 1);
      assert Codable(choice[n - 1], rows);
      EncodedSquares(image, choice, n - 1);
      SquareRoundTrip(n - 1, choice[n - 1], rows);
      SquaresAppend(EncodeImage(image, choice, n - 1), EncodeSquare(n - 1, choice[n - 1], rows));
      WholeAppend(EncodeImage(image, choice, n - 1), EncodeSquare(n - 1, choice[n - 1], rows));
    }
  }

  lemma NothingEncoded()
    ensures Whole([]) && Squares([]) == []
  {
  }

  /** The squares of an image, drawn over anything, show the image. */
  lemma {:induction false} PaintedImage(frame: seq<Byte>, image: Image, n: nat, a: nat)
    requires n <= SQUARES && |frame| == PIXELS && a < PIXELS
    ensures PaintAll(frame, SquaresOfImage(image, n))[a] == if SquareOf(a) < n then image[a] else frame[a]
  {
    hide PaintAll, Packed, Pixel, RowsOfImage;
    if n == 0 {
      NothingPainted(frame);
    } else {
      var s := Square(n - 1, Packed(RowsOfImage(image, n - 1)));
      PaintedImage(frame, image, n - 1, a);
      PaintAllAppend(frame, SquaresOfImage(image, n - 1), [s]);
      var before := PaintAll(frame, SquaresOfImage(image, n - 1));
      OnePainted(before, s);
      if SquareOf(a) == n - 1 {
        PixelOfImage(image, a);
      }
    }
  }

  lemma NothingPainted(frame: seq<Byte>)
    ensures PaintAll(frame, []) == frame
  {
  }

  lemma OnePainted(frame: seq<Byte>, s: Square)
    ensures PaintAll(frame, [s]) == Paint(frame, s)
  {
    hide Paint;
    assert [s][1..] == [];
  }

  lemma PackedAt(rows: seq<PixelRow>, i: nat)
    requires i < |rows|
    ensures Packed(rows)[i] == PackedRow(rows[i])
    decreases |rows|
  {
    hide PackedRow;
    if i < |rows| - 1 { PackedAt(rows[..|rows| - 1], i); }
  }

  lemma PixelOfImage(image: Image, a: nat)
    requires a < PIXELS && SquareOf(a) < SQUARES
    ensures Pixel(Packed(RowsOfImage(image, SquareOf(a)))[a / WIDTH % 8], a % 8) == image[a]
  {
    hide Packed, Value, PackedRow, RowsOfImage;
    var id, i := SquareOf(a), a / WIDTH % 8;
    var row := RowOfImage(image, id, i);
    assert RowsOfImage(image, id)[i] == row by {
      RowsAt(image, id, i);
    }
    PackedAt(RowsOfImage(image, id), i);
    SquareLine(a, id, i);
    assert row[a % 8] == image[a];
    PixelOfRow(row, a % 8);
  }

  lemma RowsAt(image: Image, id: nat, i: nat)
    requires id < SQUARES && i < 8
    ensures RowsOfImage(image, id)[i] == RowOfImage(image, id, i)
  {
  }

  lemma PixelOfRow(row: PixelRow, x: nat)
    requires x < 8
    ensures Pixel(PackedRow(row), x) == row[x]
  {
    hide Value, Expand;
    ExpandValue(16, row);
    ExpandAt(16, |row|, Value(16, row), x);
  }

  /** A row sent as it is has its pixels in the nibbles of its four bytes, in order. */
  lemma RawRowPixels(prev: Word, data: seq<Byte>, k: nat)
    requires |data| == 4 && k < 4
    ensures Pixel(RowFrom(prev, 0, data), 2 * k) == data[k] / 16
    ensures Pixel(RowFrom(prev, 0, data), 2 * k + 1) == data[k] % 16
  {
    hide Value, Pixel;
    var row: PixelRow := [data[0] / 16, data[0] % 16, data[1] / 16, data[1] % 16,
                          data[2] / 16, data[2] % 16, data[3] / 16, data[3] % 16];
    ValueOfRow(row);
    assert PackedRow(row) == RowFrom(prev, 0, data);
    PixelOfRow(row, 2 * k);
    PixelOfRow(row, 2 * k + 1);
  }

  /** Whatever the frame showed, decoding an encoded image shows the image. */
  lemma ImageRoundTrip(frame: seq<Byte>, image: Image, choice: seq<seq<Nibble>>)
    requires |frame| == PIXELS && Encodes(choice, image)
    ensures PaintAll(frame, Squares(EncodeImage(image, choice, SQUARES))) == image
    ensures |Squares(EncodeImage(image, choice, SQUARES))| == SQUARES
  {
    hide PaintAll, Squares, EncodeImage, Encodes, SquaresOfImage;
    EncodedSquares(image, choice, SQUARES);
    forall a: nat | a < PIXELS ensures PaintAll(frame, SquaresOfImage(image, SQUARES))[a] == image[a] {
      PaintedImage(frame, image, SQUARES, a);
      EveryPixelHasASquare(a);
    }
    SquareCount(image, SQUARES);
  }

  lemma EveryPixelHasASquare(a: nat)
    requires a < PIXELS
    ensures SquareOf(a) < SQUARES
  {
  }

  lemma {:induction false} SquareCount(image: Image, n: nat)
    requires n <= SQUARES
    ensures |SquaresOfImage(image, n)| == n
  {
    if n > 0 { SquareCount(image, n - 1); }
  }
}
