/** What a stream of squares means: decoding is a fold over whole squares, and the
    last square with a number decides its pixels. */
module VideoStream {
  import opened Common
  import opened VideoDecoder

  // ---------- a stream is cut into whole squares ----------

  lemma {:induction false} RowsOfPrefix(codes: seq<Nibble>, data: seq<Byte>, more: seq<Byte>)
    requires Need(codes) <= |data|
    ensures Rows(codes, data + more) == Rows(codes, data)
  {
    if codes != [] {
      var init := codes[..|codes| - 1];
      NeedSnoc(init, codes[|codes| - 1]);
      assert init + [codes[|codes| - 1]] == codes;
      RowsOfPrefix(init, data, more);
      assert (data + more)[Need(init)..Need(codes)] == data[Need(init)..Need(codes)];
      RowsStep(init, codes[|codes| - 1], data);
      RowsStep(init, codes[|codes| - 1], data + more);
    }
  }

  lemma FirstOfPrefix(data: seq<Byte>, more: seq<Byte>)
    requires FirstSquare(data).Some?
    ensures FirstSquare(data + more) == FirstSquare(data) && FirstSize(data + more) == FirstSize(data)
    ensures (data + more)[FirstSize(data)..] == data[FirstSize(data)..] + more
  {
    hide Rows, Need;
    var codes := CodesOf(data[2..]);
    assert (data + more)[2..][..4] == data[2..][..4];
    assert CodesOf((data + more)[2..]) == codes;
    assert (data + more)[6..] == data[6..] + more;
    RowsOfPrefix(codes, data[6..], more);
  }

  /** The squares of a whole block followed by anything are the squares of the two. */
  lemma {:induction false} SquaresAppend(a: seq<Byte>, b: seq<Byte>)
    requires Whole(a)
    ensures Squares(a + b) == Squares(a) + Squares(b)
    decreases |a|
  {
    hide FirstSquare, FirstSize;
    if a == [] {
      assert a + b == b;
    } else {
      var rest := a[FirstSize(a)..];
      FirstOfPrefix(a, b);
      SquaresAppend(rest, b);
      Assoc([FirstSquare(a).value], Squares(rest), Squares(b));
    }
  }

  lemma {:induction false} WholeAppend(a: seq<Byte>, b: seq<Byte>)
    requires Whole(a)
    ensures Whole(a + b) == Whole(b)
    decreases |a|
  {
    hide FirstSquare, FirstSize;
    if a == [] {
      assert a + b == b;
    } else {
      FirstOfPrefix(a, b);
      WholeAppend(a[FirstSize(a)..], b);
    }
  }

  lemma {:induction false} PaintAllAppend(frame: seq<Byte>, s: seq<Square>, t: seq<Square>)
    ensures PaintAll(frame, s + t) == PaintAll(PaintAll(frame, s), t)
    decreases |s|
  {
    hide Paint;
    if s == [] {
      assert s + t == t;
    } else {
      assert (s + t)[0] == s[0] && (s + t)[1..] == s[1..] + t;
      PaintAllAppend(Paint(frame, s[0]), s[1..], t);
    }
  }

  /** Decoding a whole block and then another is decoding them joined, and the
      numbers of squares add. */
  lemma DecodeIsAFold(frame: seq<Byte>, a: seq<Byte>, b: seq<Byte>)
    requires Whole(a)
    ensures PaintAll(frame, Squares(a + b)) == PaintAll(PaintAll(frame, Squares(a)), Squares(b))
    ensures |Squares(a + b)| == |Squares(a)| + |Squares(b)|
  {
    hide *;
    SquaresAppend(a, b);
    PaintAllAppend(frame, Squares(a), Squares(b));
  }

  /** Every block is a whole part, which is what gets decoded, and a tail that does
      not start with a whole valid square, which changes nothing. */
  lemma {:induction false} WholePart(data: seq<Byte>) returns (n: nat)
    ensures n <= |data| && Whole(data[..n]) && FirstSquare(data[n..]).None?
    ensures Squares(data) == Squares(data[..n])
    decreases |data|
  {
    hide *;
    if FirstSquare(data).None? {
      n := 0;
      NothingWhole(data);
    } else {
      var size := FirstSize(data);
      var m := WholePart(data[size..]);
      n := size + m;
      DropOfDrop(data, size, m);
      WholeFirst(data, size, m);
    }
  }

  lemma NothingWhole(data: seq<Byte>)
    requires FirstSquare(data).None?
    ensures data[..0] == [] && data[0..] == data
    ensures Whole(data[..0]) && Squares(data) == Squares(data[..0])
  {
    assert FirstSquare([]).None?;
    hide FirstSquare, FirstSize;
  }

  lemma WholeFirst(data: seq<Byte>, size: nat, m: nat)
    requires FirstSquare(data).Some? && size == FirstSize(data) && size + m <= |data|
    requires Whole(data[size..][..m]) && Squares(data[size..]) == Squares(data[size..][..m])
    ensures Whole(data[..size + m]) && Squares(data) == Squares(data[..size + m])
  {
    hide *;
    FirstOfSlice(data, size + m);
    SliceTail(data, size, m);
    Cons(data, data[size..]);
    Cons(data[..size + m], data[size..][..m]);
  }

  lemma Cons(data: seq<Byte>, rest: seq<Byte>)
    requires FirstSquare(data).Some? && data[FirstSize(data)..] == rest
    ensures Squares(data) == [FirstSquare(data).value] + Squares(rest)
    ensures Whole(data) == Whole(rest)
  {
    hide FirstSquare, FirstSize;
  }

  lemma SliceTail<T>(s: seq<T>, i: nat, n: nat)
    requires i + n <= |s|
    ensures s[..i + n][i..] == s[i..][..n]
  {
  }

  lemma FirstOfSlice(data: seq<Byte>, n: nat)
    requires FirstSquare(data).Some? && FirstSize(data) <= n <= |data|
    ensures FirstSquare(data[..n]) == FirstSquare(data) && FirstSize(data[..n]) == FirstSize(data)
  {
    hide Rows, Need;
    var codes := CodesOf(data[2..]);
    assert data[..n][2..][..4] == data[2..][..4];
    assert CodesOf(data[..n][2..]) == codes;
    FirstOfPrefix(data[..n], data[n..]);
    assert data[..n] + data[n..] == data;
  }

  // ---------- which square decides a pixel ----------

  /** The last square of a list with a given number. */
  function Last(squares: seq<Square>, id: nat): Option<Square>
    decreases |squares|
  {
    if squares == [] then None
    else
      var later := Last(squares[1..], id);
      if later.Some? then later else if squares[0].id == id then Some(squares[0]) else None
  }

  /** Squares as the decoder produces them. */
  ghost predicate Full(squares: seq<Square>) {
    forall i :: 0 <= i < |squares| ==> squares[i].id < SQUARES && |squares[i].rows| == 8
  }

  lemma {:induction false} DecodedSquaresAreFull(data: seq<Byte>)
    ensures Full(Squares(data))
    decreases |data|
  {
    if FirstSquare(data).Some? {
      DecodedSquaresAreFull(data[FirstSize(data)..]);
    }
  }

  /** A pixel shows the last square of its number; without one it keeps its value. */
  lemma {:induction false} LastSquareWins(frame: seq<Byte>, squares: seq<Square>, a: nat)
    requires a < |frame| && Full(squares)
    ensures Last(squares, SquareOf(a)).Some? ==>
      Last(squares, SquareOf(a)).value.id == SquareOf(a) && |Last(squares, SquareOf(a)).value.rows| == 8
    ensures PaintAll(frame, squares)[a] ==
      match Last(squares, SquareOf(a)) case None => frame[a] case Some(s) => Pixel(s.rows[a / WIDTH % 8], a % 8)
    decreases |squares|
  {
    hide Pixel, SquareOf;
    if squares != [] {
      LastSquareWins(Paint(frame, squares[0]), squares[1..], a);
    }
  }

  /** Squares with distinct numbers may be drawn in any order: two lists whose last
      squares agree, number by number, draw the same frame. */
  lemma OrderDoesNotMatter(frame: seq<Byte>, s: seq<Square>, t: seq<Square>)
    requires Full(s) && Full(t)
    requires forall id: nat :: Last(s, id) == Last(t, id)
    ensures PaintAll(frame, s) == PaintAll(frame, t)
  {
    hide PaintAll, Last;
    forall a: nat | a < |frame| ensures PaintAll(frame, s)[a] == PaintAll(frame, t)[a] {
      LastSquareWins(frame, s, a);
      LastSquareWins(frame, t, a);
    }
  }

  lemma {:induction false} LastOfAppend(s: seq<Square>, t: seq<Square>, id: nat)
    ensures Last(s + t, id) == if Last(t, id).Some? then Last(t, id) else Last(s, id)
    decreases |s|
  {
    if s == [] {
      assert s + t == t;
    } else {
      assert (s + t)[0] == s[0] && (s + t)[1..] == s[1..] + t;
      LastOfAppend(s[1..], t, id);
    }
  }

  /** Whole blocks that name no square in common can be decoded in either order. */
  lemma DisjointBlocksCommute(frame: seq<Byte>, a: seq<Byte>, b: seq<Byte>)
    requires Whole(a) && Whole(b)
    requires forall id: nat :: Last(Squares(a), id).None? || Last(Squares(b), id).None?
    ensures PaintAll(frame, Squares(a + b)) == PaintAll(frame, Squares(b + a))
  {
    hide *;
    SquaresAppend(a, b);
    SquaresAppend(b, a);
    var s, t := Squares(a), Squares(b);
    DecodedSquaresAreFull(a + b);
    DecodedSquaresAreFull(b + a);
    forall id: nat ensures Last(s + t, id) == Last(t + s, id) {
      LastOfAppend(s, t, id);
      LastOfAppend(t, s, id);
      assert Last(s, id).None? || Last(t, id).None?;
    }
    OrderDoesNotMatter(frame, s + t, t + s);
  }
}
