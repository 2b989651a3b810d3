/** Record I/O through a DOS file control block: whole records between a host file and
    guest memory, a position kept in two fields, and a size the program itself sets,
    to which the file is cut when it is closed. */
module FcbFiles {
  import opened Common
  import Digits

  const MEMORY: nat := 0x100000
  const CHUNK: nat := 512
  const DEFAULT_SIZE: nat := 128
  const U16: nat := 0x10000
  const U32: nat := 0x1_0000_0000
  const POSITIONS: nat := 0x80_0000  // records that block and record number can name

  // ---------- files and memory ----------

  function Zeros(n: nat): (z: seq<Byte>)
    ensures |z| == n
  {
    seq(n, _ => 0)
  }

  /** A file cut or extended with zeros to n bytes. */
  function Resized(file: seq<Byte>, n: nat): (f: seq<Byte>)
    ensures |f| == n
  {
    if n <= |file| then file[..n] else file + Zeros(n - |file|)
  }

  /** A file after data is written at a position, possibly past its end. */
  function Overwritten(file: seq<Byte>, pos: nat, data: seq<Byte>): seq<Byte> {
    Resized(file, pos) + data + (if pos + |data| < |file| then file[pos + |data|..] else [])
  }

  /** One file is another with some bytes written at a position: it is as long as both
      reach, holds the bytes there, keeps every other byte and has zeros in a gap. */
  ghost predicate WroteAt(before: seq<Byte>, after: seq<Byte>, pos: nat, data: seq<Byte>) {
    if data == [] then after == before
    else
      && |after| == (if |before| > pos + |data| then |before| else pos + |data|)
      && forall i :: 0 <= i < |after| ==>
           after[i] == if pos <= i < pos + |data| then data[i - pos] else if i < |before| then before[i] else 0
  }

  lemma SplicedWrites(file: seq<Byte>, pos: nat, data: seq<Byte>)
    ensures WroteAt(file, Spliced(file, pos, data), pos, data)
  {
    if data != [] {
      var f, r := Spliced(file, pos, data), Resized(file, pos);
      forall i | 0 <= i < |f|
        ensures f[i] == if pos <= i < pos + |data| then data[i - pos] else if i < |file| then file[i] else 0
      {
        if i < pos { assert f[i] == r[i]; }
      }
    }
  }

  /** The n bytes of memory from an address on, wrapping at the top. */
  function Fetched(mem: seq<Byte>, at: nat, n: nat): (data: seq<Byte>)
    requires |mem| == MEMORY
    ensures |data| == n
  {
    seq(n, k requires 0 <= k < n => mem[(at + k) % MEMORY])
  }

  /** Memory after data is stored from an address on, wrapping at the top. */
  function Stored(mem: seq<Byte>, at: nat, data: seq<Byte>): (m: seq<Byte>)
    requires |mem| == MEMORY
    ensures |m| == MEMORY
  {
    seq(MEMORY, a requires 0 <= a < MEMORY => if Distance(a, at) < |data| then data[Distance(a, at)] else mem[a])
  }

  /** How much of n bytes at a position a file holds. */
  function Held(file: seq<Byte>, pos: nat, n: nat): (got: nat)
    ensures got <= n && (got > 0 ==> pos + got <= |file|)
  {
    if |file| <= pos then 0 else if |file| - pos < n then |file| - pos else n
  }

  /** The n bytes of a file at a position. */
  function Bytes(file: seq<Byte>, pos: nat, n: nat): (data: seq<Byte>)
    requires n > 0 ==> pos + n <= |file|
    ensures |data| == n
  {
    if n > 0 then file[pos..pos + n] else []
  }

  /** What a read of n bytes leaves in memory: the bytes held, then zeros to the end of
      the 512-byte chunk the file ended in. */
  function ReadBytes(file: seq<Byte>, pos: nat, n: nat): (data: seq<Byte>)
    ensures |data| <= n
  {
    var got := Held(file, pos, n);
    var filled := (got / CHUNK + 1) * CHUNK;
    Bytes(file, pos, got) + Zeros((if filled < n then filled else n) - got)
  }

  /** A file after some bytes, perhaps none, are written at a position. */
  function Spliced(file: seq<Byte>, pos: nat, data: seq<Byte>): seq<Byte> {
    if data == [] then file else Overwritten(file, pos, data)
  }

  function Min(a: nat, b: nat): nat {
    if a < b then a else b
  }

  /** Memory after a read of n records, the result code, and how many were read. */
  function ReadIn(mem: seq<Byte>, file: seq<Byte>, rec: nat, n: nat, size: nat, at: nat): (r: (seq<Byte>, nat, nat))
    requires |mem| == MEMORY
    ensures |r.0| == MEMORY
    decreases n
  {
    if n == 0 then (mem, 0, 0)
    else
      var got := Held(file, rec * size, size);
      var m := Stored(mem, at, ReadBytes(file, rec * size, size));
      if got == 0 then (m, 1, 0)
      else if got < size then (m, 3, 1)
      else
        var r := ReadIn(m, file, rec + 1, n - 1, size, at + size);
        (r.0, r.1, r.2 + 1)
  }

  lemma OverwrittenTwice(file: seq<Byte>, pos: nat, a: seq<Byte>, b: seq<Byte>)
    ensures Overwritten(Overwritten(file, pos, a), pos + |a|, b) == Overwritten(file, pos, a + b)
  {
    var f := Overwritten(file, pos, a);
    assert Resized(f, pos + |a|) == Resized(file, pos) + a;
  }

  lemma SplicedTwice(file: seq<Byte>, pos: nat, a: seq<Byte>, b: seq<Byte>)
    ensures Spliced(Spliced(file, pos, a), pos + |a|, b) == Spliced(file, pos, a + b)
  {
    hide Overwritten;
    if a == [] {
      assert a + b == b;
    } else if b == [] {
      assert a + b == a;
    } else {
      OverwrittenTwice(file, pos, a, b);
    }
  }

  lemma FetchedTwice(mem: seq<Byte>, at: nat, n1: nat, n2: nat)
    requires |mem| == MEMORY
    ensures Fetched(mem, at, n1) + Fetched(mem, at + n1, n2) == Fetched(mem, at, n1 + n2)
  {
  }

  lemma StoredTwice(mem: seq<Byte>, at: nat, a: seq<Byte>, b: seq<Byte>)
    requires |mem| == MEMORY && |a| + |b| <= MEMORY
    ensures Stored(Stored(mem, at, a), at + |a|, b) == Stored(mem, at, a + b)
  {
    hide Distance;
    forall k | 0 <= k < MEMORY
      ensures Stored(Stored(mem, at, a), at + |a|, b)[k] == Stored(mem, at, a + b)[k]
    {
      DistanceShift(k, at, |a|);
    }
  }

  /** The k-th address from an address on, wrapping at the top. */
  function Address(at: nat, k: nat): (a: nat)
    ensures a < 0x100000
  {
    (at + k) % 0x100000
  }

  /** What is stored is found there again. */
  lemma StoredIsFetched(mem: seq<Byte>, at: nat, data: seq<Byte>)
    requires |mem| == MEMORY && |data| <= MEMORY
    ensures Fetched(Stored(mem, at, data), at, |data|) == data
    ensures forall k: nat :: k < |data| ==> Stored(mem, at, data)[Address(at, k)] == data[k]
  {
    hide Distance;
    var m := Stored(mem, at, data);
    forall k: nat | k < |data| ensures m[(at + k) % MEMORY] == data[k] {
      SlotOf(at, k);
    }
  }

  /** And nothing else of memory changes. */
  lemma StoredKeeps(mem: seq<Byte>, at: nat, data: seq<Byte>, a: nat)
    requires |mem| == MEMORY && a < MEMORY
    requires forall k: nat :: k < |data| ==> Address(at, k) != a
    ensures Stored(mem, at, data)[a] == mem[a]
  {
    var k := Distance(a, at);
    SlotOf(at, k);
    hide Distance;
    assert Address(at, k) == a;
  }

  /** What a read of n bytes leaves: the bytes of the file, and zeros from its end to the
      end of the 512-byte chunk. */
  lemma ReadBytesAre(file: seq<Byte>, pos: nat, n: nat, i: nat)
    requires n > 0 && i < n
    ensures i < |ReadBytes(file, pos, n)| <==>
      pos + i < |file| || i / 512 <= (if pos < |file| then (|file| - pos) / 512 else 0)
    ensures i < |ReadBytes(file, pos, n)| ==> ReadBytes(file, pos, n)[i] == if pos + i < |file| then file[pos + i] else 0
  {
  }

  lemma OneRecordLess(left: nat, size: nat)
    requires 0 < size <= left
    ensures left / size == (left - size) / size + 1 && left % size == (left - size) % size
  {
    var q, r := (left - size) / size, (left - size) % size;
    assert left == (q + 1) * size + r;
    Digits.DivMod(size, q + 1, r);
  }

  function Left(file: seq<Byte>, pos: nat): nat {
    if |file| <= pos then 0 else |file| - pos
  }

  lemma ReadInFirst(mem: seq<Byte>, file: seq<Byte>, rec: nat, n: nat, size: nat, at: nat)
    requires |mem| == MEMORY && size > 0 && n > 0
    ensures var left, r := Left(file, rec * size), ReadIn(mem, file, rec, n, size, at);
      if left == 0 then r.1 == 1 && r.2 == 0
      else if left < size then r.1 == 3 && r.2 == 1
      else
        var m := Stored(mem, at, ReadBytes(file, rec * size, size));
        var more := ReadIn(m, file, rec + 1, n - 1, size, at + size);
        r == (more.0, more.1, more.2 + 1)
  {
    hide Stored, ReadBytes;
  }

  lemma LeftOfNext(file: seq<Byte>, rec: nat, size: nat)
    requires Left(file, rec * size) >= size
    ensures Left(file, (rec + 1) * size) == Left(file, rec * size) - size
  {
    assert (rec + 1) * size == rec * size + size;
  }

  lemma LessThanOne(left: nat, size: nat)
    requires left < size
    ensures left / size == 0 && left % size == left
  {
  }

  lemma CountDown(n: nat, size: nat)
    requires n > 0
    ensures n * size == (n - 1) * size + size
  {
  }

  /** How a read of n records ends, by how many bytes there are from where it starts: with
      code 0 if there are n records, otherwise with code 3 after a last partial record or
      with code 1 if there is none. */
  lemma {:induction false} ReadInEnds(mem: seq<Byte>, file: seq<Byte>, rec: nat, n: nat, size: nat, at: nat)
    requires |mem| == MEMORY && size > 0
    ensures var left, r := Left(file, rec * size), ReadIn(mem, file, rec, n, size, at);
      if n * size <= left then r.1 == 0 && r.2 == n
      else if left % size != 0 then r.1 == 3 && r.2 == left / size + 1
      else r.1 == 1 && r.2 == left / size
    decreases n
  {
    if n > 0 {
      hide *;
      var left := Left(file, rec * size);
      ReadInFirst(mem, file, rec, n, size, at);
      CountDown(n, size);
      if left >= size {
        OneRecordLess(left, size);
        LeftOfNext(file, rec, size);
        ReadInEnds(Stored(mem, at, ReadBytes(file, rec * size, size)), file, rec + 1, n - 1, size, at + size);
      } else {
        LessThanOne(left, size);
      }
    }
  }

  /** A read of n records touches no other memory. */
  lemma {:induction false} ReadInKeeps(mem: seq<Byte>, file: seq<Byte>, rec: nat, n: nat, size: nat, at: nat, a: nat)
    requires |mem| == MEMORY && a < MEMORY
    requires forall k: nat :: k < n * size ==> Address(at, k) != a
    ensures ReadIn(mem, file, rec, n, size, at).0[a] == mem[a]
    decreases n
  {
    hide Stored, ReadBytes, Held;
    if n > 0 {
      assert n * size == (n - 1) * size + size;
      var data := ReadBytes(file, rec * size, size);
      StoredKeeps(mem, at, data, a);
      var next := at + size;
      forall k: nat | k < (n - 1) * size ensures Address(next, k) != a {
        assert Address(at, size + k) != a;
      }
      ReadInKeeps(Stored(mem, at, data), file, rec + 1, n - 1, size, next, a);
    }
  }

  lemma AddressIsOnce(at: nat, j: nat, k: nat)
    requires j < k < MEMORY
    ensures Address(at, j) != Address(at, k)
  {
    SlotOf(at, j);
    SlotOf(at, k);
    hide Distance;
  }

  /** A read of n records puts every byte of the file from its start on, as far as there
      are records, in its place in memory. */
  lemma {:induction false} ReadInBytes(mem: seq<Byte>, file: seq<Byte>, rec: nat, n: nat, size: nat, at: nat, k: nat)
    requires |mem| == MEMORY && n * size <= MEMORY
    requires k < n * size && rec * size + k < |file|
    ensures ReadIn(mem, file, rec, n, size, at).0[Address(at, k)] == file[rec * size + k]
    decreases n
  {
    hide Stored, ReadBytes;
    assert n * size == (n - 1) * size + size && (rec + 1) * size == rec * size + size;
    var data := ReadBytes(file, rec * size, size);
    var m := Stored(mem, at, data);
    if k < size {
      ReadBytesAre(file, rec * size, size, k);
      StoredIsFetched(mem, at, data);
      var next := at + size;
      forall j: nat | j < (n - 1) * size ensures Address(next, j) != Address(at, k) {
        AddressIsOnce(at, k, size + j);
      }
      ReadInKeeps(m, file, rec + 1, n - 1, size, next, Address(at, k));
    } else {
      ReadInBytes(m, file, rec + 1, n - 1, size, at + size, k - size);
      assert Address(at + size, k - size) == Address(at, k);
    }
  }

  lemma DistanceShift(a: nat, at: nat, n: nat)
    requires a < MEMORY && n <= MEMORY
    ensures Distance(a, at + n) == if n <= Distance(a, at) then Distance(a, at) - n
                                   else if n == MEMORY then Distance(a, at) else Distance(a, at) - n + MEMORY
  {
  }

  // ---------- the state a program sees ----------

  /** An open file: its contents, the number of the next record, and the size field of
      its control block. */
  datatype FileState = FileState(file: seq<Byte>, pos: nat, declared: nat)

  /** The state after one record is written. */
  function Put(s: FileState, size: nat, data: seq<Byte>): FileState {
    var end := (s.pos + 1) * size % U32;
    FileState(Overwritten(s.file, s.pos * size, data), (s.pos + 1) % POSITIONS, if end > s.declared then end else s.declared)
  }

  /** The result code of reading the next record: 0 for all of it, 3 for part, 1 for
      nothing. */
  function GetCode(s: FileState, size: nat): nat {
    var got := Held(s.file, s.pos * size, size);
    if got == 0 then 1 else if got < size then 3 else 0
  }

  function Get(s: FileState, size: nat): FileState {
    if GetCode(s, size) == 1 then s else s.(pos := (s.pos + 1) % POSITIONS)
  }

  class FcbFile {
    const mem: array<Byte>
    var dta: nat       // the disk transfer address
    // the host file
    var file: seq<Byte>
    var open: bool
    var written: bool
    // the control block
    var block: nat
    var recSize: nat
    var fileSize: nat
    var rec: nat

    ghost predicate Valid()
      reads this
    {
      mem.Length == MEMORY && block < U16 && recSize < U16 && fileSize < U32 && rec < 256
    }

    /** The record size; zero stands for 128. */
    function Size(): (n: nat)
      reads this
      ensures n > 0
    {
      if recSize == 0 then DEFAULT_SIZE else recSize
    }

    function Seen(): FileState
      reads this
    {
      FileState(file, block * 128 + rec, fileSize)
    }

    constructor (mem: array<Byte>)
      requires mem.Length == MEMORY
      ensures Valid() && !open && file == [] && this.mem == mem
    {
      this.mem := mem;
      dta, file, open, written := 0, [], false, false;
      block, recSize, fileSize, rec := 0, 0, 0, 0;
    }

    /** Opens the file, or creates it afresh. */
    method Open(create: bool)
      requires Valid()
      modifies this
      ensures Valid() && open && !written && Size() == 128 && dta == old(dta)
      ensures var f := if create then [] else old(file);
        Seen() == FileState(f, 0, |f| % 0x1_0000_0000)
    {
      if create { file := []; }
      block, recSize, fileSize, rec := 0, 128, |file| % U32, 0;
      open, written := true, false;
    }

    /** The program sets the size field, as GW-BASIC does before it closes. */
    method SetSize(n: nat)
      requires Valid() && n < U32
      modifies this`fileSize
      ensures Valid() && Seen() == old(Seen()).(declared := n)
    {
      fileSize := n;
    }

    /** Closes the file; one that was written takes the size its size field says. */
    method Close()
      requires Valid()
      modifies this`file, this`open, this`written
      ensures Valid() && !open
      ensures file == if old(open) && old(written) then Resized(old(file), fileSize) else old(file)
    {
      if open {
        if written {
          file := Resized(file, fileSize);
          written := false;
        }
        open := false;
      }
    }

    /** Copies one record from memory to the file, chunk by chunk; the host accepts so many
        bytes before a write fails. */
    method WriteRecord(pos: nat, at: nat, accepts: nat) returns (put: nat)
      requires Valid()
      modifies this`file, this`written
      ensures put == Min(accepts, Size())
      ensures file == Spliced(old(file), pos, Fetched(mem[..], at, put))
      ensures WroteAt(old(file), file, pos, Fetched(mem[..], at, put))
      ensures written == (old(written) || put >= Min(Size(), 512))
    {
      hide Spliced, Fetched, WroteAt;
      var size := Size();
      var b: nat := 0;
      SplicedWrites(file, pos, Fetched(mem[..], at, Min(accepts, size)));
      NothingWritten(file, mem[..], pos, at);
      while b < size
        invariant b <= size && b <= accepts && (b == 0 || b == size || b >= CHUNK)
        invariant file == Spliced(old(file), pos, Fetched(mem[..], at, b))
        invariant written == (old(written) || b > 0)
      {
        var chunk := if size - b < CHUNK then size - b else CHUNK;
        var buf := GatherChunk(at + b, chunk);
        var x := Min(chunk, accepts - b);
        FetchedPrefix(mem[..], at + b, chunk, x);
        FetchedTwice(mem[..], at, b, x);
        SplicedTwice(old(file), pos, Fetched(mem[..], at, b), buf[..x]);
        file := Spliced(file, pos + b, buf[..x]);
        b := b + x;
        if x < chunk { return b; }
        written := true;
      }
      put := size;
    }

    method GatherChunk(at: nat, n: nat) returns (buf: seq<Byte>)
      requires Valid()
      ensures buf == Fetched(mem[..], at, n)
    {
      buf := [];
      for k := 0 to n
        invariant buf == Fetched(mem[..], at, k)
      {
        buf := buf + [mem[(at + k) % MEMORY]];
      }
    }

    /** Stores data into memory from an address on. */
    method ScatterChunk(at: nat, data: seq<Byte>)
      requires Valid() && |data| <= MEMORY
      modifies mem
      ensures mem[..] == Stored(old(mem[..]), at, data)
    {
      for k := 0 to |data|
        invariant forall a :: 0 <= a < MEMORY ==>
          mem[a] == if Distance(a, at) < k then data[Distance(a, at)] else old(mem[a])
      {
        SlotOf(at, k);
        mem[(at + k) % MEMORY] := data[k];
      }
    }

    /** Reads one record into memory, chunk by chunk, up to the end of the file. */
    method ReadRecord(pos: nat, at: nat) returns (got: nat)
      requires Valid()
      modifies mem
      ensures got == Held(file, pos, Size())
      ensures mem[..] == Stored(old(mem[..]), at, ReadBytes(file, pos, Size()))
    {
      hide Stored, ReadBytes, Held, Chunk, Bytes;
      var size := Size();
      var b: nat := 0;
      got := 0;
      ghost var was := mem[..];
      NothingStored(was, at);
      NothingHeld(file, pos);
      while b < size
        invariant b <= size && b == got && (b == size || b % CHUNK == 0)
        invariant b > 0 ==> pos + b <= |file|
        invariant mem[..] == Stored(was, at, Bytes(file, pos, b))
      {
        var n := if size - b < CHUNK then size - b else CHUNK;
        var x := Held(file, pos + b, n);
        var data := Chunk(file, pos + b, n);
        StoredTwice(was, at, Bytes(file, pos, b), data);
        ScatterChunk(at + b, data);
        got := got + x;
        if x < n {
          ReadEnds(file, pos, size, b, x);
          return;
        }
        ReadGoesOn(file, pos, b, n);
        b := b + n;
      }
      ReadWhole(file, pos, size);
    }

    /** The records of a write, one after another, until the host fails. */
    method TransferOut(first: nat, count: nat, accepts: nat) returns (done: nat)
      requires Valid()
      modifies this`file, this`written
      ensures var put := Min(accepts, count * Size());
        && file == Spliced(old(file), first * Size(), Fetched(mem[..], dta, put))
        && written == (old(written) || (count > 0 && put >= Min(Size(), CHUNK)))
      ensures RecordsIn(Min(accepts, count * Size()), Size(), done) && (done == count <==> count * Size() <= accepts)
      ensures done <= count
    {
      hide Spliced, Fetched, RecordsIn;
      var size := Size();
      ghost var at: nat := 0;  // bytes written
      done := 0;
      NothingWritten(file, mem[..], first * size, dta);
      NoRecords(size);
      while done < count
        invariant done <= count && at == done * size <= accepts && (done > 0 ==> at >= size)
        invariant written == (old(written) || done > 0)
        invariant file == Spliced(old(file), first * size, Fetched(mem[..], dta, at))
      {
        NextRecord(first, done, size);
        UpToCount(done + 1, count, size);
        ghost var before := Fetched(mem[..], dta, at);
        var put := WriteRecord((first + done) * size, dta + done * size, accepts - done * size);
        FetchedTwice(mem[..], dta, at, put);
        SplicedTwice(old(file), first * size, before, Fetched(mem[..], dta + at, put));
        if put < size {
          Partial(size, done, put);
          return;
        }
        at := at + size;
        done := done + 1;
      }
      AllRecords(size, count);
    }

    /** The records of a read, until one is not wholly there. */
    method TransferIn(first: nat, count: nat) returns (code: nat, done: nat)
      requires Valid()
      modifies mem
      ensures (mem[..], code, done) == ReadIn(old(mem[..]), file, first, count, Size(), dta)
    {
      hide Stored, ReadBytes, Held;
      var size := Size();
      done := 0;
      ghost var goal := ReadIn(mem[..], file, first, count, size, dta);
      for i := 0 to count
        invariant done == i
        invariant var r := ReadIn(mem[..], file, first + i, count - i, size, dta + i * size);
          goal == (r.0, r.1, r.2 + i)
      {
        NextAddress(dta, i, size);
        var got := ReadRecord((first + i) * size, dta + i * size);
        if got == 0 { return 1, done; }
        done := done + 1;
        if got < size { return 3, done; }
      }
      code := 0;
    }

    /** Transfers records between the file and memory. A write fails once the host has
        accepted so many bytes. */
    method Transfer(first: nat, count: nat, write: bool, accepts: nat) returns (code: nat, done: nat)
      requires Valid()
      modifies this`file, this`written, this`fileSize, mem
      ensures Valid()
      ensures !open ==> code == 1 && done == 0 && Seen() == old(Seen()) && mem[..] == old(mem[..]) && written == old(written)
      ensures open && write ==>
        var put := Min(accepts, count * Size());
        && mem[..] == old(mem[..]) && file == Spliced(old(file), first * Size(), Fetched(mem[..], dta, put))
        // every byte of the file outside what was written stays
        && WroteAt(old(file), file, first * Size(), Fetched(mem[..], dta, put))
        && written == (old(written) || (count > 0 && put >= Min(Size(), 512)))
        && done <= count && RecordsIn(put, Size(), done) && (code == 0 <==> done == count) && (code == 0 || code == 1)
        && (done == count <==> count * Size() <= accepts)
        && var end := (first + count) * Size() % 0x1_0000_0000;
           fileSize == if code == 0 && end > old(fileSize) then end else old(fileSize)
      ensures open && !write ==>
        && file == old(file) && written == old(written) && fileSize == old(fileSize)
        && (mem[..], code, done) == ReadIn(old(mem[..]), file, first, count, Size(), dta)
    {
      hide Spliced, ReadIn, RecordsIn, Fetched, WroteAt;
      if !open { return 1, 0; }
      if write {
        SplicedWrites(file, first * Size(), Fetched(mem[..], dta, Min(accepts, count * Size())));
        done := TransferOut(first, count, accepts);
        if done < count { return 1, done; }
        var end := (first + count) * Size() % U32;
        if end > fileSize { fileSize := end; }
        return 0, count;
      }
      code, done := TransferIn(first, count);
    }

    /** Moves the position to the next record. */
    method Advance()
      requires Valid()
      modifies this`block, this`rec
      ensures Valid() && Seen() == old(Seen()).(pos := (old(Seen()).pos + 1) % POSITIONS)
      // the record number counts to 127 and then the block number goes on
      ensures old(rec) < 127 ==> rec == old(rec) + 1 && block == old(block)
      ensures old(rec) == 127 ==> rec == 0 && block == (old(block) + 1) % 0x10000
    {
      var next := block * 128 + rec + 1;
      block, rec := next / 128 % U16, next % 128;
    }

    /** Writes the next record; when the host fails, only part of it, and the position and
        the size field stay. */
    method SequentialWrite(accepts: nat) returns (code: nat)
      requires Valid()
      modifies this, mem
      ensures Valid() && open == old(open) && dta == old(dta) && Size() == old(Size()) && mem[..] == old(mem[..])
      ensures old(open) && accepts >= Size() ==>
        code == 0 && written && Seen() == Put(old(Seen()), Size(), Fetched(mem[..], dta, Size()))
      ensures old(open) && accepts < Size() ==>
        && code == 1 && written == (old(written) || accepts >= 512)
        && Seen() == old(Seen()).(file := Spliced(old(file), old(Seen()).pos * Size(), Fetched(mem[..], dta, accepts)))
      ensures old(open) ==>
        WroteAt(old(file), file, old(Seen()).pos * Size(), Fetched(mem[..], dta, Min(accepts, Size())))
      ensures !old(open) ==> code == 1 && Seen() == old(Seen())
    {
      hide Overwritten, Fetched, RecordsIn, WroteAt;
      var done;
      code, done := Transfer(block * 128 + rec, 1, true, accepts);
      if done > 0 { Advance(); }
    }

    /** Reads the next record. */
    method SequentialRead() returns (code: nat)
      requires Valid()
      modifies this, mem
      ensures Valid() && open == old(open) && written == old(written) && dta == old(dta) && Size() == old(Size())
      ensures old(open) ==>
        && code == GetCode(old(Seen()), Size()) && Seen() == Get(old(Seen()), Size())
        && mem[..] == Stored(old(mem[..]), dta, ReadBytes(file, old(Seen()).pos * Size(), Size()))
      ensures !old(open) ==> code == 1 && Seen() == old(Seen())
    {
      hide Stored, ReadBytes, Held;
      var done;
      code, done := Transfer(block * 128 + rec, 1, false, 0);
      if done > 0 { Advance(); }
    }
  }

  /** The whole records in some bytes. */
  ghost predicate RecordsIn(bytes: nat, size: nat, n: nat) {
    n * size <= bytes < (n + 1) * size
  }

  lemma NoRecords(size: nat)
    requires size > 0
    ensures RecordsIn(0, size, 0) && 0 * size == 0
  {
  }

  lemma NextRecord(first: nat, done: nat, size: nat)
    ensures (first + done) * size == first * size + done * size && (done + 1) * size == done * size + size
  {
  }

  lemma UpToCount(n: nat, count: nat, size: nat)
    requires n <= count
    ensures n * size <= count * size
  {
  }

  lemma Partial(size: nat, done: nat, put: nat)
    requires put < size
    ensures RecordsIn(done * size + put, size, done)
  {
    NextRecord(0, done, size);
  }

  lemma AllRecords(size: nat, count: nat)
    requires size > 0
    ensures RecordsIn(count * size, size, count)
  {
    NextRecord(0, count, size);
  }

  lemma NextAddress(at: nat, i: nat, size: nat)
    ensures at + (i + 1) * size == at + i * size + size
  {
  }

  /** How far a memory byte lies after an address, wrapping. */
  function Distance(a: nat, at: nat): (d: nat)
    requires a < MEMORY
    ensures d < MEMORY
  {
    (a - at) % MEMORY
  }

  /** The byte k places on is the only one at distance k. */
  lemma SlotOf(at: nat, k: nat)
    requires k < MEMORY
    ensures Distance((at + k) % MEMORY, at) == k
    ensures forall a: nat :: a < MEMORY && Distance(a, at) == k ==> a == (at + k) % MEMORY
  {
  }

  lemma NothingStored(mem: seq<Byte>, at: nat)
    requires |mem| == MEMORY
    ensures Stored(mem, at, []) == mem
  {
  }

  /** What reading n bytes at a position puts into a chunk: the bytes held, then zeros. */
  function Chunk(file: seq<Byte>, pos: nat, n: nat): (data: seq<Byte>)
    ensures |data| == n
  {
    Bytes(file, pos, Held(file, pos, n)) + Zeros(n - Held(file, pos, n))
  }

  lemma NothingHeld(file: seq<Byte>, pos: nat)
    ensures Bytes(file, pos, 0) == []
  {
  }

  lemma ReadGoesOn(file: seq<Byte>, pos: nat, b: nat, n: nat)
    requires n > 0 && (b > 0 ==> pos + b <= |file|) && Held(file, pos + b, n) == n
    ensures pos + b + n <= |file| && Bytes(file, pos, b) + Chunk(file, pos + b, n) == Bytes(file, pos, b + n)
  {
  }

  lemma ReadEnds(file: seq<Byte>, pos: nat, size: nat, b: nat, x: nat)
    requires b < size && b % CHUNK == 0 && (b > 0 ==> pos + b <= |file|)
    requires var n := if size - b < CHUNK then size - b else CHUNK; x == Held(file, pos + b, n) < n
    ensures Held(file, pos, size) == b + x
    ensures var n := if size - b < CHUNK then size - b else CHUNK;
      Bytes(file, pos, b) + Chunk(file, pos + b, n) == ReadBytes(file, pos, size)
  {
    hide Held, Bytes, Zeros;
    var n := if size - b < CHUNK then size - b else CHUNK;
    HeldSoFar(file, pos, size, b, x);
    FilledTo(size, b, x);
    BytesJoin(file, pos, b, x);
    Assoc(Bytes(file, pos, b), Bytes(file, pos + b, x), Zeros(n - x));
  }

  lemma HeldSoFar(file: seq<Byte>, pos: nat, size: nat, b: nat, x: nat)
    requires b < size && (b > 0 ==> pos + b <= |file|)
    requires var n := if size - b < CHUNK then size - b else CHUNK; x == Held(file, pos + b, n) < n
    ensures Held(file, pos, size) == b + x
  {
  }

  lemma FilledTo(size: nat, b: nat, x: nat)
    requires b < size && b % CHUNK == 0 && x < CHUNK
    ensures ((b + x) / CHUNK + 1) * CHUNK == b + CHUNK
  {
  }

  lemma BytesJoin(file: seq<Byte>, pos: nat, b: nat, x: nat)
    requires b + x > 0 ==> pos + b + x <= |file|
    ensures Bytes(file, pos, b) + Bytes(file, pos + b, x) == Bytes(file, pos, b + x)
  {
  }

  lemma ReadWhole(file: seq<Byte>, pos: nat, size: nat)
    requires size > 0 && pos + size <= |file|
    ensures Held(file, pos, size) == size && ReadBytes(file, pos, size) == Bytes(file, pos, size)
  {
  }

  lemma NothingWritten(file: seq<Byte>, mem: seq<Byte>, pos: nat, at: nat)
    requires |mem| == MEMORY
    ensures Fetched(mem, at, 0) == [] && Spliced(file, pos, []) == file
  {
  }

  lemma FetchedPrefix(mem: seq<Byte>, at: nat, n: nat, x: nat)
    requires |mem| == MEMORY && x <= n
    ensures Fetched(mem, at, n)[..x] == Fetched(mem, at, x)
  {
  }

  // ---------- sequential files ----------

  const FRESH := FileState([], 0, 0)

  /** The state after a run of sequential writes of 128-byte records. */
  function PutAll(s: FileState, records: seq<seq<Byte>>): FileState
    decreases |records|
  {
    if records == [] then s else PutAll(Put(s, DEFAULT_SIZE, records[0]), records[1..])
  }

  ghost predicate AreRecords(records: seq<seq<Byte>>) {
    forall i :: 0 <= i < |records| ==> |records[i]| == DEFAULT_SIZE
  }

  lemma AppendedRecord(s: FileState, data: seq<Byte>)
    requires |s.file| == s.pos * DEFAULT_SIZE == s.declared && s.pos < POSITIONS && |data| == DEFAULT_SIZE
    ensures Put(s, DEFAULT_SIZE, data) == FileState(s.file + data, (s.pos + 1) % POSITIONS, (s.pos + 1) * DEFAULT_SIZE)
  {
    assert Resized(s.file, |s.file|) == s.file;
    assert s.file + data + [] == s.file + data;
  }

  lemma {:induction false} RecordsAppended(s: FileState, records: seq<seq<Byte>>)
    requires |s.file| == s.pos * DEFAULT_SIZE == s.declared && AreRecords(records)
    requires s.pos < POSITIONS && s.pos + |records| <= POSITIONS
    ensures PutAll(s, records) == FileState(s.file + Flatten(records), (s.pos + |records|) % POSITIONS,
                                            s.declared + |records| * DEFAULT_SIZE)
    decreases |records|
  {
    hide Put;
    if records == [] {
      assert s.file + [] == s.file;
    } else {
      AppendedRecord(s, records[0]);
      Assoc(s.file, records[0], Flatten(records[1..]));
      if s.pos + 1 < POSITIONS {
        RecordsAppended(Put(s, DEFAULT_SIZE, records[0]), records[1..]);
      } else {
        assert records[1..] == [];
        assert s.file + records[0] + [] == s.file + records[0];
      }
    }
  }

  lemma {:induction false} FlattenLength(records: seq<seq<Byte>>)
    requires AreRecords(records)
    ensures |Flatten(records)| == |records| * DEFAULT_SIZE
    decreases |records|
  {
    if records != [] { FlattenLength(records[1..]); }
  }

  lemma {:induction false} FileStaysBounded(s: FileState, records: seq<seq<Byte>>)
    requires s.pos < POSITIONS && |s.file| <= POSITIONS * DEFAULT_SIZE && AreRecords(records)
    ensures |PutAll(s, records).file| <= POSITIONS * DEFAULT_SIZE
    decreases |records|
  {
    if records != [] {
      FileStaysBounded(Put(s, DEFAULT_SIZE, records[0]), records[1..]);
    }
  }

  /** The position after any number of writes is their number modulo 2^23, the most
      that a 16-bit block and a record of 128 can name. */
  lemma {:induction false} PositionCountsRecords(s: FileState, records: seq<seq<Byte>>)
    requires s.pos < POSITIONS
    ensures PutAll(s, records).pos == (s.pos + |records|) % 0x80_0000
    decreases |records|
  {
    hide Overwritten;
    if records != [] {
      PositionCountsRecords(Put(s, DEFAULT_SIZE, records[0]), records[1..]);
    }
  }

  /** Records written to a fresh file are the file, in order, exactly up to the number
      of records the position can name. */
  lemma FileIsItsRecords(records: seq<seq<Byte>>)
    requires AreRecords(records)
    ensures PutAll(FRESH, records).file == Flatten(records) <==> |records| <= 0x80_0000
    ensures |records| <= POSITIONS ==> PutAll(FRESH, records).declared == |Flatten(records)|
  {
    hide PutAll;
    FlattenLength(records);
    if |records| <= POSITIONS {
      RecordsAppended(FRESH, records);
      assert [] + Flatten(records) == Flatten(records);
    } else {
      FileStaysBounded(FRESH, records);
    }
  }

  /** Closing with size S leaves exactly the first S bytes written. */
  lemma ClosedFileHasTheSizeSet(records: seq<seq<Byte>>, size: nat)
    requires AreRecords(records) && |records| <= POSITIONS && size <= |records| * DEFAULT_SIZE
    ensures size <= |Flatten(records)|
    ensures Resized(PutAll(FRESH, records).file, size) == Flatten(records)[..size]
  {
    hide PutAll;
    FlattenLength(records);
    FileIsItsRecords(records);
  }

  // ---------- reading back ----------

  /** The number of records in n bytes, the last perhaps partial. */
  function RecordCount(n: nat): nat {
    (n + DEFAULT_SIZE - 1) / DEFAULT_SIZE
  }

  /** The state after n reads. */
  function GetAll(s: FileState, n: nat): FileState {
    if n == 0 then s else Get(GetAll(s, n - 1), DEFAULT_SIZE)
  }

  lemma {:induction false} PositionAfterReads(file: seq<Byte>, declared: nat, n: nat)
    requires RecordCount(|file|) < POSITIONS
    ensures GetAll(FileState(file, 0, declared), n)
         == FileState(file, if n < RecordCount(|file|) then n else RecordCount(|file|), declared)
  {
    if n > 0 { PositionAfterReads(file, declared, n - 1); }
  }

  /** The result of read number n of a file just opened: all of a record, the partial
      last record, or nothing more; and what memory gets, zero-filled. */
  lemma ReadResult(file: seq<Byte>, declared: nat, n: nat)
    requires RecordCount(|file|) < POSITIONS
    ensures var s := GetAll(FileState(file, 0, declared), n);
      && GetCode(s, DEFAULT_SIZE) ==
           (if (n + 1) * 128 <= |file| then 0 else if n * 128 < |file| then 3 else 1)
      && (GetCode(s, DEFAULT_SIZE) != 1 ==>
           ReadBytes(file, s.pos * DEFAULT_SIZE, DEFAULT_SIZE) == Resized(file[n * DEFAULT_SIZE..], DEFAULT_SIZE))
  {
    PositionAfterReads(file, declared, n);
    hide GetAll, ReadBytes, Resized;
    if n * DEFAULT_SIZE < |file| { OneRecordRead(file, n * DEFAULT_SIZE); }
  }

  lemma OneRecordRead(file: seq<Byte>, p: nat)
    requires p < |file|
    ensures ReadBytes(file, p, DEFAULT_SIZE) == Resized(file[p..], DEFAULT_SIZE)
  {
    var got := Held(file, p, DEFAULT_SIZE);
    assert file[p..p + got] == file[p..][..got];
  }

  /** Reading from a file just opened: ceil(S / 128) reads succeed, and the last of
      them is partial exactly when 128 does not divide S. */
  lemma SuccessfulReads(file: seq<Byte>, declared: nat, n: nat)
    requires RecordCount(|file|) < POSITIONS
    ensures GetCode(GetAll(FileState(file, 0, declared), n), DEFAULT_SIZE) != 1 <==> n < RecordCount(|file|)
    ensures GetCode(GetAll(FileState(file, 0, declared), n), DEFAULT_SIZE) == 3 <==>
            n == RecordCount(|file|) - 1 && |file| % DEFAULT_SIZE != 0
  {
    ReadResult(file, declared, n);
    hide *;
  }

  /** The first n records of a file as they arrive in memory. */
  function Arrived(file: seq<Byte>, n: nat): seq<Byte>
    requires n <= RecordCount(|file|)
  {
    if n == 0 then [] else Arrived(file, n - 1) + Resized(file[(n - 1) * DEFAULT_SIZE..], DEFAULT_SIZE)
  }

  /** Together they are the file, filled with zeros to a whole record. */
  lemma {:induction false} ArrivedIsTheFile(file: seq<Byte>, n: nat)
    requires n <= RecordCount(|file|)
    ensures Arrived(file, n) == Resized(file, n * DEFAULT_SIZE)
  {
    if n > 0 {
      ArrivedIsTheFile(file, n - 1);
    }
  }

  /** Write records, set the size, close, read back: the bytes that arrive start with
      the first S bytes written, and the rest of the last record is zeros. */
  lemma SequentialRoundTrip(records: seq<seq<Byte>>, size: nat)
    requires AreRecords(records) && |records| < POSITIONS && size <= |records| * DEFAULT_SIZE
    ensures size <= |Flatten(records)|
    ensures var file := Resized(PutAll(FRESH, records).file, size);
      && RecordCount(|file|) < POSITIONS
      && Arrived(file, RecordCount(|file|)) == Flatten(records)[..size] + Zeros(RecordCount(size) * DEFAULT_SIZE - size)
  {
    hide PutAll;
    FlattenLength(records);
    FileIsItsRecords(records);
    var file := Resized(PutAll(FRESH, records).file, size);
    assert file == Flatten(records)[..size];
    ArrivedIsTheFile(file, RecordCount(size));
  }
}
