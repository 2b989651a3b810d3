/** Small shared vocabulary: bytes, the two result types, C strings and sequences. */
module Common {

  /** An unsigned 8-bit value. */
  type Byte = b: int | 0 <= b < 256

  datatype Option<+T> = None | Some(value: T)
  {
    function GetOr(default: T): T {
      if Some? then value else default
    }
  }

  datatype Result<+T, +E> = Ok(value: T) | Err(error: E)

  /** Two bytes, the high one first. */
  function Word16(hi: int, lo: int): int {
    hi * 256 + lo
  }

  // ---------- C strings ----------

  predicate IsDigit(c: char) {
    '0' <= c <= '9'
  }

  /** Where a character first occurs, or the length of the text. */
  function IndexOf(s: string, c: char): (n: nat)
    ensures n <= |s| && (n < |s| ==> s[n] == c)
    ensures forall i :: 0 <= i < n ==> s[i] != c
  {
    if s == "" || s[0] == c then 0 else 1 + IndexOf(s[1..], c)
  }

  /** What comes before the first NUL. */
  function CString(s: string): string {
    if s == "" || s[0] == '\0' then "" else [s[0]] + CString(s[1..])
  }

  /** Text cut to the room its buffer has. */
  function Cut(s: string, room: nat): (t: string)
    ensures |t| <= room
  {
    if |s| > room then s[..room] else s
  }

  /** A line without the CR at its end. */
  function StripCr(line: string): string {
    if line != "" && line[|line| - 1] == '\r' then line[..|line| - 1] else line
  }

  // ---------- sequences ----------

  /** The concatenation of a sequence of sequences, first to last. */
  function Flatten<T>(parts: seq<seq<T>>): seq<T> {
    if parts == [] then [] else parts[0] + Flatten(parts[1..])
  }

  lemma {:induction false} FlattenAppend<T>(a: seq<seq<T>>, b: seq<seq<T>>)
    ensures Flatten(a + b) == Flatten(a) + Flatten(b)
  {
    if a == [] {
      assert a + b == b;
    } else {
      assert (a + b)[1..] == a[1..] + b;
      FlattenAppend(a[1..], b);
    }
  }

  /** Concatenation is associative; named so that large proofs can cite it. */
  lemma Assoc<T>(a: seq<T>, b: seq<T>, c: seq<T>)
    ensures (a + b) + c == a + (b + c)
  {
  }

  lemma SliceOfDrop<T>(s: seq<T>, start: nat, i: nat, n: nat)
    requires start + i + n <= |s|
    ensures s[start..][i..i + n] == s[start + i..start + i + n]
  {
  }

  lemma DropOfDrop<T>(s: seq<T>, i: nat, j: nat)
    requires i + j <= |s|
    ensures s[i..][j..] == s[i + j..]
  {
  }

  lemma PrefixSnoc<T>(s: seq<T>, i: nat)
    requires i < |s|
    ensures s[..i + 1] == s[..i] + [s[i]]
  {
  }
}
