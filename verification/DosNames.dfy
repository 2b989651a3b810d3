/** DOS file names: the 8.3 form of a name, and the name of an 8.3 form. */
module DosNames {
  import opened Common

  /** The 11 characters of a name and extension, padded with blanks. */
  type Fcb11 = f: string | |f| == 11 witness "           "

  function Upper(c: char): (u: char)
    ensures u as int == if 97 <= c as int <= 122 then c as int - 32 else c as int
  {
    if 'a' <= c <= 'z' then c - 'a' + 'A' else c
  }

  predicate CharOk(c: char) {
    'A' <= c <= 'Z' || '0' <= c <= '9' || c in "!#$%&'()-@^_`{}~"
  }

  // ---------- one field ----------

  predicate Allowed(c: char, wild: bool) {
    (wild && (c == '*' || c == '?')) || CharOk(Upper(c))
  }

  /** Whether every character of a field is allowed; wildcards only if asked for. */
  predicate FieldOk(s: string, wild: bool)
    decreases |s|
  {
    s == "" || (Allowed(s[0], wild) && FieldOk(s[1..], wild))
  }

  /** What one character adds to a field: '*' fills it with '?'. */
  function Placed(c: char, room: nat, wild: bool): (t: string)
    ensures |t| <= room
  {
    if room == 0 then "" else if wild && c == '*' then seq(room, _ => '?') else [Upper(c)]
  }

  /** The characters of a field that fit, in upper case. */
  function Fitted(s: string, room: nat, wild: bool): (t: string)
    ensures |t| <= room
    decreases |s|
  {
    if s == "" then ""
    else
      var t := Placed(s[0], room, wild);
      t + Fitted(s[1..], room - |t|, wild)
  }

  function Padded(t: string, width: nat): (p: string)
    requires |t| <= width
    ensures |p| == width
  {
    t + seq(width - |t|, _ => ' ')
  }

  function Base(s: string): string {
    s[..IndexOf(s, '.')]
  }

  function Extension(s: string): string {
    if IndexOf(s, '.') < |s| then s[IndexOf(s, '.') + 1..] else ""
  }

  /** The 8.3 form of a name, or nothing if it cannot be a DOS name. */
  function ToFcb(name: string, wild: bool): Option<Fcb11> {
    if Base(name) == "" || !FieldOk(Base(name), wild) || !FieldOk(Extension(name), wild) then None
    else Some(Padded(Fitted(Base(name), 8, wild), 8) + Padded(Fitted(Extension(name), 3, wild), 3))
  }

  /** The part of a field before the first blank. */
  function Unpadded(s: string): (t: string)
    ensures |t| <= |s|
  {
    if s == "" || s[0] == ' ' then "" else [s[0]] + Unpadded(s[1..])
  }

  /** The name of an 8.3 form. */
  function ToName(f: Fcb11): string {
    Unpadded(f[..8]) + (if f[8] != ' ' then "." + Unpadded(f[8..]) else "")
  }

  /** The canonical form of a name. */
  function Canon(name: string): Option<string> {
    match ToFcb(name, false)
    case None => None
    case Some(f) => Some(ToName(f))
  }

  // ---------- the loops ----------

  /** Places one character at out[j], if it fits before hi. */
  method Place(out: array<char>, j: nat, hi: nat, c: char, wild: bool) returns (ok: bool, j': nat)
    requires j <= hi <= out.Length
    modifies out
    ensures ok <==> Allowed(c, wild)
    ensures ok ==> j' == j + |Placed(c, hi - j, wild)| && out[j..j'] == Placed(c, hi - j, wild)
    ensures j <= j' <= hi
    ensures forall k :: 0 <= k < out.Length && !(j <= k < j') ==> out[k] == old(out[k])
  {
    j', ok := j, true;
    if c == '*' && wild {
      while j' < hi
        invariant j <= j' <= hi
        invariant forall k :: j <= k < j' ==> out[k] == '?'
        invariant forall k :: 0 <= k < out.Length && !(j <= k < j') ==> out[k] == old(out[k])
      {
        out[j'] := '?';
        j' := j' + 1;
      }
      return;
    }
    if c == '?' && wild {
      if j' < hi { out[j'] := '?'; j' := j' + 1; }
      return;
    }
    if !CharOk(Upper(c)) { return false, j'; }
    if j' < hi { out[j'] := Upper(c); j' := j' + 1; }
  }

  /** Places the field s in out[lo..hi], which holds blanks. */
  method FillField(s: string, wild: bool, out: array<char>, lo: nat, hi: nat) returns (ok: bool)
    requires lo <= hi <= out.Length
    requires forall k :: lo <= k < hi ==> out[k] == ' '
    modifies out
    ensures ok <==> FieldOk(s, wild)
    ensures ok ==> out[lo..hi] == Padded(Fitted(s, hi - lo, wild), hi - lo)
    ensures forall k :: 0 <= k < out.Length && !(lo <= k < hi) ==> out[k] == old(out[k])
  {
    hide Placed, Allowed, Fitted, FieldOk;
    var j := lo;
    assert s[0..] == s && out[lo..j] == "";
    for i := 0 to |s|
      invariant lo <= j <= hi
      invariant FieldOk(s[i..], wild) == FieldOk(s, wild)
      invariant out[lo..j] + Fitted(s[i..], hi - j, wild) == Fitted(s, hi - lo, wild)
      invariant forall k :: j <= k < hi ==> out[k] == ' '
      invariant forall k :: 0 <= k < out.Length && !(lo <= k < hi) ==> out[k] == old(out[k])
    {
      ghost var done, was := out[lo..j], j;
      DropOfDrop(s, i, 1);
      FirstFitted(s[i..], hi - j, wild);
      ok, j := Place(out, j, hi, s[i], wild);
      if !ok { return; }
      assert out[lo..j] == done + out[was..j];
      Assoc(done, out[was..j], Fitted(s[i + 1..], hi - j, wild));
    }
    NothingFitted(hi - j, wild);
    assert s[|s|..] == "" && out[lo..j] + "" == out[lo..j];
    assert out[lo..hi] == out[lo..j] + out[j..hi];
    ok := true;
  }

  lemma FirstFitted(s: string, room: nat, wild: bool)
    requires s != ""
    ensures FieldOk(s, wild) <==> Allowed(s[0], wild) && FieldOk(s[1..], wild)
    ensures Fitted(s, room, wild) == Placed(s[0], room, wild) + Fitted(s[1..], room - |Placed(s[0], room, wild)|, wild)
  {
  }

  lemma NothingFitted(room: nat, wild: bool)
    ensures FieldOk("", wild) && Fitted("", room, wild) == ""
  {
  }

  method FindDot(name: string) returns (dot: nat)
    ensures dot == IndexOf(name, '.')
  {
    dot := 0;
    assert name[0..] == name;
    while dot < |name| && name[dot] != '.'
      invariant dot <= |name|
      invariant dot + IndexOf(name[dot..], '.') == IndexOf(name, '.')
    {
      DropOfDrop(name, dot, 1);
      dot := dot + 1;
    }
  }

  /** Converts a name into out, which it first fills with blanks. */
  method ToFcb11(name: string, out: array<char>, wild: bool) returns (ok: bool)
    requires out.Length == 11
    modifies out
    ensures ok <==> ToFcb(name, wild).Some?
    ensures ok ==> out[..] == ToFcb(name, wild).value
  {
    hide Fitted, Padded, FieldOk;
    for k := 0 to 11
      invariant forall i :: 0 <= i < k ==> out[i] == ' '
    {
      out[k] := ' ';
    }
    var dot := FindDot(name);
    var base := name[..dot];
    if base == "" { return false; }
    ok := FillField(base, wild, out, 0, 8);
    if !ok { return; }
    ghost var first := out[0..8];
    var extension := if dot < |name| then name[dot + 1..] else "";
    ok := FillField(extension, wild, out, 8, 11);
    assert out[0..8] == first;
    assert out[..] == out[0..8] + out[8..11];
  }

  /** Copies a form up to the first blank of each part. */
  method ToNameLoop(f: Fcb11) returns (out: string)
    ensures out == ToName(f)
  {
    out := CopyUnpadded(f[..8]);
    if f[8] != ' ' {
      var extension := CopyUnpadded(f[8..]);
      out := out + "." + extension;
    }
  }

  method CopyUnpadded(s: string) returns (t: string)
    ensures t == Unpadded(s)
  {
    t := "";
    var i := 0;
    assert s[0..] == s;
    while i < |s| && s[i] != ' '
      invariant i <= |s| && t + Unpadded(s[i..]) == Unpadded(s)
    {
      DropOfDrop(s, i, 1);
      Assoc(t, [s[i]], Unpadded(s[i + 1..]));
      t := t + [s[i]];
      i := i + 1;
    }
    assert t + "" == t;
  }

  // ---------- canonical names ----------

  /** A name in canonical form: an upper-case base of at most 8 characters and,
      after a period, an extension of at most 3. */
  ghost predicate Canonical(name: string) {
    Canon(name) == Some(name)
  }

  predicate IsSeparator(c: char) {
    c == '\\' || c == '/'
  }

  /** An allowed character in upper case. */
  ghost predicate Plain(c: char) {
    c != ' ' && c != '.' && c != ':' && !IsSeparator(c) && Upper(c) == c && Allowed(c, false)
  }

  lemma AllowedIsPlain(c: char)
    requires Allowed(c, false)
    ensures Plain(Upper(c))
  {
  }

  /** Without wildcards a field is its upper case, cut to size; fitting that again
      changes nothing. */
  lemma {:induction false} FittedPlain(s: string, room: nat)
    requires FieldOk(s, false)
    ensures var t := Fitted(s, room, false);
      && |t| == (if |s| < room then |s| else room)
      && FieldOk(t, false) && Fitted(t, room, false) == t
      && forall i :: 0 <= i < |t| ==> Plain(t[i]) && t[i] == Upper(s[i])
    decreases |s|
  {
    hide Upper, Allowed, Plain, CharOk, Placed;
    if s == "" {
    } else if room == 0 {
      NoRoom(s);
    } else {
      var rest := Fitted(s[1..], room - 1, false);
      FittedPlain(s[1..], room - 1);
      AllowedIsPlain(s[0]);
      FittedStep(s, room);
      hide Fitted, FieldOk;
      PlainFirst(Upper(s[0]), rest, room);
      forall i | 0 <= i <= |rest|
        ensures Plain(([Upper(s[0])] + rest)[i]) && ([Upper(s[0])] + rest)[i] == Upper(s[i])
      {
        if i > 0 { assert Plain(rest[i - 1]) && rest[i - 1] == Upper(s[1..][i - 1]); }
      }
    }
  }

  lemma FittedStep(s: string, room: nat)
    requires s != "" && room > 0
    ensures Fitted(s, room, false) == [Upper(s[0])] + Fitted(s[1..], room - 1, false)
  {
    hide Upper;
  }

  lemma {:induction false} NoRoom(s: string)
    ensures Fitted(s, 0, false) == ""
    decreases |s|
  {
    if s != "" { NoRoom(s[1..]); }
  }

  lemma PlainFirst(c: char, rest: string, room: nat)
    requires Plain(c) && room > 0 && FieldOk(rest, false) && Fitted(rest, room - 1, false) == rest
    ensures FieldOk([c] + rest, false) && Fitted([c] + rest, room, false) == [c] + rest
  {
    hide Upper, Allowed;
    assert ([c] + rest)[1..] == rest;
    FittedStep([c] + rest, room);
  }

  lemma {:induction false} UnpaddedPadded(t: string, width: nat)
    requires |t| <= width && ' ' !in t
    ensures Unpadded(Padded(t, width)) == t
    decreases |t|
  {
    if t == "" {
    } else {
      assert Padded(t, width)[1..] == Padded(t[1..], width - 1);
      UnpaddedPadded(t[1..], width - 1);
    }
  }

  /** The canonical name in terms of its fields. */
  lemma CanonFields(name: string)
    requires Canon(name).Some?
    ensures var base, extension := Fitted(Base(name), 8, false), Fitted(Extension(name), 3, false);
      Canon(name).value == base + (if extension != "" then "." + extension else "")
  {
    var base, extension := Fitted(Base(name), 8, false), Fitted(Extension(name), 3, false);
    FittedPlain(Base(name), 8);
    FittedPlain(Extension(name), 3);
    hide Fitted, FieldOk, Unpadded;
    var f := Padded(base, 8) + Padded(extension, 3);
    assert f[..8] == Padded(base, 8) && f[8..] == Padded(extension, 3);
    assert ' ' !in base && ' ' !in extension;
    UnpaddedPadded(base, 8);
    UnpaddedPadded(extension, 3);
    if extension != "" { assert f[8] == extension[0]; }
  }

  lemma {:induction false} PlainFits(s: string, room: nat)
    requires |s| <= room && forall i :: 0 <= i < |s| ==> Plain(s[i])
    ensures FieldOk(s, false) && Fitted(s, room, false) == s
    decreases |s|
  {
    hide Allowed, Upper;
    if s != "" {
      assert Plain(s[0]);
      PlainFits(s[1..], room - 1);
      FittedStep(s, room);
    }
  }

  /** A name of at most eight allowed characters in upper case is its own canonical form. */
  lemma PlainNameIsCanonical(name: string)
    requires name != "" && |name| <= 8 && forall i :: 0 <= i < |name| ==> Plain(name[i])
    ensures Canonical(name)
  {
    hide Fitted, FieldOk, Allowed, Upper;
    PlainFits(name, 8);
    PlainFits("", 3);
    assert IndexOf(name, '.') == |name|;
    assert Base(name) == name && Extension(name) == "";
    assert Canon(name).Some?;
    CanonFields(name);
    assert name + "" == name;
  }

  lemma {:induction false} DotAtOf(base: string, more: string)
    requires '.' !in base && (more == "" || more[0] == '.')
    ensures IndexOf(base + more, '.') == |base|
    decreases |base|
  {
    if base == "" {
      assert base + more == more;
    } else {
      assert (base + more)[1..] == base[1..] + more;
      DotAtOf(base[1..], more);
    }
  }

  lemma FieldsAreCanonical(base: string, extension: string)
    requires base != "" && '.' !in base && FieldOk(base, false) && FieldOk(extension, false)
    requires Fitted(base, 8, false) == base && Fitted(extension, 3, false) == extension
    ensures Canonical(base + (if extension != "" then "." + extension else ""))
  {
    hide Fitted, FieldOk;
    var more := if extension != "" then "." + extension else "";
    DotAtOf(base, more);
    assert Base(base + more) == base && Extension(base + more) == extension;
    hide Padded, ToName;
    CanonFields(base + more);
  }

  /** Putting a name in canonical form twice is the same as once. */
  lemma CanonIsIdempotent(name: string)
    requires Canon(name).Some?
    ensures Canonical(Canon(name).value)
  {
    var base, extension := Fitted(Base(name), 8, false), Fitted(Extension(name), 3, false);
    CanonFields(name);
    FittedPlain(Base(name), 8);
    FittedPlain(Extension(name), 3);
    hide Fitted, FieldOk, Canonical, Padded, ToName;
    assert '.' !in base;
    FieldsAreCanonical(base, extension);
  }

  /** A canonical name is short, names no directory above, and holds no separator. */
  lemma CanonicalShape(name: string)
    requires Canonical(name)
    ensures 0 < |name| <= 12 && name != "." && name != ".."
    ensures forall i :: 0 <= i < |name| ==> !IsSeparator(name[i]) && name[i] != ':' && Upper(name[i]) == name[i]
  {
    var base, extension := Fitted(Base(name), 8, false), Fitted(Extension(name), 3, false);
    CanonFields(name);
    FittedPlain(Base(name), 8);
    FittedPlain(Extension(name), 3);
    assert Base(name) != "";
    hide Fitted, FieldOk, Canon, ToFcb, Base, Extension, Upper, CharOk, Allowed;
    assert Plain(base[0]) && name[0] == base[0];
    forall i | 0 <= i < |name| ensures !IsSeparator(name[i]) && name[i] != ':' && Upper(name[i]) == name[i] {
      if i < |base| {
        assert Plain(base[i]);
      } else if i > |base| {
        assert name[i] == extension[i - |base| - 1] && Plain(extension[i - |base| - 1]);
      }
    }
  }

  /** A canonical form is never longer than the name it was made from. */
  lemma CanonIsNoLonger(name: string)
    requires Canon(name).Some?
    ensures |Canon(name).value| <= |name|
  {
    CanonFields(name);
    FittedPlain(Base(name), 8);
    FittedPlain(Extension(name), 3);
  }

  // ---------- which names, and what becomes of them ----------

  function Uppered(s: string): (u: string)
    ensures |u| == |s| && forall i :: 0 <= i < |s| ==> u[i] == Upper(s[i])
  {
    seq(|s|, i requires 0 <= i < |s| => Upper(s[i]))
  }

  ghost predicate AllAllowed(s: string, wild: bool) {
    forall i :: 0 <= i < |s| ==> Allowed(s[i], wild)
  }

  lemma {:induction false} FieldOkIff(s: string, wild: bool)
    ensures FieldOk(s, wild) <==> AllAllowed(s, wild)
    decreases |s|
  {
    hide Allowed;
    if s != "" {
      FieldOkIff(s[1..], wild);
      assert forall i :: 0 < i < |s| ==> s[i] == s[1..][i - 1];
    }
  }

  lemma FittedIsUppered(s: string, room: nat)
    requires FieldOk(s, false)
    ensures Fitted(s, room, false) == Uppered(Cut(s, room))
  {
    FittedPlain(s, room);
    hide Fitted, FieldOk, Upper;
  }

  /** The characters of DOS names, by their codes. */
  lemma AllowedCharacters(c: char)
    ensures CharOk(c) <==>
      || 65 <= c as int <= 90 || 48 <= c as int <= 57
      || c as int in {33, 35, 36, 37, 38, 39, 40, 41, 45, 64, 94, 95, 96, 123, 125, 126}
  {
  }

  /** What one character of a name may be: with wildcards allowed '*' and '?' too. */
  predicate MayBe(c: char, wild: bool) {
    CharOk(Upper(c)) || (wild && c in "*?")
  }

  /** A name converts exactly if it is not empty, does not start with a period and, but for
      its first period, has only characters it may have. */
  lemma ConvertsIff(name: string, wild: bool)
    ensures ToFcb(name, wild).Some? <==>
      && name != "" && name[0] != '.'
      && forall i :: 0 <= i < |name| && i != IndexOf(name, '.') ==> MayBe(name[i], wild)
  {
    hide Allowed, Fitted, Padded, FieldOk, AllAllowed, MayBe;
    FieldOkIff(Base(name), wild);
    FieldOkIff(Extension(name), wild);
    AllowedAround(name, IndexOf(name, '.'), wild);
    assert forall c: char :: Allowed(c, wild) <==> MayBe(c, wild) by { AllowedIsMayBe(wild); }
  }

  lemma AllowedIsMayBe(wild: bool)
    ensures forall c: char :: Allowed(c, wild) <==> MayBe(c, wild)
  {
    hide CharOk, Upper;
  }

  lemma AllowedAround(s: string, k: nat, wild: bool)
    requires k <= |s|
    ensures AllAllowed(s[..k], wild) && AllAllowed(if k < |s| then s[k + 1..] else "", wild) <==>
      forall i :: 0 <= i < |s| && i != k ==> Allowed(s[i], wild)
  {
    hide Allowed;
    var a, b := s[..k], if k < |s| then s[k + 1..] else "";
    if AllAllowed(a, wild) && AllAllowed(b, wild) {
      forall i | 0 <= i < |s| && i != k ensures Allowed(s[i], wild) {
        if i < k { assert Allowed(a[i], wild); } else { assert Allowed(b[i - k - 1], wild); }
      }
    }
    if forall i :: 0 <= i < |s| && i != k ==> Allowed(s[i], wild) {
      forall i | 0 <= i < |a| ensures Allowed(a[i], wild) { assert Allowed(s[i], wild); }
      forall i | 0 <= i < |b| ensures Allowed(b[i], wild) { assert Allowed(s[i + k + 1], wild); }
    }
  }

  /** A base and an extension of allowed characters come out in upper case, cut to eight
      and three. */
  lemma CanonOf(base: string, extension: string)
    requires base != "" && '.' !in base && FieldOk(base, false) && FieldOk(extension, false)
    ensures Canon(base) == Some(Uppered(Cut(base, 8)))
    ensures Canon(base + ("." + extension)) ==
      Some(Uppered(Cut(base, 8)) + if extension != "" then "." + Uppered(Cut(extension, 3)) else "")
  {
    hide Fitted, FieldOk, Padded, ToName, Uppered, Upper;
    DotAtOf(base, "");
    DotAtOf(base, "." + extension);
    assert base + "" == base && (base + ("." + extension))[..|base|] == base;
    assert (base + ("." + extension))[|base| + 1..] == extension;
    FieldOkIff("", false);
    CanonFields(base);
    CanonFields(base + ("." + extension));
    FittedIsUppered(base, 8);
    FittedIsUppered(extension, 3);
    FittedIsUppered("", 3);
    assert Uppered(Cut(base, 8)) + "" == Uppered(Cut(base, 8));
  }

  lemma ReadmeExample()
    ensures Canon("readme.text") == Some("README.TEX")
  {
    hide Canon, FieldOk;
    assert AllAllowed("readme", false) && AllAllowed("text", false);
    hide Allowed, CharOk;
    FieldOkIff("readme", false);
    FieldOkIff("text", false);
    CanonOf("readme", "text");
    assert "readme" + ("." + "text") == "readme.text";
    assert Uppered("readme") == "README" && Uppered(Cut("text", 3)) == "TEX";
    assert "README" + ("." + "TEX") == "README.TEX";
  }

  /** With wildcards allowed, '?' stands for itself and '*' for as many as are left. */
  lemma {:induction false} StarFills(s: string, more: string, room: nat)
    requires |s| <= room && AllAllowed(s, false)
    ensures Fitted(s + ("?" + more), room + 1, true) == Uppered(s) + ("?" + Fitted(more, room - |s|, true))
    ensures Fitted(s + ("*" + more), room, true) == Uppered(s) + seq(room - |s|, _ => '?')
    decreases |s|
  {
    hide Upper, Allowed, Uppered, Fitted;
    if s == "" {
      WildFirst(more, room);
      assert "" + ("*" + more) == "*" + more && "" + ("?" + more) == "?" + more;
      assert Uppered("") == "" && forall t: string :: "" + t == t;
    } else {
      var c, rest := s[0], s[1..];
      assert AllAllowed(rest, false);
      StarFills(rest, more, room - 1);
      assert s + ("*" + more) == [c] + (rest + ("*" + more)) && s + ("?" + more) == [c] + (rest + ("?" + more));
      TameFirst(c, rest + ("*" + more), room);
      TameFirst(c, rest + ("?" + more), room + 1);
      assert Uppered(s) == [Upper(c)] + Uppered(rest);
      Assoc([Upper(c)], Uppered(rest), seq(room - |s|, _ => '?'));
      Assoc([Upper(c)], Uppered(rest), "?" + Fitted(more, room - |s|, true));
    }
  }

  lemma TameFirst(c: char, rest: string, room: nat)
    requires Allowed(c, false) && room > 0
    ensures Fitted([c] + rest, room, true) == [Upper(c)] + Fitted(rest, room - 1, true)
  {
    hide Upper, Allowed, Fitted, FieldOk;
    NotWild(c);
    FirstFitted([c] + rest, room, true);
    assert ([c] + rest)[1..] == rest;
  }

  lemma NotWild(c: char)
    requires Allowed(c, false)
    ensures c != '*' && c != '?'
  {
  }

  lemma WildFirst(more: string, room: nat)
    ensures Fitted("*" + more, room, true) == seq(room, _ => '?')
    ensures Fitted("?" + more, room + 1, true) == "?" + Fitted(more, room, true)
  {
    hide Fitted, FieldOk, CharOk;
    FirstFitted("*" + more, room, true);
    FirstFitted("?" + more, room + 1, true);
    assert ("*" + more)[1..] == more && ("?" + more)[1..] == more;
    NoRoomWild(more);
    var all := seq(room, _ => '?');
    assert all + "" == all;
  }

  lemma {:induction false} NoRoomWild(s: string)
    ensures Fitted(s, 0, true) == ""
    decreases |s|
  {
    if s != "" { NoRoomWild(s[1..]); }
  }
}
