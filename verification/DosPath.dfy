/** Guest paths resolved to host paths under one root directory. */
module DosPath {
  import opened Common
  import opened DosNames

  const NOT_FOUND := 3          // DOS: path not found
  const BUFFER := 127           // characters of a path that are looked at
  const MAX_DEPTH := 16
  const MAX_PATH := 260         // host path buffer, NUL included
  const CWD_MAX := 79           // characters of the current directory that are kept

  // ---------- components ----------

  /** The length of the component a text starts with. */
  function TokenLen(s: string): (n: nat)
    ensures n <= |s| && (n < |s| ==> IsSeparator(s[n]))
    ensures s != "" && !IsSeparator(s[0]) ==> n > 0
  {
    if s == "" || IsSeparator(s[0]) then 0 else 1 + TokenLen(s[1..])
  }

  /** The components of a path: the non-empty runs between separators. */
  function Tokens(s: string): seq<string>
    decreases |s|
  {
    if s == "" then []
    else if IsSeparator(s[0]) then Tokens(s[1..])
    else [s[..TokenLen(s)]] + Tokens(s[TokenLen(s)..])
  }

  type Comps = seq<string>

  /** One component on top of the directories so far. */
  function Enter(dirs: Comps, token: string): Result<Comps, int> {
    if token == "." then Ok(dirs)
    else if token == ".." then Ok(if dirs != [] then dirs[..|dirs| - 1] else [])
    else if |dirs| >= MAX_DEPTH then Err(NOT_FOUND)
    else match Canon(token)
      case None => Err(NOT_FOUND)
      case Some(name) => Ok(dirs + [name])
  }

  /** All components, left to right. */
  function Walk(dirs: Comps, tokens: seq<string>): Result<Comps, int>
    decreases |tokens|
  {
    if tokens == [] then Ok(dirs)
    else match Enter(dirs, tokens[0])
      case Err(e) => Err(e)
      case Ok(d) => Walk(d, tokens[1..])
  }

  /** The host path of a directory list, while the buffer lasts. */
  function HostPath(out: string, dirs: Comps): Result<string, int>
    decreases |dirs|
  {
    if dirs == [] then Ok(out)
    else if |out| + 14 >= MAX_PATH then Err(NOT_FOUND)
    else HostPath(out + "\\" + dirs[0], dirs[1..])
  }

  /** Each component after a backslash. */
  function Below(dirs: Comps): string {
    if dirs == [] then "" else "\\" + dirs[0] + Below(dirs[1..])
  }

  /** Directories as resolution leaves them: few, and each in canonical 8.3 form. */
  ghost predicate Proper(dirs: Comps) {
    |dirs| <= MAX_DEPTH && forall i :: 0 <= i < |dirs| ==> Canonical(dirs[i])
  }

  /** A path without its drive letter. */
  function WithoutDrive(dos: string): string {
    if |dos| >= 2 && dos[1] == ':' then dos[2..] else dos
  }

  // ---------- a drive ----------

  class Drive {
    const root: string
    var cwd: string
    ghost var at: Comps  // the directories last changed to

    ghost predicate Valid()
      reads this
    {
      |root| < MAX_PATH && Proper(at) && cwd == Cut(Text(at), CWD_MAX)
    }

    constructor (root: string)
      requires |root| < MAX_PATH
      ensures Valid() && this.root == root && cwd == "" && at == []
    {
      this.root, cwd, at := root, "", [];
    }

    /** The text whose components are walked. */
    function Wanted(dos: string): string
      reads this
    {
      var path := WithoutDrive(dos);
      Cut(if (path == "" || !IsSeparator(path[0])) && cwd != "" then cwd + "\\" + path else path, BUFFER)
    }

    /** What a guest path stands for. */
    function Resolved(dos: string): Result<string, int>
      reads this
    {
      match Walk([], Tokens(Wanted(dos)))
      case Err(e) => Err(e)
      case Ok(dirs) => HostPath(root, dirs)
    }

    /** Resolves a guest path; dirs are the directories below the root it names. */
    method Resolve(dos: string) returns (r: Result<string, int>, dirs: Comps)
      requires Valid()
      ensures r == Resolved(dos)
      ensures r.Err? ==> r.error == 3
      ensures r.Ok? ==> Proper(dirs) && |dirs| <= 16 && r.value == root + Below(dirs) && |r.value| < 260
      ensures Walk([], Tokens(Wanted(dos))).Ok? ==> Walk([], Tokens(Wanted(dos))) == Ok(dirs)
      ensures r.Ok? ==> Walk([], Tokens(Wanted(dos))).Ok?
    {
      var path := if |dos| >= 2 && dos[1] == ':' then dos[2..] else dos;
      var buf := Cut(if (path == "" || !IsSeparator(path[0])) && cwd != "" then cwd + "\\" + path else path, BUFFER);
      assert buf == Wanted(dos);
      var walked := WalkAll(buf);
      dirs := [];
      WalkError([], Tokens(buf));
      if walked.Err? { return Err(walked.error), dirs; }
      dirs := walked.value;
      r := HostPathOf(root, dirs);
      HostPathError(root, dirs);
    }

    /** Makes a resolved path the current directory, if the host says it is one. Only
        its first 79 characters below the root are kept. */
    method ChangeDirectory(dos: string, isDirectory: bool) returns (error: int)
      requires Valid()
      modifies this`cwd, this`at
      ensures Valid()
      ensures error == if old(Resolved(dos)).Ok? && isDirectory then 0 else 3
      ensures error != 0 ==> cwd == old(cwd) && at == old(at)
      ensures error == 0 ==> Ok(at) == old(Walk([], Tokens(Wanted(dos))))
      // the text kept names that directory exactly if nothing of it was cut off
      ensures error == 0 ==> (Walk([], Tokens(cwd)) == Ok(at) <==> |Text(at)| <= 79)
    {
      hide Walk, Tokens, Proper, Text, Below;
      var r, d := Resolve(dos);
      if r.Err? { return r.error; }
      var path := r.value;
      if !isDirectory { return NOT_FOUND; }
      var start := |root|;
      if start < |path| && path[start] == '\\' { start := start + 1; }
      var rest := path[start..];
      PastTheRoot(root, d);
      cwd, at := Cut(rest, CWD_MAX), d;
      ChangeIsFaithfulIff(d);
      error := 0;
    }
  }

  // ---------- the loops ----------

  /** One component. */
  method EnterToken(dirs: Comps, token: string) returns (r: Result<Comps, int>)
    requires Proper(dirs)
    ensures r == Enter(dirs, token)
    ensures r.Ok? ==> Proper(r.value)
  {
    hide Canon, Canonical;
    if token == "." { return Ok(dirs); }
    if token == ".." {
      return Ok(if dirs != [] then dirs[..|dirs| - 1] else []);
    }
    if |dirs| >= MAX_DEPTH { return Err(NOT_FOUND); }
    var name := Canon(token);
    if name.None? { return Err(NOT_FOUND); }
    CanonIsIdempotent(token);
    r := Ok(dirs + [name.value]);
  }

  /** All components of a path, from the root. */
  method WalkAll(buf: string) returns (r: Result<Comps, int>)
    ensures r == Walk([], Tokens(buf))
    ensures r.Ok? ==> Proper(r.value)
  {
    hide Walk, Tokens, Enter, TokenLen, Canonical;
    var dirs: Comps := [];
    var i: nat := 0;
    assert buf[0..] == buf;
    while i < |buf|
      invariant i <= |buf| && Proper(dirs)
      invariant Walk([], Tokens(buf)) == Walk(dirs, Tokens(buf[i..]))
      decreases |buf| - i
    {
      DropOfDrop(buf, i, 1);
      if IsSeparator(buf[i]) {
        SkipSeparator(buf[i..]);
        i := i + 1;
        continue;
      }
      var end := TokenEnd(buf, i);
      SliceOfDrop(buf, i, 0, end - i);
      DropOfDrop(buf, i, end - i);
      WalkFirst(dirs, buf[i..]);
      var entered := EnterToken(dirs, buf[i..end]);
      if entered.Err? { return entered; }
      dirs := entered.value;
      i := end;
    }
    WalkNothing(dirs);
    assert buf[i..] == "";
    r := Ok(dirs);
  }

  /** A separator and a name, in upper case, after a host path. */
  method AppendName(out: string, name: string) returns (longer: string)
    requires Canonical(name)
    ensures longer == out + "\\" + name
  {
    CanonicalShape(name);
    longer := out + "\\";
    for k := 0 to |name|
      invariant longer == out + "\\" + name[..k]
    {
      longer := longer + [Upper(name[k])];
      Assoc(out + "\\", name[..k], [name[k]]);
      PrefixSnoc(name, k);
    }
    assert name[..|name|] == name;
  }

  /** The host path of a directory list. */
  method HostPathOf(root: string, dirs: Comps) returns (r: Result<string, int>)
    requires |root| < MAX_PATH && Proper(dirs)
    ensures r == HostPath(root, dirs)
    ensures r.Ok? ==> r.value == root + Below(dirs) && |r.value| < MAX_PATH
  {
    hide HostPath, Below, Canonical;
    var out := root;
    assert dirs[0..] == dirs;
    for k := 0 to |dirs|
      invariant |out| < MAX_PATH
      invariant HostPath(out, dirs[k..]) == HostPath(root, dirs)
      invariant out + Below(dirs[k..]) == root + Below(dirs)
    {
      PathStep(out, dirs, k);
      if |out| + 14 >= MAX_PATH { return Err(NOT_FOUND); }
      CanonicalShape(dirs[k]);
      Assoc(out, "\\" + dirs[k], Below(dirs[k + 1..]));
      Assoc(out, "\\", dirs[k]);
      out := AppendName(out, dirs[k]);
    }
    assert dirs[|dirs|..] == [] && out + "" == out;
    PathEnd(out);
    r := Ok(out);
  }

  lemma PathStep(out: string, dirs: Comps, k: nat)
    requires k < |dirs|
    ensures Below(dirs[k..]) == "\\" + dirs[k] + Below(dirs[k + 1..])
    ensures HostPath(out, dirs[k..]) ==
      if |out| + 14 >= MAX_PATH then Err(NOT_FOUND) else HostPath(out + "\\" + dirs[k], dirs[k + 1..])
  {
    DropOfDrop(dirs, k, 1);
  }

  lemma PathEnd(out: string)
    ensures HostPath(out, []) == Ok(out) && Below([]) == ""
  {
  }

  lemma SkipSeparator(s: string)
    requires s != "" && IsSeparator(s[0])
    ensures Tokens(s) == Tokens(s[1..])
  {
  }

  lemma WalkNothing(dirs: Comps)
    ensures Walk(dirs, Tokens("")) == Ok(dirs)
  {
  }

  /** Every failure is "path not found". */
  lemma {:induction false} WalkError(dirs: Comps, tokens: seq<string>)
    ensures Walk(dirs, tokens).Err? ==> Walk(dirs, tokens).error == 3
    decreases |tokens|
  {
    if tokens != [] && Enter(dirs, tokens[0]).Ok? {
      WalkError(Enter(dirs, tokens[0]).value, tokens[1..]);
    }
  }

  lemma {:induction false} HostPathError(out: string, dirs: Comps)
    ensures HostPath(out, dirs).Err? ==> HostPath(out, dirs).error == NOT_FOUND
    decreases |dirs|
  {
    if dirs != [] && |out| + 14 < MAX_PATH {
      HostPathError(out + "\\" + dirs[0], dirs[1..]);
    }
  }

  /** The components with a backslash between them. */
  function Text(dirs: Comps): string {
    if dirs == [] then "" else if |dirs| == 1 then dirs[0] else dirs[0] + "\\" + Text(dirs[1..])
  }

  lemma {:induction false} BelowIsText(dirs: Comps)
    ensures Below(dirs) == if dirs == [] then "" else "\\" + Text(dirs)
    decreases |dirs|
  {
    if |dirs| > 1 {
      var rest := dirs[1..];
      BelowIsText(rest);
      hide Below, Text;
      Assoc("\\", dirs[0], "\\" + Text(rest));
      Assoc(dirs[0], "\\", Text(rest));
    }
  }

  /** What follows the root and a separator in a host path. */
  lemma PastTheRoot(root: string, dirs: Comps)
    ensures var path := root + Below(dirs);
      path[if |root| < |path| && path[|root|] == '\\' then |root| + 1 else |root|..] == Text(dirs)
  {
    BelowIsText(dirs);
    var path := root + Below(dirs);
    if dirs != [] { assert path == root + "\\" + Text(dirs); }
  }

  method TokenEnd(s: string, i: nat) returns (end: nat)
    requires i < |s| && !IsSeparator(s[i])
    ensures i < end <= |s| && end == i + TokenLen(s[i..])
  {
    end := i;
    while end < |s| && !IsSeparator(s[end])
      invariant i <= end <= |s|
      invariant end + TokenLen(s[end..]) == i + TokenLen(s[i..])
    {
      DropOfDrop(s, end, 1);
      end := end + 1;
    }
  }

  lemma WalkFirst(dirs: Comps, s: string)
    requires s != "" && !IsSeparator(s[0])
    ensures Walk(dirs, Tokens(s)) ==
      match Enter(dirs, s[..TokenLen(s)]) case Err(e) => Err(e) case Ok(d) => Walk(d, Tokens(s[TokenLen(s)..]))
  {
    hide TokenLen, Enter;
    var tail := Tokens(s[TokenLen(s)..]);
    assert Tokens(s)[1..] == tail;
  }

  // ---------- what resolution means ----------

  lemma {:induction false} WalkAppend(dirs: Comps, a: seq<string>, b: seq<string>)
    ensures Walk(dirs, a + b) == match Walk(dirs, a) case Err(e) => Err(e) case Ok(d) => Walk(d, b)
    decreases |a|
  {
    hide Enter;
    if a == [] {
      assert a + b == b;
    } else {
      assert (a + b)[0] == a[0] && (a + b)[1..] == a[1..] + b;
      if Enter(dirs, a[0]).Ok? {
        WalkAppend(Enter(dirs, a[0]).value, a[1..], b);
      }
    }
  }

  /** The components of a path that survive, read from the right: ".." cancels the
      nearest name to its left that is not already cancelled. `up` counts the ".."
      still looking for a name. */
  function Surviving(tokens: seq<string>): (r: (seq<string>, nat))
    decreases |tokens|
  {
    if tokens == [] then ([], 0)
    else
      var (names, up) := Surviving(tokens[1..]);
      if tokens[0] == "." then (names, up)
      else if tokens[0] == ".." then (names, up + 1)
      else if up > 0 then (names, up - 1)
      else ([tokens[0]] + names, 0)
  }

  function CanonAll(names: seq<string>): Comps {
    if names == [] then []
    else (match Canon(names[0]) case Some(n) => [n] case None => []) + CanonAll(names[1..])
  }

  /** Directories with the last `up` of them left, as far as there are any. */
  function Up(dirs: Comps, up: nat): Comps {
    if up <= |dirs| then dirs[..|dirs| - up] else []
  }

  /** A successful walk keeps the start, less the ".." that reach it, and adds the
      canonical forms of the components that survive; at the root ".." does nothing. */
  lemma {:induction false} WalkKeepsSurvivors(dirs: Comps, tokens: seq<string>)
    requires Walk(dirs, tokens).Ok?
    ensures Walk(dirs, tokens).value == Up(dirs, Surviving(tokens).1) + CanonAll(Surviving(tokens).0)
    decreases |tokens|
  {
    hide Canon, Up, CanonAll;
    if tokens == [] {
      UpAndNames(dirs, "", 0);
    } else {
      var t, rest := tokens[0], tokens[1..];
      var (names, up) := Surviving(rest);
      WalkKeepsSurvivors(Enter(dirs, t).value, rest);
      if t == ".." {
        UpOfPop(dirs, up);
      } else if t != "." {
        UpAndNames(dirs, Canon(t).value, up);
        FirstName(t, names);
        Assoc(dirs, [Canon(t).value], CanonAll(names));
      }
    }
  }

  lemma UpOfPop(dirs: Comps, up: nat)
    ensures dirs == [] ==> Up([], up) == Up(dirs, up + 1)
    ensures dirs != [] ==> Up(dirs[..|dirs| - 1], up) == Up(dirs, up + 1)
  {
  }

  lemma UpAndNames(dirs: Comps, name: string, up: nat)
    ensures up > 0 ==> Up(dirs + [name], up) == Up(dirs, up - 1)
    ensures Up(dirs + [name], 0) == dirs + [name] && Up(dirs, 0) == dirs
    ensures CanonAll([]) == [] && dirs + [] == dirs
  {
  }

  lemma FirstName(token: string, names: seq<string>)
    requires Canon(token).Some?
    ensures CanonAll([token] + names) == [Canon(token).value] + CanonAll(names)
  {
    hide Canon;
    assert ([token] + names)[1..] == names;
  }

  // ---------- relative paths ----------

  lemma {:induction false} TokenLenOfAppend(s: string, more: string)
    requires more == "" || IsSeparator(more[0])
    ensures TokenLen(s + more) == TokenLen(s)
    decreases |s|
  {
    if s == "" {
      assert s + more == more;
    } else {
      assert (s + more)[1..] == s[1..] + more;
      if !IsSeparator(s[0]) { TokenLenOfAppend(s[1..], more); }
    }
  }

  /** A path cut at a separator. */
  lemma {:induction false} TokensOfAppend(s: string, more: string)
    requires more == "" || IsSeparator(more[0])
    ensures Tokens(s + more) == Tokens(s) + Tokens(more)
    decreases |s|
  {
    hide TokenLen;
    if s == "" {
      assert s + more == more;
    } else {
      if IsSeparator(s[0]) {
        assert (s + more)[1..] == s[1..] + more;
        TokensOfAppend(s[1..], more);
      } else {
        var n := TokenLen(s);
        TokenLenOfAppend(s, more);
        assert (s + more)[..n] == s[..n] && (s + more)[n..] == s[n..] + more;
        TokensOfAppend(s[n..], more);
        Assoc([s[..n]], Tokens(s[n..]), Tokens(more));
      }
    }
  }

  lemma TokensOfName(name: string)
    requires Canonical(name)
    ensures Tokens(name) == [name]
  {
    CanonicalShape(name);
    hide Canonical;
    WholeToken(name);
    assert name[..|name|] == name && name[|name|..] == "";
  }

  lemma {:induction false} WholeToken(s: string)
    requires forall i :: 0 <= i < |s| ==> !IsSeparator(s[i])
    ensures TokenLen(s) == |s|
    decreases |s|
  {
    if s != "" { WholeToken(s[1..]); }
  }

  /** A directory list written out and split again. */
  lemma {:induction false} TokensOfText(dirs: Comps)
    requires Proper(dirs)
    ensures Tokens(Text(dirs)) == dirs
    decreases |dirs|
  {
    hide Canonical, Tokens;
    if dirs == [] {
      NoTokens();
    } else if |dirs| == 1 {
      TokensOfName(dirs[0]);
    } else {
      TokensOfText(dirs[1..]);
      TokensOfName(dirs[0]);
      var more := "\\" + Text(dirs[1..]);
      assert Text(dirs) == dirs[0] + more;
      TokensOfAppend(dirs[0], more);
      SkipSeparator(more);
      assert more[1..] == Text(dirs[1..]);
    }
  }

  lemma NoTokens()
    ensures Tokens("") == []
  {
  }

  /** Walking proper directories from the root ends in them. */
  lemma {:induction false} WalkProper(start: Comps, dirs: Comps)
    requires Proper(start + dirs)
    ensures Walk(start, dirs) == Ok(start + dirs)
    decreases |dirs|
  {
    hide Canon;
    if dirs == [] {
      assert start + dirs == start;
    } else {
      assert (start + dirs)[|start|] == dirs[0];
      CanonicalShape(dirs[0]);
      assert start + dirs == (start + [dirs[0]]) + dirs[1..];
      WalkProper(start + [dirs[0]], dirs[1..]);
    }
  }

  /** Within the buffer, a relative path, with or without a drive letter, names what the
      current directory and it, joined to an absolute path, name. */
  lemma RelativeIsJoined(drive: Drive, dos: string)
    requires drive.Valid() && drive.cwd != ""
    requires var rel := WithoutDrive(dos); rel == "" || !IsSeparator(rel[0])
    requires |drive.cwd| + |WithoutDrive(dos)| + 2 <= 127
    ensures drive.Resolved(dos) == drive.Resolved("\\" + drive.cwd + "\\" + WithoutDrive(dos))
  {
    hide Walk, HostPath, Tokens, Proper, Text, TokenLen;
    TextStart(drive.at);
    var rel := WithoutDrive(dos);
    var joined := drive.cwd + "\\" + rel;
    var path := "\\" + drive.cwd + "\\" + rel;
    assert path == "\\" + joined && path[1..] == joined && path[1] == drive.cwd[0];
    SkipSeparator(path);
    assert drive.Wanted(dos) == joined && drive.Wanted(path) == path;
  }

  /** What is beyond the buffer is not looked at. */
  lemma LongPathIsCut(drive: Drive, path: string, more: string)
    requires |path| == 127 && IsSeparator(path[0]) && path[1] != ':'
    ensures drive.Resolved(path + more) == drive.Resolved(path)
  {
    hide Walk, HostPath, Tokens;
    assert (path + more)[..127] == path;
    assert drive.Wanted(path) == path && drive.Wanted(path + more) == path;
  }

  /** A relative path continues from the directories the current directory stands for. */
  lemma RelativeContinues(drive: Drive, dos: string)
    requires drive.Valid() && drive.at != [] && |Text(drive.at)| <= 79
    requires var rel := WithoutDrive(dos); rel == "" || !IsSeparator(rel[0])
    requires |drive.cwd| + |WithoutDrive(dos)| + 1 <= 127
    ensures Walk([], Tokens(drive.Wanted(dos))) == Walk(drive.at, Tokens(WithoutDrive(dos)))
  {
    hide Walk, Tokens, Proper, Text, TokenLen;
    var dirs, rel := drive.at, WithoutDrive(dos);
    TextIsNotEmpty(dirs);
    assert drive.Wanted(dos) == drive.cwd + "\\" + rel;
    hide WithoutDrive;
    JoinedTokens(dirs, rel);
    WalkAppend([], dirs, Tokens(rel));
    assert [] + dirs == dirs;
    WalkProper([], dirs);
  }

  lemma JoinedTokens(dirs: Comps, rel: string)
    requires Proper(dirs)
    ensures Tokens(Text(dirs) + "\\" + rel) == dirs + Tokens(rel)
  {
    hide Tokens, Text, TokenLen, Proper;
    TokensOfText(dirs);
    TokensOfAppend(Text(dirs), "\\" + rel);
    Assoc(Text(dirs), "\\", rel);
    SkipSeparator("\\" + rel);
    assert ("\\" + rel)[1..] == rel;
  }

  lemma TextStart(dirs: Comps)
    requires Proper(dirs)
    ensures Text(dirs) != "" ==> Text(dirs)[0] != ':'
  {
    if dirs != [] { CanonicalShape(dirs[0]); }
    hide Canonical;
  }

  lemma TextIsNotEmpty(dirs: Comps)
    requires Proper(dirs) && dirs != []
    ensures Text(dirs) != ""
  {
    CanonicalShape(dirs[0]);
  }

  /** A path cannot name directories whose text is longer than itself. */
  lemma {:induction false} TokensFit(s: string)
    ensures Length(Tokens(s)) <= |s|
    decreases |s|
  {
    hide TokenLen;
    if s == "" {
    } else if IsSeparator(s[0]) {
      TokensFit(s[1..]);
    } else {
      var n := TokenLen(s);
      var rest := s[n..];
      TokensFit(rest);
      if rest != "" {
        TokensFit(rest[1..]);
        assert Tokens(rest) == Tokens(rest[1..]);
      }
      assert Tokens(s)[1..] == Tokens(rest);
    }
  }

  /** The length of the components with one separator between each two. */
  function Length(tokens: seq<string>): nat {
    if tokens == [] then 0 else if |tokens| == 1 then |tokens[0]| else |tokens[0]| + 1 + Length(tokens[1..])
  }

  lemma {:induction false} TextLength(dirs: Comps)
    ensures |Text(dirs)| == Length(dirs)
    decreases |dirs|
  {
    if |dirs| > 1 { TextLength(dirs[1..]); }
  }

  lemma {:induction false} LengthOfPush(dirs: Comps, name: string)
    ensures Length(dirs + [name]) == if dirs == [] then |name| else Length(dirs) + 1 + |name|
    decreases |dirs|
  {
    if dirs != [] {
      assert (dirs + [name])[1..] == dirs[1..] + [name];
      LengthOfPush(dirs[1..], name);
    }
  }

  lemma {:induction false} WalkIsNoLonger(dirs: Comps, tokens: seq<string>)
    requires Walk(dirs, tokens).Ok?
    ensures var r := Walk(dirs, tokens).value;
      if dirs == [] then Length(r) <= Length(tokens)
      else if tokens == [] then Length(r) <= Length(dirs)
      else Length(r) <= Length(dirs) + 1 + Length(tokens)
    decreases |tokens|
  {
    hide Canon;
    if tokens != [] {
      var d := Enter(dirs, tokens[0]).value;
      WalkIsNoLonger(d, tokens[1..]);
      EnterIsNoLonger(dirs, tokens[0]);
    }
  }

  lemma EnterIsNoLonger(dirs: Comps, token: string)
    requires Enter(dirs, token).Ok?
    ensures var d := Enter(dirs, token).value;
      Length(d) <= if dirs == [] then |token| else Length(dirs) + 1 + |token|
    ensures dirs == [] && (token == "." || token == "..") ==> Enter(dirs, token).value == []
  {
    hide Canon;
    if token == ".." && dirs != [] {
      var init := dirs[..|dirs| - 1];
      assert init + [dirs[|dirs| - 1]] == dirs;
      LengthOfPush(init, dirs[|dirs| - 1]);
    } else if token != "." && token != ".." {
      CanonIsNoLonger(token);
      LengthOfPush(dirs, Canon(token).value);
    }
  }

  /** Changing to a directory is faithful exactly when its path below the root fits in
      79 characters: otherwise the kept part names another directory, or none. */
  lemma ChangeIsFaithfulIff(dirs: Comps)
    requires Proper(dirs)
    ensures Walk([], Tokens(Cut(Text(dirs), 79))) == Ok(dirs) <==> |Text(dirs)| <= 79
  {
    hide Walk, Tokens, Text, Length, Proper;
    var kept := Cut(Text(dirs), CWD_MAX);
    if |Text(dirs)| <= CWD_MAX {
      TokensOfText(dirs);
      assert [] + dirs == dirs;
      WalkProper([], dirs);
    } else if Walk([], Tokens(kept)) == Ok(dirs) {
      TokensFit(kept);
      WalkIsNoLonger([], Tokens(kept));
      TextLength(dirs);
      assert false;
    }
  }

  // ---------- when a path resolves ----------

  /** How deep a component leads: "." stays, ".." goes up if it can. */
  function NextDepth(depth: nat, token: string): nat {
    if token == "." then depth
    else if token == ".." then if depth > 0 then depth - 1 else 0
    else depth + 1
  }

  function Depth(start: nat, tokens: seq<string>): nat {
    if tokens == [] then start else NextDepth(Depth(start, tokens[..|tokens| - 1]), tokens[|tokens| - 1])
  }

  /** Whether a component can be entered at a depth. */
  ghost predicate Enters(token: string, depth: nat) {
    token == "." || token == ".." || (Canon(token).Some? && depth < 16)
  }

  ghost predicate AllEnter(start: nat, tokens: seq<string>) {
    forall i :: 0 <= i < |tokens| ==> Enters(tokens[i], Depth(start, tokens[..i]))
  }

  lemma AllEnterSnoc(start: nat, tokens: seq<string>)
    requires tokens != []
    ensures var front := tokens[..|tokens| - 1];
      AllEnter(start, tokens) <==> AllEnter(start, front) && Enters(tokens[|tokens| - 1], Depth(start, front))
  {
    hide Enters, Depth;
    var front := tokens[..|tokens| - 1];
    assert forall i :: 0 <= i < |front| ==> front[..i] == tokens[..i] && front[i] == tokens[i];
    if AllEnter(start, front) && Enters(tokens[|tokens| - 1], Depth(start, front)) {
      forall i | 0 <= i < |tokens| ensures Enters(tokens[i], Depth(start, tokens[..i])) {
        if i < |front| { assert Enters(front[i], Depth(start, front[..i])); }
      }
    }
    if AllEnter(start, tokens) {
      assert Enters(tokens[|front|], Depth(start, tokens[..|front|]));
      forall i | 0 <= i < |front| ensures Enters(front[i], Depth(start, front[..i])) {
        assert Enters(tokens[i], Depth(start, tokens[..i]));
      }
    }
  }

  /** A walk succeeds exactly if each component is ".", "..", or a DOS name met at fewer
      than 16 directories; it then ends as deep as they lead. */
  lemma {:induction false} WalkSucceedsIff(dirs: Comps, tokens: seq<string>)
    ensures Walk(dirs, tokens).Ok? <==> AllEnter(|dirs|, tokens)
    ensures Walk(dirs, tokens).Ok? ==> |Walk(dirs, tokens).value| == Depth(|dirs|, tokens)
    decreases |tokens|
  {
    if tokens != [] {
      hide AllEnter, Walk, Enters, Enter, NextDepth;
      var front, last := tokens[..|tokens| - 1], tokens[|tokens| - 1];
      WalkSucceedsIff(dirs, front);
      AllEnterSnoc(|dirs|, tokens);
      assert tokens == front + [last];
      WalkSnoc(dirs, front, last);
      var depth := Depth(|dirs|, front);
      assert Depth(|dirs|, tokens) == NextDepth(depth, last);
      hide Depth;
      if Walk(dirs, front).Ok? { EnterSucceedsIff(Walk(dirs, front).value, last); }
    }
  }

  lemma WalkSnoc(dirs: Comps, front: seq<string>, last: string)
    ensures Walk(dirs, front + [last]) == if Walk(dirs, front).Ok? then Enter(Walk(dirs, front).value, last) else Walk(dirs, front)
  {
    hide Walk, Enter;
    WalkAppend(dirs, front, [last]);
    if Walk(dirs, front).Ok? { WalkOne(Walk(dirs, front).value, last); }
  }

  lemma EnterSucceedsIff(dirs: Comps, token: string)
    ensures Enter(dirs, token).Ok? <==> Enters(token, |dirs|)
    ensures Enter(dirs, token).Ok? ==> |Enter(dirs, token).value| == NextDepth(|dirs|, token)
  {
    hide Canon;
  }

  lemma WalkOne(dirs: Comps, token: string)
    ensures Walk(dirs, [token]) == Enter(dirs, token)
  {
    hide Canon;
    assert [token][1..] == [];
  }

  /** A host path fits exactly if there is room for a longest name where each one starts. */
  lemma {:induction false} HostPathFitsIff(out: string, dirs: Comps)
    ensures HostPath(out, dirs).Ok? <==> dirs == [] || |out| + |Below(dirs[..|dirs| - 1])| + 14 < 260
    decreases |dirs|
  {
    if |dirs| > 1 {
      var next, rest := out + "\\" + dirs[0], dirs[1..];
      HostPathFitsIff(next, rest);
      var front := dirs[..|dirs| - 1];
      assert front[0] == dirs[0] && front[1..] == rest[..|rest| - 1];
      assert |Below(front)| == 1 + |dirs[0]| + |Below(rest[..|rest| - 1])|;
    }
  }

  /** When a guest path resolves: its components can all be entered, and the host path
      has room. */
  lemma ResolvesIff(drive: Drive, dos: string)
    ensures var tokens := Tokens(drive.Wanted(dos));
      drive.Resolved(dos).Ok? <==>
        AllEnter(0, tokens) &&
        var dirs := Walk([], tokens);
        dirs.Ok? && (dirs.value == [] || |drive.root| + |Below(dirs.value[..|dirs.value| - 1])| + 14 < 260)
  {
    hide Walk, Tokens, HostPath, AllEnter, Below;
    var tokens := Tokens(drive.Wanted(dos));
    WalkSucceedsIff([], tokens);
    if Walk([], tokens).Ok? { HostPathFitsIff(drive.root, Walk([], tokens).value); }
  }

  /** Going up: ".." in a directory names the one above it, and in the root the root. */
  lemma UpResolves(drive: Drive)
    requires drive.Valid() && |Text(drive.at)| <= 79
    ensures Walk([], Tokens(drive.Wanted(".."))) == Ok(if drive.at == [] then [] else drive.at[..|drive.at| - 1])
  {
    hide Walk, Proper, Text;
    assert Tokens("..") == [".."] by { WholeToken(".."); assert ".."[..2] == ".." && ".."[2..] == ""; NoTokens(); }
    hide Tokens;
    if drive.at == [] {
      NoText();
      assert drive.Wanted("..") == "..";
      WalkOne([], "..");
    } else {
      RelativeContinues(drive, "..");
      WalkOne(drive.at, "..");
    }
  }

  lemma NoText()
    ensures Text([]) == ""
  {
  }

  // ---------- separators and drive letters ----------

  /** Both slashes separate, and separators may be repeated or stand at the ends. */
  lemma SeparatorsAreAlike(a: string, b: string, separator: char)
    requires separator == '\\' || separator == '/'
    ensures Tokens(a + ([separator] + b)) == Tokens(a) + Tokens(b)
  {
    hide TokenLen, Tokens;
    TokensOfAppend(a, [separator] + b);
    SkipSeparator([separator] + b);
    assert ([separator] + b)[1..] == b;
  }

  /** A drive letter means nothing: there is one drive. */
  lemma DriveLetterIsIgnored(drive: Drive, letter: char, path: string)
    requires |path| < 2 || path[1] != ':'
    ensures drive.Resolved([letter] + (":" + path)) == drive.Resolved(path)
  {
    hide Walk, Tokens, HostPath;
    assert ([letter] + (":" + path))[2..] == path;
  }

  // ---------- a directory that is not kept ----------

  lemma {:induction false} HostPathFits(out: string, dirs: Comps)
    requires Proper(dirs) && |out| + 13 * |dirs| + 1 < MAX_PATH
    ensures HostPath(out, dirs).Ok?
    decreases |dirs|
  {
    hide Canonical;
    if dirs != [] {
      CanonicalShape(dirs[0]);
      HostPathFits(out + "\\" + dirs[0], dirs[1..]);
    }
  }

  /** Every directory whose text fits the buffer can be named, under a root that leaves
      room for it. */
  lemma NamedByItsText(drive: Drive, dirs: Comps)
    requires drive.Valid() && Proper(dirs) && |Text(dirs)| < 127 && |drive.root| + 13 * |dirs| + 1 < 260
    ensures drive.Resolved("\\" + Text(dirs)).Ok?
    ensures Walk([], Tokens(drive.Wanted("\\" + Text(dirs)))) == Ok(dirs)
  {
    hide Walk, Tokens, Proper, Text, HostPath, TokenLen;
    var path := "\\" + Text(dirs);
    TextStart(dirs);
    assert path[1..] == Text(dirs);
    assert drive.Wanted(path) == path;
    SkipSeparator(path);
    TokensOfText(dirs);
    assert [] + dirs == dirs;
    WalkProper([], dirs);
    HostPathFits(drive.root, dirs);
  }

  const NAME := "AAAAAAAA"

  function Nested(n: nat): Comps
    ensures |Nested(n)| == n
  {
    if n == 0 then [] else [NAME] + Nested(n - 1)
  }

  lemma {:induction false} NestedIsProper(n: nat)
    ensures forall i :: 0 <= i < n ==> Nested(n)[i] == NAME
    ensures n > 0 ==> |Text(Nested(n))| == 9 * n - 1
  {
    hide Canonical;
    if n > 1 { assert Nested(n)[1..] == Nested(n - 1); }
    if n > 0 { NestedIsProper(n - 1); }
  }

  /** Ten nested directories named AAAAAAAA, 89 characters below the root: the path of 90
      characters resolves, and the text kept of it does not name them. */
  lemma LongDirectoryIsNotKept(drive: Drive)
    requires drive.Valid() && |drive.root| <= 100
    ensures var ten, path := Nested(10), "\\" + Text(Nested(10));
      && |path| == 90
      && drive.Resolved(path).Ok? && Walk([], Tokens(drive.Wanted(path))) == Ok(ten)
      && Walk([], Tokens(Cut(Text(ten), 79))) != Ok(ten)
  {
    hide Walk, Tokens, Text, HostPath, TokenLen, Nested, Canonical;
    NestedIsProper(10);
    NameIsCanonical();
    NamedByItsText(drive, Nested(10));
    ChangeIsFaithfulIff(Nested(10));
  }

  lemma NameIsCanonical()
    ensures Canonical(NAME)
  {
    hide Canonical;
    PlainNameIsCanonical(NAME);
  }
}
