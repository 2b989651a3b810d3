/** Taking one IRC line apart: tags, prefix, command and the rest. */
module IrcMessages {
  import opened Common

  const TAGS_MAX: nat := 16383
  const PREFIX_MAX: nat := 255
  const FIELD_MAX: nat := 63

  // ---------- spaces ----------

  function SkipSpaces(s: string): (t: string)
    ensures |t| <= |s| && (t == [] || t[0] != ' ')
  {
    if s != [] && s[0] == ' ' then SkipSpaces(s[1..]) else s
  }

  method AfterSpaces(s: string) returns (t: string)
    ensures t == SkipSpaces(s)
  {
    t := s;
    while |t| > 0 && t[0] == ' '
      invariant SkipSpaces(t) == SkipSpaces(s)
      decreases |t|
    {
      t := t[1..];
    }
  }

  // ---------- message tags ----------

  /** The value of a tag in "k1=v1;k2=v2;k3"; empty if the tag is absent or bare. */
  function TagValue(blob: string, key: string): string
    decreases |blob|
  {
    if blob == [] then []
    else
      var n := IndexOf(blob, ';');
      var segment := blob[..n];
      var eq := IndexOf(segment, '=');
      if eq < n && segment[..eq] == key then segment[eq + 1..]
      else if eq == n && segment == key then []
      else if n == |blob| then []
      else TagValue(blob[n + 1..], key)
  }

  method GetTag(blob: string, key: string, room: nat) returns (value: string)
    ensures value == Cut(TagValue(blob, key), room)
  {
    var p := blob;
    while |p| > 0
      invariant TagValue(p, key) == TagValue(blob, key)
      decreases |p|
    {
      var n := IndexOf(p, ';');
      var segment := p[..n];
      var eq := IndexOf(segment, '=');
      if eq < n {
        if segment[..eq] == key { return Cut(segment[eq + 1..], room); }
      } else if segment == key {
        return [];
      }
      if n == |p| { return []; }
      p := p[n + 1..];
    }
    value := [];
  }

  datatype Tag = Tag(key: string, value: string)
  {
    ghost predicate Valid() {
      ';' !in key && '=' !in key && ';' !in value
    }
  }

  /** Tags as a server writes them. */
  function PrintTags(tags: seq<Tag>): string {
    if tags == [] then []
    else
      var segment := tags[0].key + "=" + tags[0].value;
      if |tags| == 1 then segment else segment + ";" + PrintTags(tags[1..])
  }

  /** The value of the first tag with a key, if there is one. */
  function Lookup(tags: seq<Tag>, key: string): string {
    if tags == [] then [] else if tags[0].key == key then tags[0].value else Lookup(tags[1..], key)
  }

  lemma IndexOfAt(s: string, ch: char, i: nat)
    requires i <= |s| && ch !in s[..i] && (i < |s| ==> s[i] == ch)
    ensures IndexOf(s, ch) == i
  {
  }

  lemma SegmentParts(tag: Tag)
    requires tag.Valid()
    ensures var s := tag.key + "=" + tag.value;
      && ';' !in s
      && IndexOf(s, '=') == |tag.key| < |s|
      && s[..|tag.key|] == tag.key && s[|tag.key| + 1..] == tag.value
  {
    var s := tag.key + "=" + tag.value;
    assert s[..|tag.key|] == tag.key;
    IndexOfAt(s, '=', |tag.key|);
  }

  /** Every tag of a printed list is found again, the first of each key. */
  lemma {:induction false} TagsRoundTrip(tags: seq<Tag>, key: string)
    requires forall i :: 0 <= i < |tags| ==> tags[i].Valid()
    ensures TagValue(PrintTags(tags), key) == Lookup(tags, key)
    decreases |tags|
  {
    hide IndexOf;
    if tags != [] {
      var segment, blob := tags[0].key + "=" + tags[0].value, PrintTags(tags);
      SegmentParts(tags[0]);
      assert blob[..|segment|] == segment;
      IndexOfAt(blob, ';', |segment|);
      if |tags| > 1 {
        assert blob[|segment| + 1..] == PrintTags(tags[1..]);
        TagsRoundTrip(tags[1..], key);
      }
    }
  }

  // ---------- one line ----------

  datatype Message = Message(nick: string, msgid: string, time: string, command: string, rest: string)

  /** A tag block of a line: the tags and what follows; none if nothing does. */
  function TagPart(line: string): Option<(string, string)> {
    if line == [] || line[0] != '@' then Some(([], line))
    else
      var s := line[1..];
      var sp := IndexOf(s, ' ');
      if sp == |s| then None else Some((Cut(s[..sp], TAGS_MAX), SkipSpaces(s[sp..])))
  }

  function NickOf(prefix: string): string {
    var p := Cut(prefix, PREFIX_MAX);
    var bang, at := IndexOf(p, '!'), IndexOf(p, '@');
    Cut(p[..if bang < at then bang else at], FIELD_MAX)
  }

  /** The nick of a prefix and what follows; none if nothing does. */
  function PrefixPart(line: string): Option<(string, string)> {
    if line == [] || line[0] != ':' then Some(([], line))
    else
      var s := line[1..];
      var sp := IndexOf(s, ' ');
      if sp == |s| then None else Some((NickOf(s[..sp]), SkipSpaces(s[sp..])))
  }

  /** The parts of a line, unless it is tags or a prefix with no command. */
  function Parse(line: string): Option<Message> {
    var tags := TagPart(line);
    if tags.None? then None
    else
      var prefix := PrefixPart(tags.value.1);
      if prefix.None? then None
      else
        var p := prefix.value.1;
        var sp := IndexOf(p, ' ');
        Some(Message(prefix.value.0,
                     Cut(TagValue(tags.value.0, "msgid"), FIELD_MAX), Cut(TagValue(tags.value.0, "time"), FIELD_MAX),
                     p[..sp], if sp < |p| then SkipSpaces(p[sp + 1..]) else []))
  }

  method ParseLine(line: string) returns (m: Option<Message>)
    ensures m == Parse(line)
  {
    hide TagValue, IndexOf, SkipSpaces, NickOf, Cut;
    var p := line;
    var tags, nick := "", "";
    if |p| > 0 && p[0] == '@' {
      p := p[1..];
      var sp := IndexOf(p, ' ');
      if sp == |p| { return None; }
      tags := Cut(p[..sp], TAGS_MAX);
      p := AfterSpaces(p[sp..]);
    }
    var time := GetTag(tags, "time", FIELD_MAX);
    var msgid := GetTag(tags, "msgid", FIELD_MAX);
    if |p| > 0 && p[0] == ':' {
      p := p[1..];
      var sp := IndexOf(p, ' ');
      if sp == |p| { return None; }
      nick := NickOf(p[..sp]);
      p := AfterSpaces(p[sp..]);
    }
    var sp := IndexOf(p, ' ');
    var rest := "";
    if sp < |p| { rest := AfterSpaces(p[sp + 1..]); }
    m := Some(Message(nick, msgid, time, p[..sp], rest));
  }

  /** A line as a server writes it. */
  function PrintLine(prefix: string, command: string, rest: string): string {
    ":" + prefix + " " + command + " " + rest
  }

  lemma SpaceThen(s: string, t: string)
    requires ' ' !in s && t != [] && t[0] != ' '
    ensures var u := s + " " + t; IndexOf(u, ' ') == |s| && u[..|s|] == s && u[|s| + 1..] == t && SkipSpaces(u[|s|..]) == t
  {
    var u := s + " " + t;
    assert u[..|s|] == s;
    IndexOfAt(u, ' ', |s|);
    assert u[|s| + 1..] == t && u[|s|..][1..] == t;
  }

  lemma PrefixedStart(prefix: string, tail: string)
    requires ' ' !in prefix && tail != [] && tail[0] != ' '
    ensures PrefixPart(":" + prefix + " " + tail) == Some((NickOf(prefix), tail))
  {
    hide IndexOf, SkipSpaces, NickOf;
    var line := ":" + prefix + " " + tail;
    assert line[1..] == prefix + " " + tail;
    SpaceThen(prefix, tail);
  }

  /** What is left of a line once its tags are taken. */
  lemma ParsedAfterTags(line: string, tags: string, prefix: string, command: string, rest: string)
    requires TagPart(line) == Some((tags, PrintLine(prefix, command, rest)))
    requires ' ' !in prefix && ' ' !in command && command != []
    requires rest != [] && rest[0] != ' '
    ensures Parse(line) ==
      Some(Message(NickOf(prefix), Cut(TagValue(tags, "msgid"), FIELD_MAX), Cut(TagValue(tags, "time"), FIELD_MAX), command, rest))
  {
    hide IndexOf, SkipSpaces, NickOf, TagPart, TagValue, Cut, PrefixPart;
    var tail := command + " " + rest;
    assert PrintLine(prefix, command, rest) == ":" + prefix + " " + tail;
    PrefixedStart(prefix, tail);
    SpaceThen(command, rest);
    SkipNothing(rest);
  }

  /** Command and parameters come out of a prefixed line as they went in. */
  lemma LineRoundTrip(prefix: string, command: string, rest: string)
    requires ' ' !in prefix && ' ' !in command && command != []
    requires rest != [] && rest[0] != ' '
    ensures Parse(PrintLine(prefix, command, rest)).Some?
    ensures var m := Parse(PrintLine(prefix, command, rest)).value;
      m.nick == NickOf(prefix) && m.command == command && m.rest == rest && m.msgid == [] && m.time == []
  {
    hide Parse, NickOf;
    ParsedAfterTags(PrintLine(prefix, command, rest), [], prefix, command, rest);
  }

  lemma SkipNothing(s: string)
    requires s != [] && s[0] != ' '
    ensures SkipSpaces(s) == s
  {
  }

  lemma TaggedStart(tags: seq<Tag>, line: string)
    requires ' ' !in PrintTags(tags) && |PrintTags(tags)| <= TAGS_MAX
    requires line != [] && line[0] != ' '
    ensures TagPart("@" + PrintTags(tags) + " " + line) == Some((PrintTags(tags), line))
  {
    hide IndexOf, SkipSpaces, PrintTags;
    var text := "@" + PrintTags(tags) + " " + line;
    assert text[1..] == PrintTags(tags) + " " + line;
    SpaceThen(PrintTags(tags), line);
  }

  /** A line with tags: the message ID and time are those of the first tags so named. */
  lemma TaggedLineRoundTrip(tags: seq<Tag>, prefix: string, command: string, rest: string)
    requires forall i :: 0 <= i < |tags| ==> tags[i].Valid()
    requires ' ' !in PrintTags(tags) && |PrintTags(tags)| <= TAGS_MAX
    requires ' ' !in prefix && ' ' !in command && command != []
    requires rest != [] && rest[0] != ' '
    ensures Parse("@" + PrintTags(tags) + " " + PrintLine(prefix, command, rest)) ==
      Some(Message(NickOf(prefix), Cut(Lookup(tags, "msgid"), 63), Cut(Lookup(tags, "time"), 63), command, rest))
  {
    hide Parse, NickOf, PrintTags, TagValue, Lookup, Cut, TagPart;
    var line := PrintLine(prefix, command, rest);
    TaggedStart(tags, line);
    ParsedAfterTags("@" + PrintTags(tags) + " " + line, PrintTags(tags), prefix, command, rest);
    TagsRoundTrip(tags, "msgid");
    TagsRoundTrip(tags, "time");
  }

  /** The nick of a full prefix. */
  lemma NickOfPrefix(nick: string, userhost: string)
    requires '!' !in nick && '@' !in nick
    ensures NickOf(nick + "!" + userhost) == if |nick| > 63 then nick[..63] else nick
  {
    var p := Cut(nick + "!" + userhost, PREFIX_MAX);
    if |nick| < PREFIX_MAX {
      assert p[..|nick|] == nick && p[|nick|] == '!';
      IndexOfAt(p, '!', |nick|);
    } else {
      assert p == nick[..PREFIX_MAX];
      IndexOfAt(p, '!', |p|);
      IndexOfAt(p, '@', |p|);
    }
  }

  /** A prefix may also give a server's name, or a nick and a host. */
  lemma NickOfOtherPrefix(nick: string, host: string)
    requires '!' !in nick && '@' !in nick && |nick| <= 63
    ensures NickOf(nick) == nick
    ensures '!' !in host ==> NickOf(nick + "@" + host) == nick
  {
    assert Cut(nick, PREFIX_MAX) == nick && nick[..|nick|] == nick;
    IndexOfAt(nick, '!', |nick|);
    IndexOfAt(nick, '@', |nick|);
    var whole := nick + "@" + host;
    var p := Cut(whole, PREFIX_MAX);
    assert p[..|nick|] == nick && p[|nick|] == '@';
    IndexOfAt(p, '@', |nick|);
    if '!' !in host {
      assert '!' !in whole;
      IndexOfAt(p, '!', |p|);
    }
  }

  /** A line with neither tags nor prefix: a command, and any number of spaces before what
      follows it. */
  lemma PlainLine(command: string, gap: nat, rest: string)
    requires command != "" && ' ' !in command && command[0] != '@' && command[0] != ':'
    requires rest != "" && rest[0] != ' '
    ensures Parse(command) == Some(Message("", "", "", command, ""))
    ensures Parse(command + " " + (Spaces(gap) + rest)) == Some(Message("", "", "", command, rest))
  {
    hide IndexOf, SkipSpaces;
    IndexOfAt(command, ' ', |command|);
    assert command[..|command|] == command;
    var tail := Spaces(gap) + rest;
    var line := command + " " + tail;
    assert line[..|command|] == command && line[|command| + 1..] == tail;
    IndexOfAt(line, ' ', |command|);
    SkipGap(gap, rest);
  }

  function Spaces(n: nat): string {
    if n == 0 then "" else " " + Spaces(n - 1)
  }

  lemma {:induction false} SkipGap(n: nat, rest: string)
    requires rest != "" && rest[0] != ' '
    ensures SkipSpaces(Spaces(n) + rest) == rest
  {
    if n == 0 {
      assert Spaces(0) + rest == rest;
    } else {
      assert (Spaces(n) + rest)[1..] == Spaces(n - 1) + rest;
      SkipGap(n - 1, rest);
    }
  }

  /** What a line says besides who sent it, and when: tags and prefix change nothing else. */
  lemma PrefixedLine(prefix: string, line: string)
    requires ' ' !in prefix && line != "" && line[0] != ' ' && line[0] != ':' && line[0] != '@'
    ensures Parse(":" + prefix + " " + line).Some? && Parse(line).Some?
    ensures Parse(":" + prefix + " " + line).value == Parse(line).value.(nick := NickOf(prefix))
  {
    hide IndexOf, SkipSpaces, NickOf;
    PrefixedStart(prefix, line);
  }

  lemma TaggedLine(tags: seq<Tag>, line: string)
    requires forall i :: 0 <= i < |tags| ==> tags[i].Valid()
    requires ' ' !in PrintTags(tags) && |PrintTags(tags)| <= TAGS_MAX
    requires line != "" && line[0] != ' ' && line[0] != '@'
    ensures Parse("@" + PrintTags(tags) + " " + line).Some? <==> Parse(line).Some?
    ensures Parse(line).Some? ==>
      Parse("@" + PrintTags(tags) + " " + line).value == Parse(line).value.(msgid := Cut(Lookup(tags, "msgid"), 63), time := Cut(Lookup(tags, "time"), 63))
  {
    hide IndexOf, SkipSpaces, NickOf, PrintTags, Lookup, Cut, TagValue, PrefixPart;
    TaggedStart(tags, line);
    TagsRoundTrip(tags, "msgid");
    TagsRoundTrip(tags, "time");
    var whole := "@" + PrintTags(tags) + " " + line;
    assert TagPart(line) == Some(([], line));
  }

  /** Tags or a prefix with nothing after are no message. */
  lemma NothingAfter(s: string)
    requires ' ' !in s
    ensures Parse("@" + s).None? && Parse(":" + s).None?
  {
    hide IndexOf;
    assert ("@" + s)[1..] == s && (":" + s)[1..] == s;
    IndexOfAt(s, ' ', |s|);
  }

  /** A tag without a value is present and empty: later ones of its key do not count. */
  lemma BareTag(key: string, more: string)
    requires key != "" && ';' !in key && '=' !in key
    ensures TagValue(key, key) == "" && TagValue(key + ";" + more, key) == ""
  {
    hide IndexOf;
    IndexOfAt(key, ';', |key|);
    IndexOfAt(key, '=', |key|);
    assert key[..|key|] == key;
    var blob := key + ";" + more;
    assert blob[..|key|] == key;
    IndexOfAt(blob, ';', |key|);
  }
}
