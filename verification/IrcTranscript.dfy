/** What holds of an IRC connection over every run of lines. */
module IrcTranscript {
  import opened Common
  import Decimal
  import opened IrcMessages
  import opened IrcSession

  // ---------- the lines sent ----------

  /** The first four characters of a line. */
  function Verb(line: string): string {
    if |line| >= 4 then line[..4] else line
  }

  /** The lines sent with a verb. */
  function Sends(log: seq<Action>, verb: string): seq<string> {
    if log == [] then []
    else (if log[0].Send? && Verb(log[0].line) == verb then [log[0].line] else []) + Sends(log[1..], verb)
  }

  lemma {:induction false} SendsAppend(a: seq<Action>, b: seq<Action>, verb: string)
    ensures Sends(a + b, verb) == Sends(a, verb) + Sends(b, verb)
  {
    hide Verb;
    if a == [] {
      assert a + b == b;
    } else {
      assert (a + b)[0] == a[0] && (a + b)[1..] == a[1..] + b;
      SendsAppend(a[1..], b, verb);
      Assoc(if a[0].Send? && Verb(a[0].line) == verb then [a[0].line] else [], Sends(a[1..], verb), Sends(b, verb));
    }
  }

  lemma SendsOne(action: Action, verb: string)
    ensures Sends([action], verb) == if action.Send? && Verb(action.line) == verb then [action.line] else []
  {
    assert [action][1..] == [];
  }

  lemma CutStart(s: string, t: string, room: nat)
    requires |s| == 4 <= room
    ensures Verb(s + t) == Verb(Cut(s + t, room)) == s
  {
    assert (s + t)[..4] == s;
    if |s + t| > room { assert (s + t)[..room][..4] == s; }
  }

  lemma Verbs(rest: string, channel: string, nick: string)
    ensures Verb(Pong(rest)) == "PONG" && Verb(Join(channel)) == "JOIN" && Verb(NickLine(nick)) == "NICK"
    ensures Verb(CAP_REQ) == "CAP " && Verb(CAP_END) == "CAP "
  {
    hide Verb, Cut;
    var r := if rest == [] then ":" else rest;
    Assoc("PONG", " ", r);
    CutStart("PONG", " " + r, 599);
    Assoc("JOIN", " ", channel);
    CutStart("JOIN", " " + channel, 127);
    Assoc("NICK", " ", nick);
    CutStart("NICK", " " + nick, 127);
    assert "PONG " == "PONG" + " " && "JOIN " == "JOIN" + " " && "NICK " == "NICK" + " ";
    CutStart("CAP ", "REQ :" + WANTED, 100);
    CutStart("CAP ", "END", 100);
  }

  /** A line with a command. */
  ghost predicate Has(line: string, command: string) {
    Parse(line).Some? && Parse(line).value.command == command
  }

  /** A numeric reply other than the two that have an effect of their own. */
  ghost predicate IsReply(line: string) {
    Parse(line).Some? &&
    var c := Parse(line).value.command;
    |c| == 3 && (forall i :: 0 <= i < 3 ==> '0' <= c[i] <= '9') && c != "001" && c != "433"
  }

  /** The kinds of lines by their commands. */
  lemma KindsAre(line: string)
    requires Parse(line).Some?
    ensures var kind := KindOf(Parse(line).value.command);
      && (kind == Ping <==> Has(line, "PING")) && (kind == Cap <==> Has(line, "CAP"))
      && (kind == Welcome <==> Has(line, "001")) && (kind == NickInUse <==> Has(line, "433"))
      && (kind == Privmsg <==> Has(line, "PRIVMSG")) && (kind == Notice <==> Has(line, "NOTICE"))
      && (kind == Numeric <==> IsReply(line))
  {
    hide Parse;
  }

  /** The lines a CAP reply makes the client send. */
  ghost function CapSends(st: State, line: string): seq<string> {
    if Has(line, "CAP") then
      var sends := CapStep(st, Parse(line).value.rest).1;
      if sends == [] || !sends[0].Send? then [] else [sends[0].line]
    else []
  }

  lemma NoSends(log: seq<Action>, verb: string)
    requires |log| <= 1 && forall i :: 0 <= i < |log| ==> !log[i].Send?
    ensures Sends(log, verb) == []
  {
  }

  /** What one line makes the client send, by verb, in any state. */
  lemma LineSends(st: State, line: string, config: Config, verb: string)
    requires verb == "PONG" || verb == "JOIN" || verb == "CAP "
    ensures Sends(Handle(st, line, config).1, verb) ==
      if Has(line, "PING") && verb == "PONG" then [Pong(Parse(line).value.rest)]
      else if Has(line, "001") && verb == "JOIN" then [Join(config.channel)]
      else if verb == "CAP " then CapSends(st, line)
      else []
  {
    hide Parse, KindOf, Sends, Pong, Join, NickLine, Verb, Contains, Offers, Answers, IndexOf, Cut, SkipSpaces;
    var m := Parse(line);
    if m.None? {
      NoSends([], verb);
    } else {
      var log := Handle(st, line, config).1;
      KindsAre(line);
      Verbs(m.value.rest, config.channel, config.nicks(st.client.drawn));
      match KindOf(m.value.command) {
        case Ping => SendsOne(log[0], verb);
        case Cap => CapStepSends(st, m.value.rest, verb);
        case Welcome => WelcomeSends(config.channel, if st.banner then [NumericText(m.value.rest)] else [], verb);
        case NickInUse => SendsOne(log[0], verb);
        case Numeric => NoSends(log, verb);
        case Privmsg => NoSends(log, verb);
        case Notice => NoSends(log, verb);
        case Other => NoSends(log, verb);
      }
    }
  }

  lemma CapStepSends(st: State, rest: string, verb: string)
    ensures var sends := CapStep(st, rest).1;
      Sends(sends + if st.banner then CapNotice(rest) else [], verb) ==
        if verb != "CAP " || sends == [] then [] else [sends[0].line]
  {
    hide Offers, Answers, Contains, IndexOf, Cut, Sends, Verb;
    var sends, notice := CapStep(st, rest).1, if st.banner then CapNotice(rest) else [];
    SendsAppend(sends, notice, verb);
    NoSends(notice, verb);
    Verbs([], [], []);
    if sends == [] { NoSends(sends, verb); } else { SendsOne(sends[0], verb); }
  }

  lemma WelcomeSends(channel: string, more: seq<Action>, verb: string)
    requires |more| <= 1 && forall i :: 0 <= i < |more| ==> !more[i].Send?
    ensures Sends([Registered, Send(Join(channel))] + more, verb) == if verb == "JOIN" then [Join(channel)] else []
  {
    hide Join, Verb, Sends;
    Verbs([], channel, []);
    SendsAppend([Registered, Send(Join(channel))], more, verb);
    SendsAppend([Registered], [Send(Join(channel))], verb);
    SendsOne(Registered, verb);
    SendsOne(Send(Join(channel)), verb);
    NoSends(more, verb);
    assert [Registered] + [Send(Join(channel))] == [Registered, Send(Join(channel))];
  }

  // ---------- PING and JOIN ----------

  /** The answers to the PINGs among some lines. */
  ghost function Pongs(lines: seq<string>): seq<string> {
    if lines == [] then []
    else
      var line := lines[|lines| - 1];
      Pongs(lines[..|lines| - 1]) + if Has(line, "PING") then [Pong(Parse(line).value.rest)] else []
  }

  ghost function Joins(lines: seq<string>, channel: string): seq<string> {
    if lines == [] then []
    else Joins(lines[..|lines| - 1], channel) + if Has(lines[|lines| - 1], "001") then [Join(channel)] else []
  }

  /** Each PING is answered once, in order, whatever the state; JOIN is sent once for each
      001 and never otherwise. */
  lemma {:induction false} EveryPingIsAnswered(st: State, lines: seq<string>, config: Config)
    ensures Sends(Log(st, lines, config), "PONG") == Pongs(lines)
    ensures Sends(Log(st, lines, config), "JOIN") == Joins(lines, config.channel)
    decreases |lines|
  {
    hide Handle, Has, Pong, Join, Parse, Verb;
    if lines != [] {
      var front, line := lines[..|lines| - 1], lines[|lines| - 1];
      EveryPingIsAnswered(st, front, config);
      var log, act := Log(st, front, config), Handle(After(st, front, config), line, config).1;
      SendsAppend(log, act, "PONG");
      SendsAppend(log, act, "JOIN");
      LineSends(After(st, front, config), line, config, "PONG");
      LineSends(After(st, front, config), line, config, "JOIN");
      OneKind(line);
    }
  }

  lemma OneKind(line: string)
    ensures !(Has(line, "PING") && Has(line, "001")) && !(Has(line, "PING") && Has(line, "CAP")) && !(Has(line, "001") && Has(line, "CAP"))
  {
  }

  /** The answer repeats what the PING carried exactly when there is something and it fits. */
  lemma PongEchoesIff(rest: string)
    ensures Pong(rest) == "PONG " + rest <==> rest != [] && |rest| <= 594
  {
    if rest == [] { assert |Pong(rest)| == 6; }
  }

  // ---------- capability negotiation ----------

  ghost predicate Offer(line: string) {
    Has(line, "CAP") && Offers(Parse(line).value.rest)
  }

  ghost predicate Answer(line: string) {
    Has(line, "CAP") && Answers(Parse(line).value.rest)
  }

  ghost predicate Offered(lines: seq<string>) {
    exists i :: 0 <= i < |lines| && Offer(lines[i])
  }

  /** An offer, and later an acknowledgement or refusal. */
  ghost predicate Answered(lines: seq<string>) {
    exists i, j :: 0 <= i < j < |lines| && Offer(lines[i]) && Answer(lines[j])
  }

  lemma OfferedSnoc(lines: seq<string>, line: string)
    ensures Offered(lines + [line]) <==> Offered(lines) || Offer(line)
    ensures Answered(lines + [line]) <==> Answered(lines) || (Offered(lines) && Answer(line))
  {
    hide Offer, Answer;
    var all := lines + [line];
    assert all[|lines|] == line && forall i :: 0 <= i < |lines| ==> all[i] == lines[i];
    if Offered(lines) {
      var i :| 0 <= i < |lines| && Offer(lines[i]);
      assert Offer(all[i]);
      if Answer(line) { assert Answer(all[|lines|]); }
    }
    if Answered(lines) {
      var i, j :| 0 <= i < j < |lines| && Offer(lines[i]) && Answer(lines[j]);
      assert Offer(all[i]) && Answer(all[j]);
    }
  }

  lemma CapLine(st: State, line: string, config: Config)
    ensures var after := Handle(st, line, config).0;
      && after.capReqSent == (st.capReqSent || Offer(line))
      && after.capEndSent == (st.capEndSent || (st.capReqSent && Answer(line)))
      && CapSends(st, line) == if !st.capReqSent && Offer(line) then [CAP_REQ]
                               else if st.capReqSent && !st.capEndSent && Answer(line) then [CAP_END] else []
  {
    hide Parse, KindOf, Offers, Answers, CapNotice, NumericText, ChatLine, Pong, Join, NickLine, IsReply;
    if Parse(line).Some? { KindsAre(line); }
  }

  /** Over any lines of a connection, CAP REQ is sent once if there was an offer, and after
      it CAP END once if the offer was followed by an answer; nothing else is. */
  lemma {:induction false} CapIsNegotiatedOnce(st: State, lines: seq<string>, config: Config)
    requires !st.capReqSent && !st.capEndSent
    ensures Sends(Log(st, lines, config), "CAP ") ==
      (if Offered(lines) then [CAP_REQ] else []) + (if Answered(lines) then [CAP_END] else [])
    ensures var after := After(st, lines, config); after.capReqSent == Offered(lines) && after.capEndSent == Answered(lines)
    decreases |lines|
  {
    hide Handle, CapSends, Offer, Answer, Has, Pong, Join, Parse, Verb;
    if lines != [] {
      var front, line := lines[..|lines| - 1], lines[|lines| - 1];
      assert lines == front + [line];
      CapIsNegotiatedOnce(st, front, config);
      OfferedSnoc(front, line);
      var now := After(st, front, config);
      SendsAppend(Log(st, front, config), Handle(now, line, config).1, "CAP ");
      LineSends(now, line, config, "CAP ");
      CapLine(now, line, config);
      AnsweredIsOffered(front);
    }
  }

  lemma AnsweredIsOffered(lines: seq<string>)
    ensures Answered(lines) ==> Offered(lines)
  {
    hide Offer, Answer;
  }

  // ---------- registration and the banner ----------

  ghost predicate Closing(line: string) {
    Has(line, "376") || Has(line, "422")
  }

  ghost predicate AnyClosing(lines: seq<string>) {
    exists i :: 0 <= i < |lines| && Closing(lines[i])
  }

  ghost predicate AnyWelcome(lines: seq<string>) {
    exists i :: 0 <= i < |lines| && Has(lines[i], "001")
  }

  lemma AnySnoc(lines: seq<string>, line: string)
    ensures AnyClosing(lines + [line]) <==> AnyClosing(lines) || Closing(line)
    ensures AnyWelcome(lines + [line]) <==> AnyWelcome(lines) || Has(line, "001")
  {
    hide Closing, Has;
    var all := lines + [line];
    assert all[|lines|] == line && forall i :: 0 <= i < |lines| ==> all[i] == lines[i];
    if AnyClosing(lines) {
      var i :| 0 <= i < |lines| && Closing(lines[i]);
      assert Closing(all[i]);
    }
    if AnyWelcome(lines) {
      var i :| 0 <= i < |lines| && Has(lines[i], "001");
      assert Has(all[i], "001");
    }
  }

  lemma BannerLine(st: State, line: string, config: Config)
    requires st.banner == st.client.bannerPending
    ensures var after := Handle(st, line, config).0;
      && after.banner == after.client.bannerPending == (st.banner && !Closing(line))
      && after.reached == (st.reached || Has(line, "001"))
      && after.client.everRegistered == (st.client.everRegistered || Has(line, "001"))
  {
    hide Parse, KindOf, Offers, Answers, CapNotice, NumericText, ChatLine, Pong, Join, NickLine;
    if Parse(line).Some? {
      KindsAre(line);
      ClosersAreNotSpecial(Parse(line).value.command);
    }
  }

  lemma ClosersAreNotSpecial(command: string)
    ensures EndsBanner(command) ==> !IsJoinError(command) && !IsNames(command)
  {
  }

  /** The banner is open until the first 376 or 422, for this connection and for later
      ones alike; registration is the arrival of a 001. */
  lemma {:induction false} BannerUntilClosed(st: State, lines: seq<string>, config: Config)
    requires st.banner == st.client.bannerPending
    ensures var after := After(st, lines, config);
      && after.banner == after.client.bannerPending == (st.banner && !AnyClosing(lines))
      && after.reached == (st.reached || AnyWelcome(lines))
      && after.client.everRegistered == (st.client.everRegistered || AnyWelcome(lines))
    decreases |lines|
  {
    hide Handle, Closing, Has;
    if lines != [] {
      var front, line := lines[..|lines| - 1], lines[|lines| - 1];
      assert lines == front + [line];
      BannerUntilClosed(st, front, config);
      AnySnoc(front, line);
      BannerLine(After(st, front, config), line, config);
    }
  }

  // ---------- what the viewer is shown ----------

  /** The server lines among some actions. */
  function Shown(log: seq<Action>): seq<Action> {
    if log == [] then [] else (if log[0].System? then [log[0]] else []) + Shown(log[1..])
  }

  lemma {:induction false} ShownAppend(a: seq<Action>, b: seq<Action>)
    ensures Shown(a + b) == Shown(a) + Shown(b)
  {
    if a == [] {
      assert a + b == b;
    } else {
      assert (a + b)[1..] == a[1..] + b;
      ShownAppend(a[1..], b);
      Assoc(if a[0].System? then [a[0]] else [], Shown(a[1..]), Shown(b));
    }
  }

  lemma ShownWelcome(line: string, more: seq<Action>)
    ensures Shown([Registered, Send(line)] + more) == Shown(more)
  {
    ShownAppend([Registered, Send(line)], more);
    assert [Registered, Send(line)][1..] == [Send(line)] && [Send(line)][1..] == [];
  }

  lemma ShownNothing()
    ensures Shown([]) == []
  {
  }

  lemma ShownOne(action: Action)
    ensures Shown([action]) == if action.System? then [action] else []
  {
    assert [action][1..] == [];
  }

  ghost predicate JoinRefused(line: string) {
    Parse(line).Some? && IsJoinError(Parse(line).value.command)
  }

  /** The refusals to join, as numbers. */
  lemma JoinErrorsAre(n: nat)
    requires 100 <= n <= 999
    ensures IsJoinError(Decimal.Print(n)) <==> n in {403, 405, 437, 479} || 471 <= n <= 477
  {
    var h, t, u := n / 100, n / 10 % 10, n % 10;
    assert Decimal.Print(h) == [h as char + '0'];
    assert n / 10 / 10 == h && Decimal.Print(n / 10) == [h as char + '0', t as char + '0'];
    assert Decimal.Print(n) == [h as char + '0', t as char + '0', u as char + '0'];
    assert n == 100 * h + 10 * t + u;
  }

  /** The refusals to join among some lines. */
  ghost function Refusals(lines: seq<string>): seq<Action> {
    if lines == [] then []
    else
      var line := lines[|lines| - 1];
      Refusals(lines[..|lines| - 1]) + if JoinRefused(line) then [NumericText(Parse(line).value.rest)] else []
  }

  lemma RefusalsAreReplies(command: string)
    ensures IsJoinError(command) ==>
      && |command| == 3 && (forall i :: 0 <= i < 3 ==> '0' <= command[i] <= '9')
      && command != "001" && command != "433"
  {
  }

  lemma QuietLine(st: State, line: string, config: Config)
    requires !st.banner
    ensures !Handle(st, line, config).0.banner
    ensures Shown(Handle(st, line, config).1) == if JoinRefused(line) then [NumericText(Parse(line).value.rest)] else []
  {
    hide Parse, KindOf, Offers, Answers, Pong, Join, NickLine, IndexOf, Cut, SkipSpaces, IsJoinError, Contains, DropColon, Shown;
    var log := Handle(st, line, config).1;
    ShownNothing();
    if Parse(line).Some? {
      KindsAre(line);
      RefusalsAreReplies(Parse(line).value.command);
    }
    if |log| == 0 { assert log == []; }
    if |log| == 1 { assert log == [log[0]]; ShownOne(log[0]); }
    ShownWelcome(Join(config.channel), []);
  }

  /** Once the banner is closed, nothing the server says is shown but refusals to join,
      and those always are. */
  lemma {:induction false} QuietAfterBanner(st: State, lines: seq<string>, config: Config)
    requires !st.banner
    ensures !After(st, lines, config).banner && Shown(Log(st, lines, config)) == Refusals(lines)
    decreases |lines|
  {
    hide Handle, JoinRefused, NumericText, Parse;
    if lines != [] {
      var front, line := lines[..|lines| - 1], lines[|lines| - 1];
      QuietAfterBanner(st, front, config);
      QuietLine(After(st, front, config), line, config);
      ShownAppend(Log(st, front, config), Handle(After(st, front, config), line, config).1);
    }
  }

  /** The numerics that are shown: refusals to join always, the NAMES list and a nickname
      clash never, the rest while the banner is open. */
  lemma NumericShownIff(st: State, line: string, config: Config)
    requires IsReply(line) || Has(line, "001") || Has(line, "433")
    ensures var m := Parse(line).value;
      Shown(Handle(st, line, config).1) ==
        if IsJoinError(m.command) || (st.banner && m.command != "353" && m.command != "366" && m.command != "433")
        then [NumericText(m.rest)]
        else []
  {
    hide Parse, Pong, Join, NickLine, IndexOf, Cut, SkipSpaces, DropColon, Shown;
    var st1 := Handle(st, line, config);
    var m := Parse(line).value;
    ShownNothing();
    if Has(line, "001") {
      ShownWelcome(Join(config.channel), if st.banner then [NumericText(m.rest)] else []);
    }
    if |st1.1| == 1 { ShownOne(st1.1[0]); }
    ShownOne(NumericText(m.rest));
  }

  // ---------- channel messages ----------

  /** A message to a channel, as a server relays it. */
  function ChatText(notice: bool, tags: seq<Tag>, nick: string, userhost: string, target: string, text: string): string {
    "@" + PrintTags(tags) + " " +
    PrintLine(nick + "!" + userhost, if notice then "NOTICE" else "PRIVMSG", target + " " + (":" + text))
  }

  /** A relayed message reaches the viewer as it was sent, in any state, and changes
      nothing; only what exceeds its field is cut. */
  lemma ChatArrives(st: State, config: Config, notice: bool, tags: seq<Tag>, nick: string, userhost: string,
                    target: string, text: string)
    requires forall i :: 0 <= i < |tags| ==> tags[i].Valid()
    requires ' ' !in PrintTags(tags) && |PrintTags(tags)| <= TAGS_MAX
    requires ' ' !in nick && '!' !in nick && '@' !in nick && |nick| <= FIELD_MAX && ' ' !in userhost
    requires target != [] && ' ' !in target
    ensures Handle(st, ChatText(notice, tags, nick, userhost, target, text), config) ==
      (st, [Chat(notice, nick, Cut(target, 63), Cut(Lookup(tags, "msgid"), 63), Cut(text, 1023),
                 Cut(Lookup(tags, "time"), 63))])
  {
    hide Parse, PrintTags, PrintLine, Lookup, IndexOf, SkipSpaces, NickOf, Cut, CapStep, NumericStep;
    var prefix, command, rest := nick + "!" + userhost, if notice then "NOTICE" else "PRIVMSG", target + " " + (":" + text);
    assert rest[0] == target[0];
    TaggedLineRoundTrip(tags, prefix, command, rest);
    NickOfPrefix(nick, userhost);
    SpaceThen(target, ":" + text);
    SkipNothing(":" + text);
    assert (":" + text)[1..] == text;
    ChatKinds();
  }

  lemma ChatKinds()
    ensures KindOf("PRIVMSG") == Privmsg && KindOf("NOTICE") == Notice
  {
  }

  /** A numeric reply with a readable part is shown as that part. */
  lemma NumericReads(nick: string, text: string)
    requires ' ' !in nick
    ensures NumericText(nick + " " + (":" + text)) == SystemLine(text)
  {
    hide IndexOf, SkipSpaces, Cut;
    SpaceThen(nick, ":" + text);
    assert (":" + text)[1..] == text;
  }

  // ---------- from the text of a line ----------

  /** What a line without tags and prefix does, any number of spaces after its command. */
  lemma CommandLine(st: State, command: string, gap: nat, rest: string, config: Config)
    requires command != "" && ' ' !in command && command[0] != '@' && command[0] != ':'
    requires rest != "" && rest[0] != ' '
    ensures Handle(st, command + " " + (Spaces(gap) + rest), config) == Act(st, Message("", "", "", command, rest), config)
    ensures Handle(st, command, config) == Act(st, Message("", "", "", command, ""), config)
  {
    hide Parse, Act, Spaces;
    PlainLine(command, gap, rest);
  }

  /** A PING is answered with what it carried, or with a colon. */
  lemma PingText(st: State, gap: nat, rest: string, config: Config)
    requires rest != "" && rest[0] != ' ' && |rest| <= 594
    ensures Handle(st, "PING " + (Spaces(gap) + rest), config) == (st, [Send("PONG " + rest)])
    ensures Handle(st, "PING", config) == (st, [Send("PONG :")])
  {
    hide Handle, Spaces;
    CommandLine(st, "PING", gap, rest, config);
    assert "PING" + " " == "PING ";
    PongEchoesIff(rest);
    assert Pong("") == "PONG :" by { assert "PONG " + ":" == "PONG :"; }
  }

  /** A 001 registers and joins the channel. */
  lemma WelcomeText(st: State, rest: string, config: Config)
    requires rest != "" && rest[0] != ' ' && |config.channel| <= 63
    ensures Handle(st, "001 " + rest, config) ==
      (st.(reached := true, client := st.client.(everRegistered := true)),
       [Registered, Send("JOIN " + config.channel)] + if st.banner then [NumericText(rest)] else [])
  {
    hide Handle, NumericText;
    CommandLine(st, "001", 0, rest, config);
    assert Spaces(0) + rest == rest && "001" + " " == "001 ";
  }

  /** A 433 is answered with the next nickname. */
  lemma NickInUseText(st: State, rest: string, config: Config)
    requires rest != "" && rest[0] != ' ' && |config.nicks(st.client.drawn)| <= 63
    ensures Handle(st, "433 " + rest, config) ==
      (st.(client := st.client.(drawn := st.client.drawn + 1)), [Send("NICK " + config.nicks(st.client.drawn))])
  {
    hide Handle;
    CommandLine(st, "433", 0, rest, config);
    assert Spaces(0) + rest == rest && "433" + " " == "433 ";
  }

  /** A pattern is in a text exactly if it is at some place of it. */
  lemma {:induction false} ContainsIff(s: string, pattern: string)
    ensures Contains(s, pattern) <==> exists i :: 0 <= i <= |s| && pattern <= s[i..]
    decreases |s|
  {
    if pattern <= s {
      assert s[0..] == s;
    } else if |pattern| <= |s| {
      ContainsIff(s[1..], pattern);
      if Contains(s[1..], pattern) {
        var i :| 0 <= i <= |s[1..]| && pattern <= s[1..][i..];
        assert s[i + 1..] == s[1..][i..];
      }
      if exists i :: 0 <= i <= |s| && pattern <= s[i..] {
        var i :| 0 <= i <= |s| && pattern <= s[i..];
        assert s[0..] == s;
        assert s[1..][i - 1..] == s[i..];
      }
    }
  }

  lemma At(s: string, i: nat, pattern: string)
    requires i <= |s| && pattern <= s[i..]
    ensures Contains(s, pattern)
  {
    ContainsIff(s, pattern);
  }

  /** The words of a CAP reply: they are those the server wrote if the list of
      capabilities holds none of them. */
  lemma CapWords(verb: string, caps: string)
    requires verb in {"LS", "ACK", "NAK"}
    requires !Contains(":" + caps, " LS ") && !Contains(":" + caps, " ACK ") && !Contains(":" + caps, " NAK ") && !Contains(":" + caps, " LS * ")
    ensures var rest := "* " + verb + " " + (":" + caps);
      && (Contains(rest, " LS ") <==> verb == "LS") && !Contains(rest, " LS * ")
      && (Answers(rest) <==> verb != "LS") && IndexOf(rest, ':') == |verb| + 3 && rest[|verb| + 4..] == caps
  {
    hide Contains, IndexOf;
    var rest := "* " + verb + " " + (":" + caps);
    if verb == "LS" {
      CapWordsOf("LS", caps, " LS ");
      CapWordsOf("LS", caps, " ACK ");
      CapWordsOf("LS", caps, " NAK ");
      CapWordsOf("LS", caps, " LS * ");
    } else if verb == "ACK" {
      CapWordsOf("ACK", caps, " LS ");
      CapWordsOf("ACK", caps, " ACK ");
      CapWordsOf("ACK", caps, " LS * ");
    } else {
      CapWordsOf("NAK", caps, " LS ");
      CapWordsOf("NAK", caps, " NAK ");
      CapWordsOf("NAK", caps, " LS * ");
    }
    IndexOfAt(rest, ':', |verb| + 3);
  }

  lemma NotThere(s: string, i: nat, word: string, k: nat)
    requires i + k < |s| && k < |word| && s[i + k] != word[k]
    ensures !(word <= s[i..])
  {
    assert s[i..][k] == s[i + k];
  }

  /** The characters in front of the capabilities, one by one. */
  lemma CapFront(verb: string, tail: string)
    requires |verb| >= 2 && tail != ""
    ensures var rest, n := "* " + verb + " " + tail, |verb| + 3;
      && |rest| == n + |tail| && rest[n..] == tail && rest[0] == '*' && rest[1] == ' ' && rest[n - 1] == ' ' && rest[n] == tail[0]
      && (forall k :: 0 <= k < |verb| ==> rest[2 + k] == verb[k])
      && rest[1..] == " " + verb + " " + tail
  {
  }

  lemma CapWordsOf(verb: string, caps: string, word: string)
    requires verb in {"LS", "ACK", "NAK"} && word in {" LS ", " ACK ", " NAK ", " LS * "}
    requires !Contains(":" + caps, word)
    ensures Contains("* " + verb + " " + (":" + caps), word) <==> word == " " + verb + " "
  {
    hide Contains;
    var tail := ":" + caps;
    var rest, n := "* " + verb + " " + tail, |verb| + 3;
    CapFront(verb, tail);
    ContainsIff(rest, word);
    ContainsIff(tail, word);
    if word == " " + verb + " " {
      assert rest[1..] == word + tail;
    } else {
      forall i | 0 <= i <= |rest| ensures !(word <= rest[i..]) {
        if i >= n {
          assert rest[i..] == tail[i - n..];
        } else {
          CapWordNotBefore(verb, tail, word, i);
        }
      }
    }
  }

  lemma CapWordNotBefore(verb: string, tail: string, word: string, i: nat)
    requires verb in {"LS", "ACK", "NAK"} && word in {" LS ", " ACK ", " NAK ", " LS * "} && word != " " + verb + " "
    requires tail != "" && tail[0] == ':' && i < |verb| + 3
    ensures !(word <= ("* " + verb + " " + tail)[i..])
  {
    var rest, n := "* " + verb + " " + tail, |verb| + 3;
    CapFront(verb, tail);
    assert word[0] == ' ' && word[1] in {'L', 'A', 'N'};
    if i == n - 1 {
      NotThere(rest, i, word, 1);
    } else if i != 1 {
      assert i == 0 || rest[i] == verb[i - 2];
      NotThere(rest, i, word, 0);
    } else if word[1] != verb[0] {
      NotThere(rest, 1, word, 1);
    } else {
      assert verb == "LS" && word == " LS * ";
      NotThere(rest, 1, word, 4);
    }
  }

  /** Capability negotiation, line by line: the last line of an offer is requested once,
      an answer to that ends the negotiation once. */
  lemma CapText(st: State, verb: string, caps: string, config: Config)
    requires verb in {"LS", "ACK", "NAK"}
    requires !Contains(":" + caps, " LS ") && !Contains(":" + caps, " ACK ") && !Contains(":" + caps, " NAK ") && !Contains(":" + caps, " LS * ")
    ensures var r := Handle(st, "CAP " + ("* " + verb + " " + (":" + caps)), config);
      && r.0.(capReqSent := st.capReqSent, capEndSent := st.capEndSent) == st
      && (if verb == "LS" && !st.capReqSent then r.0.capReqSent && r.0.capEndSent == st.capEndSent
          else r.0.capReqSent == st.capReqSent && r.0.capEndSent == (st.capEndSent || (verb != "LS" && st.capReqSent)))
      && r.1 ==
        (if verb == "LS" && !st.capReqSent then [Send("CAP " + ("REQ :" + "server-time batch message-tags"))]
         else if verb != "LS" && st.capReqSent && !st.capEndSent then [Send("CAP END")] else []) +
        (if !st.banner then []
         else [SystemLine(Cut((if verb == "LS" then "Capabilities supported: " else "Capabilities acknowledged: ") + caps, 1199))])
  {
    hide Handle, Contains, Answers, IndexOf, Cut, Spaces;
    var rest := "* " + verb + " " + (":" + caps);
    NoGap(rest);
    assert "CAP" + " " == "CAP ";
    CommandLine(st, "CAP", 0, rest, config);
    CapWords(verb, caps);
    assert CAP_END == "CAP END" by { CapEndIs(); }
  }

  lemma CapEndIs()
    ensures CAP_END == "CAP END"
  {
  }

  lemma NoGap(rest: string)
    ensures Spaces(0) + rest == rest
  {
  }

  /** A line of an offer that goes on with another is only noted. */
  lemma CapGoesOn(st: State, caps: string, config: Config)
    requires !st.banner && !Contains("* LS * " + (":" + caps), " ACK ") && !Contains("* LS * " + (":" + caps), " NAK ")
    ensures Handle(st, "CAP " + ("* LS * " + (":" + caps)), config) == (st, [])
  {
    hide Handle, Contains, IndexOf, Cut, Spaces;
    var rest := "* LS * " + (":" + caps);
    NoGap(rest);
    assert "CAP" + " " == "CAP ";
    CommandLine(st, "CAP", 0, rest, config);
    assert rest[1..] == " LS * " + (":" + caps);
    At(rest, 1, " LS * ");
    assert forall a: seq<Action> :: a + [] == a;
  }

  /** A numeric reply and its readable part: a refusal to join is always shown, others
      while the banner is open, and 376 and 422 close it. */
  lemma ReplyText(st: State, n: nat, nick: string, text: string, config: Config)
    requires 100 <= n <= 999 && n != 433 && nick != "" && ' ' !in nick
    ensures var r := Handle(st, Decimal.Print(n) + " " + (nick + " " + (":" + text)), config);
      var refusal := n in {403, 405, 437, 479} || 471 <= n <= 477;
      && r.1 == (if refusal || (st.banner && n != 353 && n != 366) then [System(if |text| > 1023 then text[..1023] else text)] else [])
      && r.0 == if st.banner && (n == 376 || n == 422) then st.(banner := false, client := st.client.(bannerPending := false))
                else st
  {
    hide Handle, IsJoinError, Spaces, KindOf, NumericText;
    var command, rest := Decimal.Print(n), nick + " " + (":" + text);
    ThreeDigits(n);
    NoGap(rest);
    assert rest[0] == nick[0];
    CommandLine(st, command, 0, rest, config);
    JoinErrorsAre(n);
    NumericReads(nick, text);
    ReplyKind(command);
  }

  lemma ThreeDigits(n: nat)
    requires 100 <= n <= 999
    ensures var s := Decimal.Print(n);
      |s| == 3 && (forall i :: 0 <= i < 3 ==> IsDigit(s[i])) && ' ' !in s &&
      (s == "376" <==> n == 376) && (s == "422" <==> n == 422) && (s == "353" <==> n == 353) && (s == "366" <==> n == 366) &&
      (s == "433" <==> n == 433) && s != "001"
  {
    var h, t, u := n / 100, n / 10 % 10, n % 10;
    assert Decimal.Print(h) == [h as char + '0'];
    assert n / 10 / 10 == h && Decimal.Print(n / 10) == [h as char + '0', t as char + '0'];
    assert Decimal.Print(n) == [h as char + '0', t as char + '0', u as char + '0'];
    assert n == 100 * h + 10 * t + u;
  }

  lemma ReplyKind(command: string)
    requires |command| == 3 && (forall i :: 0 <= i < 3 ==> IsDigit(command[i])) && command != "001" && command != "433"
    ensures KindOf(command) == Numeric
  {
  }

  /** Tags and a prefix change nothing about what a line does, unless it is a message. */
  lemma PrefixChangesNothing(st: State, prefix: string, line: string, config: Config)
    requires ' ' !in prefix && line != "" && line[0] != ' ' && line[0] != ':' && line[0] != '@'
    requires !Has(line, "PRIVMSG") && !Has(line, "NOTICE")
    ensures Handle(st, ":" + prefix + " " + line, config) == Handle(st, line, config)
  {
    hide Parse, NumericStep, CapStep, ChatLine;
    PrefixedLine(prefix, line);
    KindsAre(line);
    ActIgnoresSender(st, Parse(line).value, NickOf(prefix), config);
  }

  lemma ActIgnoresSender(st: State, m: Message, nick: string, config: Config)
    requires KindOf(m.command) != Privmsg && KindOf(m.command) != Notice
    ensures Act(st, m.(nick := nick), config) == Act(st, m, config)
  {
    hide KindOf, IsJoinError, NumericText, CapStep, CapNotice;
  }

  /** The lines a connection starts with. */
  lemma GreetingText(nick: string)
    requires |nick| <= 63
    ensures Greeting(nick) == [Send("CAP LS 302"), Send("NICK " + nick), Send("USER " + nick + " 0 * :MGT Unicorn Viewer")]
  {
  }
}
