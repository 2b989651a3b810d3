/** One IRC connection: capability negotiation, registration, keep-alive and what is
    passed on to the viewer. */
module IrcSession {
  import opened Common
  import opened IrcLines
  import opened IrcMessages

  const WANTED := "server-time batch message-tags"
  const CAP_REQ := "CAP " + ("REQ :" + WANTED)
  const CAP_END := "CAP " + "END"

  /** What the client does: a line sent, an event for the viewer, or a wait. */
  datatype Action =
    | Send(line: string)
    | System(text: string)
    | Registered
    | Chat(notice: bool, nick: string, target: string, msgid: string, text: string, time: string)
    | Failed(reason: string)
    | Slept(ms: nat)

  /** Where to connect, the channel to join and the nicknames to be drawn, which stand
      for the random ones. */
  datatype Config = Config(host: string, port: nat, channel: string, nicks: nat -> string)

  /** What outlives a connection. */
  datatype ClientState = ClientState(everRegistered: bool, bannerPending: bool, drawn: nat)

  datatype State = State(capReqSent: bool, capEndSent: bool, reached: bool, banner: bool, client: ClientState)

  // ---------- kinds of lines ----------

  datatype Kind = Ping | Cap | Welcome | NickInUse | Numeric | Privmsg | Notice | Other

  function KindOf(command: string): Kind {
    if command == "PING" then Ping
    else if command == "CAP" then Cap
    else if command == "001" then Welcome
    else if command == "433" then NickInUse
    else if |command| == 3 && IsDigit(command[0]) && IsDigit(command[1]) && IsDigit(command[2]) then Numeric
    else if command == "PRIVMSG" then Privmsg
    else if command == "NOTICE" then Notice
    else Other
  }

  predicate IsJoinError(command: string) {
    || command == "403" || command == "405" || command == "437" || command == "471"
    || command == "472" || command == "473" || command == "474" || command == "475"
    || command == "476" || command == "477" || command == "479"
  }

  predicate IsNames(command: string) {
    command == "353" || command == "366"
  }

  /** The end of the message of the day, or its absence. */
  predicate EndsBanner(command: string) {
    command == "376" || command == "422"
  }

  predicate Contains(s: string, pattern: string)
    decreases |s|
  {
    |pattern| <= |s| && (s[..|pattern|] == pattern || Contains(s[1..], pattern))
  }

  /** The last line of the server's capability list. */
  predicate Offers(rest: string) {
    Contains(rest, " LS ") && !Contains(rest, " LS * ")
  }

  predicate Answers(rest: string) {
    Contains(rest, " ACK ") || Contains(rest, " NAK ")
  }

  // ---------- what a line does ----------

  function SystemLine(text: string): Action {
    System(Cut(text, 1023))
  }

  function CapNotice(rest: string): seq<Action> {
    var colon := IndexOf(rest, ':');
    var caps := if colon < |rest| then rest[colon + 1..] else rest;
    if Answers(rest) then [SystemLine(Cut("Capabilities acknowledged: " + caps, 1199))]
    else if Contains(rest, " LS ") then [SystemLine(Cut("Capabilities supported: " + caps, 1199))]
    else []
  }

  function DropColon(s: string): string {
    if s != [] && s[0] == ':' then s[1..] else s
  }

  /** The readable part of a numeric reply. */
  function NumericText(rest: string): Action {
    SystemLine(DropColon(SkipSpaces(rest[IndexOf(rest, ' ')..])))
  }

  function Pong(rest: string): string {
    Cut("PONG " + if rest == [] then ":" else rest, 599)
  }

  function Join(channel: string): string {
    Cut("JOIN " + channel, 127)
  }

  function NickLine(nick: string): string {
    Cut("NICK " + nick, 127)
  }

  function CapStep(st: State, rest: string): (State, seq<Action>) {
    if !st.capReqSent && Offers(rest) then (st.(capReqSent := true), [Send(CAP_REQ)])
    else if st.capReqSent && !st.capEndSent && Answers(rest) then (st.(capEndSent := true), [Send(CAP_END)])
    else (st, [])
  }

  function NumericStep(st: State, m: Message): (State, seq<Action>) {
    if IsJoinError(m.command) then (st, [NumericText(m.rest)])
    else if IsNames(m.command) || !st.banner then (st, [])
    else
      (if EndsBanner(m.command) then st.(banner := false, client := st.client.(bannerPending := false)) else st,
       [NumericText(m.rest)])
  }

  function ChatLine(m: Message): seq<Action> {
    var sp := IndexOf(m.rest, ' ');
    if sp == |m.rest| then []
    else
      var text := DropColon(SkipSpaces(m.rest[sp + 1..]));
      [Chat(KindOf(m.command) == Notice, m.nick, Cut(m.rest[..sp], FIELD_MAX), m.msgid, Cut(text, 1023), m.time)]
  }

  function Act(st: State, m: Message, config: Config): (State, seq<Action>) {
    match KindOf(m.command)
    case Ping => (st, [Send(Pong(m.rest))])
    case Cap =>
      var (after, sends) := CapStep(st, m.rest);
      (after, sends + if st.banner then CapNotice(m.rest) else [])
    case Welcome =>
      (st.(reached := true, client := st.client.(everRegistered := true)),
       [Registered, Send(Join(config.channel))] + if st.banner then [NumericText(m.rest)] else [])
    case NickInUse =>
      (st.(client := st.client.(drawn := st.client.drawn + 1)), [Send(NickLine(config.nicks(st.client.drawn)))])
    case Numeric => NumericStep(st, m)
    case Privmsg => (st, ChatLine(m))
    case Notice => (st, ChatLine(m))
    case Other => (st, [])
  }

  function Handle(st: State, line: string, config: Config): (State, seq<Action>) {
    var m := Parse(line);
    if m.None? then (st, []) else Act(st, m.value, config)
  }

  /** The state after some lines. */
  function After(st: State, lines: seq<string>, config: Config): State {
    if lines == [] then st
    else Handle(After(st, lines[..|lines| - 1], config), lines[|lines| - 1], config).0
  }

  /** Everything done over some lines. */
  function Log(st: State, lines: seq<string>, config: Config): seq<Action> {
    if lines == [] then []
    else
      var before := lines[..|lines| - 1];
      Log(st, before, config) + Handle(After(st, before, config), lines[|lines| - 1], config).1
  }

  /** A connection at its start, and what it sends first. */
  function Opened(client: ClientState): State {
    State(false, false, false, client.bannerPending, client.(drawn := client.drawn + 1))
  }

  function Greeting(nick: string): seq<Action> {
    [Send("CAP LS 302"), Send(NickLine(nick)), Send(Cut("USER " + nick + " 0 * :MGT Unicorn Viewer", 191))]
  }

  // ---------- the connection ----------

  class Client {
    const config: Config
    var everRegistered: bool
    var bannerPending: bool
    var drawn: nat
    var log: seq<Action>

    constructor (config: Config, showBanner: bool)
      ensures this.config == config && State() == ClientState(false, showBanner, 0) && log == []
    {
      this.config := config;
      everRegistered, bannerPending, drawn, log := false, showBanner, 0, [];
    }

    ghost function State(): ClientState
      reads this
    {
      ClientState(everRegistered, bannerPending, drawn)
    }

    method Do(action: Action)
      modifies this`log
      ensures log == old(log) + [action]
    {
      log := log + [action];
    }

    method DrawNick() returns (nick: string)
      modifies this`drawn
      ensures nick == config.nicks(old(drawn)) && drawn == old(drawn) + 1
    {
      nick := config.nicks(drawn);
      drawn := drawn + 1;
    }
  }

  class Session {
    const client: Client
    const buffer: LineBuffer
    var capReqSent: bool
    var capEndSent: bool
    var reached: bool
    var banner: bool
    ghost const start: State
    ghost const logAtStart: seq<Action>

    ghost function Now(): State
      reads this, client
    {
      State(capReqSent, capEndSent, reached, banner, client.State())
    }

    /** State and log are those of the lines the stream so far amounts to. */
    ghost predicate Valid()
      reads this, client, buffer, buffer.acc
    {
      && buffer.Valid()
      && Now() == After(start, Handled(buffer.stream), client.config)
      && client.log == logAtStart + Log(start, Handled(buffer.stream), client.config)
    }

    constructor (client: Client)
      modifies client
      ensures Valid() && fresh(buffer) && fresh(buffer.acc) && this.client == client
      ensures buffer.stream == [] && start == Opened(old(client.State()))
      ensures logAtStart == old(client.log) + Greeting(client.config.nicks(old(client.drawn)))
    {
      this.client := client;
      capReqSent, capEndSent, reached, banner := false, false, false, client.bannerPending;
      buffer := new LineBuffer();
      start := Opened(client.State());
      logAtStart := client.log + Greeting(client.config.nicks(client.drawn));
      new;
      var nick := client.DrawNick();
      client.Do(Send("CAP LS 302"));
      client.Do(Send(NickLine(nick)));
      client.Do(Send(Cut("USER " + nick + " 0 * :MGT Unicorn Viewer", 191)));
    }

    method HandleCap(rest: string)
      modifies this`capReqSent, this`capEndSent, client`log
      ensures Now() == CapStep(old(Now()), rest).0
      ensures client.log == old(client.log) + CapStep(old(Now()), rest).1 + if banner then CapNotice(rest) else []
    {
      hide Contains, IndexOf;
      if !capReqSent && Contains(rest, " LS ") && !Contains(rest, " LS * ") {
        client.Do(Send(CAP_REQ));
        capReqSent := true;
      } else if capReqSent && !capEndSent && (Contains(rest, " ACK ") || Contains(rest, " NAK ")) {
        client.Do(Send(CAP_END));
        capEndSent := true;
      }
      if banner {
        var colon := IndexOf(rest, ':');
        var caps := if colon < |rest| then rest[colon + 1..] else rest;
        if Contains(rest, " ACK ") || Contains(rest, " NAK ") {
          client.Do(SystemLine(Cut("Capabilities acknowledged: " + caps, 1199)));
        } else if Contains(rest, " LS ") {
          client.Do(SystemLine(Cut("Capabilities supported: " + caps, 1199)));
        }
      }
    }

    method HandleNumeric(m: Message)
      modifies this`banner, client`log, client`bannerPending
      ensures Now() == NumericStep(old(Now()), m).0 && client.log == old(client.log) + NumericStep(old(Now()), m).1
    {
      hide NumericText;
      if IsJoinError(m.command) {
        client.Do(NumericText(m.rest));
        return;
      }
      if IsNames(m.command) { return; }
      if banner {
        client.Do(NumericText(m.rest));
        if EndsBanner(m.command) {
          banner := false;
          client.bannerPending := false;
        }
      }
    }

    method HandleLine(line: string)
      modifies this, client
      ensures Now() == Handle(old(Now()), line, client.config).0
      ensures client.log == old(client.log) + Handle(old(Now()), line, client.config).1
    {
      hide Parse, KindOf, NumericText, CapStep, NumericStep, CapNotice, Pong, Join, NickLine, Cut;
      var parsed := ParseLine(line);
      if parsed.None? { return; }
      var m := parsed.value;
      match KindOf(m.command) {
        case Ping => client.Do(Send(Pong(m.rest)));
        case Cap =>
          HandleCap(m.rest);
          Assoc(old(client.log), CapStep(old(Now()), m.rest).1, if banner then CapNotice(m.rest) else []);
        case Welcome =>
          reached, client.everRegistered := true, true;
          client.Do(Registered);
          client.Do(Send(Join(client.config.channel)));
          if banner { client.Do(NumericText(m.rest)); }
        case NickInUse =>
          var nick := client.DrawNick();
          client.Do(Send(NickLine(nick)));
        case Numeric => HandleNumeric(m);
        case Privmsg => HandleChat(m);
        case Notice => HandleChat(m);
        case Other =>
      }
    }

    method HandleChat(m: Message)
      modifies client`log
      ensures client.log == old(client.log) + ChatLine(m)
    {
      hide Cut, KindOf;
      var sp := IndexOf(m.rest, ' ');
      if sp == |m.rest| { return; }
      var text := AfterSpaces(m.rest[sp + 1..]);
      client.Do(Chat(KindOf(m.command) == Notice, m.nick, Cut(m.rest[..sp], FIELD_MAX), m.msgid,
                     Cut(DropColon(text), 1023), m.time));
    }

    /** Takes one received buffer. */
    method Receive(chunk: string)
      requires Valid()
      modifies this, client, buffer, buffer.acc
      ensures Valid() && buffer.stream == old(buffer.stream) + chunk
    {
      hide Handle, Handled;
      assert chunk[..0] == [];
      for i := 0 to |chunk|
        invariant Valid() && buffer.stream == old(buffer.stream) + chunk[..i]
      {
        PrefixSnoc(chunk, i);
        Assoc(old(buffer.stream), chunk[..i], [chunk[i]]);
        ghost var before := Handled(buffer.stream);
        var line := buffer.Push(chunk[i]);
        if line.Some? {
          Assoc(logAtStart, Log(start, before, client.config), Handle(Now(), line.value, client.config).1);
          AfterSnoc(start, before, line.value, client.config);
          HandleLine(line.value);
        } else {
          assert before + [] == before;
        }
      }
      assert chunk[..|chunk|] == chunk;
    }
  }

  lemma AfterSnoc(st: State, lines: seq<string>, line: string, config: Config)
    ensures After(st, lines + [line], config) == Handle(After(st, lines, config), line, config).0
    ensures Log(st, lines + [line], config) == Log(st, lines, config) + Handle(After(st, lines, config), line, config).1
  {
    hide Handle;
    assert (lines + [line])[..|lines|] == lines;
  }

  /** Runs a connection until the peer closes it. What it leaves behind depends on the
      bytes received, not on how they were cut into buffers. */
  method RunSession(client: Client, chunks: seq<string>) returns (reached: bool)
    modifies client
    ensures var start, lines := Opened(old(client.State())), Handled(Flatten(chunks));
      && reached == After(start, lines, client.config).reached
      && client.State() == After(start, lines, client.config).client
      && client.log == old(client.log) + Greeting(client.config.nicks(old(client.drawn))) + Log(start, lines, client.config)
  {
    hide After, Log, Handled;
    var s := new Session(client);
    var i: nat := 0;
    while i < |chunks|
      invariant i <= |chunks| && s.Valid() && s.client == client && fresh(s) && fresh(s.buffer) && fresh(s.buffer.acc)
      invariant s.buffer.stream == Flatten(chunks[..i])
    {
      PrefixSnoc(chunks, i);
      FlattenAppend(chunks[..i], [chunks[i]]);
      assert Flatten([chunks[i]]) == chunks[i];
      s.Receive(chunks[i]);
      i := i + 1;
    }
    assert chunks[..|chunks|] == chunks;
    reached := s.reached;
  }
}
