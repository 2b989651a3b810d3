/** The life of an IRC client: connecting, failing for good, or reconnecting with a
    growing wait. */
module IrcLifecycle {
  import opened Common
  import opened IrcLines
  import opened IrcMessages
  import opened IrcSession
  import opened IrcTranscript
  import Decimal

  const BACKOFF_MIN: nat := 2000
  const BACKOFF_MAX: nat := 30000
  const SLICE: nat := 200

  // ---------- what can happen ----------

  /** A connection attempt: refused with a reason, or the buffers received until the peer
      closed it or a stop was asked for. */
  datatype Link = NoLink(reason: string) | Link(chunks: seq<string>)
  {
    function Lines(): seq<string>
      requires Link?
    {
      Handled(Flatten(chunks))
    }
  }

  /** One pass of the worker: whether a stop is seen before it, after the attempt, or at
      which look during the wait. */
  datatype Round = Round(stopBefore: bool, link: Link, stopAfter: bool, stopInWait: Option<nat>)
  {
    ghost predicate Registers() {
      link.Link? && AnyWelcome(link.Lines())
    }

    ghost predicate Closes() {
      link.Link? && AnyClosing(link.Lines())
    }
  }

  datatype Life = Life(client: ClientState, backoff: nat, running: bool)

  // ---------- what the worker does ----------

  function Sleeps(n: nat): seq<Action> {
    if n == 0 then [] else Sleeps(n - 1) + [Slept(SLICE)]
  }

  /** How many times the worker looks for a stop during a wait. */
  function Looks(target: nat): nat {
    (target + SLICE - 1) / SLICE
  }

  function WaitSlices(target: nat, stop: Option<nat>): nat {
    if stop.Some? && stop.value < Looks(target) then stop.value else Looks(target)
  }

  function Doubled(backoff: nat): nat {
    if backoff * 2 > BACKOFF_MAX then BACKOFF_MAX else backoff * 2
  }

  /** The wait after a round: the life goes on unless a stop is seen. */
  function Wait(life: Life, stop: Option<nat>): (Life, seq<Action>) {
    (if stop.Some? && stop.value < Looks(life.backoff) then life.(running := false)
     else life.(backoff := Doubled(life.backoff)),
     Sleeps(WaitSlices(life.backoff, stop)))
  }

  predicate Announces(client: ClientState) {
    client.bannerPending && !client.everRegistered
  }

  function Dialing(config: Config): Action {
    SystemLine(Cut("Connecting to " + config.host + ":" + Decimal.Print(config.port) + " " + config.channel + "...", 399))
  }

  /** A connection from its greeting to its end. */
  function Connection(client: ClientState, lines: seq<string>, config: Config): (State, seq<Action>) {
    (After(Opened(client), lines, config),
     Greeting(config.nicks(client.drawn)) + Log(Opened(client), lines, config))
  }

  const CLOSED_EARLY := "Connection closed before registration"

  /** The round after its connection attempt. */
  function Concluded(life: Life, reached: bool, failure: string, r: Round): (Life, seq<Action>) {
    if r.stopAfter then (life.(running := false), [])
    else if !reached && !life.client.everRegistered then (life.(running := false), [Failed(Cut(failure, 1023))])
    else Wait(if reached then life.(backoff := BACKOFF_MIN) else life, r.stopInWait)
  }

  function RoundStep(life: Life, r: Round, config: Config): (Life, seq<Action>) {
    if !life.running then (life, [])
    else if r.stopBefore then (life.(running := false), [])
    else
      var dial := if Announces(life.client) then [Dialing(config)] else [];
      match r.link
      case NoLink(reason) =>
        var (end, log) := Concluded(life, false, reason, r);
        (end, dial + log)
      case Link(chunks) =>
        var (st, talk) := Connection(life.client, Handled(Flatten(chunks)), config);
        var (end, log) := Concluded(life.(client := st.client), st.reached, CLOSED_EARLY, r);
        (end, dial + ((if Announces(life.client) then [SystemLine("Connected")] else []) + talk + log))
  }

  function Born(showBanner: bool): Life {
    Life(ClientState(false, showBanner, 0), BACKOFF_MIN, true)
  }

  /** The life after some rounds. */
  function Lived(life: Life, script: seq<Round>, config: Config): Life {
    if script == [] then life
    else RoundStep(Lived(life, script[..|script| - 1], config), script[|script| - 1], config).0
  }

  /** All that is done in some rounds. */
  function Deeds(life: Life, script: seq<Round>, config: Config): seq<Action> {
    if script == [] then []
    else
      var before := script[..|script| - 1];
      Deeds(life, before, config) + RoundStep(Lived(life, before, config), script[|script| - 1], config).1
  }

  // ---------- the worker ----------

  class Worker {
    const client: Client
    var backoff: nat

    constructor (client: Client)
      ensures this.client == client && backoff == BACKOFF_MIN
    {
      this.client := client;
      backoff := BACKOFF_MIN;
    }

    ghost function Now(running: bool): Life
      reads this, client
    {
      Life(client.State(), backoff, running)
    }

    /** Waits in slices; false if a stop was seen. */
    method WaitBackoff(stop: Option<nat>) returns (goOn: bool)
      modifies this`backoff, client`log
      ensures Now(goOn) == Wait(old(Now(true)), stop).0
      ensures client.log == old(client.log) + Wait(old(Now(true)), stop).1
    {
      var target := backoff;
      var waited: nat, look: nat := 0, 0;
      assert old(client.log) + Sleeps(0) == old(client.log);
      while waited < target
        invariant waited == look * SLICE && look <= Looks(target)
        invariant stop.Some? ==> look <= stop.value || stop.value >= Looks(target)
        invariant backoff == target && client.State() == old(client.State())
        invariant client.log == old(client.log) + Sleeps(look)
      {
        if stop == Some(look) { return false; }
        Assoc(old(client.log), Sleeps(look), [Slept(SLICE)]);
        client.Do(Slept(SLICE));
        waited, look := waited + SLICE, look + 1;
      }
      backoff := backoff * 2;
      if backoff > BACKOFF_MAX { backoff := BACKOFF_MAX; }
      goOn := true;
    }

    /** One pass; false if it was the last. */
    method Step(r: Round) returns (goOn: bool)
      modifies this, client
      ensures Now(goOn) == RoundStep(old(Now(true)), r, client.config).0
      ensures client.log == old(client.log) + RoundStep(old(Now(true)), r, client.config).1
    {
      hide Handled, After, Log, Greeting, Wait, Cut, Decimal.Print, Dialing;
      ghost var log0 := client.log;
      if r.stopBefore { return false; }
      var announce := client.bannerPending && !client.everRegistered;
      if announce { client.Do(Dialing(client.config)); }
      ghost var dial := if announce then [Dialing(client.config)] else [];
      assert client.log == log0 + dial;
      match r.link {
        case NoLink(reason) =>
          goOn := Conclude(false, reason, r);
          Assoc(log0, dial, Concluded(old(Now(true)), false, reason, r).1);
        case Link(chunks) =>
          if announce { client.Do(SystemLine("Connected")); }
          ghost var up := if announce then [SystemLine("Connected")] else [];
          assert client.log == log0 + dial + up;
          var reached := Connect(chunks, log0 + dial, up);
          ghost var life := Now(true);
          ghost var talk := Connection(old(client.State()), Handled(Flatten(chunks)), client.config).1;
          goOn := Conclude(reached, CLOSED_EARLY, r);
          ghost var log := Concluded(life, reached, CLOSED_EARLY, r).1;
          Assoc(log0 + dial, up + talk, log);
          Assoc(log0, dial, up + talk + log);
      }
    }

    method Connect(chunks: seq<string>, ghost before: seq<Action>, ghost up: seq<Action>) returns (reached: bool)
      requires client.log == before + up
      modifies client
      ensures var c := Connection(old(client.State()), Handled(Flatten(chunks)), client.config);
        && reached == c.0.reached && client.State() == c.0.client
        && client.log == before + (up + c.1)
    {
      hide Handled, After, Log, Greeting;
      ghost var start, lines := Opened(client.State()), Handled(Flatten(chunks));
      ghost var greeting, log := Greeting(client.config.nicks(client.drawn)), Log(start, lines, client.config);
      reached := RunSession(client, chunks);
      Assoc(before + up, greeting, log);
      Assoc(before, up, greeting + log);
    }

    method Conclude(reached: bool, failure: string, r: Round) returns (goOn: bool)
      modifies this`backoff, client`log
      ensures Now(goOn) == Concluded(old(Now(true)), reached, failure, r).0
      ensures client.log == old(client.log) + Concluded(old(Now(true)), reached, failure, r).1
    {
      hide Wait, Cut;
      if r.stopAfter { return false; }
      if !reached && !client.everRegistered {
        client.Do(Failed(Cut(failure, 1023)));
        return false;
      }
      if reached { backoff := BACKOFF_MIN; }
      goOn := WaitBackoff(r.stopInWait);
    }
  }

  /** The worker over any number of rounds. */
  method Work(config: Config, showBanner: bool, script: seq<Round>) returns (client: Client)
    ensures fresh(client) && client.config == config
    ensures client.State() == Lived(Born(showBanner), script, config).client
    ensures client.log == Deeds(Born(showBanner), script, config)
  {
    hide RoundStep;
    client := new Client(config, showBanner);
    var w := new Worker(client);
    var running := true;
    var i: nat := 0;
    while i < |script| && running
      invariant i <= |script| && fresh(w) && fresh(client) && w.client == client && client.config == config
      invariant w.Now(running) == Lived(Born(showBanner), script[..i], config)
      invariant client.log == Deeds(Born(showBanner), script[..i], config)
    {
      PrefixSnoc(script, i);
      LivedSnoc(Born(showBanner), script[..i], script[i], config);
      running := w.Step(script[i]);
      i := i + 1;
    }
    assert script[..i] + script[i..] == script;
    if !running { Over(Born(showBanner), script[..i], script[i..], config); }
    assert i == |script| ==> script[..i] == script;
  }

  lemma LivedSnoc(life: Life, script: seq<Round>, r: Round, config: Config)
    ensures Lived(life, script + [r], config) == RoundStep(Lived(life, script, config), r, config).0
    ensures Deeds(life, script + [r], config) == Deeds(life, script, config) + RoundStep(Lived(life, script, config), r, config).1
  {
    hide RoundStep;
    assert (script + [r])[..|script|] == script;
  }

  /** A life that is over stays over. */
  lemma {:induction false} Over(life: Life, script: seq<Round>, more: seq<Round>, config: Config)
    requires !Lived(life, script, config).running
    ensures Lived(life, script + more, config) == Lived(life, script, config)
    ensures Deeds(life, script + more, config) == Deeds(life, script, config)
    decreases |more|
  {
    if more == [] {
      assert script + more == script;
    } else {
      var front, last := more[..|more| - 1], more[|more| - 1];
      Over(life, script, front, config);
      Assoc(script, front, [last]);
      assert more == front + [last];
      LivedSnoc(life, script + front, last, config);
      Over1(Lived(life, script, config), last, config);
    }
  }

  lemma Over1(life: Life, r: Round, config: Config)
    requires !life.running
    ensures RoundStep(life, r, config) == (life, [])
  {
  }

  // ---------- growing waits ----------

  /** The k-th wait in a row: two seconds, doubled each time, up to thirty. */
  function Delay(k: nat): nat {
    if k == 0 then BACKOFF_MIN else Doubled(Delay(k - 1))
  }

  function Pow2(k: nat): nat {
    if k == 0 then 1 else 2 * Pow2(k - 1)
  }

  lemma {:induction false} DelayIsCappedDoubling(k: nat)
    ensures Delay(k) == if 2000 * Pow2(k) > 30000 then 30000 else 2000 * Pow2(k)
    ensures Delay(k) % SLICE == 0
  {
    if k > 0 { DelayIsCappedDoubling(k - 1); }
  }

  /** How many waits there have been since the last registered connection ended. */
  ghost function Waits(script: seq<Round>): nat {
    if script == [] then 0
    else if script[|script| - 1].Registers() then 1
    else Waits(script[..|script| - 1]) + 1
  }

  ghost predicate AnyCloses(script: seq<Round>) {
    exists i :: 0 <= i < |script| && script[i].Closes()
  }

  lemma ClosesSnoc(script: seq<Round>, r: Round)
    ensures AnyCloses(script + [r]) <==> AnyCloses(script) || r.Closes()
  {
    var all := script + [r];
    assert all[|script|] == r && forall i :: 0 <= i < |script| ==> all[i] == script[i];
    if AnyCloses(script) {
      var i :| 0 <= i < |script| && script[i].Closes();
      assert all[i].Closes();
    }
  }

  /** What one round that goes on does to a life. */
  lemma RoundGoesOn(life: Life, r: Round, config: Config)
    requires life.running && RoundStep(life, r, config).0.running
    ensures var next := RoundStep(life, r, config).0;
      && (life.client.everRegistered || r.Registers()) && next.client.everRegistered
      && next.client.bannerPending == (life.client.bannerPending && !r.Closes())
      && next.backoff == Doubled(if r.Registers() then BACKOFF_MIN else life.backoff)
  {
    hide Handled, After, Log, AnyWelcome, AnyClosing, Cut, Dialing, Sleeps, Greeting;
    if r.link.Link? { BannerUntilClosed(Opened(life.client), r.link.Lines(), config); }
  }

  /** A life that goes on after some rounds: it registered in the very first of them, its
      banner is open unless a round closed it, and the next wait is the next in a row. */
  lemma {:induction false} Alive(showBanner: bool, script: seq<Round>, config: Config)
    requires Lived(Born(showBanner), script, config).running
    ensures var life := Lived(Born(showBanner), script, config);
      && life.client.everRegistered == (script != [])
      && life.client.bannerPending == (showBanner && !AnyCloses(script))
      && life.backoff == Delay(Waits(script))
    ensures script != [] ==> script[0].Registers()
    decreases |script|
  {
    hide RoundStep, AnyCloses;
    if script != [] {
      var front, r := script[..|script| - 1], script[|script| - 1];
      assert script == front + [r];
      var life := Lived(Born(showBanner), front, config);
      if !life.running { Over1(life, r, config); }
      Alive(showBanner, front, config);
      RoundGoesOn(life, r, config);
      ClosesSnoc(front, r);
      assert front != [] ==> script[0] == front[0];
      assert Delay(1) == Doubled(BACKOFF_MIN);
    } else {
      assert !AnyCloses([]) by { NoneCloses(); }
    }
  }

  lemma NoneCloses()
    ensures !AnyCloses([])
  {
  }

  // ---------- failing and sleeping ----------

  function Failures(log: seq<Action>): seq<Action> {
    if log == [] then [] else (if log[0].Failed? then [log[0]] else []) + Failures(log[1..])
  }

  function TimeSlept(log: seq<Action>): nat {
    if log == [] then 0 else (if log[0].Slept? then log[0].ms else 0) + TimeSlept(log[1..])
  }

  lemma {:induction false} FilterAppend(a: seq<Action>, b: seq<Action>)
    ensures Failures(a + b) == Failures(a) + Failures(b) && TimeSlept(a + b) == TimeSlept(a) + TimeSlept(b)
  {
    if a == [] {
      assert a + b == b;
    } else {
      assert (a + b)[0] == a[0] && (a + b)[1..] == a[1..] + b;
      FilterAppend(a[1..], b);
      Assoc(if a[0].Failed? then [a[0]] else [], Failures(a[1..]), Failures(b));
    }
  }

  /** Neither a failure nor a wait. */
  ghost predicate Plain(log: seq<Action>) {
    forall i :: 0 <= i < |log| ==> !log[i].Failed? && !log[i].Slept?
  }

  lemma {:induction false} PlainLogs(log: seq<Action>)
    requires Plain(log)
    ensures Failures(log) == [] && TimeSlept(log) == 0
    decreases |log|
  {
    if log != [] { PlainLogs(log[1..]); }
  }

  lemma PlainLine(st: State, line: string, config: Config)
    ensures Plain(Handle(st, line, config).1)
  {
    hide Parse, KindOf, Contains, Pong, Join, NickLine, IndexOf, Cut, SkipSpaces, DropColon, IsJoinError, IsNames;
  }

  lemma {:induction false} PlainTalk(st: State, lines: seq<string>, config: Config)
    ensures Plain(Log(st, lines, config))
    decreases |lines|
  {
    hide Handle;
    if lines != [] {
      var front := lines[..|lines| - 1];
      PlainTalk(st, front, config);
      PlainLine(After(st, front, config), lines[|lines| - 1], config);
    }
  }

  lemma {:induction false} SleepsTime(n: nat)
    ensures Failures(Sleeps(n)) == [] && TimeSlept(Sleeps(n)) == n * SLICE
  {
    if n > 0 {
      SleepsTime(n - 1);
      FilterAppend(Sleeps(n - 1), [Slept(SLICE)]);
      assert [Slept(SLICE)][1..] == [];
    }
  }

  /** Whether a round comes to its end with no stop seen. */
  ghost predicate Unstopped(r: Round) {
    !r.stopBefore && !r.stopAfter
  }

  ghost function ReasonOf(r: Round): Action {
    Failed(Cut(if r.link.NoLink? then r.link.reason else CLOSED_EARLY, 1023))
  }

  /** What is done before the end of a round. */
  ghost function Preamble(life: Life, r: Round, config: Config): seq<Action> {
    if !life.running || r.stopBefore then []
    else
      (if Announces(life.client) then [Dialing(config)] else []) +
      (if r.link.NoLink? then []
       else (if Announces(life.client) then [SystemLine("Connected")] else []) +
            Connection(life.client, r.link.Lines(), config).1)
  }

  /** A round is its preamble, all plain, and then one of: nothing after a stop, the
      failure of a client that never registered, or the wait. */
  lemma RoundDeeds(life: Life, r: Round, config: Config)
    requires life.running
    ensures var step, pre := RoundStep(life, r, config), Preamble(life, r, config);
      && Plain(pre)
      && (if !Unstopped(r) then step.1 == pre && !step.0.running
          else if !r.Registers() && !life.client.everRegistered then step.1 == pre + [ReasonOf(r)] && !step.0.running
          else
            var target := if r.Registers() then BACKOFF_MIN else life.backoff;
            && step.1 == pre + Sleeps(WaitSlices(target, r.stopInWait))
            && (step.0.running <==> r.stopInWait.None? || r.stopInWait.value >= Looks(target)))
  {
    hide Handled, After, Log, AnyWelcome, AnyClosing, Cut, Decimal.Print, Sleeps, NickLine;
    if r.link.Link? && !r.stopBefore {
      var start, lines := Opened(life.client), r.link.Lines();
      BannerUntilClosed(start, lines, config);
      PlainTalk(start, lines, config);
      var dial, up, talk := if Announces(life.client) then [Dialing(config)] else [],
        if Announces(life.client) then [SystemLine("Connected")] else [], Connection(life.client, lines, config).1;
      var end := Concluded(life.(client := After(start, lines, config).client), After(start, lines, config).reached, CLOSED_EARLY, r).1;
      Assoc(dial, up + talk, end);
      assert dial + ((up + talk) + []) == dial + (up + talk);
    }
  }

  lemma SlicesTime(target: nat, stop: Option<nat>)
    requires target % SLICE == 0
    ensures WaitSlices(target, stop) * SLICE ==
      if stop.Some? && stop.value * SLICE < target then stop.value * SLICE else target
    ensures stop.Some? ==> (stop.value < Looks(target) <==> stop.value * SLICE < target)
  {
    assert Looks(target) * SLICE == target;
  }

  /** The wait after a round that is not stopped is the next in a row, or the first after
      a registered connection, unless a stop is seen on the way, which ends the worker. */
  lemma WaitsGrow(showBanner: bool, script: seq<Round>, r: Round, config: Config)
    requires Lived(Born(showBanner), script, config).running
    requires Unstopped(r) && (script != [] || r.Registers())
    ensures var k := if r.Registers() then 0 else Waits(script);
      TimeSlept(RoundStep(Lived(Born(showBanner), script, config), r, config).1) ==
        if r.stopInWait.Some? && r.stopInWait.value * 200 < Delay(k) then r.stopInWait.value * 200 else Delay(k)
    ensures var k := if r.Registers() then 0 else Waits(script);
      RoundStep(Lived(Born(showBanner), script, config), r, config).0.running <==>
        r.stopInWait.None? || r.stopInWait.value * 200 >= Delay(k)
  {
    hide RoundStep, Preamble, Lived, Sleeps, TimeSlept, Delay, AnyCloses, AnyWelcome, Handled, WaitSlices, Pow2, Failures;
    var life, k := Lived(Born(showBanner), script, config), if r.Registers() then 0 else Waits(script);
    Alive(showBanner, script, config);
    RoundDeeds(life, r, config);
    FirstDelay();
    var n := WaitSlices(Delay(k), r.stopInWait);
    FilterAppend(Preamble(life, r, config), Sleeps(n));
    PlainLogs(Preamble(life, r, config));
    SleepsTime(n);
    DelayIsCappedDoubling(k);
    SlicesTime(Delay(k), r.stopInWait);
  }

  lemma FirstDelay()
    ensures Delay(0) == BACKOFF_MIN
  {
  }

  ghost predicate FailsToRegister(r: Round) {
    Unstopped(r) && !r.Registers()
  }

  lemma {:induction false} FailuresOf(showBanner: bool, script: seq<Round>, config: Config)
    requires script != []
    ensures Failures(Deeds(Born(showBanner), script, config)) ==
      if FailsToRegister(script[0]) then [ReasonOf(script[0])] else []
    decreases |script|
  {
    hide RoundStep, Preamble, Sleeps, Failures, TimeSlept, FailsToRegister, ReasonOf, AnyCloses, AnyWelcome, Handled, Delay, Waits;
    var front, r := script[..|script| - 1], script[|script| - 1];
    var life := Lived(Born(showBanner), front, config);
    FilterAppend(Deeds(Born(showBanner), front, config), RoundStep(life, r, config).1);
    if life.running {
      Alive(showBanner, front, config);
      RoundFailures(life, r, config);
    } else {
      Over1(life, r, config);
      PlainLogs([]);
    }
    if front != [] {
      FailuresOf(showBanner, front, config);
      assert script[0] == front[0];
      if life.running { RegisteredIsNoFailure(script[0]); }
    } else {
      PlainLogs([]);
      assert r == script[0];
    }
  }

  lemma RegisteredIsNoFailure(r: Round)
    requires r.Registers()
    ensures !FailsToRegister(r)
  {
  }

  lemma RoundFailures(life: Life, r: Round, config: Config)
    requires life.running
    ensures Failures(RoundStep(life, r, config).1) ==
      if FailsToRegister(r) && !life.client.everRegistered then [ReasonOf(r)] else []
  {
    hide RoundStep, Preamble, Sleeps, AnyWelcome, Handled, Cut;
    RoundDeeds(life, r, config);
    var pre := Preamble(life, r, config);
    PlainLogs(pre);
    FilterAppend(pre, [ReasonOf(r)]);
    assert [ReasonOf(r)][1..] == [];
    var n := WaitSlices(if r.Registers() then BACKOFF_MIN else life.backoff, r.stopInWait);
    FilterAppend(pre, Sleeps(n));
    SleepsTime(n);
  }

  /** A failure is reported exactly when the first round fails to register and no stop is
      seen; then once, as the last thing the worker does. */
  lemma FailureIsFinal(showBanner: bool, script: seq<Round>, config: Config)
    requires script != []
    ensures var log := Deeds(Born(showBanner), script, config);
      && Failures(log) == (if FailsToRegister(script[0]) then [ReasonOf(script[0])] else [])
      && (FailsToRegister(script[0]) ==>
        && log != [] && log[|log| - 1] == ReasonOf(script[0])
        && !Lived(Born(showBanner), script, config).running)
  {
    hide RoundStep, Preamble, Failures, ReasonOf, AnyWelcome, Handled;
    FailuresOf(showBanner, script, config);
    if FailsToRegister(script[0]) {
      var born, first, rest := Born(showBanner), script[..1], script[1..];
      assert script == first + rest && first == [] + [script[0]];
      LivedSnoc(born, [], script[0], config);
      RoundDeeds(born, script[0], config);
      Over(born, first, rest, config);
      assert [] + RoundStep(born, script[0], config).1 == RoundStep(born, script[0], config).1;
    }
  }

  // ---------- the banner over reconnects ----------

  /** A connection is given the banner exactly when it was asked for and none before it
      got as far as the end of the message of the day. */
  lemma BannerOfConnection(showBanner: bool, script: seq<Round>, config: Config)
    requires Lived(Born(showBanner), script, config).running
    ensures Opened(Lived(Born(showBanner), script, config).client).banner == (showBanner && !AnyCloses(script))
  {
    hide Lived, AnyCloses, Delay, Waits;
    Alive(showBanner, script, config);
  }

  lemma {:induction false} SleepsShowNothing(n: nat)
    ensures Shown(Sleeps(n)) == []
  {
    if n > 0 {
      SleepsShowNothing(n - 1);
      ShownAppend(Sleeps(n - 1), [Slept(SLICE)]);
      assert [Slept(SLICE)][1..] == [];
    }
  }

  lemma GreetingShowsNothing(nick: string)
    ensures Shown(Greeting(nick)) == []
  {
    hide NickLine, Cut, Shown;
    var g := Greeting(nick);
    assert g == [g[0]] + [g[1]] + [g[2]];
    ShownAppend([g[0]] + [g[1]], [g[2]]);
    ShownAppend([g[0]], [g[1]]);
    ShownOne(g[0]);
    ShownOne(g[1]);
    ShownOne(g[2]);
  }

  /** After the banner has been closed once, a reconnection shows nothing of what the
      server says but refusals to join. */
  lemma ReconnectsStayQuiet(showBanner: bool, script: seq<Round>, r: Round, config: Config)
    requires Lived(Born(showBanner), script, config).running && AnyCloses(script)
    ensures Shown(RoundStep(Lived(Born(showBanner), script, config), r, config).1) ==
      if r.stopBefore || r.link.NoLink? then [] else Refusals(r.link.Lines())
  {
    hide RoundStep, Lived, Sleeps, AnyWelcome, Handled, AnyCloses, Delay, Waits, Refusals, Shown, Log, After, Greeting;
    var life := Lived(Born(showBanner), script, config);
    Alive(showBanner, script, config);
    RoundDeeds(life, r, config);
    SomeRound(script);
    var pre := Preamble(life, r, config);
    ShownNothing();
    if r.link.Link? && !r.stopBefore {
      var lines := r.link.Lines();
      var greeting, talk := Greeting(config.nicks(life.client.drawn)), Log(Opened(life.client), lines, config);
      assert pre == greeting + talk;
      ShownAppend(greeting, talk);
      GreetingShowsNothing(config.nicks(life.client.drawn));
      QuietAfterBanner(Opened(life.client), lines, config);
      assert [] + Refusals(lines) == Refusals(lines);
    } else {
      assert pre == [];
    }
    var n := WaitSlices(if r.Registers() then BACKOFF_MIN else life.backoff, r.stopInWait);
    ShownAppend(pre, Sleeps(n));
    SleepsShowNothing(n);
    assert Shown(pre) + [] == Shown(pre);
  }

  lemma SomeRound(script: seq<Round>)
    requires AnyCloses(script)
    ensures script != []
  {
  }

  /** A first connection that registers and is dropped before the end of the message of
      the day: the reconnection is a banner session again. */
  lemma ReconnectCanShowBanner(config: Config)
    ensures var welcome := PrintLine("s", "001", "u :Hi");
      var life := Lived(Born(true), [Round(false, Link([Wire([welcome])]), false, None)], config);
      life.running && life.client.everRegistered && Opened(life.client).banner
  {
    hide RoundStep, Handled, Wire, Parse, PrintLine, Delay;
    var welcome := PrintLine("s", "001", "u :Hi");
    LineRoundTrip("s", "001", "u :Hi");
    WelcomeIsSendable();
    LinesArrive([welcome]);
    assert Flatten([Wire([welcome])]) == Wire([welcome]) + [] == Wire([welcome]);
    var r := Round(false, Link([Wire([welcome])]), false, None);
    assert r.link.Lines() == [welcome];
    assert Has(welcome, "001") && !Closing(welcome);
    assert r.link.Lines()[0] == welcome;
    assert r.Registers() && !r.Closes();
    RoundDeeds(Born(true), r, config);
    Goes(Born(true), r, config);
    RoundGoesOn(Born(true), r, config);
    LivedSnoc(Born(true), [], r, config);
    assert [] + [r] == [r];
  }

  lemma WelcomeIsSendable()
    ensures Sendable(PrintLine("s", "001", "u :Hi"))
  {
    assert PrintLine("s", "001", "u :Hi") == ":s 001 u :Hi";
  }

  /** A round with no stop that registers goes on. */
  lemma Goes(life: Life, r: Round, config: Config)
    requires life.running && Unstopped(r) && r.stopInWait.None? && r.Registers()
    ensures RoundStep(life, r, config).0.running
  {
    hide Handled, After, Log, AnyWelcome, AnyClosing, Cut, Dialing, Sleeps, Greeting;
    BannerUntilClosed(Opened(life.client), r.link.Lines(), config);
  }

  // ---------- what the first round says ----------

  /** The first round of a banner client says where it connects, and that it is connected
      if it is, before it greets the server. A round of a client without the banner, or a
      later round, greets it at once. */
  lemma AnnouncedIff(showBanner: bool, script: seq<Round>, r: Round, config: Config)
    requires Lived(Born(showBanner), script, config).running && !r.stopBefore
    ensures var life, log := Lived(Born(showBanner), script, config), RoundStep(Lived(Born(showBanner), script, config), r, config).1;
      var text := "Connecting to " + config.host + ":" + Decimal.Print(config.port) + " " + config.channel + "...";
      var line := if |text| > 399 then text[..399] else text;
      var greeting := Greeting(config.nicks(life.client.drawn));
      if script == [] && showBanner then
        (if r.link.Link? then [SystemLine(line), SystemLine("Connected")] + greeting else [SystemLine(line)]) <= log
      else r.link.Link? ==> greeting <= log
  {
    hide RoundStep, Lived, Decimal.Print, Handled, AnyCloses, Delay, Waits, AnyWelcome, Sleeps, Greeting, Log;
    Alive(showBanner, script, config);
    var life := Lived(Born(showBanner), script, config);
    RoundDeeds(life, r, config);
    if script == [] { NoneCloses(); }
    var pre := Preamble(life, r, config);
    assert pre <= RoundStep(life, r, config).1;
  }

  /** Why a client that never registered gives up: the reason the connection was refused,
      or that it closed. */
  lemma FailureText(r: Round)
    ensures r.link.Link? ==> ReasonOf(r) == Failed("Connection closed before registration")
    ensures r.link.NoLink? && |r.link.reason| <= 1023 ==> ReasonOf(r) == Failed(r.link.reason)
  {
  }
}
