/** The paste feeder: types a pasted listing into the keyboard queue a little on
    every tick, leaving eight places for whatever the user types meanwhile. */
module PasteFeeder {
  import opened Common
  import opened KeyRing

  const CR: Byte := 13
  const LF: Byte := 10
  const TAB: Byte := 9
  const RESERVE := 8

  /** The scan code of a character on the keyboard layout in use. */
  type Layout = Byte -> Byte

  function PasteKey(scan: Layout, c: Byte): Option<Key> {
    if c == CR || c == LF then Some(0x1C0D)
    else if c == TAB then Some(0x0F09)
    else if c < 32 || c >= 127 then None
    else Some(scan(c) * 256 + c)
  }

  /** A key word has its scan code in the high half and its character in the low: Enter and
      Tab have those of the keyboard, printable ASCII that of the layout, and no other
      character is typed. */
  lemma KeyWords(scan: Layout, c: Byte)
    ensures var k := PasteKey(scan, c);
      && (k.Some? <==> c in {9, 10, 13} || 32 <= c <= 126)
      && (k.Some? ==> k.value % 256 == if c == 10 then 13 else c)
      && (k.Some? ==> k.value / 256 == if c == 10 || c == 13 then 28 else if c == 9 then 15 else scan(c))
  {
  }

  function OptionalKey(k: Option<Key>): seq<Key> {
    if k.Some? then [k.value] else []
  }

  /** The keystrokes a text stands for: a CR directly before an LF is not typed. */
  function Keys(scan: Layout, text: seq<Byte>): seq<Key> {
    if text == [] then []
    else if text[0] == CR && |text| > 1 && text[1] == LF then Keys(scan, text[1..])
    else OptionalKey(PasteKey(scan, text[0])) + Keys(scan, text[1..])
  }

  /** The text with every CR LF pair replaced by one LF. */
  function UnixLines(text: seq<Byte>): seq<Byte> {
    if text == [] then []
    else if |text| > 1 && text[0] == CR && text[1] == LF then [LF] + UnixLines(text[2..])
    else [text[0]] + UnixLines(text[1..])
  }

  function KeyPerByte(scan: Layout, text: seq<Byte>): seq<Key> {
    if text == [] then [] else OptionalKey(PasteKey(scan, text[0])) + KeyPerByte(scan, text[1..])
  }

  /** What is typed is the listing with CR LF line ends made LF, one keystroke a
      character, so a CR LF is one Enter. */
  lemma {:induction false} KeysAreOneEnterPerLine(scan: Layout, text: seq<Byte>)
    ensures Keys(scan, text) == KeyPerByte(scan, UnixLines(text))
    decreases |text|
  {
    if text == [] {
    } else if |text| > 1 && text[0] == CR && text[1] == LF {
      KeysAreOneEnterPerLine(scan, text[2..]);
      assert text[1..][1..] == text[2..];
      assert UnixLines(text)[1..] == UnixLines(text[2..]);
    } else {
      KeysAreOneEnterPerLine(scan, text[1..]);
      assert UnixLines(text)[1..] == UnixLines(text[1..]);
    }
  }

  /** How the keys of the two threads came to interleave: burst by burst, theirs
      first and then ours. */
  datatype Merge = Nothing | Then(before: Merge, burst: seq<Key>, typed: seq<Key>)
  {
    /** Everything, in the order it was pushed. */
    function All(): seq<Key> {
      if Nothing? then [] else before.All() + (burst + typed)
    }

    /** The keys this feeder typed. */
    function Ours(): seq<Key> {
      if Nothing? then [] else before.Ours() + typed
    }

    /** The keys of the other thread. */
    function Theirs(): seq<Key> {
      if Nothing? then [] else before.Theirs() + burst
    }

    /** This interleaving followed by another. */
    function Join(after: Merge): Merge {
      if after.Nothing? then this else Then(Join(after.before), after.burst, after.typed)
    }

    lemma {:induction false} Sizes()
      ensures |All()| == |Ours()| + |Theirs()|
      ensures multiset(All()) == multiset(Ours()) + multiset(Theirs())
    {
      if Then? { before.Sizes(); }
    }

    lemma Empty()
      requires Nothing?
      ensures All() == Ours() == Theirs() == []
    {
    }

    lemma Extended(burst: seq<Key>, typed: seq<Key>)
      ensures Then(this, burst, typed).All() == All() + (burst + typed)
      ensures Then(this, burst, typed).Ours() == Ours() + typed && Then(this, burst, typed).Theirs() == Theirs() + burst
    {
    }

    lemma {:induction false} JoinParts(after: Merge)
      ensures Join(after).All() == All() + after.All()
      ensures Join(after).Ours() == Ours() + after.Ours() && Join(after).Theirs() == Theirs() + after.Theirs()
      decreases after
    {
      if after.Then? {
        JoinParts(after.before);
        Assoc(All(), after.before.All(), after.burst + after.typed);
        Assoc(Ours(), after.before.Ours(), after.typed);
        Assoc(Theirs(), after.before.Theirs(), after.burst);
      }
    }
  }

  /** The paste in progress, if any, and how far it has been typed. */
  class Feeder {
    const scan: Layout
    var paste: Option<seq<Byte>>
    var pos: nat

    ghost predicate Valid()
      reads this
    {
      if paste.Some? then pos <= |paste.value| else pos == 0
    }

    /** The keystrokes still to be typed. */
    ghost function Pending(): seq<Key>
      reads this
      requires Valid()
    {
      if paste.Some? then Keys(scan, paste.value[pos..]) else []
    }

    constructor (scan: Layout)
      ensures Valid() && Pending() == [] && this.scan == scan
    {
      this.scan := scan;
      paste, pos := None, 0;
    }

    method Paste(text: seq<Byte>)
      modifies this
      ensures Valid() && Pending() == Keys(scan, text)
    {
      paste, pos := Some(text), 0;
      assert text[0..] == text;
    }

    /** One pass of the feeding loop: consumes one character of the paste and pushes
        the keystroke it stands for, if it stands for one. */
    method TypeNext(ring: Ring) returns (typed: seq<Key>)
      requires Valid() && ring.Valid()
      requires paste.Some? && pos < |paste.value|
      modifies this`pos, ring`tail, ring`queue, ring.slots
      ensures Valid() && ring.Valid() && pos == old(pos) + 1
      ensures |typed| <= 1 && old(Pending()) == typed + Pending()
      ensures |old(ring.State()).queue| < 63 ==>
                ring.State() == KeyState(old(ring.State()).queue + typed, old(ring.State()).visible)
    {
      var text := paste.value;
      var c := text[pos];
      assert text[pos..][0] == c && text[pos..][1..] == text[pos + 1..];
      pos := pos + 1;
      typed := [];
      if c == CR && pos < |text| && text[pos] == LF {
        return;
      }
      var k := PasteKey(scan, c);
      if k.Some? {
        ring.Push(k.value);
        typed := [k.value];
      }
    }

    /** What the two threads do to the queue during one pass. */
    method Pass(ring: Ring, burst: seq<Key>) returns (typed: seq<Key>)
      requires Valid() && ring.Valid()
      requires paste.Some? && pos < |paste.value|
      modifies this`pos, ring`tail, ring`queue, ring.slots
      ensures Valid() && ring.Valid() && pos == old(pos) + 1
      ensures |typed| <= 1 && old(Pending()) == typed + Pending()
      ensures |old(ring.State()).queue| + |burst| < CAPACITY ==>
                ring.State() == KeyState(old(ring.State()).queue + (burst + typed), old(ring.State()).visible)
    {
      ghost var q := ring.State().queue;
      PushAll(ring, burst);
      typed := TypeNext(ring);
      Assoc(q, burst, typed);
    }

    /** The loop of a feed that found `room` places free. Meanwhile the typing thread
        pushes some of its own keys `foreign`, at any moments whatever. */
    method TypeSome(ring: Ring, room: nat, foreign: seq<Key>) returns (ghost log: Merge)
      requires Valid() && ring.Valid() && paste.Some? && room + |ring.State().queue| == CAPACITY
      modifies this`pos, ring`tail, ring`queue, ring.slots
      ensures Valid() && ring.Valid()
      ensures old(Pending()) == log.Ours() + Pending()
      ensures log.Theirs() <= foreign
      ensures |foreign| <= RESERVE ==>
                ring.State() == KeyState(old(ring.State()).queue + log.All(), old(ring.State()).visible)
      ensures pos == |paste.value| || room - |log.Ours()| <= RESERVE
      ensures |log.Ours()| == 0 || room - |log.Ours()| >= RESERVE
      ensures room > RESERVE ==> pos > old(pos) || pos == |paste.value|
    {
      hide Keys, Merge.All, Merge.Ours, Merge.Theirs;
      log := Nothing;
      log.Empty();
      var left, taken: nat := room, 0;
      while pos < |paste.value| && left > RESERVE
        invariant Valid() && ring.Valid() && pos >= old(pos)
        invariant |log.Ours()| == room - left && (left >= RESERVE || left == room)
        invariant pos == old(pos) ==> left == room
        invariant taken <= |foreign| && log.Theirs() == foreign[..taken]
        invariant old(Pending()) == log.Ours() + Pending()
        invariant |foreign| <= RESERVE ==>
                    ring.State() == KeyState(old(ring.State()).queue + log.All(), old(ring.State()).visible)
      {
        var more: nat :| taken + more <= |foreign|;
        var burst := foreign[taken..taken + more];
        SliceStep(foreign, taken, more);
        log.Sizes();
        var typed := Pass(ring, burst);
        Assoc(old(ring.State()).queue, log.All(), burst + typed);
        Assoc(log.Ours(), typed, Pending());
        log.Extended(burst, typed);
        log := Then(log, burst, typed);
        left, taken := left - |typed|, taken + more;
      }
    }

    /** One tick's feeding, while the typing thread pushes keys from `foreign`; `log`
        is how the keys of the two interleaved. */
    method Feed(ring: Ring, foreign: seq<Key>) returns (done: bool, ghost log: Merge)
      requires Valid() && ring.Valid()
      modifies this, ring`tail, ring`queue, ring.slots
      ensures Valid() && ring.Valid()
      ensures done <==> old(paste).Some? && paste.None?
      ensures paste.Some? ==> paste == old(paste)
      // with room and with text waiting, every feed moves on
      ensures old(paste).Some? && 63 - |old(ring.State()).queue| > 8 ==> paste.None? || pos > old(pos)
      // the feeder types what comes next in the listing, as much as leaves the
      // reserve free
      ensures old(Pending()) == log.Ours() + Pending()
      ensures IsFedTo(|log.Ours()|, |old(ring.State()).queue|, |old(Pending())|)
      ensures log.Theirs() <= foreign
      // with at most eight foreign keys nothing is lost, neither theirs nor ours
      ensures |foreign| <= 8 ==>
                ring.State() == KeyState(old(ring.State()).queue + log.All(), old(ring.State()).visible)
    {
      var room := ring.Room();
      done, log := false, Nothing;
      if paste.None? {
        return;
      }
      log := TypeSome(ring, room, foreign);
      done := pos >= |paste.value|;
      if done {
        assert paste.value[pos..] == [];
        paste, pos := None, 0;
      }
    }
  }

  lemma SliceStep<T>(s: seq<T>, i: nat, n: nat)
    requires i + n <= |s|
    ensures s[..i] + s[i..i + n] == s[..i + n]
  {
  }

  /** How many of the keys still to be typed go to a queue that holds some: all that leave
      eight of its 63 places free. */
  ghost predicate IsFedTo(n: nat, stored: nat, pending: nat) {
    var room := 63 - stored - 8;
    n == if room < 0 then 0 else if room < pending then room else pending
  }

  /** The other thread typing, one locked push at a time. */
  method PushAll(ring: Ring, burst: seq<Key>)
    requires ring.Valid()
    modifies ring`tail, ring`queue, ring.slots
    ensures ring.Valid()
    ensures |old(ring.State()).queue| + |burst| <= CAPACITY ==>
              ring.State() == KeyState(old(ring.State()).queue + burst, old(ring.State()).visible)
  {
    ghost var q0 := ring.State();
    assert q0.queue + [] == q0.queue;
    for i := 0 to |burst|
      invariant ring.Valid()
      invariant |q0.queue| + |burst| <= CAPACITY ==> ring.State() == KeyState(q0.queue + burst[..i], q0.visible)
    {
      ring.Push(burst[i]);
      Assoc(q0.queue, burst[..i], [burst[i]]);
      assert burst[..i + 1] == burst[..i] + [burst[i]];
    }
    assert burst[..|burst|] == burst;
  }

  // ---------- between the feeds ----------

  /** A ledger that starts with a queue as it is. */
  ghost function From(state: KeyState): Ledger {
    EMPTY.(state := state)
  }

  /** One operation of either thread. `taken` is what the guest reads, `gone` what leaves
      the queue, and `log` the key that enters it, if one does. */
  method Do(ring: Ring, e: Event) returns (taken: seq<Key>, ghost gone: seq<Key>, ghost log: Merge)
    requires ring.Valid()
    modifies ring`head, ring`tail, ring`visible, ring`queue, ring.slots
    ensures ring.Valid()
    ensures var s := old(ring.State()); var next := Step(From(s), e);
      ring.State() == next.state && log.All() == next.accepted && log.Ours() == []
    ensures old(ring.State()).queue + log.All() == gone + ring.State().queue
    ensures if e == Clear then taken == [] else taken == gone
  {
    ghost var q := ring.State().queue;
    taken, gone, log := [], [], Nothing;
    match e {
      case Push(k) =>
        if |q| < CAPACITY { log := Then(Nothing, [k], []); }
        ring.Push(k);
      case Deliver =>
        var did := ring.Deliver();
      case Peek =>
        var k := ring.Peek();
      case Pop =>
        var k := ring.Pop();
        taken := OptionalKey(k);
        gone := taken;
        if k.Some? { assert q == [q[0]] + q[1..]; }
      case Clear =>
        gone := q;
        ring.Clear();
    }
    assert q + log.All() == gone + ring.State().queue;
  }

  /** Any operations of the two threads while the guest runs. */
  method Between(ring: Ring, run: seq<Event>) returns (taken: seq<Key>, ghost gone: seq<Key>, ghost log: Merge)
    requires ring.Valid()
    modifies ring`head, ring`tail, ring`visible, ring`queue, ring.slots
    ensures ring.Valid()
    // the keys logged are those accepted, and the queue is what the run leaves
    ensures var end := Run(From(old(ring.State())), run); ring.State() == end.state && log.All() == end.accepted
    ensures log.Ours() == []
    ensures old(ring.State()).queue + log.All() == gone + ring.State().queue
    ensures Clear !in run ==> taken == gone
  {
    hide Ring.Valid, Step, Merge.All, Merge.Ours, Merge.Theirs;
    taken, gone, log := [], [], Nothing;
    log.Empty();
    ghost var s0 := ring.State();
    ghost var ledger := From(s0);
    assert run[0..] == run;
    for i := 0 to |run|
      invariant ring.Valid() && ledger.state == ring.State() && ledger.accepted == log.All() && log.Ours() == []
      invariant Run(ledger, run[i..]) == Run(From(s0), run)
      invariant s0.queue + log.All() == gone + ring.State().queue
      invariant Clear !in run[..i] ==> taken == gone
    {
      DropOfDrop(run, i, 1);
      PrefixSnoc(run, i);
      ghost var all, q := log.All(), ring.State().queue;
      StepFrom(ledger, run[i]);
      var read; ghost var left, one;
      read, left, one := Do(ring, run[i]);
      log.JoinParts(one);
      Assoc(s0.queue, all, one.All());
      Assoc(gone, q, one.All());
      Assoc(gone, left, ring.State().queue);
      log := log.Join(one);
      taken, gone := taken + read, gone + left;
      ledger := Step(ledger, run[i]);
    }
    assert run[..|run|] == run;
  }

  /** What an operation does to the queue and accepts does not depend on the past. */
  lemma StepFrom(l: Ledger, e: Event)
    ensures Step(l, e).state == Step(From(l.state), e).state
    ensures Step(l, e).accepted == l.accepted + Step(From(l.state), e).accepted
  {
  }

  /** What happens in one tick: the keys the user types during the feed, at any moments,
      and then everything either thread does to the queue until the next feed. */
  datatype Tick = Tick(foreign: seq<Key>, run: seq<Event>)

  lemma OneFeed<T>(ours: seq<T>, fed: seq<T>, nothing: seq<T>, pending: seq<T>)
    requires nothing == []
    ensures ours + fed + nothing + pending == ours + (fed + pending)
  {
    assert ours + fed + nothing == ours + fed;
    Assoc(ours, fed, pending);
  }

  /** Keys in and keys out of one tick: fed, then typed and taken between feeds. */
  lemma OneTick<T>(q0: seq<T>, all: seq<T>, fed: seq<T>, meanwhile: seq<T>, gone: seq<T>, left: seq<T>,
                   q: seq<T>, q1: seq<T>, q2: seq<T>)
    requires q0 + all == gone + q && q1 == q + fed && q1 + meanwhile == left + q2
    ensures q0 + (all + fed + meanwhile) == gone + left + q2
  {
    Assoc(q0, all, fed);
    Assoc(q0, all + fed, meanwhile);
    Assoc(gone, q, fed);
    Assoc(gone, q1, meanwhile);
    Assoc(gone, left, q2);
  }

  /** A paste over any number of ticks. */
  method Ticks(feeder: Feeder, ring: Ring, ticks: seq<Tick>) returns (taken: seq<Key>, ghost gone: seq<Key>, ghost log: Merge)
    requires feeder.Valid() && ring.Valid()
    modifies feeder, ring`head, ring`tail, ring`visible, ring`queue, ring.slots
    ensures feeder.Valid() && ring.Valid()
    // what was typed and what is left is the listing, in order and once
    ensures old(feeder.Pending()) == log.Ours() + feeder.Pending()
    // if no feed meets more than eight keys of the user, every key that entered the queue
    // leaves it in the order of pushing, but for those still there
    ensures (forall i :: 0 <= i < |ticks| ==> |ticks[i].foreign| <= 8) ==>
              old(ring.State()).queue + log.All() == gone + ring.State().queue
    // and it leaves by being read, unless the queue is cleared
    ensures (forall i :: 0 <= i < |ticks| ==> Clear !in ticks[i].run) ==> taken == gone
  {
    hide Ring.Valid, Merge.All, Merge.Ours, Merge.Theirs, Keys, Run, IsFedTo;
    taken, gone, log := [], [], Nothing;
    log.Empty();
    ghost var pending, q0 := feeder.Pending(), ring.State().queue;
    ghost var few := forall i :: 0 <= i < |ticks| ==> |ticks[i].foreign| <= RESERVE;
    ghost var uncleared := forall i :: 0 <= i < |ticks| ==> Clear !in ticks[i].run;
    for i := 0 to |ticks|
      invariant feeder.Valid() && ring.Valid()
      invariant pending == log.Ours() + feeder.Pending()
      invariant few ==> q0 + log.All() == gone + ring.State().queue
      invariant uncleared ==> taken == gone
    {
      ghost var ours, all, q := log.Ours(), log.All(), ring.State().queue;
      var done; ghost var fed, meanwhile, left;
      done, fed := feeder.Feed(ring, ticks[i].foreign);
      log.JoinParts(fed);
      log := log.Join(fed);
      ghost var q1 := ring.State().queue;
      var read;
      read, left, meanwhile := Between(ring, ticks[i].run);
      log.JoinParts(meanwhile);
      log := log.Join(meanwhile);
      OneFeed(ours, fed.Ours(), meanwhile.Ours(), feeder.Pending());
      if few { OneTick(q0, all, fed.All(), meanwhile.All(), gone, left, q, q1, ring.State().queue); }
      taken, gone := taken + read, gone + left;
    }
  }
}
