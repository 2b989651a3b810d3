/** The type-ahead keyboard queue of the machine: a 64-slot ring shared by the
    thread that types and the thread that runs the guest, whose first few keys
    only have "arrived" through the keyboard interrupt. */
module KeyRing {
  import opened Common

  /** A BIOS key word: scan code in the high byte, character in the low byte. */
  type Key = k: int | 0 <= k < 0x10000

  const SLOTS := 64
  const CAPACITY := 63  // one slot of the ring is always free

  // ---------- the queue as a value ----------

  /** What a client can tell about the queue: the stored keys, oldest first, and
      how many of them the guest can see. */
  datatype KeyState = KeyState(queue: seq<Key>, visible: nat)
  {
    ghost predicate Valid() {
      visible <= |queue| <= CAPACITY
    }

    function Push(k: Key): KeyState {
      if |queue| < CAPACITY then KeyState(queue + [k], visible) else this
    }

    function Deliver(): KeyState {
      if visible < |queue| then KeyState(queue, visible + 1) else this
    }

    function Pop(): KeyState {
      if 0 < visible && queue != [] then KeyState(queue[1..], visible - 1) else this
    }

    function Clear(): KeyState {
      KeyState([], 0)
    }
  }

  /** The ring. Every operation runs under the queue lock, so each is one
      indivisible step whichever thread performs it. */
  class Ring {
    const slots: array<Key>
    var head: nat
    var tail: nat
    var visible: nat
    ghost var queue: seq<Key>  // the stored keys, oldest first

    ghost predicate Valid()
      reads this, slots
    {
      && slots.Length == SLOTS
      && head < SLOTS && tail < SLOTS
      && visible <= |queue| == Stored()
      && forall i :: 0 <= i < |queue| ==> queue[i] == slots[Slot(i)]
    }

    /** The number of stored keys, (tail - head) modulo 64. */
    function Stored(): (n: nat)
      reads this
      requires head < SLOTS && tail < SLOTS
      ensures n == if head <= tail then tail - head else tail + SLOTS - head
    {
      (tail - head + SLOTS) % SLOTS
    }

    /** Where the i-th stored key lives. */
    function Slot(i: nat): (k: nat)
      reads this
      requires head < SLOTS && i < SLOTS
      ensures k < SLOTS
    {
      if head + i < SLOTS then head + i else head + i - SLOTS
    }

    /** The queue the ring stands for. */
    ghost function State(): (s: KeyState)
      reads this, slots
      requires Valid()
      ensures s.Valid()
    {
      KeyState(queue, visible)
    }

    constructor ()
      ensures Valid() && State() == KeyState([], 0)
      ensures fresh(slots)
    {
      slots := new Key[SLOTS](_ => 0);
      head, tail, visible, queue := 0, 0, 0, [];
    }

    method Push(k: Key)
      requires Valid()
      modifies this`tail, this`queue, slots
      ensures Valid() && State() == old(State()).Push(k)
      // the key goes to the end of a ring that holds fewer than 63, and nowhere in a full one
      ensures State().queue == if |old(State()).queue| < 63 then old(State()).queue + [k] else old(State()).queue
    {
      if (tail + 1) % SLOTS != head {
        slots[tail] := k;
        tail := (tail + 1) % SLOTS;
        queue := queue + [k];
      }
    }

    method Room() returns (room: nat)
      requires Valid()
      ensures room == 63 - |State().queue|
    {
      room := CAPACITY - Stored();
    }

    method Count() returns (n: nat)
      requires Valid()
      ensures n == State().visible
    {
      n := visible;
    }

    /** One keyboard interrupt. */
    method Deliver() returns (did: bool)
      requires Valid()
      modifies this`visible
      ensures Valid() && State() == old(State()).Deliver()
      ensures did <==> old(State()).visible < |old(State()).queue|
    {
      did := visible < Stored();
      if did {
        visible := visible + 1;
      }
    }

    method Peek() returns (k: Option<Key>)
      requires Valid()
      ensures k == if State().visible > 0 then Some(State().queue[0]) else None
    {
      k := if visible > 0 then Some(slots[head]) else None;
    }

    method Pop() returns (k: Option<Key>)
      requires Valid()
      modifies this`head, this`visible, this`queue
      ensures Valid() && State() == old(State()).Pop()
      ensures k == if old(State()).visible > 0 then Some(old(State()).queue[0]) else None
    {
      if visible > 0 {
        k := Some(slots[head]);
        head := (head + 1) % SLOTS;
        visible := visible - 1;
        queue := queue[1..];
      } else {
        k := None;
      }
    }

    method Clear()
      requires Valid()
      modifies this`head, this`tail, this`visible, this`queue
      ensures Valid() && State() == old(State()).Clear()
    {
      head, tail, visible, queue := 0, 0, 0, [];
    }
  }

  // ---------- every interleaving of the two threads ----------

  datatype Event = Push(key: Key) | Deliver | Peek | Pop | Clear

  /** The queue together with a ledger of its whole past. Accepted keys are
      numbered by the order in which they were accepted. */
  datatype Ledger = Ledger(
    state: KeyState,
    accepted: seq<Key>,  // every key ever stored
    first: nat,          // number of the key at the front of the queue
    arrived: seq<nat>,   // numbers of the keys delivered, in delivery order
    popped: seq<nat>,    // numbers of the keys handed to the guest, in order
    cleared: set<nat>    // numbers of the keys discarded by a clear
  )

  const EMPTY := Ledger(KeyState([], 0), [], 0, [], [], {})

  function Step(l: Ledger, e: Event): Ledger {
    match e
    case Push(k) =>
      l.(state := l.state.Push(k),
         accepted := if |l.state.queue| < CAPACITY then l.accepted + [k] else l.accepted)
    case Deliver =>
      l.(state := l.state.Deliver(),
         arrived := if l.state.visible < |l.state.queue| then l.arrived + [l.first + l.state.visible] else l.arrived)
    case Peek => l
    case Pop =>
      if 0 < l.state.visible && l.state.queue != [] then
        l.(state := l.state.Pop(), first := l.first + 1, popped := l.popped + [l.first])
      else l
    case Clear =>
      l.(state := l.state.Clear(),
         first := l.first + |l.state.queue|,
         cleared := l.cleared + Range(l.first, |l.state.queue|))
  }

  /** The n numbers from lo on. */
  function Range(lo: nat, n: nat): (r: set<nat>)
    ensures forall i: nat :: i in r <==> lo <= i < lo + n
  {
    if n == 0 then {} else Range(lo, n - 1) + {lo + n - 1}
  }

  function Run(l: Ledger, events: seq<Event>): Ledger
    decreases |events|
  {
    if events == [] then l else Run(Step(l, events[0]), events[1..])
  }

  ghost predicate Increasing(s: seq<nat>) {
    forall i, j :: 0 <= i < j < |s| ==> s[i] < s[j]
  }

  /** Nothing is lost, duplicated, reordered or seen early. */
  ghost predicate Exact(l: Ledger) {
    && l.state.Valid() && |l.state.queue| <= 63
    // what is stored is exactly the keys numbered first, first + 1, ...
    && l.first <= |l.accepted| && l.state.queue == l.accepted[l.first..]
    // keys come out at most once, in the order they were accepted
    && Increasing(l.popped)
    // every key before the front was either popped or cleared, never both
    && (forall i: nat :: i < l.first <==> i in l.popped || i in l.cleared)
    && (forall i: nat :: !(i in l.popped && i in l.cleared))
    // a key is delivered at most once, and before it is handed out
    && Increasing(l.arrived)
    && (forall i: nat :: i in l.popped ==> i in l.arrived)
    && (forall i: nat :: l.first <= i ==> (i in l.arrived <==> i < l.first + l.state.visible))
  }

  lemma StepExact(l: Ledger, e: Event)
    requires Exact(l)
    ensures Exact(Step(l, e))
  {
    var n := Step(l, e);
    match e
    case Push(k) =>
    case Deliver =>
      if l.state.visible < |l.state.queue| {
        var next := l.first + l.state.visible;
        assert forall j :: 0 <= j < |l.arrived| ==> l.arrived[j] in l.arrived;
        forall i: nat ensures i in n.arrived <==> i in l.arrived || i == next {
          if i == next { assert n.arrived[|l.arrived|] == i; }
          if i in l.arrived { var j :| 0 <= j < |l.arrived| && l.arrived[j] == i; assert n.arrived[j] == i; }
        }
      }
    case Peek =>
    case Pop =>
      if 0 < l.state.visible && l.state.queue != [] {
        assert forall j :: 0 <= j < |l.popped| ==> l.popped[j] in l.popped;
        forall i: nat ensures i in n.popped <==> i in l.popped || i == l.first {
          if i == l.first { assert n.popped[|l.popped|] == i; }
          if i in l.popped { var j :| 0 <= j < |l.popped| && l.popped[j] == i; assert n.popped[j] == i; }
        }
      }
    case Clear =>
  }

  /** Over every interleaving of pushes, deliveries, peeks, pops and clears. */
  lemma {:induction false} RunExact(l: Ledger, events: seq<Event>)
    requires Exact(l)
    ensures Exact(Run(l, events))
    decreases |events|
  {
    if events != [] {
      StepExact(l, events[0]);
      RunExact(Step(l, events[0]), events[1..]);
    }
  }

  lemma {:induction false} RunKeepsCleared(l: Ledger, events: seq<Event>)
    requires Clear !in events
    ensures Run(l, events).cleared == l.cleared
    decreases |events|
  {
    if events != [] {
      RunKeepsCleared(Step(l, events[0]), events[1..]);
    }
  }

  /** Without a clear the queue is a FIFO: the keys handed to the guest are a
      prefix of the keys accepted, and the rest is still stored. */
  lemma FifoWithoutClear(events: seq<Event>)
    requires Clear !in events
    ensures var l := Run(EMPTY, events);
      && |l.popped| <= |l.accepted|
      && (forall i :: 0 <= i < |l.popped| ==> l.popped[i] == i)
      && l.accepted == l.accepted[..|l.popped|] + l.state.queue
  {
    var l := Run(EMPTY, events);
    RunExact(EMPTY, events);
    RunKeepsCleared(EMPTY, events);
    DenseIncreasing(l.popped, l.first);
  }

  /** An increasing sequence holding exactly the numbers below n counts them off. */
  lemma {:induction false} DenseIncreasing(s: seq<nat>, n: nat)
    requires Increasing(s)
    requires forall i: nat :: i in s <==> i < n
    ensures |s| == n && forall i :: 0 <= i < |s| ==> s[i] == i
  {
    if s == [] {
      assert 0 in s <==> 0 < n;
    } else {
      var last := s[|s| - 1];
      assert last in s && n > 0;
      assert n - 1 in s;
      var t := s[..|s| - 1];
      forall i: nat ensures i in t <==> i < n - 1 {
        if i in t {
          var j :| 0 <= j < |t| && t[j] == i;
          assert s[j] == i && i in s;
        }
        if i < n - 1 {
          assert i in s;
          var j :| 0 <= j < |s| && s[j] == i;
          var k :| 0 <= k < |s| && s[k] == n - 1;
          assert j < k;
          assert t[j] == i;
        }
      }
      DenseIncreasing(t, n - 1);
      assert forall i :: 0 <= i < |t| ==> s[i] == t[i];
    }
  }
}
