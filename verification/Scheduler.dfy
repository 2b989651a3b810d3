/** The machine's timer tick: executed instructions, time skipped while the CPU is
    halted, a fractional instruction budget carried from tick to tick, and a
    programmable IRQ0. Time is counted in guest instructions. */
module Scheduler {
  import opened Common
  import opened KeyRing

  // The machine executes 330000 guest instructions and 18.2065 ticks a second, and
  // its timer chip counts at 1193182 Hz. The three stand in formulas as literals.

  const GUARD: nat := 200000

  const TICK_IDLE: nat := 1
  const TICK_EXITED: nat := 2

  // ---------- IRQ0 ----------

  /** A PIT reload value; 0 stands for 65536. */
  type Reload = r: int | 0 <= r < 65536

  /** Guest instructions between two IRQ0s. */
  function Period(reload: Reload): (p: real)
    ensures p > 0.0
  {
    330000.0 * (if reload == 0 then 65536 else reload) as real / 1193182.0
  }

  /** The IRQ0s of a second, one for every so many of the chip's 1193182 counts, take the
      330000 instructions of a second; from boot that is about one a tick. */
  lemma PeriodIsRate(reload: Reload)
    ensures Period(reload) * (1193182.0 / (if reload == 0 then 65536.0 else reload as real)) == 330000.0
    ensures 330000.0 / 18.2065 - 0.02 < Period(0) < 330000.0 / 18.2065 + 0.02
  {
    var n := if reload == 0 then 65536.0 else reload as real;
    assert Period(reload) == 330000.0 * n / 1193182.0;
  }

  /** One IRQ0: when it was due, when the loop noticed it, and the reload value in
      force at that moment. */
  datatype Fire = Fire(due: real, noticed: nat, reload: Reload)
  {
    function Next(): real {
      if due + Period(reload) <= noticed as real then noticed as real + Period(reload)
      else due + Period(reload)
    }
  }

  /** When the i-th IRQ0 was due; the one after the last is due at `next`. */
  function Due(fires: seq<Fire>, next: real, i: nat): real
    requires i <= |fires|
  {
    if i < |fires| then fires[i].due else next
  }

  /** The i-th IRQ0 was noticed at or after its due time and at most one instruction
      late, and it alone determines when the next is due. */
  ghost predicate Link(fires: seq<Fire>, next: real, i: nat)
    requires i < |fires|
  {
    && fires[i].due <= fires[i].noticed as real <= fires[i].due + 1.0
    && Due(fires, next, i + 1) == fires[i].Next()
  }

  /** The record of all IRQ0s so far. */
  ghost predicate Chain(fires: seq<Fire>, next: real) {
    forall i: nat :: i < |fires| ==> Link(fires, next, i)
  }

  lemma ChainExtend(fires: seq<Fire>, f: Fire)
    requires Chain(fires, f.due)
    requires f.due <= f.noticed as real <= f.due + 1.0
    ensures Chain(fires + [f], f.Next())
  {
    var g := fires + [f];
    forall i: nat | i < |g| ensures Link(g, f.Next(), i) {
      if i < |fires| {
        assert Link(fires, f.due, i);
        assert Due(g, f.Next(), i + 1) == Due(fires, f.due, i + 1);
      }
    }
  }

  /** The sum of the periods in force at the first n IRQ0s. */
  function Periods(fires: seq<Fire>, n: nat): real
    requires n <= |fires|
  {
    if n == 0 then 0.0 else Periods(fires, n - 1) + Period(fires[n - 1].reload)
  }

  /** The period exceeds one instruction exactly from a reload value of 4 up. */
  ghost predicate Slow(reload: Reload) {
    reload == 0 || reload >= 4
  }

  lemma SlowMeansOverOneInstruction(reload: Reload)
    ensures Slow(reload) <==> Period(reload) > 1.0
  {
  }

  /** A fire is rescheduled from the moment it was noticed, losing its phase, just
      when it was noticed a whole period late; never with a slow period. */
  lemma ResyncIffPeriodLate(f: Fire)
    requires f.due <= f.noticed as real <= f.due + 1.0
    ensures f.Next() == f.due + Period(f.reload) <==> f.noticed as real < f.due + Period(f.reload)
    ensures Slow(f.reload) ==> f.Next() == f.due + Period(f.reload)
  {
    SlowMeansOverOneInstruction(f.reload);
  }

  /** IRQ0 does not drift: while no period is shorter than an instruction, due
      times are the first due time plus the periods in force when each fired. */
  lemma {:induction false} NoDrift(fires: seq<Fire>, next: real, n: nat)
    requires Chain(fires, next) && n <= |fires|
    requires forall i :: 0 <= i < n ==> Slow(fires[i].reload)
    ensures Due(fires, next, n) == Due(fires, next, 0) + Periods(fires, n)
  {
    if n > 0 {
      NoDrift(fires, next, n - 1);
      assert Link(fires, next, n - 1);
      ResyncIffPeriodLate(fires[n - 1]);
    }
  }

  lemma {:induction false} ConstantPeriods(fires: seq<Fire>, n: nat, reload: Reload)
    requires n <= |fires| && forall i :: 0 <= i < n ==> fires[i].reload == reload
    ensures Periods(fires, n) == n as real * Period(reload)
  {
    if n > 0 {
      ConstantPeriods(fires, n - 1, reload);
      assert n as real * Period(reload) == (n - 1) as real * Period(reload) + Period(reload);
    }
  }

  /** The n-th due time is the first plus the periods up to it. */
  ghost predicate KeepsPhase(fires: seq<Fire>, next: real, n: nat)
    requires n <= |fires|
  {
    Due(fires, next, n) == Due(fires, next, 0) + Periods(fires, n)
  }

  ghost predicate AllAt(fires: seq<Fire>, reload: Reload) {
    forall i :: 0 <= i < |fires| ==> fires[i].reload == reload
  }

  /** The IRQ0s of a machine from boot: the first is due one period of the boot reload
      value after guest time 0, before any program can have set another. */
  ghost predicate FromBoot(fires: seq<Fire>, next: real) {
    Chain(fires, next) && Due(fires, next, 0) == Period(0)
  }

  lemma Alone(f: Fire)
    requires f.due <= f.noticed as real <= f.due + 1.0
    ensures Chain([f], f.Next())
  {
  }

  /** A program that sets a period below one instruction before the first IRQ0 makes it
      lose its phase: at the first one, or at the third for a reload value of 3. */
  lemma FastPeriodLosesPhase(reload: Reload) returns (fires: seq<Fire>, next: real)
    requires !Slow(reload)
    ensures FromBoot(fires, next) && AllAt(fires, reload) && !KeepsPhase(fires, next, |fires|)
  {
    var p, f := Period(reload), Fire(Period(0), 18126, reload);
    assert 18125.38 < f.due < 18125.39;
    Alone(f);
    fires, next := [f], f.Next();
    if reload == 3 {
      var g := Fire(next, 18127, reload);
      assert f.Next() == f.due + p;
      ChainExtend(fires, g);
      fires, next := fires + [g], g.Next();
      var h := Fire(next, 18128, reload);
      assert g.Next() == g.due + p;
      ChainExtend(fires, h);
      fires, next := fires + [h], h.Next();
      assert next == 18128.0 + p;
    }
    ConstantPeriods(fires, |fires|, reload);
  }

  /** With one reload value at every IRQ0, due times keep their phase in every run from
      boot exactly when the period exceeds one instruction. */
  lemma PhaseIsKeptIff(reload: Reload)
    ensures (forall fires: seq<Fire>, next: real, n: nat ::
               n <= |fires| && FromBoot(fires, next) && AllAt(fires, reload) ==> KeepsPhase(fires, next, n))
            <==> Slow(reload)
  {
    hide Chain, Period;
    if Slow(reload) {
      forall fires: seq<Fire>, next: real, n: nat | n <= |fires| && FromBoot(fires, next) && AllAt(fires, reload)
        ensures KeepsPhase(fires, next, n)
      {
        NoDrift(fires, next, n);
      }
    } else {
      var fires, next := FastPeriodLosesPhase(reload);
    }
  }

  /** With one reload value throughout, the number of IRQ0s by guest time `now`
      differs from (now - first) / period by less than it takes to notice one. */
  lemma InterruptRate(fires: seq<Fire>, next: real, now: nat, reload: Reload)
    requires Chain(fires, next) && fires != [] && Slow(reload)
    requires forall i :: 0 <= i < |fires| ==> fires[i].reload == reload
    requires fires[|fires| - 1].noticed <= now && now as real <= next + 1.0
    ensures (|fires| - 1) as real * Period(reload) <= now as real - fires[0].due <= |fires| as real * Period(reload) + 1.0
  {
    NoDrift(fires, next, |fires|);
    NoDrift(fires, next, |fires| - 1);
    assert Link(fires, next, |fires| - 1);
    ConstantPeriods(fires, |fires|, reload);
    ConstantPeriods(fires, |fires| - 1, reload);
  }

  // ---------- the instruction budget ----------

  function Budget(carry: real): nat
    requires 0.0 <= carry
  {
    (330000.0 / 18.2065 + carry).Floor
  }

  // ---------- stretches of running and sleeping ----------

  /** What one pass of a tick's loop did: from when to when it took guest time, how much
      of its end was slept, when the next IRQ0 was due, when the CPU halted in it, if it
      did, and whether at its end something could wake the CPU. */
  datatype Stretch = Stretch(from: nat, to: nat, slept: nat, due: real, halted: Option<nat>, awake: bool)
  {
    /** A stretch goes on to the end of the tick or just past the next IRQ0, unless the CPU
        halts with something to wake it: then it ends there. A CPU that halts with nothing
        to wake it sleeps for the rest of the stretch, and no other sleeps. */
    ghost predicate Fits(end: nat) {
      && from < to <= end
      && (to == end || due < to as real <= due + 1.0 || (halted.Some? && awake))
      && (match halted
          case None => slept == 0
          case Some(at) => from < at <= to && slept == to - at && (awake ==> at == to))
    }
  }

  /** Stretches one after another. */
  ghost predicate Covers(stretches: seq<Stretch>, from: nat, to: nat, end: nat) {
    if stretches == [] then from == to
    else
      var last := stretches[|stretches| - 1];
      last.to == to && last.Fits(end) && Covers(stretches[..|stretches| - 1], from, last.from, end)
  }

  ghost function SleptIn(stretches: seq<Stretch>): nat {
    if stretches == [] then 0 else SleptIn(stretches[..|stretches| - 1]) + stretches[|stretches| - 1].slept
  }

  lemma NoStretches(from: nat, end: nat)
    ensures Covers([], from, from, end) && SleptIn([]) == 0
  {
  }

  lemma CoversMore(stretches: seq<Stretch>, from: nat, to: nat, end: nat, s: Stretch)
    requires Covers(stretches, from, to, end) && s.from == to && s.Fits(end)
    ensures Covers(stretches + [s], from, s.to, end) && SleptIn(stretches + [s]) == SleptIn(stretches) + s.slept
  {
    hide Stretch.Fits;
    assert (stretches + [s])[..|stretches|] == stretches;
  }

  /** A tick in which nothing wakes a halted CPU sleeps it to the next IRQ0 and no less:
      the loop makes one pass for each IRQ0 that comes due and one to the end. */
  lemma {:induction false} QuietTickSleeps(stretches: seq<Stretch>, from: nat, to: nat, end: nat, i: nat)
    requires Covers(stretches, from, to, end) && i < |stretches|
    requires !stretches[i].awake
    ensures stretches[i].to == end || stretches[i].due < stretches[i].to as real <= stretches[i].due + 1.0
    ensures stretches[i].slept == if stretches[i].halted.Some? then stretches[i].to - stretches[i].halted.value else 0
    decreases |stretches|
  {
    var n := |stretches| - 1;
    if i < n { QuietTickSleeps(stretches[..n], from, stretches[n].from, end, i); }
  }

  // ---------- the machine ----------

  class Machine {
    // time
    var tsc: nat          // instructions executed
    var idleSkip: nat     // instructions skipped while halted
    var ticks: nat
    var carry: real       // fraction of an instruction left from the last tick
    var nextIrq0: real    // guest time of the next IRQ0; 0 before the first tick
    var irq0Pending: bool
    var exited: bool
    // the keyboard
    var keys: KeyState
    var breakReq: bool
    var breakPending: bool
    var extScan: Option<Byte>  // second half of an extended key
    // the CPU and the timer chip
    var interruptFlag: bool
    var raised: bool           // an interrupt is raised and not yet taken
    var halted: bool
    var reload: Reload         // PIT channel 0
    // history
    ghost var fires: seq<Fire>
    ghost var irqs: nat        // timer interrupts handed to the CPU
    ghost var merged: nat      // IRQ0s that found the previous one still pending
    ghost var began: KeyState  // the key queue as the last tick started running
    ghost var halts: nat       // how often the CPU has halted
    ghost var lastHalt: nat    // and when it last did
    ghost var stretches: seq<Stretch>  // what the last tick's passes did

    function Now(): nat
      reads this
    {
      tsc + idleSkip
    }

    function CanInterrupt(): bool
      reads this
    {
      interruptFlag && !raised
    }

    /** Whether something can wake a halted CPU. */
    ghost predicate Awake()
      reads this
    {
      ((irq0Pending || breakPending) && interruptFlag && !raised) || keys.visible > 0 || extScan.Some?
    }

    /** What holds between ticks. */
    ghost predicate Valid()
      reads this
    {
      && keys.Valid()
      && 0.0 <= carry < 1.0
      // guest time and the carried fraction account for every tick
      && (!exited ==> Now() as real + carry == ticks as real * (330000.0 / 18.2065))
      && TimerValid()
      // until the first tick starts the timer, the machine is as it was booted
      && (nextIrq0 <= 0.0 ==> fires == [] && reload == 0 && Now() == 0)
    }

    /** What holds at every pass of the loop. */
    ghost predicate TimerValid()
      reads this
    {
      && Chain(fires, nextIrq0)
      && (nextIrq0 > 0.0 ==> FromBoot(fires, nextIrq0))
      && (nextIrq0 > 0.0 ==> Now() as real <= nextIrq0 + 1.0)
      && (fires != [] ==> fires[|fires| - 1].noticed <= Now())
      // every IRQ0 is delivered, still pending, or merged into a pending one
      && irqs + merged + (if irq0Pending then 1 else 0) == |fires|
    }

    constructor ()
      ensures Valid() && !exited && Now() == 0 && ticks == 0 && fires == []
    {
      tsc, idleSkip, ticks, carry, nextIrq0 := 0, 0, 0, 0.0, 0.0;
      irq0Pending, exited, keys := false, false, KeyState([], 0);
      breakReq, breakPending, extScan := false, false, None;
      interruptFlag, raised, halted, reload := true, false, false, 0;
      fires, irqs, merged, began := [], 0, 0, KeyState([], 0);
      halts, lastHalt, stretches := 0, 0, [];
    }

    /** Guest time after any number of whole ticks is the integer part of the time
        they stand for, and the carry is the fraction. */
    lemma GuestTimeIsExact()
      requires Valid() && !exited
      ensures Now() == (ticks as real * (330000.0 / 18.2065)).Floor
      ensures carry == ticks as real * (330000.0 / 18.2065) - (ticks as real * (330000.0 / 18.2065)).Floor as real
    {
      var t := ticks as real * (330000.0 / 18.2065);
      assert t - 1.0 < Now() as real <= t;
    }

    /** What one instruction, and the user meanwhile, may do besides taking its time. */
    method Instruction()
      requires keys.Valid()
      modifies `halted, `interruptFlag, `reload, `keys, `extScan, `breakReq
      ensures keys.Valid()
    {
      if * { breakReq := true; }  // the user presses Ctrl-Break
      if * { keys := keys.Pop(); }
      if * { keys := keys.Clear(); }
      if * {
        var w: Key :| w < 0x10000;
        keys := keys.Push(w);
      }
      if * {
        var r: Reload :| r < 65536;
        reload := r;
      }
      if * {
        var b: Byte :| b < 256;
        extScan := Some(b);
      } else if * {
        extScan := None;
      }
      halted, interruptFlag := *, *;
    }

    /** The CPU, left abstract: asked for at most k instructions it executes at
        least one, takes any interrupt raised before it, and may halt, leave
        the program, reprogram the timer, mask interrupts or use the keyboard. A
        program that leaves may do so before its first instruction. */
    method CpuRun(k: nat)
      requires k >= 1 && keys.Valid() && !exited
      modifies `tsc, `exited, `halted, `raised, `interruptFlag, `reload, `keys, `extScan, `breakReq, `halts, `lastHalt
      ensures old(tsc) <= tsc <= old(tsc) + k
      ensures !exited ==> old(tsc) < tsc && !raised
      // it executes fewer only if it halts
      ensures !exited && tsc < old(tsc) + k ==> halted
      ensures !exited ==> halts == old(halts) + if halted then 1 else 0
      ensures !exited && halted ==> lastHalt == Now()
      ensures keys.Valid()
    {
      halted := false;
      var start := tsc;
      while tsc < start + k && !halted
        invariant start <= tsc <= start + k && keys.Valid() && !exited
        invariant tsc > start ==> !raised
        invariant tsc == start ==> !halted
        invariant halts == old(halts)
        decreases start + k - tsc
      {
        if * { exited := true; return; }
        Instruction();
        raised := false;
        tsc := tsc + 1;
      }
      if halted { halts, lastHalt := halts + 1, Now(); }
    }

    /** Ctrl-Break, as the BIOS keyboard interrupt handles it: the typed-ahead keys
        go and a single zero word takes their place. */
    method TakeBreak()
      requires keys.Valid()
      modifies `keys, `breakReq, `breakPending, `extScan
      ensures keys.Valid() && !breakReq
      ensures old(breakReq) ==> keys == KeyState([0], 0) && breakPending && extScan == None
      ensures !old(breakReq) ==> keys == old(keys) && breakPending == old(breakPending) && extScan == old(extScan)
    {
      if breakReq {
        breakReq := false;
        keys := keys.Clear();
        extScan := None;
        keys := keys.Push(0);
        breakPending := true;
      }
    }

    /** What the keyboard does at the start of a tick. */
    method TakeKeys()
      requires keys.Valid()
      modifies `keys, `breakReq, `breakPending, `extScan, `began
      ensures keys.Valid() && !breakReq
      ensures began == (if old(breakReq) then KeyState([0], 0) else old(keys)).Deliver()
    {
      TakeBreak();
      keys := keys.Deliver();
      began := keys;
    }

    /** The first tick schedules the first IRQ0. */
    method StartTimer(now: nat)
      requires TimerValid() && now == Now() && (nextIrq0 <= 0.0 ==> fires == [] && reload == 0 && now == 0)
      modifies `nextIrq0
      ensures TimerValid() && nextIrq0 > 0.0
      ensures nextIrq0 == if old(nextIrq0) <= 0.0 then now as real + Period(reload) else old(nextIrq0)
    {
      if nextIrq0 <= 0.0 {
        nextIrq0 := now as real + Period(reload);
      }
    }

    /** The timer chip: notices an IRQ0 that has come due and schedules the next. */
    method CheckTimer()
      requires TimerValid() && nextIrq0 > 0.0
      modifies `irq0Pending, `nextIrq0, `fires, `merged
      ensures TimerValid() && nextIrq0 > 0.0
      // afterwards the next IRQ0 always lies ahead
      ensures Now() as real < nextIrq0
      ensures old(nextIrq0) <= Now() as real <==> fires != old(fires)
      ensures fires == old(fires) ==> nextIrq0 == old(nextIrq0) && irq0Pending == old(irq0Pending)
      ensures fires != old(fires) ==> fires == old(fires) + [Fire(old(nextIrq0), Now(), reload)] && irq0Pending
    {
      var now := Now();
      if now as real >= nextIrq0 {
        ghost var f := Fire(nextIrq0, now, reload);
        ghost var before := fires;
        if irq0Pending { merged := merged + 1; }
        irq0Pending := true;
        nextIrq0 := nextIrq0 + Period(reload);
        if nextIrq0 <= now as real {
          nextIrq0 := now as real + Period(reload);
        }
        ChainExtend(before, f);
        fires := before + [f];
      }
    }

    /** Hands the CPU at most one interrupt: Ctrl-Break before the timer. */
    method RaiseInterrupt()
      requires TimerValid()
      modifies `raised, `breakPending, `irq0Pending, `irqs
      ensures TimerValid()
      ensures !old(interruptFlag && !raised) ==> raised == old(raised) && breakPending == old(breakPending) && irq0Pending == old(irq0Pending)
      ensures old(interruptFlag && !raised) ==> !breakPending && (irq0Pending <==> old(breakPending) && old(irq0Pending))
      ensures old(interruptFlag && !raised) ==> (raised <==> old(breakPending) || old(irq0Pending))
      ensures irqs == old(irqs) + if old(interruptFlag && !raised) && !old(breakPending) && old(irq0Pending) then 1 else 0
    {
      if CanInterrupt() {
        if breakPending {
          raised := true;
          breakPending := false;
        } else if irq0Pending {
          raised := true;
          irq0Pending := false;
          irqs := irqs + 1;
        }
      }
    }

    /** A halted CPU sleeps until guest time `target` just when nothing can wake it
        at once: no interrupt to deliver and no key, arrived or on its way. */
    method Halted(target: nat)
      requires TimerValid() && keys.Valid() && target as real <= nextIrq0 + 1.0
      modifies `halted, `keys, `idleSkip
      ensures TimerValid() && keys.Valid() && !halted
      ensures var wakes := (irq0Pending || breakPending) && interruptFlag && !raised;
              var seen := old(keys).visible > 0 || extScan.Some?;
        && keys == (if wakes || seen then old(keys) else old(keys).Deliver())
        && idleSkip == old(idleSkip) +
             if wakes || seen || old(keys).queue != [] || target <= old(Now()) then 0 else target - old(Now())
    {
      halted := false;
      if (irq0Pending || breakPending) && CanInterrupt() { return; }
      if keys.visible > 0 || extScan.Some? { return; }
      var arrives := keys.visible < |keys.queue|;
      keys := keys.Deliver();
      if arrives { return; }
      var now := Now();
      if target > now {
        idleSkip := idleSkip + (target - now);
      }
    }

    /** Runs the CPU up to a guest time, and skips the time it then sleeps. */
    method RunUntil(target: nat) returns (skipped: nat)
      requires keys.Valid() && TimerValid() && nextIrq0 > 0.0 && !exited
      requires Now() < target && target as real <= nextIrq0 + 1.0
      modifies `tsc, `exited, `halted, `raised, `interruptFlag, `reload, `keys, `extScan, `breakReq, `halts, `lastHalt, `idleSkip
      ensures keys.Valid() && TimerValid()
      ensures tsc >= old(tsc) && idleSkip == old(idleSkip) + skipped
      ensures !exited ==> old(Now()) < Now() <= target && !halted
      // it stops short of the target only for a halted CPU that something can wake; one
      // that nothing can wake sleeps from where it halted
      ensures !exited && halts == old(halts) ==> Now() == target && skipped == 0
      ensures !exited && halts > old(halts) ==>
        && old(Now()) < lastHalt <= Now() && skipped == Now() - lastHalt
        && Now() == if Awake() then lastHalt else target
      ensures !exited ==> old(halts) <= halts <= old(halts) + 1
    {
      CpuRun(target - Now());
      skipped := 0;
      if exited { return; }
      if halted {
        var awake := Now();
        Halted(target);
        skipped := Now() - awake;
      }
    }

    /** The start of a pass: an IRQ0 that has come due is noticed, and an interruptible CPU
        gets what is pending or due. */
    method Interrupt()
      requires TimerValid() && nextIrq0 > 0.0
      modifies `raised, `breakPending, `irqs, `irq0Pending, `nextIrq0, `fires, `merged
      ensures TimerValid() && Now() as real < nextIrq0 && nextIrq0 > 0.0
      ensures old(fires) <= fires
      ensures old(CanInterrupt()) ==> !breakPending
      ensures irqs == old(irqs) +
        if old(CanInterrupt()) && !old(breakPending) && (old(irq0Pending) || old(nextIrq0 <= Now() as real)) then 1 else 0
    {
      CheckTimer();
      RaiseInterrupt();
    }

    /** How far the next pass goes: to the end, or to the instruction after the next IRQ0
        comes due. */
    method NextStop(end: nat) returns (target: nat)
      requires Now() < end && Now() as real < nextIrq0
      ensures Now() < target <= end && target as real <= nextIrq0 + 1.0
      ensures target == end || nextIrq0 < target as real
    {
      target := end;
      if nextIrq0 < end as real { target := nextIrq0.Floor + 1; }
      if target <= Now() {
        assert false;  // where the target would become now + 1: the next IRQ0 lies ahead
      }
    }

    /** One pass of the tick's loop: let the timer fire, deliver an interrupt, run
        the CPU up to the next event, and skip the time it then sleeps. */
    method Pass(end: nat) returns (skipped: nat)
      requires keys.Valid() && TimerValid() && nextIrq0 > 0.0 && !exited && Now() < end
      modifies `tsc, `exited, `halted, `raised, `interruptFlag, `reload, `keys, `extScan, `breakReq, `halts, `lastHalt, `idleSkip,
        `irq0Pending, `nextIrq0, `fires, `merged, `breakPending, `irqs
      ensures keys.Valid() && TimerValid() && nextIrq0 > 0.0
      ensures old(fires) <= fires
      ensures tsc >= old(tsc) && idleSkip == old(idleSkip) + skipped
      ensures !exited ==> old(Now()) < Now() <= end && !halted
      ensures !exited ==> old(halts) <= halts <= old(halts) + 1
      // the pass goes on to the end or the next IRQ0, unless the CPU halts and is awake
      ensures !exited ==> Stretch(old(Now()), Now(), skipped, nextIrq0, if halts > old(halts) then Some(lastHalt) else None, Awake()).Fits(end)
      // a CPU that can take an interrupt gets the one that is pending or due
      ensures old(interruptFlag && !raised) ==> !breakPending
      ensures irqs == old(irqs) +
        if old(interruptFlag && !raised) && !old(breakPending) && (old(irq0Pending) || old(nextIrq0 <= Now() as real)) then 1 else 0
    {
      hide Chain, Link;
      Interrupt();
      var target := NextStop(end);
      skipped := RunUntil(target);
    }

    /** The tick's loop: passes until guest time `end`. */
    method RunTo(end: nat) returns (slept: nat)
      requires keys.Valid() && TimerValid() && nextIrq0 > 0.0 && !exited
      requires Now() <= end < Now() + GUARD
      modifies `tsc, `exited, `halted, `raised, `interruptFlag, `reload, `keys, `extScan, `breakReq, `halts, `lastHalt, `idleSkip,
        `irq0Pending, `nextIrq0, `fires, `merged, `breakPending, `irqs, `stretches
      ensures keys.Valid() && TimerValid() && nextIrq0 > 0.0
      ensures old(fires) <= fires
      ensures tsc >= old(tsc) && idleSkip == old(idleSkip) + slept
      ensures !exited ==> Now() == end
      ensures !exited ==> Covers(stretches, old(Now()), end, end) && SleptIn(stretches) == slept
    {
      hide Chain, Covers, SleptIn, Stretch.Fits;
      NoStretches(Now(), end);
      stretches := [];
      slept := 0;
      var guard: nat := 0;
      while Now() < end && guard < GUARD
        invariant keys.Valid() && TimerValid() && nextIrq0 > 0.0 && !exited
        invariant old(Now()) <= Now() <= end
        invariant Covers(stretches, old(Now()), Now(), end) && SleptIn(stretches) == slept
        invariant old(fires) <= fires
        invariant tsc >= old(tsc) && idleSkip == old(idleSkip) + slept
        // every pass moves time on, so the guard never ends the tick
        invariant guard <= Now() - old(Now())
      {
        guard := guard + 1;
        ghost var from, before := Now(), halts;
        var skipped := Pass(end);
        slept := slept + skipped;
        if exited { return; }
        ghost var last := Stretch(from, Now(), skipped, nextIrq0, if halts > before then Some(lastHalt) else None, Awake());
        CoversMore(stretches, old(Now()), from, end, last);
        stretches := stretches + [last];
      }
    }

    /** One timer tick of guest time. */
    method RunTick() returns (result: nat)
      requires Valid()
      modifies this
      ensures Valid()
      ensures old(exited) ==> result == 2 && exited && Now() == old(Now()) && fires == old(fires)
      ensures exited ==> result == 2 && ticks == old(ticks)
      ensures old(fires) <= fires
      // a tick that does not end the program takes exactly its budget, and every
      // instruction of it was either executed or slept
      ensures !exited ==>
        && ticks == old(ticks) + 1
        && tsc >= old(tsc) && idleSkip >= old(idleSkip)
        && (tsc - old(tsc)) + (idleSkip - old(idleSkip)) == Budget(old(carry))
        && (result == 1 || result == 0)
        && (result == 1 <==> 2 * (idleSkip - old(idleSkip)) >= Budget(old(carry)))
      // its passes follow one another, run and sleep the CPU as far as they should, and
      // sleep as much as it slept in all
      ensures !exited ==>
        && Covers(stretches, old(Now()), Now(), Now())
        && SleptIn(stretches) == idleSkip - old(idleSkip)
      // the tick starts by taking a Ctrl-Break and letting one key arrive
      ensures !old(exited) ==> began == (if old(breakReq) then KeyState([0], 0) else old(keys)).Deliver()
    {
      hide Chain, Period, KeyState.Deliver, Covers, SleptIn, Stretch.Fits, FromBoot;
      var want := 330000.0 / 18.2065 + carry;
      var budget := want.Floor;
      if exited { return TICK_EXITED; }
      carry := want - budget as real;
      TakeKeys();
      var t0 := Now();
      StartTimer(t0);
      var slept := RunTo(t0 + budget);
      if exited { return TICK_EXITED; }
      result := if slept * 2 >= budget then TICK_IDLE else 0;
      ticks := ticks + 1;
    }
  }
}
