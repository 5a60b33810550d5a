/** Spinlocks that save and restore the interrupt state, as atomic steps of many CPUs and their interrupt handlers. */
module Spinlock {

  /** A held lock, and whether interrupts were on when its `lock` began. */
  datatype Guard = Guard(lock: nat, irq: bool)

  /** Where a context is: between calls, in `lock`, or in the drop of a guard. */
  datatype Phase =
    | Idle
    | Saved(lock: nat, irq: bool)
    | Spinning(lock: nat, irq: bool)
    | Releasing(irq: bool)

  /** A task or an interrupt handler; `before` is the interrupt state when its outermost `lock` began. */
  datatype Context = Context(phase: Phase, guards: seq<Guard>, before: bool)

  /** The running context is the last; those below it are interrupted. */
  datatype Cpu = Cpu(irqOn: bool, stack: seq<Context>)

  datatype System = System(cpus: seq<Cpu>, locked: set<nat>)

  datatype Event =
    | Save(cpu: nat, lock: nat)
    | Disable(cpu: nat)
    | Swap(cpu: nat)
    | Unlock(cpu: nat, index: nat)
    | Load(cpu: nat)
    | Interrupt(cpu: nat)
    | Return(cpu: nat)
    | SetIrq(cpu: nat, on: bool)

  function Top(cpu: Cpu): Context
    requires cpu.stack != []
  {
    cpu.stack[|cpu.stack| - 1]
  }

  function WithTop(cpu: Cpu, irqOn: bool, top: Context): Cpu
    requires cpu.stack != []
  {
    Cpu(irqOn, cpu.stack[|cpu.stack| - 1 := top])
  }

  predicate Enabled(s: System, e: Event) {
    e.cpu < |s.cpus| && s.cpus[e.cpu].stack != [] &&
    var cpu := s.cpus[e.cpu];
    var top := Top(cpu);
    match e
    case Save(_, _) => top.phase.Idle?
    case Disable(_) => top.phase.Saved?
    case Swap(_) => top.phase.Spinning?
    case Unlock(_, i) => top.phase.Idle? && i < |top.guards|
    case Load(_) => top.phase.Releasing?
    case Interrupt(_) => cpu.irqOn
    case Return(_) => |cpu.stack| > 1 && top.phase.Idle? && top.guards == []
    case SetIrq(_, _) => top.phase.Idle? && top.guards == []
  }

  /** `irq_load` turns interrupts on if they were on, and otherwise leaves them alone. */
  function Loaded(irqOn: bool, saved: bool): bool {
    irqOn || saved
  }

  function NextCpu(s: System, e: Event): Cpu
    requires Enabled(s, e)
  {
    var cpu := s.cpus[e.cpu];
    var top := Top(cpu);
    match e
    case Save(_, l) =>
      WithTop(cpu, cpu.irqOn,
        Context(Saved(l, cpu.irqOn), top.guards, if top.guards == [] then cpu.irqOn else top.before))
    case Disable(_) => WithTop(cpu, false, top.(phase := Spinning(top.phase.lock, top.phase.irq)))
    case Swap(_) =>
      if top.phase.lock in s.locked then cpu
      else WithTop(cpu, cpu.irqOn, top.(phase := Idle, guards := top.guards + [Guard(top.phase.lock, top.phase.irq)]))
    case Unlock(_, i) =>
      WithTop(cpu, cpu.irqOn,
        top.(phase := Releasing(top.guards[i].irq), guards := top.guards[..i] + top.guards[i + 1..]))
    case Load(_) => WithTop(cpu, Loaded(cpu.irqOn, top.phase.irq), top.(phase := Idle))
    case Interrupt(_) => Cpu(false, cpu.stack + [Context(Idle, [], false)])
    case Return(_) => Cpu(true, cpu.stack[..|cpu.stack| - 1])
    case SetIrq(_, on) => cpu.(irqOn := on)
  }

  function NextLocked(s: System, e: Event): set<nat>
    requires Enabled(s, e)
  {
    var top := Top(s.cpus[e.cpu]);
    match e
    case Swap(_) => s.locked + {top.phase.lock}
    case Unlock(_, i) => s.locked - {top.guards[i].lock}
    case _ => s.locked
  }

  function Next(s: System, e: Event): System
    requires Enabled(s, e)
  {
    System(s.cpus[e.cpu := NextCpu(s, e)], NextLocked(s, e))
  }

  // -------------------------------------------------------------------- invariant

  /** An interrupted context holds nothing. */
  predicate Below(c: Context) {
    c.guards == [] && (c.phase.Idle? || (c.phase.Saved? && c.phase.irq && c.before))
  }

  /** Saved states: on at most for the outermost guard, and there what it was before. */
  predicate SavedOk(c: Context, irq: bool) {
    if c.guards == [] then irq == c.before else !irq
  }

  predicate GuardsOk(c: Context) {
    && (c.guards != [] ==> c.guards[0].irq == c.before)
    && forall i :: 1 <= i < |c.guards| ==> !c.guards[i].irq
  }

  predicate TopOk(irqOn: bool, c: Context) {
    && GuardsOk(c) && (c.guards != [] ==> !irqOn)
    && match c.phase
       case Idle => true
       case Saved(_, irq) => SavedOk(c, irq) && (c.guards == [] ==> irqOn == irq)
       case Spinning(_, irq) => SavedOk(c, irq) && !irqOn
       case Releasing(irq) => SavedOk(c, irq) && !irqOn
  }

  predicate CpuOk(cpu: Cpu) {
    && cpu.stack != [] && TopOk(cpu.irqOn, Top(cpu))
    && forall k :: 0 <= k < |cpu.stack| - 1 ==> Below(cpu.stack[k])
  }

  /** CPU `c` holds lock `l`, as guard `i` of the context it runs. */
  predicate Owns(s: System, c: nat, i: nat, l: nat) {
    c < |s.cpus| && s.cpus[c].stack != [] && i < |Top(s.cpus[c]).guards| && Top(s.cpus[c]).guards[i].lock == l
  }

  ghost predicate Owned(s: System, l: nat) {
    exists c: nat, i: nat :: Owns(s, c, i, l)
  }

  /** Every flag that is set has an owner, every owner has set its flag, and no lock has two owners. */
  ghost predicate Exclusive(s: System) {
    && (forall l: nat :: l in s.locked ==> Owned(s, l))
    && (forall c: nat, i: nat, l: nat :: Owns(s, c, i, l) ==> l in s.locked)
    && (forall c: nat, i: nat, d: nat, j: nat, l: nat :: Owns(s, c, i, l) && Owns(s, d, j, l) ==> c == d && i == j)
  }

  ghost predicate Inv(s: System) {
    Exclusive(s) && forall c :: 0 <= c < |s.cpus| ==> CpuOk(s.cpus[c])
  }

  /** Dropping guard `i` is safe if it is the only one, or was taken with interrupts off. */
  predicate SafeDrop(s: System, e: Event)
    requires Enabled(s, e)
  {
    e.Unlock? ==> |Top(s.cpus[e.cpu]).guards| == 1 || !Top(s.cpus[e.cpu]).guards[e.index].irq
  }

  /** Guards dropped in the reverse of the order they were taken. */
  predicate Lifo(s: System, e: Event)
    requires Enabled(s, e)
  {
    e.Unlock? ==> e.index == |Top(s.cpus[e.cpu]).guards| - 1
  }

  lemma LifoIsSafe(s: System, e: Event)
    requires Inv(s) && Enabled(s, e) && Lifo(s, e)
    ensures SafeDrop(s, e)
  {
    assert CpuOk(s.cpus[e.cpu]);
  }

  // ------------------------------------------------------------------ one CPU's step

  /** A step keeps its CPU in order exactly if it does not drop an outermost guard too early. */
  lemma CpuStep(s: System, e: Event)
    requires Enabled(s, e) && CpuOk(s.cpus[e.cpu])
    ensures CpuOk(NextCpu(s, e)) <==> SafeDrop(s, e)
  {
  }

  // ---------------------------------------------------------------------- ownership

  lemma OtherSteps(s: System, e: Event)
    requires Inv(s) && Enabled(s, e) && !e.Unlock?
    requires e.Swap? ==> Top(s.cpus[e.cpu]).phase.lock in s.locked
    ensures Exclusive(Next(s, e))
  {
    var s' := Next(s, e);
    assert CpuOk(s.cpus[e.cpu]);
    assert e.Swap? ==> s'.locked == s.locked;
    forall c: nat, i: nat, l: nat ensures Owns(s', c, i, l) <==> Owns(s, c, i, l) {}
    forall l: nat | l in s'.locked ensures Owned(s', l) {
      assert Owned(s, l);
      var c: nat, i: nat :| Owns(s, c, i, l);
      assert Owns(s', c, i, l);
    }
  }

  lemma SwapStep(s: System, e: Event)
    requires Inv(s) && Enabled(s, e) && e.Swap? && Top(s.cpus[e.cpu]).phase.lock !in s.locked
    ensures Exclusive(Next(s, e))
  {
    var s', top := Next(s, e), Top(s.cpus[e.cpu]);
    var l0, i0 := top.phase.lock, |top.guards|;
    assert Owns(s', e.cpu, i0, l0);
    forall c: nat, i: nat, l: nat
      ensures Owns(s', c, i, l) <==> Owns(s, c, i, l) || (c == e.cpu && i == i0 && l == l0)
    {
    }
    forall l: nat | l in s'.locked ensures Owned(s', l) {
      if l != l0 {
        assert Owned(s, l);
        var c: nat, i: nat :| Owns(s, c, i, l);
        assert Owns(s', c, i, l);
      }
    }
  }

  /** Where guard `j` was before guard `i` went. */
  function Moved(j: nat, i: nat): nat {
    if j < i then j else j + 1
  }

  lemma UnlockStep(s: System, e: Event)
    requires Inv(s) && Enabled(s, e) && e.Unlock?
    ensures Exclusive(Next(s, e))
  {
    var s', top := Next(s, e), Top(s.cpus[e.cpu]);
    var l0 := top.guards[e.index].lock;
    assert Owns(s, e.cpu, e.index, l0);
    forall c: nat, j: nat, l: nat
      ensures Owns(s', c, j, l) <==> Owns(s, c, if c == e.cpu then Moved(j, e.index) else j, l)
    {
    }
    forall l: nat | l in s'.locked ensures Owned(s', l) {
      assert Owned(s, l);
      var c: nat, i: nat :| Owns(s, c, i, l);
      assert c == e.cpu ==> i != e.index;
      assert Owns(s', c, if c == e.cpu && i > e.index then i - 1 else i, l);
    }
  }

  /** The invariant survives a step exactly if the drop, if it is one, is safe. */
  lemma StepKeeps(s: System, e: Event)
    requires Inv(s) && Enabled(s, e)
    ensures Inv(Next(s, e)) <==> SafeDrop(s, e)
  {
    assert CpuOk(s.cpus[e.cpu]);
    CpuStep(s, e);
    if e.Unlock? {
      UnlockStep(s, e);
    } else if e.Swap? && Top(s.cpus[e.cpu]).phase.lock !in s.locked {
      SwapStep(s, e);
    } else {
      OtherSteps(s, e);
    }
    var s' := Next(s, e);
    assert s'.cpus[e.cpu] == NextCpu(s, e);
  }

  /** Some CPU owns a lock with interrupts on: a handler that wants the lock would spin for ever. */
  ghost predicate Exposed(s: System) {
    exists c: nat, i: nat, l: nat :: Owns(s, c, i, l) && s.cpus[c].irqOn
  }

  /** The state at the end of a drop: the flag is cleared and the saved interrupt state is loaded. */
  function Dropped(s: System, e: Event): System
    requires Enabled(s, e) && e.Unlock?
  {
    Next(Next(s, e), Load(e.cpu))
  }

  lemma DroppedCpu(s: System, e: Event)
    requires Inv(s) && Enabled(s, e) && e.Unlock?
    ensures var top, cpu := Top(s.cpus[e.cpu]), Dropped(s, e).cpus[e.cpu];
      && cpu.stack != [] && cpu.irqOn == Loaded(s.cpus[e.cpu].irqOn, top.guards[e.index].irq)
      && Top(cpu).guards == top.guards[..e.index] + top.guards[e.index + 1..]
    ensures forall c :: 0 <= c < |s.cpus| && c != e.cpu ==> Dropped(s, e).cpus[c] == s.cpus[c]
  {
  }

  /** The end of a drop leaves an owner with interrupts on if and only if the drop is not safe. */
  lemma DropExact(s: System, e: Event)
    requires Inv(s) && Enabled(s, e) && e.Unlock?
    ensures Exposed(Dropped(s, e)) <==> !SafeDrop(s, e)
  {
    DroppedCpu(s, e);
    var s', top := Dropped(s, e), Top(s.cpus[e.cpu]);
    assert CpuOk(s.cpus[e.cpu]);
    if !SafeDrop(s, e) {
      assert Owns(s', e.cpu, 0, Top(s'.cpus[e.cpu]).guards[0].lock);
    }
    if Exposed(s') {
      var c: nat, i: nat, l: nat :| Owns(s', c, i, l) && s'.cpus[c].irqOn;
      assert CpuOk(s.cpus[c]);
    }
  }

  // --------------------------------------------------------------------------- runs

  /** No lock taken, each CPU in its first context. */
  function Start(irqs: seq<bool>): System {
    System(seq(|irqs|, c requires 0 <= c < |irqs| => Cpu(irqs[c], [Context(Idle, [], false)])), {})
  }

  predicate Legal(s: System, run: seq<Event>)
    decreases run
  {
    run == [] || (Enabled(s, run[0]) && SafeDrop(s, run[0]) && Legal(Next(s, run[0]), run[1..]))
  }

  function After(s: System, run: seq<Event>): System
    requires Legal(s, run)
    decreases run
  {
    if run == [] then s else After(Next(s, run[0]), run[1..])
  }

  lemma StartInv(irqs: seq<bool>)
    ensures Inv(Start(irqs))
  {
  }

  lemma {:induction false} RunKeeps(s: System, run: seq<Event>)
    requires Inv(s) && Legal(s, run)
    ensures Inv(After(s, run))
    decreases run
  {
    if run != [] {
      StepKeeps(s, run[0]);
      RunKeeps(Next(s, run[0]), run[1..]);
    }
  }

  /** In every reachable state a flag is set exactly when one guard of one running context owns the lock. */
  lemma FlagMeansOneOwner(irqs: seq<bool>, run: seq<Event>, l: nat)
    requires Legal(Start(irqs), run)
    ensures var s := After(Start(irqs), run);
      && (l in s.locked <==> Owned(s, l))
      && forall c: nat, i: nat, d: nat, j: nat :: Owns(s, c, i, l) && Owns(s, d, j, l) ==> c == d && i == j
  {
    StartInv(irqs);
    RunKeeps(Start(irqs), run);
  }

  /** In every reachable state a CPU that owns a lock has interrupts off, so no handler can come over its owner. */
  lemma OwnerIsQuiet(irqs: seq<bool>, run: seq<Event>, c: nat, i: nat, l: nat)
    requires Legal(Start(irqs), run) && Owns(After(Start(irqs), run), c, i, l)
    ensures var s := After(Start(irqs), run);
      && !s.cpus[c].irqOn && !Enabled(s, Interrupt(c))
      && forall k :: 0 <= k < |s.cpus[c].stack| - 1 ==> s.cpus[c].stack[k].guards == []
  {
    StartInv(irqs);
    RunKeeps(Start(irqs), run);
    assert CpuOk(After(Start(irqs), run).cpus[c]);
  }

  // ------------------------------------------------------------- restoring interrupts

  /** Context `d` of CPU `c` is in `lock`, holds a guard, or is letting its last one go. */
  predicate Inside(s: System, c: nat, d: nat) {
    && c < |s.cpus| && d < |s.cpus[c].stack|
    && !(s.cpus[c].stack[d].phase.Idle? && s.cpus[c].stack[d].guards == [])
  }

  lemma BeforeKept(s: System, e: Event, c: nat, d: nat)
    requires Inv(s) && Enabled(s, e) && Inside(s, c, d) && Inside(Next(s, e), c, d)
    ensures Next(s, e).cpus[c].stack[d].before == s.cpus[c].stack[d].before
  {
    assert CpuOk(s.cpus[c]);
  }

  /** Every state on the way is inside. */
  predicate StaysInside(s: System, run: seq<Event>, c: nat, d: nat)
    requires Legal(s, run)
    decreases run
  {
    Inside(s, c, d) && (run != [] ==> StaysInside(Next(s, run[0]), run[1..], c, d))
  }

  lemma {:induction false} BeforeKeptRun(s: System, run: seq<Event>, c: nat, d: nat)
    requires Inv(s) && Legal(s, run) && StaysInside(s, run, c, d)
    ensures Inside(After(s, run), c, d) && After(s, run).cpus[c].stack[d].before == s.cpus[c].stack[d].before
    decreases run
  {
    if run != [] {
      StepKeeps(s, run[0]);
      BeforeKept(s, run[0], c, d);
      BeforeKeptRun(Next(s, run[0]), run[1..], c, d);
    }
  }

  /**
   * From the outermost `lock` of a context, through any nesting of locks and any interrupts, to the end of
   * the drop that leaves it with no guard: interrupts are on again exactly if they were on at first.
   */
  lemma OutermostDropRestores(s: System, l: nat, c: nat, run: seq<Event>)
    requires Inv(s) && Enabled(s, Save(c, l)) && Top(s.cpus[c]).guards == []
    requires Legal(Next(s, Save(c, l)), run)
    requires StaysInside(Next(s, Save(c, l)), run, c, |s.cpus[c].stack| - 1)
    requires Enabled(After(Next(s, Save(c, l)), run), Load(c))
    requires |After(Next(s, Save(c, l)), run).cpus[c].stack| == |s.cpus[c].stack|
    requires Top(After(Next(s, Save(c, l)), run).cpus[c]).guards == []
    ensures Next(After(Next(s, Save(c, l)), run), Load(c)).cpus[c].irqOn == s.cpus[c].irqOn
  {
    var s1 := Next(s, Save(c, l));
    StepKeeps(s, Save(c, l));
    RunKeeps(s1, run);
    BeforeKeptRun(s1, run, c, |s.cpus[c].stack| - 1);
    assert CpuOk(After(s1, run).cpus[c]);
  }

  // ------------------------------------------------------------- dropping out of order

  /** One CPU with one context, with two locks taken in order. */
  function TwoLocks(): System {
    System([Cpu(false, [Context(Idle, [Guard(1, true), Guard(2, false)], true)])], {1, 2})
  }

  /** One CPU with one context. */
  function Lone(irqOn: bool, phase: Phase, guards: seq<Guard>, before: bool, locked: set<nat>): System {
    System([Cpu(irqOn, [Context(phase, guards, before)])], locked)
  }

  lemma Single<T>(x: T, y: T)
    ensures [x][0 := y] == [y]
  {
  }

  /** Steps that change only the running context, on a lone CPU. */
  lemma LoneStep(irqOn: bool, phase: Phase, guards: seq<Guard>, before: bool, locked: set<nat>, e: Event,
                 irqOn': bool, phase': Phase, guards': seq<Guard>, before': bool)
    requires e.cpu == 0 && Enabled(Lone(irqOn, phase, guards, before, locked), e)
    requires NextCpu(Lone(irqOn, phase, guards, before, locked), e) ==
      WithTop(Lone(irqOn, phase, guards, before, locked).cpus[0], irqOn', Context(phase', guards', before'))
    ensures Next(Lone(irqOn, phase, guards, before, locked), e) ==
      Lone(irqOn', phase', guards', before', NextLocked(Lone(irqOn, phase, guards, before, locked), e))
  {
    var s := Lone(irqOn, phase, guards, before, locked);
    Single(Context(phase, guards, before), Context(phase', guards', before'));
    Single(s.cpus[0], NextCpu(s, e));
  }

  lemma FirstLock()
    ensures StepTo(Lone(true, Idle, [], false, {}), Save(0, 1), Lone(true, Saved(1, true), [], true, {}))
    ensures StepTo(Lone(true, Saved(1, true), [], true, {}), Disable(0), Lone(false, Spinning(1, true), [], true, {}))
    ensures StepTo(Lone(false, Spinning(1, true), [], true, {}), Swap(0),
      Lone(false, Idle, [Guard(1, true)], true, {1}))
  {
    LoneStep(true, Idle, [], false, {}, Save(0, 1), true, Saved(1, true), [], true);
    LoneStep(true, Saved(1, true), [], true, {}, Disable(0), false, Spinning(1, true), [], true);
    assert [] + [Guard(1, true)] == [Guard(1, true)];
    LoneStep(false, Spinning(1, true), [], true, {}, Swap(0), false, Idle, [Guard(1, true)], true);
  }

  lemma SecondLock(a: seq<Guard>)
    requires a == [Guard(1, true)]
    ensures StepTo(Lone(false, Idle, a, true, {1}), Save(0, 2), Lone(false, Saved(2, false), a, true, {1}))
    ensures StepTo(Lone(false, Saved(2, false), a, true, {1}), Disable(0),
      Lone(false, Spinning(2, false), a, true, {1}))
    ensures StepTo(Lone(false, Spinning(2, false), a, true, {1}), Swap(0), TwoLocks())
  {
    LoneStep(false, Idle, a, true, {1}, Save(0, 2), false, Saved(2, false), a, true);
    LoneStep(false, Saved(2, false), a, true, {1}, Disable(0), false, Spinning(2, false), a, true);
    assert a + [Guard(2, false)] == [Guard(1, true), Guard(2, false)];
    LoneStep(false, Spinning(2, false), a, true, {1}, Swap(0), false, Idle, a + [Guard(2, false)], true);
  }

  lemma TwoLocksReached()
    ensures Legal(Start([true]), [Save(0, 1), Disable(0), Swap(0), Save(0, 2), Disable(0), Swap(0)])
    ensures After(Start([true]), [Save(0, 1), Disable(0), Swap(0), Save(0, 2), Disable(0), Swap(0)]) == TwoLocks()
  {
    var a := [Guard(1, true)];
    FirstLock();
    SecondLock(a);
    Chain(Lone(true, Idle, [], false, {}), Lone(true, Saved(1, true), [], true, {}),
          Lone(false, Spinning(1, true), [], true, {}), Lone(false, Idle, a, true, {1}),
          Lone(false, Saved(2, false), a, true, {1}), Lone(false, Spinning(2, false), a, true, {1}), TwoLocks(),
          Save(0, 1), Disable(0), Swap(0), Save(0, 2), Disable(0), Swap(0));
    assert Start([true]) == Lone(true, Idle, [], false, {});
  }

  lemma Chain(s0: System, s1: System, s2: System, s3: System, s4: System, s5: System, s6: System,
              e0: Event, e1: Event, e2: Event, e3: Event, e4: Event, e5: Event)
    requires StepTo(s0, e0, s1) && StepTo(s1, e1, s2) && StepTo(s2, e2, s3)
    requires StepTo(s3, e3, s4) && StepTo(s4, e4, s5) && StepTo(s5, e5, s6)
    ensures Legal(s0, [e0, e1, e2, e3, e4, e5]) && After(s0, [e0, e1, e2, e3, e4, e5]) == s6
  {
    var r5 := [e5] + [];
    var r4 := [e4] + r5;
    var r3 := [e3] + r4;
    var r2 := [e2] + r3;
    var r1 := [e1] + r2;
    AfterCons(s5, e5, s6, []);
    AfterCons(s4, e4, s5, r5);
    AfterCons(s3, e3, s4, r4);
    AfterCons(s2, e2, s3, r3);
    AfterCons(s1, e1, s2, r2);
    AfterCons(s0, e0, s1, r1);
    assert [e0] + r1 == [e0, e1, e2, e3, e4, e5];
  }

  lemma AfterCons(s: System, e: Event, s': System, run: seq<Event>)
    requires StepTo(s, e, s') && Legal(s', run)
    ensures Legal(s, [e] + run) && After(s, [e] + run) == After(s', run)
  {
    assert ([e] + run)[1..] == run;
  }

  predicate StepTo(s: System, e: Event, s': System) {
    Enabled(s, e) && SafeDrop(s, e) && Next(s, e) == s'
  }

  /** Dropping the outer guard first leaves the CPU open to interrupts while it owns the inner lock. */
  lemma EarlyDrop()
    ensures var s := TwoLocks();
      && Inv(s) && Enabled(s, Unlock(0, 0)) && !SafeDrop(s, Unlock(0, 0))
      && var s1 := Next(s, Unlock(0, 0));
      && Enabled(s1, Load(0))
      && var s2 := Next(s1, Load(0));
      && Owns(s2, 0, 0, 2) && Enabled(s2, Interrupt(0))
  {
    var s := TwoLocks();
    assert Owns(s, 0, 0, 1) && Owns(s, 0, 1, 2);
  }
}
