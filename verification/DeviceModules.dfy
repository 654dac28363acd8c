/** The process-wide registry of device modules, under every interleaving of threads.

    Two locks are modelled. `registry_mutex` only guards short sections without calls, so
    each such section is one atomic step. `lifecycle_mutex` is recursive and is held across
    HIP calls; during those the same thread may re-enter `rocshmem_register_device_module`,
    so a thread is a stack of frames, the running one last. */
module DeviceModules {
  import opened Options

  type Module = nat

  /** The six values that the setters install: context, two teams, constants, backend, log. */
  type Fields = f: seq<int> | |f| == 6 witness [0, 0, 0, 0, 0, 0]

  datatype Snapshot = Invalid | Valid(fields: Fields)

  datatype Frame =
    | RegWaiting(m: Module)                                   // listed, wants the lifecycle lock
    | RegLocked(m: Module)                                    // has it, will copy the snapshot
    | RegApply(m: Module, copy: Fields, k: nat)               // has called k setters
    | SyncWaiting
    | SyncCapture(captured: seq<int>)                         // reads the source symbols in turn
    | SyncApply(copy: Fields, todo: seq<Module>, k: nat)      // k setters of todo[0] called
    | ClearWaiting
    | ClearLocked
  {
    predicate Waits() { RegWaiting? || SyncWaiting? || ClearWaiting? }

    /** Inside a HIP call that may load and register another module on this thread. */
    predicate InHip() { RegApply? || SyncCapture? || SyncApply? }

    predicate ForReg() { RegWaiting? || RegLocked? || RegApply? }
  }

  datatype State = State(
    owner: Option<nat>, depth: nat,          // lifecycle_mutex
    modules: seq<Module>, snapshot: Snapshot,
    holds: map<Module, Fields>,              // the values now installed in each module
    stacks: seq<seq<Frame>>)

  datatype Event =
    | Register(t: nat, m: Module, initial: Fields)
    | SyncCall(t: nat)
    | ClearCall(t: nat)
    | Acquire(t: nat)
    | CopySnapshot(t: nat)
    | Setter(t: nat)
    | RegReturn(t: nat)
    | Capture(t: nat, value: int)
    | Publish(t: nat)
    | SyncSetter(t: nat)
    | SyncNext(t: nat)
    | SyncReturn(t: nat)
    | ClearDo(t: nat)

  function Top(s: State, t: nat): Frame
    requires t < |s.stacks| && s.stacks[t] != []
  {
    s.stacks[t][|s.stacks[t]| - 1]
  }

  predicate HasTop(s: State, t: nat) { t < |s.stacks| && s.stacks[t] != [] }

  predicate Enabled(s: State, e: Event) {
    && e.t < |s.stacks|
    && match e
       case Register(t, m, _) => s.stacks[t] == [] || Top(s, t).InHip()
       case SyncCall(t) => s.stacks[t] == []
       case ClearCall(t) => s.stacks[t] == []
       case Acquire(t) => HasTop(s, t) && Top(s, t).Waits() && (s.owner == None || s.owner == Some(t))
       case CopySnapshot(t) => HasTop(s, t) && Top(s, t).RegLocked?
       case Setter(t) => HasTop(s, t) && Top(s, t).RegApply? && Top(s, t).k < 6 && Top(s, t).m in s.holds
       case RegReturn(t) => HasTop(s, t) && Top(s, t).RegApply? && Top(s, t).k == 6
       case Capture(t, _) => HasTop(s, t) && Top(s, t).SyncCapture? && |Top(s, t).captured| < 6
       case Publish(t) => HasTop(s, t) && Top(s, t).SyncCapture? && |Top(s, t).captured| == 6
       case SyncSetter(t) =>
         && HasTop(s, t) && Top(s, t).SyncApply? && Top(s, t).todo != [] && Top(s, t).k < 6
         && Top(s, t).todo[0] in s.holds
       case SyncNext(t) => HasTop(s, t) && Top(s, t).SyncApply? && Top(s, t).todo != [] && Top(s, t).k == 6
       case SyncReturn(t) => HasTop(s, t) && Top(s, t).SyncApply? && Top(s, t).todo == []
       case ClearDo(t) => HasTop(s, t) && Top(s, t).ClearLocked?
  }

  // ------------------------------------------------------------------------------- steps

  function Push(s: State, t: nat, f: Frame): State
    requires t < |s.stacks|
  {
    s.(stacks := s.stacks[t := s.stacks[t] + [f]])
  }

  function SetTop(s: State, t: nat, f: Frame): State
    requires HasTop(s, t)
  {
    s.(stacks := s.stacks[t := s.stacks[t][|s.stacks[t]| - 1 := f]])
  }

  /** Leave the running function and unlock once. */
  function PopRelease(s: State, t: nat): State
    requires HasTop(s, t)
  {
    s.(stacks := s.stacks[t := s.stacks[t][..|s.stacks[t]| - 1]],
       depth := if s.depth == 0 then 0 else s.depth - 1,
       owner := if s.depth <= 1 then None else s.owner)
  }

  function Locked(f: Frame): Frame
    requires f.Waits()
  {
    match f
    case RegWaiting(m) => RegLocked(m)
    case SyncWaiting => SyncCapture([])
    case ClearWaiting => ClearLocked
  }

  function Install(s: State, m: Module, k: nat, value: int): State
    requires m in s.holds && k < 6
  {
    s.(holds := s.holds[m := s.holds[m][k := value]])
  }

  function Next(s: State, e: Event): State
    requires Enabled(s, e)
  {
    match e
    case Register(t, m, initial) =>
      if m in s.modules then s
      else Push(s, t, RegWaiting(m)).(modules := s.modules + [m], holds := s.holds[m := initial])
    case SyncCall(t) => Push(s, t, SyncWaiting)
    case ClearCall(t) => Push(s, t, ClearWaiting)
    case Acquire(t) => SetTop(s, t, Locked(Top(s, t))).(owner := Some(t), depth := s.depth + 1)
    case CopySnapshot(t) =>
      if s.snapshot.Valid? then SetTop(s, t, RegApply(Top(s, t).m, s.snapshot.fields, 0))
      else PopRelease(s, t)
    case Setter(t) =>
      var f := Top(s, t);
      Install(SetTop(s, t, RegApply(f.m, f.copy, f.k + 1)), f.m, f.k, f.copy[f.k])
    case RegReturn(t) => PopRelease(s, t)
    case Capture(t, value) => SetTop(s, t, SyncCapture(Top(s, t).captured + [value]))
    case Publish(t) =>
      SetTop(s, t, SyncApply(Top(s, t).captured, s.modules, 0)).(snapshot := Valid(Top(s, t).captured))
    case SyncSetter(t) =>
      var f := Top(s, t);
      Install(SetTop(s, t, SyncApply(f.copy, f.todo, f.k + 1)), f.todo[0], f.k, f.copy[f.k])
    case SyncNext(t) =>
      var f := Top(s, t);
      SetTop(s, t, SyncApply(f.copy, f.todo[1..], 0))
    case SyncReturn(t) => PopRelease(s, t)
    case ClearDo(t) => PopRelease(s, t).(snapshot := Invalid)
  }

  // ----------------------------------------------------------------------- the invariant

  /** How many frames of a stack hold the lifecycle lock. */
  function Holding(stack: seq<Frame>): (r: nat)
    ensures r <= |stack|
  {
    if stack == [] then 0
    else Holding(stack[..|stack| - 1]) + if stack[|stack| - 1].Waits() then 0 else 1
  }

  ghost predicate LockOk(s: State) {
    && (s.owner == None <==> s.depth == 0)
    && (s.owner.Some? ==> s.owner.value < |s.stacks|)
    && forall t :: 0 <= t < |s.stacks| ==> Holding(s.stacks[t]) == if s.owner == Some(t) then s.depth else 0
  }

  /** Only a registration can be re-entered, and only from inside a HIP call. */
  ghost predicate StackOk(stack: seq<Frame>) {
    && (forall i :: 0 <= i < |stack| - 1 ==> stack[i].InHip())
    && (forall i :: 1 <= i < |stack| ==> stack[i].ForReg())
  }

  ghost predicate Begun(held: Fields, copy: Fields, k: nat) {
    k <= 6 && forall j :: 0 <= j < k ==> held[j] == copy[j]
  }

  ghost predicate FrameOk(s: State, f: Frame) {
    match f
    case RegWaiting(m) => m in s.holds
    case RegLocked(m) => m in s.holds
    case RegApply(m, copy, k) => s.snapshot == Valid(copy) && m in s.holds && Begun(s.holds[m], copy, k)
    case SyncApply(copy, todo, k) =>
      && s.snapshot == Valid(copy) && (forall m :: m in todo ==> m in s.holds)
      && (if todo == [] then k == 0 else Begun(s.holds[todo[0]], copy, k))
    case SyncCapture(captured) => |captured| <= 6
    case _ => true
  }

  ghost predicate FramesOk(s: State) {
    forall t, i :: 0 <= t < |s.stacks| && 0 <= i < |s.stacks[t]| ==> FrameOk(s, s.stacks[t][i])
  }

  /** Frame `f` will still bring module `m` up to date. */
  ghost predicate Serves(f: Frame, m: Module) {
    (f.ForReg() && f.m == m) || (f.SyncApply? && m in f.todo)
  }

  ghost predicate Served(s: State, m: Module) {
    exists t, i :: 0 <= t < |s.stacks| && 0 <= i < |s.stacks[t]| && Serves(s.stacks[t][i], m)
  }

  ghost predicate UpToDate(s: State, m: Module) {
    m in s.holds && s.snapshot == Valid(s.holds[m])
  }

  ghost predicate Inv(s: State) {
    && LockOk(s) && FramesOk(s)
    && (forall t :: 0 <= t < |s.stacks| ==> StackOk(s.stacks[t]))
    && (forall m :: m in s.modules <==> m in s.holds)
    && (s.snapshot.Valid? ==> forall m :: m in s.modules ==> UpToDate(s, m) || Served(s, m))
  }

  ghost predicate Init(s: State) {
    && s.owner == None && s.depth == 0 && s.modules == [] && s.snapshot == Invalid && s.holds == map[]
    && forall t :: 0 <= t < |s.stacks| ==> s.stacks[t] == []
  }

  lemma InitInv(s: State)
    requires Init(s)
    ensures Inv(s)
  {
  }

  // ------------------------------------------------------------------ stacks and the lock

  lemma HoldingPush(stack: seq<Frame>, f: Frame)
    ensures Holding(stack + [f]) == Holding(stack) + if f.Waits() then 0 else 1
  {
    assert (stack + [f])[..|stack|] == stack;
  }

  lemma HoldingSetTop(stack: seq<Frame>, f: Frame)
    requires stack != []
    ensures Holding(stack[|stack| - 1 := f]) == Holding(stack[..|stack| - 1]) + if f.Waits() then 0 else 1
  {
    assert stack[|stack| - 1 := f] == stack[..|stack| - 1] + [f];
    HoldingPush(stack[..|stack| - 1], f);
  }

  /** A thread without the lock has no frame that needs it. */
  lemma {:induction false} NoneHolding(stack: seq<Frame>, i: nat)
    requires Holding(stack) == 0 && i < |stack|
    ensures stack[i].Waits()
  {
    if i < |stack| - 1 {
      NoneHolding(stack[..|stack| - 1], i);
    }
  }

  /** The thread whose running frame holds the lock is its owner. */
  lemma TopOwns(s: State, t: nat)
    requires LockOk(s) && HasTop(s, t) && !Top(s, t).Waits()
    ensures s.owner == Some(t) && s.depth > 0
  {
    assert Holding(s.stacks[t]) > 0;
  }

  lemma LockPush(s: State, s': State, t: nat, f: Frame)
    requires LockOk(s) && t < |s.stacks| && f.Waits() && s'.owner == s.owner && s'.depth == s.depth
    requires s'.stacks == s.stacks[t := s.stacks[t] + [f]]
    ensures LockOk(s')
  {
    HoldingPush(s.stacks[t], f);
  }

  /** Replacing the running frame by another that holds the lock. */
  lemma LockSet(s: State, s': State, t: nat, f: Frame)
    requires LockOk(s) && HasTop(s, t) && !f.Waits()
    requires s'.stacks == s.stacks[t := s.stacks[t][|s.stacks[t]| - 1 := f]] && s'.owner == Some(t)
    requires Top(s, t).Waits() ==> (s.owner == None || s.owner == Some(t)) && s'.depth == s.depth + 1
    requires !Top(s, t).Waits() ==> s'.owner == s.owner && s'.depth == s.depth
    ensures LockOk(s')
  {
    assert Holding(s.stacks[t]) == if s.owner == Some(t) then s.depth else 0;
    HoldingSetTop(s.stacks[t], f);
  }

  lemma LockPop(s: State, s': State, t: nat)
    requires LockOk(s) && HasTop(s, t) && !Top(s, t).Waits()
    requires s'.stacks == PopRelease(s, t).stacks
    requires s'.owner == PopRelease(s, t).owner && s'.depth == PopRelease(s, t).depth
    ensures LockOk(s')
  {
    TopOwns(s, t);
    assert Holding(s.stacks[t]) == s.depth;
  }

  lemma LockKept(s: State, e: Event)
    requires Inv(s) && Enabled(s, e)
    ensures LockOk(Next(s, e))
  {
    var s' := Next(s, e);
    var t := e.t;
    if e.Register? || e.SyncCall? || e.ClearCall? {
      if s'.stacks != s.stacks {
        LockPush(s, s', t, Top(s', t));
      }
    } else {
      if !e.Acquire? {
        TopOwns(s, t);
      }
      if |s'.stacks[t]| < |s.stacks[t]| {
        LockPop(s, s', t);
      } else {
        LockSet(s, s', t, Top(s', t));
      }
    }
  }

  lemma StackPush(stack: seq<Frame>, f: Frame)
    requires StackOk(stack) && (stack == [] || (stack[|stack| - 1].InHip() && f.ForReg()))
    ensures StackOk(stack + [f])
  {
  }

  lemma StackSet(stack: seq<Frame>, f: Frame)
    requires StackOk(stack) && stack != [] && (stack[|stack| - 1].ForReg() ==> f.ForReg())
    ensures StackOk(stack[|stack| - 1 := f]) && StackOk(stack[..|stack| - 1])
  {
  }

  lemma StacksKept(s: State, e: Event)
    requires Enabled(s, e) && forall t :: 0 <= t < |s.stacks| ==> StackOk(s.stacks[t])
    ensures forall t :: 0 <= t < |Next(s, e).stacks| ==> StackOk(Next(s, e).stacks[t])
  {
    var s' := Next(s, e);
    var stack := s.stacks[e.t];
    if |s'.stacks[e.t]| > |stack| {
      StackPush(stack, Top(s', e.t));
    } else if stack != [] {
      StackSet(stack, if |s'.stacks[e.t]| == |stack| then Top(s', e.t) else Top(s, e.t));
    }
  }

  /** Publishing and clearing happen with no other frame under way. */
  lemma Alone(s: State, t: nat, u: nat, i: nat)
    requires Inv(s) && HasTop(s, t) && (Top(s, t).SyncCapture? || Top(s, t).ClearLocked?)
    requires u < |s.stacks| && i < |s.stacks[u]|
    ensures if u == t then i == 0 && |s.stacks[t]| == 1 else s.stacks[u][i].Waits()
  {
    assert StackOk(s.stacks[t]);
    TopOwns(s, t);
    if u != t {
      NoneHolding(s.stacks[u], i);
    }
  }

  // ----------------------------------------------------------------- frames and modules

  /** Setters only ever install values of the current snapshot, so no progress is lost. */
  lemma InstallKeepsFrame(s: State, s': State, m: Module, k: nat, f: Frame)
    requires FrameOk(s, f) && s.snapshot.Valid? && m in s.holds && k < 6
    requires s'.snapshot == s.snapshot && s'.holds == s.holds[m := s.holds[m][k := s.snapshot.fields[k]]]
    ensures FrameOk(s', f)
  {
  }

  lemma NewModuleKeepsFrame(s: State, s': State, m: Module, initial: Fields, f: Frame)
    requires FrameOk(s, f) && m !in s.holds
    requires s'.snapshot == s.snapshot && s'.holds == s.holds[m := initial]
    ensures FrameOk(s', f)
  {
  }

  /** A frame that the step does not touch stays sound. */
  lemma FrameSurvives(s: State, e: Event, u: nat, i: nat)
    requires Inv(s) && Enabled(s, e) && u < |s.stacks| && i < |s.stacks[u]|
    requires u != e.t || i < |s.stacks[u]| - 1 || e.Register?
    ensures FrameOk(Next(s, e), s.stacks[u][i])
  {
    var s' := Next(s, e);
    var f := s.stacks[u][i];
    assert FrameOk(s, f);
    match e
    case Register(t, m, initial) =>
      if m !in s.modules {
        NewModuleKeepsFrame(s, s', m, initial, f);
      }
    case Setter(t) =>
      assert FrameOk(s, Top(s, t));
      InstallKeepsFrame(s, s', Top(s, t).m, Top(s, t).k, f);
    case SyncSetter(t) =>
      assert FrameOk(s, Top(s, t));
      InstallKeepsFrame(s, s', Top(s, t).todo[0], Top(s, t).k, f);
    case Publish(t) => Alone(s, t, u, i);
    case ClearDo(t) => Alone(s, t, u, i);
    case _ =>
  }

  /** The frame that the step leaves on top is sound. */
  lemma TopSound(s: State, e: Event)
    requires Inv(s) && Enabled(s, e) && !e.Register? && |Next(s, e).stacks[e.t]| == |s.stacks[e.t]|
    ensures HasTop(Next(s, e), e.t) && FrameOk(Next(s, e), Top(Next(s, e), e.t))
  {
    var f := Top(s, e.t);
    assert FrameOk(s, f);
    var f' := Top(Next(s, e), e.t);
    if f'.SyncApply? {
      forall m | m in f'.todo ensures m in s.holds {
        assert e.Publish? || m in f.todo;
      }
    }
  }

  /** Any frame after the step: an old one, a new one that waits, or the one that moved. */
  lemma FrameKept(s: State, e: Event, u: nat, i: nat)
    requires Inv(s) && Enabled(s, e) && u < |Next(s, e).stacks| && i < |Next(s, e).stacks[u]|
    ensures FrameOk(Next(s, e), Next(s, e).stacks[u][i])
  {
    var s' := Next(s, e);
    if i < |s.stacks[u]| && s'.stacks[u][i] == s.stacks[u][i] && (u != e.t || i < |s.stacks[u]| - 1 || e.Register?) {
      FrameSurvives(s, e, u, i);
    } else if i == |s.stacks[u]| {
      assert s'.stacks[u][i].Waits();
    } else {
      TopSound(s, e);
    }
  }

  lemma FramesKept(s: State, e: Event)
    requires Inv(s) && Enabled(s, e)
    ensures FramesOk(Next(s, e))
  {
    var s' := Next(s, e);
    forall u, i | 0 <= u < |s'.stacks| && 0 <= i < |s'.stacks[u]| ensures FrameOk(s', s'.stacks[u][i]) {
      FrameKept(s, e, u, i);
    }
  }

  /** A frame that the step does not touch keeps serving its modules. */
  lemma ServedBy(s: State, s': State, u: nat, i: nat, v: nat, j: nat, m: Module)
    requires u < |s.stacks| && i < |s.stacks[u]| && Serves(s.stacks[u][i], m)
    requires v < |s'.stacks| && j < |s'.stacks[v]| && (Serves(s.stacks[u][i], m) ==> Serves(s'.stacks[v][j], m))
    ensures Served(s', m)
  {
  }

  /** When the running frame stops serving a module, that module is up to date. */
  lemma TopLetsGo(s: State, e: Event, m: Module)
    requires Inv(s) && Enabled(s, e) && HasTop(s, e.t) && Serves(Top(s, e.t), m) && !e.Register?
    requires s.snapshot.Valid?
    ensures (HasTop(Next(s, e), e.t) && |Next(s, e).stacks[e.t]| == |s.stacks[e.t]| && Serves(Top(Next(s, e), e.t), m))
            || UpToDate(Next(s, e), m)
  {
    var f := Top(s, e.t);
    assert FrameOk(s, f);
    match e
    case RegReturn(t) => assert s.holds[m] == f.copy;
    case SyncNext(t) =>
      if m == f.todo[0] {
        assert s.holds[m] == f.copy;
      } else {
        assert m in f.todo[1..];
      }
    case _ =>
  }

  lemma UpToDateKept(s: State, e: Event, m: Module)
    requires Inv(s) && Enabled(s, e) && UpToDate(s, m) && !e.Publish? && !e.ClearDo?
    ensures UpToDate(Next(s, e), m)
  {
    var s' := Next(s, e);
    match e
    case Setter(t) =>
      assert FrameOk(s, Top(s, t));
      assert s.holds[m][Top(s, t).k := s.snapshot.fields[Top(s, t).k]] == s.holds[m];
    case SyncSetter(t) =>
      assert FrameOk(s, Top(s, t));
      assert s.holds[m][Top(s, t).k := s.snapshot.fields[Top(s, t).k]] == s.holds[m];
    case _ =>
  }

  lemma Untouched(s: State, e: Event, u: nat, i: nat)
    requires Enabled(s, e) && u < |s.stacks| && i < |s.stacks[u]|
    requires u != e.t || i < |s.stacks[u]| - 1 || e.Register?
    ensures u < |Next(s, e).stacks| && i < |Next(s, e).stacks[u]| && Next(s, e).stacks[u][i] == s.stacks[u][i]
  {
  }

  /** Publishing serves every module listed so far; registering serves the new one. */
  lemma NewlyServed(s: State, e: Event, m: Module)
    requires Enabled(s, e)
    requires (e.Publish? && m in s.modules) || (e.Register? && e.m == m && m !in s.modules)
    ensures Served(Next(s, e), m)
  {
    var s' := Next(s, e);
    assert Serves(Top(s', e.t), m);
  }

  lemma StillServed(s: State, e: Event, m: Module)
    requires Inv(s) && Enabled(s, e) && s.snapshot.Valid? && Served(s, m)
    ensures UpToDate(Next(s, e), m) || Served(Next(s, e), m)
  {
    var s' := Next(s, e);
    var u, i :| 0 <= u < |s.stacks| && 0 <= i < |s.stacks[u]| && Serves(s.stacks[u][i], m);
    if u == e.t && i == |s.stacks[u]| - 1 && !e.Register? {
      TopLetsGo(s, e, m);
    } else {
      Untouched(s, e, u, i);
      ServedBy(s, s', u, i, u, i, m);
    }
  }

  lemma ModuleKept(s: State, e: Event, m: Module)
    requires Inv(s) && Enabled(s, e) && Next(s, e).snapshot.Valid? && m in Next(s, e).modules
    ensures UpToDate(Next(s, e), m) || Served(Next(s, e), m)
  {
    if e.Publish? || (e.Register? && m !in s.modules) {
      NewlyServed(s, e, m);
    } else {
      assert s.snapshot.Valid? && m in s.modules && !e.ClearDo?;
      if UpToDate(s, m) {
        UpToDateKept(s, e, m);
      } else {
        StillServed(s, e, m);
      }
    }
  }

  lemma StepKeepsInv(s: State, e: Event)
    requires Inv(s) && Enabled(s, e)
    ensures Inv(Next(s, e))
  {
    LockKept(s, e);
    StacksKept(s, e);
    FramesKept(s, e);
    forall m | m in Next(s, e).modules && Next(s, e).snapshot.Valid?
      ensures UpToDate(Next(s, e), m) || Served(Next(s, e), m)
    {
      ModuleKept(s, e, m);
    }
  }

  // -------------------------------------------------------------------------------- runs

  /** The state after a run of events, if each is enabled when it happens. */
  ghost function Run(s0: State, es: seq<Event>): (r: Option<State>)
    requires Init(s0)
    ensures r.Some? ==> Inv(r.value)
  {
    if es == [] then InitInv(s0); Some(s0)
    else
      var before := Run(s0, es[..|es| - 1]);
      var e := es[|es| - 1];
      if before.None? || !Enabled(before.value, e) then None
      else
        StepKeepsInv(before.value, e);
        Some(Next(before.value, e))
  }

  /** A call that registers `m` has listed it and is still waiting for the lifecycle lock. */
  ghost predicate RegistrationPending(s: State, m: Module) {
    exists t, i :: 0 <= t < |s.stacks| && 0 <= i < |s.stacks[t]| && s.stacks[t][i] == RegWaiting(m)
  }

  /** Whenever nobody holds the lifecycle lock and a snapshot is valid, every registered
      module holds exactly that snapshot or its own registration is still pending. */
  lemma EveryModuleHoldsSnapshot(s0: State, es: seq<Event>, s: State, m: Module)
    requires Init(s0) && Run(s0, es) == Some(s) && s.owner == None && s.snapshot.Valid? && m in s.modules
    ensures (m in s.holds && s.holds[m] == s.snapshot.fields) || RegistrationPending(s, m)
  {
    if !UpToDate(s, m) {
      var t, i :| 0 <= t < |s.stacks| && 0 <= i < |s.stacks[t]| && Serves(s.stacks[t][i], m);
      assert Holding(s.stacks[t]) == 0;
      NoneHolding(s.stacks[t], i);
      assert s.stacks[t][i] == RegWaiting(m);
    }
  }

  /** With every call returned, every registered module holds the valid snapshot. */
  lemma QuiescentMeansUpToDate(s0: State, es: seq<Event>, s: State, m: Module)
    requires Init(s0) && Run(s0, es) == Some(s) && s.snapshot.Valid? && m in s.modules
    requires forall t :: 0 <= t < |s.stacks| ==> s.stacks[t] == []
    ensures m in s.holds && s.holds[m] == s.snapshot.fields
  {
    assert !Served(s, m);
  }

  /** The two locks never deadlock: while a call is under way, some call can go on. */
  lemma SomeCallCanGoOn(s0: State, es: seq<Event>, s: State, t: nat) returns (e: Event)
    requires Init(s0) && Run(s0, es) == Some(s) && HasTop(s, t)
    ensures Enabled(s, e) && HasTop(s, e.t) && !e.Register?
  {
    var u := if s.owner.Some? then s.owner.value else t;
    assert Holding(s.stacks[u]) == if s.owner == Some(u) then s.depth else 0;
    var f := Top(s, u);
    assert FrameOk(s, f);
    if s.owner.None? {
      NoneHolding(s.stacks[u], |s.stacks[u]| - 1);
    }
    match f
    case RegWaiting(_) => e := Acquire(u);
    case SyncWaiting => e := Acquire(u);
    case ClearWaiting => e := Acquire(u);
    case RegLocked(_) => e := CopySnapshot(u);
    case RegApply(_, _, k) => e := if k < 6 then Setter(u) else RegReturn(u);
    case SyncCapture(captured) => e := if |captured| < 6 then Capture(u, 0) else Publish(u);
    case SyncApply(_, todo, k) =>
      e := if todo == [] then SyncReturn(u) else if k < 6 then SyncSetter(u) else SyncNext(u);
    case ClearLocked => e := ClearDo(u);
  }
}
