/** What the registry's state says about the past: the snapshot, the module list and the
    values in the modules, each as a function of the events of the run alone. */
module DeviceHistory {
  import opened Options
  import opened DeviceModules

  /** The values that thread `t` has read since its last call of `sync_device_modules`, in
      the order in which it read them. */
  ghost function Captured(es: seq<Event>, t: nat): seq<int> {
    if es == [] then []
    else
      var before, e := es[..|es| - 1], es[|es| - 1];
      if e == SyncCall(t) then []
      else if e.Capture? && e.t == t then Captured(before, t) + [e.value]
      else Captured(before, t)
  }

  /** What the last publication or clearing left behind. */
  ghost function Published(es: seq<Event>): Snapshot {
    if es == [] then Invalid
    else
      var before, e := es[..|es| - 1], es[|es| - 1];
      if e.Publish? then if |Captured(before, e.t)| == 6 then Valid(Captured(before, e.t)) else Invalid
      else if e.ClearDo? then Invalid
      else Published(before)
  }

  /** The modules in the order of their first registration. */
  ghost function Listed(es: seq<Event>): seq<Module> {
    if es == [] then []
    else
      var before, e := es[..|es| - 1], es[|es| - 1];
      if e.Register? && e.m !in Listed(before) then Listed(before) + [e.m] else Listed(before)
  }

  /** The last step of a run, and the state before it. */
  lemma LastStep(s0: State, es: seq<Event>, e: Event) returns (s: State)
    requires Init(s0) && Run(s0, es + [e]).Some?
    ensures Run(s0, es) == Some(s) && Inv(s) && Enabled(s, e) && Run(s0, es + [e]) == Some(Next(s, e))
  {
    assert (es + [e])[..|es|] == es;
    s := Run(s0, es).value;
  }

  lemma Split(es: seq<Event>) returns (before: seq<Event>, e: Event)
    requires es != []
    ensures before == es[..|es| - 1] && e == es[|es| - 1] && es == before + [e]
  {
    before, e := es[..|es| - 1], es[|es| - 1];
  }

  lemma {:induction false} Prefix(s0: State, es: seq<Event>, fs: seq<Event>)
    requires Init(s0) && Run(s0, es + fs).Some?
    ensures Run(s0, es).Some?
  {
    if fs == [] {
      assert es + fs == es;
    } else {
      var before, e := Split(fs);
      assert es + fs == es + before + [e];
      var _ := LastStep(s0, es + before, e);
      Prefix(s0, es, before);
    }
  }

  // ------------------------------------------------------------------------ the snapshot

  /** A sync that is reading symbols has read exactly what its thread captured; one that
      still waits has read nothing. */
  ghost predicate Reads(stack: seq<Frame>, captured: seq<int>) {
    && (stack != [] && stack[0].SyncCapture? ==> stack[0].captured == captured)
    && (stack != [] && stack[0].SyncWaiting? ==> captured == [])
  }

  lemma CapturedStep(es: seq<Event>, e: Event, t: nat)
    ensures Captured(es + [e], t)
         == if e == SyncCall(t) then [] else if e.Capture? && e.t == t then Captured(es, t) + [e.value]
            else Captured(es, t)
  {
    assert (es + [e])[..|es|] == es;
  }

  /** One step above the bottom of a stack: a registration, which captures nothing. */
  lemma ReadsAbove(s: State, e: Event, es: seq<Event>)
    requires Inv(s) && Enabled(s, e) && |s.stacks[e.t]| >= 2 && Reads(s.stacks[e.t], Captured(es, e.t))
    ensures |Next(s, e).stacks| == |s.stacks| && Reads(Next(s, e).stacks[e.t], Captured(es + [e], e.t))
  {
    assert StackOk(s.stacks[e.t]) && Top(s, e.t).ForReg();
    CapturedStep(es, e, e.t);
    assert Next(s, e).stacks[e.t][0] == s.stacks[e.t][0];
  }

  /** One step on the stack of the thread that makes it. */
  lemma ReadsStep(s: State, e: Event, es: seq<Event>)
    requires Inv(s) && Enabled(s, e) && Reads(s.stacks[e.t], Captured(es, e.t))
    ensures |Next(s, e).stacks| == |s.stacks| && Reads(Next(s, e).stacks[e.t], Captured(es + [e], e.t))
  {
    if |s.stacks[e.t]| >= 2 {
      ReadsAbove(s, e, es);
    } else {
      CapturedStep(es, e, e.t);
    }
  }

  /** One step on the stack of another thread. */
  lemma ReadsOther(s: State, e: Event, es: seq<Event>, t: nat)
    requires Enabled(s, e) && t < |s.stacks| && t != e.t && Reads(s.stacks[t], Captured(es, t))
    ensures |Next(s, e).stacks| == |s.stacks| && Reads(Next(s, e).stacks[t], Captured(es + [e], t))
  {
    CapturedStep(es, e, t);
    assert Next(s, e).stacks[t] == s.stacks[t];
  }

  lemma {:induction false} ReadsAlways(s0: State, es: seq<Event>, t: nat)
    requires Init(s0) && Run(s0, es).Some? && t < |s0.stacks|
    ensures |Run(s0, es).value.stacks| == |s0.stacks|
    ensures Reads(Run(s0, es).value.stacks[t], Captured(es, t))
  {
    if es != [] {
      var before, e := Split(es);
      var s1 := LastStep(s0, before, e);
      ReadsAlways(s0, before, t);
      if e.t == t {
        ReadsStep(s1, e, before);
      } else {
        ReadsOther(s1, e, before, t);
      }
    }
  }

  /** The frame that publishes is the sync at the bottom of its thread's stack. */
  lemma PublishesCaptured(s0: State, es: seq<Event>, t: nat)
    requires Init(s0) && Run(s0, es).Some? && Enabled(Run(s0, es).value, Publish(t))
    ensures |Captured(es, t)| == 6 && Next(Run(s0, es).value, Publish(t)).snapshot == Valid(Captured(es, t))
  {
    var s := Run(s0, es).value;
    StacksStay(s0, es);
    ReadsAlways(s0, es, t);
    Alone(s, t, t, |s.stacks[t]| - 1);
  }

  lemma StacksStep(s: State, e: Event)
    requires Enabled(s, e)
    ensures |Next(s, e).stacks| == |s.stacks|
  {
  }

  lemma {:induction false} StacksStay(s0: State, es: seq<Event>)
    requires Init(s0) && Run(s0, es).Some?
    ensures |Run(s0, es).value.stacks| == |s0.stacks|
  {
    if es != [] {
      var before, e := Split(es);
      var s1 := LastStep(s0, before, e);
      StacksStay(s0, before);
      StacksStep(s1, e);
    }
  }

  lemma SnapshotStep(s: State, e: Event)
    requires Enabled(s, e) && !e.Publish?
    ensures Next(s, e).snapshot == if e.ClearDo? then Invalid else s.snapshot
  {
  }

  /** After every run the snapshot is the one that the last publication made of the values
      its thread had read, unless it was cleared since, or nothing was published yet. */
  lemma {:induction false} SnapshotIs(s0: State, es: seq<Event>, s: State)
    requires Init(s0) && Run(s0, es) == Some(s)
    ensures s.snapshot == Published(es)
  {
    if es != [] {
      var before, e := Split(es);
      var s1 := LastStep(s0, before, e);
      SnapshotIs(s0, before, s1);
      if e.Publish? {
        PublishesCaptured(s0, before, e.t);
      } else {
        SnapshotStep(s1, e);
      }
    }
  }

  /** A publication by `t` makes a snapshot whose `k`-th field is the `k`-th value that `t`
      has read since it called. */
  lemma PublishedFields(s0: State, es: seq<Event>, t: nat, s: State, k: nat)
    requires Init(s0) && Run(s0, es + [Publish(t)]) == Some(s) && k < 6
    ensures s.snapshot.Valid? && |Captured(es, t)| == 6 && s.snapshot.fields[k] == Captured(es, t)[k]
  {
    var _ := LastStep(s0, es, Publish(t));
    PublishesCaptured(s0, es, t);
  }

  // -------------------------------------------------------------------------- the modules

  lemma ModulesStep(s: State, e: Event)
    requires Enabled(s, e)
    ensures Next(s, e).modules == if e.Register? && e.m !in s.modules then s.modules + [e.m] else s.modules
  {
  }

  /** After every run the list holds each registered module once, in order of arrival. */
  lemma {:induction false} ModulesAre(s0: State, es: seq<Event>, s: State)
    requires Init(s0) && Run(s0, es) == Some(s)
    ensures s.modules == Listed(es)
    ensures forall i, j :: 0 <= i < j < |s.modules| ==> s.modules[i] != s.modules[j]
  {
    if es != [] {
      var before, e := Split(es);
      var s1 := LastStep(s0, before, e);
      ModulesAre(s0, before, s1);
      ModulesStep(s1, e);
    }
  }

  /** Registering a module again changes nothing, whichever thread does it and whenever. */
  lemma RegisteredAgain(s0: State, es: seq<Event>, s: State, t: nat, m: Module, initial: Fields)
    requires Init(s0) && Run(s0, es) == Some(s) && Enabled(s, Register(t, m, initial)) && m in Listed(es)
    ensures Run(s0, es + [Register(t, m, initial)]) == Some(s)
  {
    ModulesAre(s0, es, s);
    assert (es + [Register(t, m, initial)])[..|es|] == es;
  }

  /** A thread with no call under way can start any of the three calls; a thread inside a
      setter or a symbol lookup can register a module, and nothing else. */
  lemma CallsCanStart(s0: State, es: seq<Event>, s: State, t: nat, m: Module, initial: Fields)
    requires Init(s0) && Run(s0, es) == Some(s) && t < |s.stacks|
    ensures s.stacks[t] == [] <==> Enabled(s, SyncCall(t)) && Enabled(s, ClearCall(t))
    ensures Enabled(s, Register(t, m, initial)) <==>
            s.stacks[t] == [] || Top(s, t).RegApply? || Top(s, t).SyncCapture? || Top(s, t).SyncApply?
  {
  }

  /** With no valid snapshot no setter can run. */
  lemma InvalidStep(s: State, e: Event)
    requires Inv(s) && Enabled(s, e) && s.snapshot == Invalid && !e.Publish?
    ensures Next(s, e).snapshot == Invalid
    ensures forall m :: m in s.holds ==> m in Next(s, e).holds && Next(s, e).holds[m] == s.holds[m]
  {
    if HasTop(s, e.t) {
      assert FrameOk(s, Top(s, e.t));
    }
  }

  ghost predicate NoPublish(es: seq<Event>) {
    forall i :: 0 <= i < |es| ==> !es[i].Publish?
  }

  /** From a state without a valid snapshot on, as long as nothing is published: the
      snapshot stays invalid and every module keeps its values. */
  lemma {:induction false} InvalidStretch(s0: State, es: seq<Event>, s: State, fs: seq<Event>, s': State)
    requires Init(s0) && Run(s0, es) == Some(s) && Run(s0, es + fs) == Some(s')
    requires s.snapshot == Invalid && NoPublish(fs)
    ensures s'.snapshot == Invalid
    ensures forall m :: m in s.holds ==> m in s'.holds && s'.holds[m] == s.holds[m]
  {
    if fs == [] {
      assert es + fs == es;
    } else {
      var before, e := Split(fs);
      assert es + fs == es + before + [e];
      var s1 := LastStep(s0, es + before, e);
      InvalidStretch(s0, es, s, before, s1);
      InvalidStep(s1, e);
    }
  }

  /** Clearing leaves no valid snapshot until the next publication. */
  lemma ClearedUntilPublish(s0: State, es: seq<Event>, t: nat, fs: seq<Event>, s: State)
    requires Init(s0) && Run(s0, es + [ClearDo(t)] + fs) == Some(s) && NoPublish(fs)
    ensures s.snapshot == Invalid
  {
    Prefix(s0, es + [ClearDo(t)], fs);
    var s1 := LastStep(s0, es, ClearDo(t));
    SnapshotStep(s1, ClearDo(t));
    InvalidStretch(s0, es + [ClearDo(t)], Next(s1, ClearDo(t)), fs, s);
  }

  /** A module first registered while no snapshot is valid, so between a clearing and the
      next publication, keeps the values it came with until then, whatever else happens. */
  lemma RegisteredWhileInvalid(s0: State, es: seq<Event>, t: nat, m: Module, initial: Fields, fs: seq<Event>, s: State)
    requires Init(s0) && Run(s0, es + [Register(t, m, initial)] + fs) == Some(s)
    requires Published(es) == Invalid && m !in Listed(es) && NoPublish(fs)
    ensures m in s.modules && m in s.holds && s.holds[m] == initial
  {
    var e := Register(t, m, initial);
    Prefix(s0, es + [e], fs);
    var s1 := LastStep(s0, es, e);
    SnapshotIs(s0, es, s1);
    ModulesAre(s0, es, s1);
    InvalidStretch(s0, es + [e], Next(s1, e), fs, s);
  }
}
