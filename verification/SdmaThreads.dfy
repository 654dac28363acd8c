/** The SDMA dirty mask shared by any number of threads, under every interleaving.

    Each queue counts the copies submitted to it and the copies the engine has finished; it
    finishes them in order. A thread's step is one atomic action: submit a copy, set a bit,
    look at the mask, take bits, start or finish waiting on one queue. */
module SdmaThreads {
  import opened Options
  import opened BitWords

  datatype Queue = Queue(submitted: nat, completed: nat)

  datatype Pc =
    | Idle
    | Put(idx: nat, ticket: nat)                    // submitted, fetch_or still to come
    | PutBlocking(idx: nat, ticket: nat)            // submitted, about to read the target
    | Checked(mask: Word)                           // saw a one bit, about to take the mask
    | Drain(taken: Word)                            // took these bits, queues still to drain
    | Poll(idx: nat, target: nat, rest: Word)       // waits until `target` copies are done

  datatype State = State(dirty: Word, queues: seq<Queue>, handles: seq<bool>, pcs: seq<Pc>)

  ghost predicate Shaped(s: State) {
    && |s.queues| == |s.handles| <= 64
    && (forall i :: i in s.dirty ==> i < |s.queues|)
    && (forall i :: 0 <= i < |s.queues| ==> s.queues[i].completed <= s.queues[i].submitted)
    && (forall t :: 0 <= t < |s.pcs| ==> PcOk(s, s.pcs[t]))
  }

  ghost predicate PcOk(s: State, pc: Pc) {
    match pc
    case Idle => true
    case Put(idx, ticket) => idx < |s.queues| == |s.handles| && s.handles[idx]
    case PutBlocking(idx, ticket) =>
      idx < |s.queues| == |s.handles| && s.handles[idx] && ticket <= s.queues[idx].submitted
    case Checked(mask) => true
    case Drain(taken) => forall i :: i in taken ==> i < |s.queues|
    case Poll(idx, target, rest) => idx < |s.queues| && forall i :: i in rest ==> i < |s.queues|
  }

  datatype Event =
    | SubmitNbi(t: nat, idx: nat)
    | Mark(t: nat)
    | SubmitBlocking(t: nat, idx: nat)
    | BlockingQuiet(t: nat)
    | Look(t: nat, mask: Word)
    | Take(t: nat)
    | Start(t: nat)
    | Finish(t: nat)
    | Return(t: nat)
    | Complete(idx: nat)

  ghost predicate IsIdle(s: State, t: nat) { t < |s.pcs| && s.pcs[t].Idle? }

  /** The event can happen now. */
  ghost predicate Enabled(s: State, e: Event)
    requires Shaped(s)
  {
    match e
    case SubmitNbi(t, idx) => IsIdle(s, t) && idx < |s.queues| && s.handles[idx]
    case Mark(t) => t < |s.pcs| && s.pcs[t].Put?
    case SubmitBlocking(t, idx) => IsIdle(s, t) && idx < |s.queues| && s.handles[idx]
    case BlockingQuiet(t) => t < |s.pcs| && s.pcs[t].PutBlocking?
    case Look(t, mask) => IsIdle(s, t)
    case Take(t) => t < |s.pcs| && s.pcs[t].Checked?
    case Start(t) => t < |s.pcs| && s.pcs[t].Drain? && s.pcs[t].taken != {}
    case Finish(t) =>
      t < |s.pcs| && s.pcs[t].Poll? && PcOk(s, s.pcs[t]) && s.queues[s.pcs[t].idx].completed >= s.pcs[t].target
    case Return(t) => t < |s.pcs| && s.pcs[t].Drain? && s.pcs[t].taken == {}
    case Complete(idx) => idx < |s.queues| && s.queues[idx].completed < s.queues[idx].submitted
  }

  function Submit(q: Queue): Queue { q.(submitted := q.submitted + 1) }

  ghost function At(s: State, t: nat, pc: Pc): State
    requires t < |s.pcs|
  {
    s.(pcs := s.pcs[t := pc])
  }

  ghost function Next(s: State, e: Event): State
    requires Shaped(s) && Enabled(s, e)
  {
    match e
    case SubmitNbi(t, idx) =>
      At(s, t, Put(idx, s.queues[idx].submitted + 1)).(queues := s.queues[idx := Submit(s.queues[idx])])
    case Mark(t) =>
      assert PcOk(s, s.pcs[t]);
      At(s, t, Idle).(dirty := Or(s.dirty, One(s.pcs[t].idx)))
    case SubmitBlocking(t, idx) =>
      At(s, t, PutBlocking(idx, s.queues[idx].submitted + 1)).(queues := s.queues[idx := Submit(s.queues[idx])])
    case BlockingQuiet(t) =>
      assert PcOk(s, s.pcs[t]);
      At(s, t, Poll(s.pcs[t].idx, s.queues[s.pcs[t].idx].submitted, {}))
    case Look(t, mask) =>
      if And(s.dirty, mask) == {} then s else At(s, t, Checked(mask))
    case Take(t) =>
      var mask := s.pcs[t].mask;
      At(s, t, Drain(And(s.dirty, mask))).(dirty := And(s.dirty, Not(mask)))
    case Start(t) =>
      assert PcOk(s, s.pcs[t]);
      var taken := s.pcs[t].taken;
      var idx := Lowest(taken);
      var rest := And(taken, Not(One(idx)));
      if s.handles[idx] then At(s, t, Poll(idx, s.queues[idx].submitted, rest)) else At(s, t, Drain(rest))
    case Finish(t) => At(s, t, Drain(s.pcs[t].rest))
    case Return(t) => At(s, t, Idle)
    case Complete(idx) =>
      s.(queues := s.queues[idx := s.queues[idx].(completed := s.queues[idx].completed + 1)])
  }

  // ------------------------------------------------------------------------ the invariant

  /** Thread state `pc` answers for copy `ticket` of queue `idx`. */
  ghost predicate Answers(pc: Pc, idx: nat, ticket: nat) {
    match pc
    case Put(i, k) => i == idx && k == ticket
    case PutBlocking(i, k) => i == idx && k == ticket
    case Drain(taken) => idx in taken
    case Poll(i, target, rest) => (i == idx && ticket <= target) || idx in rest
    case _ => false
  }

  ghost predicate Covered(s: State, idx: nat, ticket: nat) {
    idx in s.dirty || exists t :: 0 <= t < |s.pcs| && Answers(s.pcs[t], idx, ticket)
  }

  ghost predicate Unfinished(s: State, idx: nat, ticket: nat) {
    idx < |s.queues| && s.queues[idx].completed < ticket <= s.queues[idx].submitted
  }

  /** Every unfinished copy is flagged in the mask, or its issuer has yet to flag it, or a
      thread has taken its bit and has not finished draining that queue. Queues with a null
      handle never hold a copy. */
  ghost predicate Inv(s: State) {
    && Shaped(s)
    && (forall idx, ticket :: Unfinished(s, idx, ticket) ==> Covered(s, idx, ticket))
    && (forall i :: 0 <= i < |s.queues| && !s.handles[i] ==> s.queues[i].submitted == 0)
  }

  ghost predicate Init(s: State) {
    && |s.queues| == |s.handles| <= 64 && s.dirty == {}
    && (forall i :: 0 <= i < |s.queues| ==> s.queues[i] == Queue(0, 0))
    && (forall t :: 0 <= t < |s.pcs| ==> s.pcs[t] == Idle)
  }

  lemma TakenOrLeft(dirty: Word, mask: Word)
    ensures forall i :: i in dirty ==> i in And(dirty, mask) || i in And(dirty, Not(mask))
  {
  }

  lemma StartKeepsOne(taken: Word)
    requires taken != {}
    ensures forall i :: i in taken <==> i == Lowest(taken) || i in And(taken, Not(One(Lowest(taken))))
  {
    OneIs(Lowest(taken));
  }

  /** Submitting and finishing copies keeps every thread state sensible. */
  lemma PcKept(s: State, s': State, pc: Pc)
    requires PcOk(s, pc) && |s.queues| == |s'.queues| && s.handles == s'.handles
    requires forall i :: 0 <= i < |s.queues| ==> s.queues[i].submitted <= s'.queues[i].submitted
    ensures PcOk(s', pc)
  {
  }

  /** The mask and the queues stay sensible. */
  lemma QueuesShaped(s: State, e: Event)
    requires Shaped(s) && Enabled(s, e)
    ensures var s' := Next(s, e);
            && |s'.pcs| == |s.pcs| && |s'.queues| == |s.queues| && s'.handles == s.handles
            && (forall i :: 0 <= i < |s.queues| ==> s.queues[i].submitted <= s'.queues[i].submitted)
            && (forall i :: i in s'.dirty ==> i < |s.queues|)
            && (forall i :: 0 <= i < |s.queues| ==> s'.queues[i].completed <= s'.queues[i].submitted)
  {
    if e.Mark? {
      assert PcOk(s, s.pcs[e.t]);
      OneIs(s.pcs[e.t].idx);
    }
  }

  /** The thread that moves, and no other, reaches a new state, a sensible one. */
  lemma MoverShaped(s: State, e: Event)
    requires Shaped(s) && Enabled(s, e)
    ensures var s' := Next(s, e);
            && (!e.Complete? ==> e.t < |s.pcs| && s'.pcs == s.pcs[e.t := s'.pcs[e.t]] && PcOk(s', s'.pcs[e.t]))
            && (e.Complete? ==> s'.pcs == s.pcs)
  {
    if !e.Complete? {
      assert PcOk(s, s.pcs[e.t]);
    }
    if e.Start? {
      StartKeepsOne(s.pcs[e.t].taken);
    }
  }

  lemma StepShaped(s: State, e: Event)
    requires Shaped(s) && Enabled(s, e)
    ensures Shaped(Next(s, e))
  {
    var s' := Next(s, e);
    QueuesShaped(s, e);
    MoverShaped(s, e);
    forall t | 0 <= t < |s'.pcs| ensures PcOk(s', s'.pcs[t]) {
      assert PcOk(s, s.pcs[t]);
      if e.Complete? || t != e.t {
        PcKept(s, s', s.pcs[t]);
      }
    }
  }

  /** A new copy is answered for by its issuer. */
  lemma SubmitCovers(s: State, e: Event, idx: nat, ticket: nat)
    requires Inv(s) && Enabled(s, e) && (e.SubmitNbi? || e.SubmitBlocking?) && Unfinished(Next(s, e), idx, ticket)
    ensures Covered(Next(s, e), idx, ticket)
  {
    var s' := Next(s, e);
    if e.idx == idx && ticket == s.queues[idx].submitted + 1 {
      assert Answers(s'.pcs[e.t], idx, ticket);
    } else {
      assert Unfinished(s, idx, ticket);
      SteadyCovers(s, s', e.t, idx, ticket);
    }
  }

  /** What thread `e.t` answered for, it hands to the mask, keeps, or has seen finished. */
  ghost predicate HandsOver(s: State, e: Event, idx: nat, ticket: nat)
    requires Shaped(s) && Enabled(s, e) && !e.Complete?
  {
    var s' := Next(s, e);
    && (idx in s.dirty ==> idx in s'.dirty || Answers(s'.pcs[e.t], idx, ticket))
    && (Answers(s.pcs[e.t], idx, ticket) && (e.Start? ==> s.handles[idx]) ==>
          idx in s'.dirty || Answers(s'.pcs[e.t], idx, ticket))
  }

  lemma StartHandsOver(s: State, e: Event, idx: nat, ticket: nat)
    requires Shaped(s) && Enabled(s, e) && Unfinished(s, idx, ticket) && e.Start?
    ensures HandsOver(s, e, idx, ticket)
  {
    assert PcOk(s, s.pcs[e.t]);
    StartKeepsOne(s.pcs[e.t].taken);
  }

  lemma MoveHandsOver(s: State, e: Event, idx: nat, ticket: nat)
    requires Shaped(s) && Enabled(s, e) && Unfinished(s, idx, ticket)
    requires e.Mark? || e.BlockingQuiet? || e.Look? || e.Take? || e.Start? || e.Finish? || e.Return?
    ensures HandsOver(s, e, idx, ticket)
  {
    assert PcOk(s, s.pcs[e.t]);
    match e
    case Mark(t) => OneIs(s.pcs[t].idx);
    case Take(t) => TakenOrLeft(s.dirty, s.pcs[t].mask);
    case Start(t) => StartHandsOver(s, e, idx, ticket);
    case _ =>
  }

  /** One step, one copy: what covered it before still does, or something new does. */
  lemma StepCovers(s: State, e: Event, idx: nat, ticket: nat)
    requires Inv(s) && Enabled(s, e) && Unfinished(Next(s, e), idx, ticket)
    ensures Covered(Next(s, e), idx, ticket)
  {
    var s' := Next(s, e);
    if e.SubmitNbi? || e.SubmitBlocking? {
      SubmitCovers(s, e, idx, ticket);
    } else if e.Complete? {
      assert Unfinished(s, idx, ticket) && s'.pcs == s.pcs && s'.dirty == s.dirty;
    } else {
      assert Unfinished(s, idx, ticket) && s.handles[idx];
      MoveHandsOver(s, e, idx, ticket);
      SteadyCovers(s, s', e.t, idx, ticket);
    }
  }

  /** A step of thread `t` that hands over everything `t` and the mask answered for. */
  lemma SteadyCovers(s: State, s': State, t: nat, idx: nat, ticket: nat)
    requires t < |s.pcs| == |s'.pcs| && s'.pcs == s.pcs[t := s'.pcs[t]]
    requires Covered(s, idx, ticket)
    requires idx in s.dirty ==> idx in s'.dirty || Answers(s'.pcs[t], idx, ticket)
    requires Answers(s.pcs[t], idx, ticket) ==> idx in s'.dirty || Answers(s'.pcs[t], idx, ticket)
    ensures Covered(s', idx, ticket)
  {
    if idx !in s.dirty {
      var u :| 0 <= u < |s.pcs| && Answers(s.pcs[u], idx, ticket);
      assert u != t ==> s'.pcs[u] == s.pcs[u];
    }
  }

  lemma StepKeepsInv(s: State, e: Event)
    requires Inv(s) && Enabled(s, e)
    ensures Inv(Next(s, e))
  {
    StepShaped(s, e);
    forall idx, ticket | Unfinished(Next(s, e), idx, ticket) ensures Covered(Next(s, e), idx, ticket) {
      StepCovers(s, e, idx, ticket);
    }
  }

  // ------------------------------------------------------------------------------- runs

  /** The state after a run of events, if each is enabled when it happens. */
  ghost function Run(s0: State, es: seq<Event>): (r: Option<State>)
    requires Init(s0)
    ensures r.Some? ==> Inv(r.value)
  {
    if es == [] then Some(s0)
    else
      var before := Run(s0, es[..|es| - 1]);
      var e := es[|es| - 1];
      if before.None? || !Enabled(before.value, e) then None
      else
        StepKeepsInv(before.value, e);
        Some(Next(before.value, e))
  }

  /** Whatever the interleaving: if no thread is inside an operation and the mask is zero,
      every copy ever submitted, blocking or not, has finished. */
  lemma QuietMeansDone(s0: State, es: seq<Event>, s: State)
    requires Init(s0) && Run(s0, es) == Some(s)
    requires s.dirty == {} && forall t :: 0 <= t < |s.pcs| ==> s.pcs[t].Idle?
    ensures forall i :: 0 <= i < |s.queues| ==> s.queues[i].completed == s.queues[i].submitted
  {
    forall i | 0 <= i < |s.queues| ensures s.queues[i].completed == s.queues[i].submitted {
      var last := s.queues[i].submitted;
      assert !Covered(s, i, last);
      assert !Unfinished(s, i, last);
    }
  }

  /** What a fence that finds its bits clear may conclude: whatever is still unfinished on
      those queues is in the hands of some other thread. */
  lemma FenceFindsClear(s0: State, es: seq<Event>, s: State, t: nat, mask: Word, idx: nat, ticket: nat)
    requires Init(s0) && Run(s0, es) == Some(s) && IsIdle(s, t)
    requires And(s.dirty, mask) == {} && idx in mask && Unfinished(s, idx, ticket)
    ensures exists u :: 0 <= u < |s.pcs| && u != t && Answers(s.pcs[u], idx, ticket)
  {
    assert idx in s.dirty ==> idx in And(s.dirty, mask);
    assert Covered(s, idx, ticket);
  }

  lemma RunOneMore(s0: State, es: seq<Event>, e: Event, s: State)
    requires Init(s0) && Run(s0, es) == Some(s) && Enabled(s, e)
    ensures Run(s0, es + [e]) == Some(Next(s, e))
  {
    assert (es + [e])[..|es|] == es;
  }

  // A fence that drains.

  /** A thread has taken the bit of this queue and not finished draining it. */
  ghost predicate Draining(pc: Pc, idx: nat, ticket: nat) { (pc.Drain? || pc.Poll?) && Answers(pc, idx, ticket) }

  ghost predicate Elsewhere(s: State, t: nat, idx: nat, ticket: nat) {
    exists u: nat :: u < |s.pcs| && u != t && Draining(s.pcs[u], idx, ticket)
  }

  ghost predicate Finished(s: State, idx: nat, ticket: nat) {
    idx < |s.queues| && ticket <= s.queues[idx].completed
  }

  /** Thread `t` is inside a fence over `mask`; the copy is still flagged and the fence yet to
      take its bit, or the fence is draining it, or another thread is, or it has finished. */
  ghost predicate Fencing(s: State, t: nat, mask: Word, idx: nat, ticket: nat) {
    && t < |s.pcs| && idx < |s.queues| == |s.handles| && 1 <= ticket <= s.queues[idx].submitted && idx in mask
    && (s.pcs[t] == Checked(mask) || s.pcs[t].Drain? || s.pcs[t].Poll?)
    && (|| Finished(s, idx, ticket) || Elsewhere(s, t, idx, ticket)
        || (if s.pcs[t].Checked? then idx in s.dirty else Draining(s.pcs[t], idx, ticket)))
  }

  /** A thread that drains a queue goes on, or has seen the copy finished. */
  lemma DrainGoesOn(s: State, e: Event, idx: nat, ticket: nat)
    requires Inv(s) && Enabled(s, e) && !e.Complete? && Draining(s.pcs[e.t], idx, ticket)
    requires idx < |s.queues| && 1 <= ticket <= s.queues[idx].submitted
    ensures Draining(Next(s, e).pcs[e.t], idx, ticket) || Finished(s, idx, ticket)
  {
    assert PcOk(s, s.pcs[e.t]);
    if e.Start? {
      StartKeepsOne(s.pcs[e.t].taken);
    }
  }

  /** The bit of a flagged queue stays, or the thread that takes it drains that queue. */
  lemma BitGoesOn(s: State, e: Event, idx: nat, ticket: nat)
    requires Shaped(s) && Enabled(s, e) && !e.Complete? && idx in s.dirty
    ensures idx in Next(s, e).dirty || Draining(Next(s, e).pcs[e.t], idx, ticket)
    ensures e.Take? && idx in s.pcs[e.t].mask ==> Draining(Next(s, e).pcs[e.t], idx, ticket)
  {
    if e.Take? {
      TakenOrLeft(s.dirty, s.pcs[e.t].mask);
    }
  }

  /** What no step takes away. */
  lemma CountsGrow(s: State, e: Event)
    requires Shaped(s) && Enabled(s, e)
    ensures var s' := Next(s, e);
            && |s'.pcs| == |s.pcs| && |s'.queues| == |s.queues| == |s'.handles|
            && (forall i :: 0 <= i < |s.queues| ==>
                  s.queues[i].submitted <= s'.queues[i].submitted && s.queues[i].completed <= s'.queues[i].completed)
            && (forall u :: 0 <= u < |s.pcs| && (e.Complete? || u != e.t) ==> s'.pcs[u] == s.pcs[u])
            && (e.Complete? ==> s'.dirty == s.dirty)
  {
  }

  /** A step of another thread, or of the engine. */
  lemma OthersStep(s: State, e: Event, t: nat, mask: Word, idx: nat, ticket: nat)
    requires Inv(s) && Enabled(s, e) && (e.Complete? || e.t != t) && Fencing(s, t, mask, idx, ticket)
    ensures Fencing(Next(s, e), t, mask, idx, ticket)
  {
    var s' := Next(s, e);
    CountsGrow(s, e);
    if !Finished(s, idx, ticket) && Elsewhere(s, t, idx, ticket) {
      var u: nat :| u < |s.pcs| && u != t && Draining(s.pcs[u], idx, ticket);
      if !e.Complete? && u == e.t {
        DrainGoesOn(s, e, idx, ticket);
      }
      assert Draining(s'.pcs[u], idx, ticket) && Elsewhere(s', t, idx, ticket);
    } else if !e.Complete? && s.pcs[t].Checked? && idx in s.dirty {
      BitGoesOn(s, e, idx, ticket);
      assert idx in s'.dirty || Draining(s'.pcs[e.t], idx, ticket);
    }
  }

  /** A step of the fence itself, short of returning. */
  lemma OwnStep(s: State, e: Event, t: nat, mask: Word, idx: nat, ticket: nat)
    requires Inv(s) && Enabled(s, e) && !e.Complete? && e.t == t && !e.Return? && Fencing(s, t, mask, idx, ticket)
    ensures Fencing(Next(s, e), t, mask, idx, ticket)
  {
    var s' := Next(s, e);
    CountsGrow(s, e);
    if Elsewhere(s, t, idx, ticket) {
      var u: nat :| u < |s.pcs| && u != t && Draining(s.pcs[u], idx, ticket);
      assert Draining(s'.pcs[u], idx, ticket);
    } else if !Finished(s, idx, ticket) {
      if s.pcs[t].Checked? {
        BitGoesOn(s, e, idx, ticket);
      } else {
        DrainGoesOn(s, e, idx, ticket);
      }
    }
  }

  /** From the look on, through everything that other threads and the engine do. */
  lemma {:induction false} FenceUnderWay(s0: State, es: seq<Event>, s: State, t: nat, mask: Word, fs: seq<Event>,
                                         s': State, idx: nat, ticket: nat)
    requires Init(s0) && Run(s0, es) == Some(s) && Run(s0, es + [Look(t, mask)] + fs) == Some(s')
    requires Enabled(s, Look(t, mask)) && Return(t) !in fs
    requires idx in s.dirty && idx in mask && idx < |s.queues| && 1 <= ticket <= s.queues[idx].submitted
    ensures Fencing(s', t, mask, idx, ticket)
    decreases |fs|
  {
    if fs == [] {
      assert es + [Look(t, mask)] + fs == es + [Look(t, mask)];
      RunOneMore(s0, es, Look(t, mask), s);
      FenceBegins(s, t, mask, idx, ticket);
    } else {
      var k := |fs| - 1;
      var before := RunOneLess(s0, es + [Look(t, mask)] + fs[..k], fs[k], es + [Look(t, mask)] + fs, s');
      FenceUnderWay(s0, es, s, t, mask, fs[..k], before, idx, ticket);
      assert fs[k] in fs;
      FenceStep(before, fs[k], t, mask, idx, ticket);
    }
  }

  lemma FenceBegins(s: State, t: nat, mask: Word, idx: nat, ticket: nat)
    requires Shaped(s) && Enabled(s, Look(t, mask)) && idx in s.dirty && idx in mask
    requires idx < |s.queues| && 1 <= ticket <= s.queues[idx].submitted
    ensures Fencing(Next(s, Look(t, mask)), t, mask, idx, ticket)
  {
    assert idx in And(s.dirty, mask);
  }

  lemma FenceStep(s: State, e: Event, t: nat, mask: Word, idx: nat, ticket: nat)
    requires Inv(s) && Enabled(s, e) && e != Return(t) && Fencing(s, t, mask, idx, ticket)
    ensures Fencing(Next(s, e), t, mask, idx, ticket)
  {
    if e.Complete? || e.t != t {
      OthersStep(s, e, t, mask, idx, ticket);
    } else {
      OwnStep(s, e, t, mask, idx, ticket);
    }
  }

  lemma RunOneLess(s0: State, es: seq<Event>, e: Event, all: seq<Event>, s: State) returns (before: State)
    requires Init(s0) && Run(s0, all) == Some(s) && all == es + [e]
    ensures Run(s0, es) == Some(before) && Enabled(before, e) && s == Next(before, e)
  {
    assert all[..|all| - 1] == es;
    before := Run(s0, es).value;
  }

  /** A fence that drains: when it returns, every copy on its queues that was flagged before
      it looked has finished, or another thread has taken its bit and is draining it. */
  lemma FenceDrains(s0: State, es: seq<Event>, s: State, t: nat, mask: Word, fs: seq<Event>, s': State,
                    idx: nat, ticket: nat)
    requires Init(s0) && Run(s0, es) == Some(s) && Enabled(s, Look(t, mask)) && Return(t) !in fs
    requires Run(s0, es + [Look(t, mask)] + fs + [Return(t)]) == Some(s')
    requires idx in s.dirty && idx in mask && idx < |s.queues| && 1 <= ticket <= s.queues[idx].submitted
    ensures Finished(s', idx, ticket) || Elsewhere(s', t, idx, ticket)
  {
    var before := RunOneLess(s0, es + [Look(t, mask)] + fs, Return(t), es + [Look(t, mask)] + fs + [Return(t)], s');
    FenceUnderWay(s0, es, s, t, mask, fs, before, idx, ticket);
    CountsGrow(before, Return(t));
    if !Finished(before, idx, ticket) {
      var u: nat :| u < |before.pcs| && u != t && Draining(before.pcs[u], idx, ticket);
      assert Draining(s'.pcs[u], idx, ticket);
    }
  }

  // A fence that returns early: thread 0 submits and flags a copy; thread 1 looks, takes the
  // bit, and is not done yet.

  /** One queue of one unfinished copy, and two threads. */
  ghost function Pair(dirty: Word, first: Pc, second: Pc): State {
    State(dirty, [Queue(1, 0)], [true], [first, second])
  }

  ghost function Fresh(): State { State({}, [Queue(0, 0)], [true], [Idle, Idle]) }

  lemma Submits()
    ensures Shaped(Fresh()) && Enabled(Fresh(), SubmitNbi(0, 0))
    ensures Next(Fresh(), SubmitNbi(0, 0)) == Pair({}, Put(0, 1), Idle)
  {
  }

  lemma Marks(s: State)
    requires s == Pair({}, Put(0, 1), Idle)
    ensures Shaped(s) && Enabled(s, Mark(0)) && Next(s, Mark(0)) == Pair({0}, Idle, Idle)
  {
    assert PcOk(s, s.pcs[0]) && PcOk(s, s.pcs[1]);
    OneIs(0);
  }

  lemma Looks(s: State)
    requires s == Pair({0}, Idle, Idle)
    ensures Shaped(s) && Enabled(s, Look(1, {0})) && Next(s, Look(1, {0})) == Pair({0}, Idle, Checked({0}))
  {
    assert PcOk(s, s.pcs[0]) && PcOk(s, s.pcs[1]);
    assert 0 in And({0}, {0});
  }

  lemma Takes(s: State)
    requires s == Pair({0}, Idle, Checked({0}))
    ensures Shaped(s) && Enabled(s, Take(1)) && Next(s, Take(1)) == Pair({}, Idle, Drain({0}))
  {
    assert PcOk(s, s.pcs[0]) && PcOk(s, s.pcs[1]);
    var w: Word := {0};
    assert And(w, w) == w && And(w, Not(w)) == {};
  }

  lemma FindsClear(s: State)
    requires s == Pair({}, Idle, Drain({0}))
    ensures Shaped(s) && Enabled(s, Look(0, {0})) && Next(s, Look(0, {0})) == s
  {
    assert PcOk(s, s.pcs[0]) && PcOk(s, s.pcs[1]);
  }

  /** That is all it may conclude: thread 0's own fence finds a clear mask and returns while
      the copy that thread 0 submitted is still unfinished. */
  lemma FenceCanReturnEarly() returns (s0: State, es: seq<Event>, s: State)
    ensures Init(s0) && Run(s0, es) == Some(s) && es != [] && es[0] == SubmitNbi(0, 0) && es[|es| - 1] == Look(0, {0})
    ensures IsIdle(s, 0) && Unfinished(s, 0, 1)
  {
    s0, es := Fresh(), [];
    s := s0;
    Submits();
    es, s := Extend(s0, es, s, SubmitNbi(0, 0));
    Marks(s);
    es, s := Extend(s0, es, s, Mark(0));
    Looks(s);
    es, s := Extend(s0, es, s, Look(1, {0}));
    Takes(s);
    es, s := Extend(s0, es, s, Take(1));
    FindsClear(s);
    es, s := Extend(s0, es, s, Look(0, {0}));
  }

  lemma Extend(s0: State, es: seq<Event>, s: State, e: Event) returns (more: seq<Event>, next: State)
    requires Init(s0) && Run(s0, es) == Some(s) && Enabled(s, e)
    ensures Run(s0, more) == Some(next) && next == Next(s, e) && more == es + [e]
  {
    RunOneMore(s0, es, e, s);
    more, next := es + [e], Next(s, e);
  }
}
