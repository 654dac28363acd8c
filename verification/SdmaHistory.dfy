/** The dirty mask and the queue counters as functions of the events of a run alone: which
    bit a thread sets follows from its last submission, and which bits it takes from its
    last look. */
module SdmaHistory {
  import opened Options
  import opened BitWords
  import opened SdmaThreads

  /** The last event of thread `t`. */
  ghost function LastOf(es: seq<Event>, t: nat): Option<Event> {
    if es == [] then None
    else
      var e := es[|es| - 1];
      if !e.Complete? && e.t == t then Some(e) else LastOf(es[..|es| - 1], t)
  }

  /** The bits that the run leaves set: each `fetch_or` adds the queue its thread has just
      submitted to, each take removes the bits of the mask its thread has just looked at,
      and nothing else changes the mask. */
  ghost function Flags(es: seq<Event>): set<nat> {
    if es == [] then {}
    else
      var before, e := es[..|es| - 1], es[|es| - 1];
      if e.Mark? then
        match LastOf(before, e.t)
        case Some(SubmitNbi(_, idx)) => Flags(before) + {idx}
        case _ => Flags(before)
      else if e.Take? then
        match LastOf(before, e.t)
        case Some(Look(_, mask)) => Flags(before) - mask
        case _ => Flags(before)
      else Flags(before)
  }

  ghost predicate SubmitsTo(e: Event, idx: nat) {
    (e.SubmitNbi? || e.SubmitBlocking?) && e.idx == idx
  }

  /** How many copies were submitted to a queue, and how many the engine has finished. */
  ghost function Submitted(es: seq<Event>, idx: nat): nat {
    if es == [] then 0
    else Submitted(es[..|es| - 1], idx) + if SubmitsTo(es[|es| - 1], idx) then 1 else 0
  }

  ghost function Completed(es: seq<Event>, idx: nat): nat {
    if es == [] then 0
    else Completed(es[..|es| - 1], idx) + if es[|es| - 1] == Complete(idx) then 1 else 0
  }

  /** The last step of a run, and the state before it. */
  lemma LastStep(s0: State, es: seq<Event>) returns (before: seq<Event>, e: Event, s: State)
    requires Init(s0) && es != [] && Run(s0, es).Some?
    ensures before == es[..|es| - 1] && e == es[|es| - 1]
    ensures Run(s0, before) == Some(s) && Inv(s) && Enabled(s, e) && Run(s0, es) == Some(Next(s, e))
  {
    before, e := es[..|es| - 1], es[|es| - 1];
    s := Run(s0, before).value;
  }

  // -------------------------------------------------------------------------- the queues

  lemma QueueStep(s: State, e: Event, idx: nat)
    requires Shaped(s) && Enabled(s, e) && idx < |s.queues|
    ensures |Next(s, e).queues| == |s.queues|
    ensures Next(s, e).queues[idx]
         == Queue(s.queues[idx].submitted + (if SubmitsTo(e, idx) then 1 else 0),
                  s.queues[idx].completed + (if e == Complete(idx) then 1 else 0))
  {
  }

  /** No copy is lost or invented, and each goes to the queue it was submitted to. */
  lemma {:induction false} QueuesAre(s0: State, es: seq<Event>, s: State, idx: nat)
    requires Init(s0) && Run(s0, es) == Some(s) && idx < |s0.queues|
    ensures |s.queues| == |s0.queues| && s.queues[idx] == Queue(Submitted(es, idx), Completed(es, idx))
  {
    if es != [] {
      var before, e, s1 := LastStep(s0, es);
      QueuesAre(s0, before, s1, idx);
      QueueStep(s1, e, idx);
    }
  }

  // ---------------------------------------------------------------------------- the mask

  /** A thread about to set a bit has just submitted to that queue; a thread about to take
      bits has just looked at that mask. */
  ghost predicate Remembers(pc: Pc, t: nat, last: Option<Event>) {
    && (pc.Put? ==> last == Some(SubmitNbi(t, pc.idx)))
    && (pc.Checked? ==> last == Some(Look(t, pc.mask)))
  }

  lemma RemembersStep(s: State, e: Event, t: nat, last: Option<Event>)
    requires Shaped(s) && Enabled(s, e) && t < |s.pcs| && Remembers(s.pcs[t], t, last)
    ensures |Next(s, e).pcs| == |s.pcs|
    ensures Remembers(Next(s, e).pcs[t], t, if !e.Complete? && e.t == t then Some(e) else last)
  {
  }

  lemma {:induction false} RemembersAlways(s0: State, es: seq<Event>, s: State, t: nat)
    requires Init(s0) && Run(s0, es) == Some(s) && t < |s0.pcs|
    ensures |s.pcs| == |s0.pcs| && Remembers(s.pcs[t], t, LastOf(es, t))
  {
    if es != [] {
      var before, e, s1 := LastStep(s0, es);
      RemembersAlways(s0, before, s1, t);
      RemembersStep(s1, e, t, LastOf(before, t));
    }
  }

  lemma {:induction false} ThreadsStay(s0: State, es: seq<Event>, s: State)
    requires Init(s0) && Run(s0, es) == Some(s)
    ensures |s.pcs| == |s0.pcs|
  {
    if es != [] {
      var before, e, s1 := LastStep(s0, es);
      ThreadsStay(s0, before, s1);
      QueuesShaped(s1, e);
    }
  }

  /** Only the two atomic operations change the mask: one adds the thread's own bit, the
      other removes the bits of the thread's own mask and leaves all others. */
  lemma MaskStep(s: State, e: Event)
    requires Shaped(s) && Enabled(s, e)
    ensures !e.Mark? && !e.Take? ==> Next(s, e).dirty == s.dirty
    ensures e.Mark? ==> Next(s, e).dirty == s.dirty + {s.pcs[e.t].idx}
    ensures e.Take? ==> Next(s, e).dirty == s.dirty - s.pcs[e.t].mask
  {
    if e.Mark? {
      assert PcOk(s, s.pcs[e.t]);
      OneIs(s.pcs[e.t].idx);
    }
  }

  /** After every run the mask holds exactly the bits that were set and not taken since. */
  lemma {:induction false} MaskIs(s0: State, es: seq<Event>, s: State)
    requires Init(s0) && Run(s0, es) == Some(s)
    ensures s.dirty == Flags(es)
  {
    if es != [] {
      var before, e, s1 := LastStep(s0, es);
      MaskIs(s0, before, s1);
      MaskStep(s1, e);
      if e.Mark? || e.Take? {
        ThreadsStay(s0, before, s1);
        RemembersAlways(s0, before, s1, e.t);
      }
    }
  }
}
