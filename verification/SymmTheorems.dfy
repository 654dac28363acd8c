/** What holds after every run of collective registrations and unregistrations. */
module SymmTheorems {
  import opened Options
  import opened Intervals
  import opened SymmModel
  import opened SymmView
  import opened SymmProtocol

  datatype State = State(live: Live, job: seq<Pe>)

  ghost function Initial(cfg: Config): seq<Pe> { seq(cfg.n, p => EMPTY_PE) }

  /** What a run may do next: register under the driver assumptions, or unregister with
      each PE passing its own alias of one registration, or no alias of any. */
  ghost predicate Allowed(cfg: Config, s: State, op: Op)
    requires cfg.Valid() && JobView(cfg, s.live, s.job)
  {
    match op
    case Register(c) => Shaped(cfg, c) && Granted(cfg, s.job, c)
    case Unregister(addrs) =>
      && |addrs| == cfg.n
      && (NamesNothing(cfg, s.live, addrs) || exists k :: 0 <= k < |s.live| && Names(cfg, s.live, addrs, k))
  }

  /** Every PE executes its part of the call. */
  ghost function JobStep(cfg: Config, s: State, op: Op): (r: seq<Pe>)
    requires cfg.Valid() && JobView(cfg, s.live, s.job) && Allowed(cfg, s, op)
    ensures |r| == cfg.n
  {
    match op
    case Register(c) => seq(cfg.n, p requires 0 <= p < cfg.n => RegisterAt(cfg, s.job, c, p).1)
    case Unregister(addrs) =>
      JobViewSlots(cfg, s.live, s.job);
      seq(cfg.n, p requires 0 <= p < cfg.n => UnregisterPe(s.job[p], addrs[p]).1)
  }

  /** Status that PE `p` returns. */
  ghost function StatusAt(cfg: Config, s: State, op: Op, p: nat): bool
    requires cfg.Valid() && JobView(cfg, s.live, s.job) && Allowed(cfg, s, op) && p < cfg.n
  {
    match op
    case Register(c) => RegisterAt(cfg, s.job, c, p).0
    case Unregister(addrs) =>
      JobViewSlots(cfg, s.live, s.job);
      UnregisterPe(s.job[p], addrs[p]).0
  }

  /** The abstract counterpart. */
  ghost function LiveStep(cfg: Config, s: State, op: Op): Live
    requires cfg.Valid() && JobView(cfg, s.live, s.job) && Allowed(cfg, s, op)
  {
    match op
    case Register(c) => if Succeeds(cfg, s.live, c) then s.live + [NewRegistration(cfg, c)] else s.live
    case Unregister(addrs) =>
      if NamesNothing(cfg, s.live, addrs) then s.live
      else
        var k :| 0 <= k < |s.live| && Names(cfg, s.live, addrs, k);
        SwapRemove(s.live, k)
  }

  lemma StepRefines(cfg: Config, s: State, op: Op)
    requires cfg.Valid() && JobView(cfg, s.live, s.job) && Allowed(cfg, s, op)
    ensures JobView(cfg, LiveStep(cfg, s, op), JobStep(cfg, s, op))
  {
    var job' := JobStep(cfg, s, op);
    match op
    case Register(c) =>
      if Succeeds(cfg, s.live, c) {
        RegisterRefines(cfg, s.live, s.job, c, job');
      } else {
        forall p | 0 <= p < cfg.n ensures job'[p] == s.job[p] {
          RegisterUnanimous(cfg, s.live, s.job, c, p);
        }
        assert job' == s.job;
      }
    case Unregister(addrs) =>
      JobViewSlots(cfg, s.live, s.job);
      if NamesNothing(cfg, s.live, addrs) {
        forall p | 0 <= p < cfg.n ensures job'[p] == s.job[p] {
          UnregisterRefuses(cfg, s.live, s.job, addrs, p);
        }
        assert job' == s.job;
      } else {
        var k :| 0 <= k < |s.live| && Names(cfg, s.live, addrs, k) && LiveStep(cfg, s, op) == SwapRemove(s.live, k);
        UnregisterRefines(cfg, s.live, s.job, addrs, k, job');
      }
  }

  lemma InitialView(cfg: Config)
    requires cfg.Valid()
    ensures JobView(cfg, [], Initial(cfg))
  {
    forall p | 0 <= p < cfg.n ensures PeView(cfg, [], Initial(cfg), p) {
      assert At(cfg, [], p) == [];
      EmptyView(cfg.SiteOf(p));
    }
  }

  /** State after a run, if every step was allowed. In every such state all PEs store
      exactly the same live registrations, in the same slots. */
  ghost function Run(cfg: Config, ops: seq<Op>): (r: Option<State>)
    requires cfg.Valid()
    ensures r.Some? ==> JobView(cfg, r.value.live, r.value.job)
  {
    if ops == [] then InitialView(cfg); Some(State([], Initial(cfg)))
    else
      var before := Run(cfg, ops[..|ops| - 1]);
      var op := ops[|ops| - 1];
      if before.None? || !Allowed(cfg, before.value, op) then None
      else
        StepRefines(cfg, before.value, op);
        Some(State(LiveStep(cfg, before.value, op), JobStep(cfg, before.value, op)))
  }

  ghost predicate Reachable(cfg: Config, s: State)
    requires cfg.Valid()
  {
    exists ops :: Run(cfg, ops) == Some(s)
  }

  lemma {:induction false} RunBounded(cfg: Config, ops: seq<Op>)
    requires cfg.Valid() && Run(cfg, ops).Some?
    ensures |Run(cfg, ops).value.live| <= cfg.maxRegions
  {
    if ops != [] {
      RunBounded(cfg, ops[..|ops| - 1]);
      var before := Run(cfg, ops[..|ops| - 1]).value;
      var op := ops[|ops| - 1];
      if op.Register? && Succeeds(cfg, before.live, op.call) {
        var c := op.call;
        assert CanJoin(cfg.maxRegions, At(cfg, before.live, 0), BufferOf(c, 0), c.out[0].valid, c.out[0].alias);
      }
    }
  }

  /** The invariant of every run: all PEs store the same registrations in the same slots,
      at most as many as configured. */
  lemma ReachableView(cfg: Config, s: State)
    requires cfg.Valid() && Reachable(cfg, s)
    ensures JobView(cfg, s.live, s.job) && |s.live| <= cfg.maxRegions
  {
    var ops :| Run(cfg, ops) == Some(s);
    RunBounded(cfg, ops);
  }

  // ------------------------------------------------------------------------ consequences

  lemma UnregisterStatus(cfg: Config, s: State, addrs: seq<Addr>, p: nat)
    requires cfg.Valid() && JobView(cfg, s.live, s.job) && Allowed(cfg, s, Unregister(addrs)) && p < cfg.n
    ensures StatusAt(cfg, s, Unregister(addrs), p) <==> !NamesNothing(cfg, s.live, addrs)
    ensures NamesNothing(cfg, s.live, addrs) ==> JobStep(cfg, s, Unregister(addrs))[p] == s.job[p]
  {
    JobViewSlots(cfg, s.live, s.job);
    if NamesNothing(cfg, s.live, addrs) {
      UnregisterRefuses(cfg, s.live, s.job, addrs, p);
    } else {
      var k :| 0 <= k < |s.live| && Names(cfg, s.live, addrs, k);
      UnregisterRefines(cfg, s.live, s.job, addrs, k, JobStep(cfg, s, Unregister(addrs)));
    }
  }

  /** All PEs return the same status from every call of every run. */
  lemma StatusUnanimous(cfg: Config, s: State, op: Op, p: nat, q: nat)
    requires cfg.Valid() && p < cfg.n && q < cfg.n && JobView(cfg, s.live, s.job) && Allowed(cfg, s, op)
    ensures StatusAt(cfg, s, op, p) == StatusAt(cfg, s, op, q)
  {
    match op
    case Register(c) =>
      RegisterUnanimous(cfg, s.live, s.job, c, p);
      RegisterUnanimous(cfg, s.live, s.job, c, q);
    case Unregister(addrs) =>
      UnregisterStatus(cfg, s, addrs, p);
      UnregisterStatus(cfg, s, addrs, q);
  }

  /** A call that returns an error changes nothing on any PE: no handle leaks, no mapping
      stays open, no table entry or record appears. */
  lemma FailureChangesNothing(cfg: Config, s: State, op: Op, p: nat)
    requires cfg.Valid() && p < cfg.n && JobView(cfg, s.live, s.job) && Allowed(cfg, s, op)
    requires !StatusAt(cfg, s, op, p)
    ensures JobStep(cfg, s, op) == s.job
  {
    var job' := JobStep(cfg, s, op);
    forall q | 0 <= q < cfg.n ensures job'[q] == s.job[q] {
      StatusUnanimous(cfg, s, op, p, q);
      match op
      case Register(c) => RegisterUnanimous(cfg, s.live, s.job, c, q);
      case Unregister(addrs) => UnregisterStatus(cfg, s, addrs, q);
    }
  }

  lemma SlotAt(cfg: Config, s: State, p: nat, k: nat)
    requires cfg.Valid() && p < cfg.n && JobView(cfg, s.live, s.job) && k < |s.live|
    ensures var at := s.live[k].at[p];
            && |s.job[p].table| == |s.live|
            && s.job[p].table[k] == Region(at.alias, at.length, at.bases)
            && at.alias in s.job[p].records && s.job[p].records[at.alias] == RecordOf(cfg.SiteOf(p), at, k)
  {
    assert PeView(cfg, s.live, s.job, p);
    SlotHolds(cfg.SiteOf(p), At(cfg, s.live, p), s.job[p], k);
  }

  /** After every run the PEs agree on the number of entries and on every slot number, and
      slot `k` of the table on each PE holds that PE's base and peer array. */
  lemma SlotsAgree(cfg: Config, s: State, p: nat, q: nat, k: nat)
    requires cfg.Valid() && p < cfg.n && q < cfg.n && Reachable(cfg, s) && k < |s.live|
    ensures JobView(cfg, s.live, s.job)
    ensures var at := s.live[k].at;
            && |s.job[p].table| == |s.job[q].table| == |s.live|
            && at[p].alias in s.job[p].records && at[q].alias in s.job[q].records
            && s.job[p].records[at[p].alias].slot == s.job[q].records[at[q].alias].slot == k
            && s.job[p].table[k] == Region(at[p].alias, at[p].length, at[p].bases)
            && s.job[p].records[at[p].alias].peerBases == at[p].bases
  {
    ReachableView(cfg, s);
    SlotAt(cfg, s, p, k);
    SlotAt(cfg, s, q, k);
  }

  /** The maps stay in bijection with equal lengths, originals stay disjoint, and the
      number of registrations stays within the configured maximum. */
  lemma BoundedAndSeparated(cfg: Config, s: State, p: nat)
    requires cfg.Valid() && p < cfg.n && Reachable(cfg, s)
    ensures |s.job| == cfg.n
    ensures var st := s.job[p];
            && Separated(st.orig)
            && |st.symm| == |st.table| == |s.live| <= cfg.maxRegions
            && st.symm.Keys == st.records.Keys
            && InBijection(st.symm, st.orig)
  {
    ReachableView(cfg, s);
    var regs := At(cfg, s.live, p);
    var st := s.job[p];
    assert PeView(cfg, s.live, s.job, p);
    OrigSeparated(cfg.SiteOf(p), regs, st.orig);
    SymmCount(cfg.SiteOf(p), regs, st);
    MapsInBijection(cfg.SiteOf(p), regs, st);
  }

  /** What translation on PE `p` rests on. */
  lemma PartsAt(cfg: Config, s: State, p: nat)
    requires cfg.Valid() && p < cfg.n && JobView(cfg, s.live, s.job)
    ensures RegsOk(cfg.SiteOf(p), At(cfg, s.live, p))
    ensures TableView(At(cfg, s.live, p), s.job[p].table) && SpaceView(At(cfg, s.live, p), s.job[p].space)
  {
    assert PeView(cfg, s.live, s.job, p);
  }

  /** `ipcPeerPtr(addr, i)` on PE `p`. */
  ghost function PeerPtrAt(cfg: Config, s: State, p: nat, addr: Addr, i: nat): Option<Addr>
    requires cfg.Valid() && p < cfg.n == |s.job|
  {
    Translated(cfg.SiteOf(p), s.job[p], cfg.ipcBases[p], addr, i)
  }

  lemma TranslationAt(cfg: Config, s: State, p: nat, k: nat, offset: nat, i: nat)
    requires cfg.Valid() && p < cfg.n && i < |cfg.peers[p]| && JobView(cfg, s.live, s.job) && k < |s.live|
    requires offset < s.live[k].at[p].length
    ensures var at := s.live[k].at[p];
            && |at.bases| == |at.shown| == |cfg.peers[p]| && at.alias + offset < WORD
            && PeerPtrAt(cfg, s, p, at.alias + offset, i) == Some(at.bases[i] + offset)
            && at.bases[i] in s.job[p].space && s.job[p].space[at.bases[i]] == at.shown[i]
  {
    var site := cfg.SiteOf(p);
    var regs := At(cfg, s.live, p);
    PartsAt(cfg, s, p);
    assert regs[k] == s.live[k].at[p];
    TranslatesOffset(site, regs, s.job[p], cfg.ipcBases[p], k, offset, i);
  }

  /** After every run, on every PE: byte `offset` of a live registration translates to byte
      `offset` of an open mapping of the buffer that the target PE registered in that same
      collective call. */
  lemma TranslationReachesPeer(cfg: Config, s: State, p: nat, k: nat, offset: nat, i: nat)
    requires cfg.Valid() && p < cfg.n && i < |cfg.peers[p]| && Reachable(cfg, s) && k < |s.live|
    ensures JobView(cfg, s.live, s.job) && CrossOk(cfg, s.live[k])
    ensures offset < s.live[k].at[0].length ==>
            var at := s.live[k].at;
            var q := cfg.peers[p][i];
            && |at[p].bases| == |cfg.peers[p]| && at[p].alias + offset < WORD
            && PeerPtrAt(cfg, s, p, at[p].alias + offset, i) == Some(at[p].bases[i] + offset)
            && at[p].bases[i] in s.job[p].space
            && s.job[p].space[at[p].bases[i]] == Buffer(q, at[q].orig, at[0].length)
  {
    ReachableView(cfg, s);
    assert CrossOk(cfg, s.live[k]);
    if offset < s.live[k].at[0].length {
      TranslationAt(cfg, s, p, k, offset, i);
    }
  }

  /** A heap address keeps its offset into the peer's heap. */
  lemma TranslationOfHeap(cfg: Config, s: State, p: nat, offset: nat, i: nat)
    requires cfg.Valid() && p < cfg.n && i < |cfg.peers[p]| && JobView(cfg, s.live, s.job)
    requires offset < cfg.heapSize[p]
    ensures PeerPtrAt(cfg, s, p, cfg.heapBase[p] + offset, i) == Some((cfg.ipcBases[p][i] + offset) % WORD)
  {
    HeapTestMeans(cfg.SiteOf(p), cfg.heapBase[p] + offset);
  }

  ghost predicate InLive(cfg: Config, s: State, p: nat, addr: Addr)
    requires cfg.Valid() && p < cfg.n && AllCross(cfg, s.live)
  {
    exists k :: 0 <= k < |s.live| && Within(s.live[k].at[p], addr)
  }

  /** Exactly the heap and the live aliases translate; any other address gives null. */
  lemma TranslationOfNothingElse(cfg: Config, s: State, p: nat, addr: Addr, i: nat)
    requires cfg.Valid() && p < cfg.n && i < |cfg.peers[p]| && JobView(cfg, s.live, s.job)
    ensures PeerPtrAt(cfg, s, p, addr, i).None? <==> !InHeap(cfg.SiteOf(p), addr) && !InLive(cfg, s, p, addr)
  {
    var site := cfg.SiteOf(p);
    var regs := At(cfg, s.live, p);
    PartsAt(cfg, s, p);
    TranslatesExactly(site, regs, s.job[p], cfg.ipcBases[p], addr, i);
    assert forall k :: 0 <= k < |regs| ==> regs[k] == s.live[k].at[p];
  }

  /** Register, then unregister through the returned aliases: every PE is back where it
      was, slot for slot, handle for handle. */
  lemma RegisterUnregisterRoundTrip(cfg: Config, s: State, c: Call, p: nat)
    requires cfg.Valid() && p < cfg.n && JobView(cfg, s.live, s.job) && Shaped(cfg, c) && Granted(cfg, s.job, c)
    requires Succeeds(cfg, s.live, c)
    ensures var st' := RegisterAt(cfg, s.job, c, p).1;
            SlotsMatch(st') && UnregisterPe(st', AliasOf(c, p)) == (true, s.job[p])
  {
    var call := CallOf(cfg, s.job, c, p);
    LengthsMatchUnanimous(c, 0, p);
    assert PeView(cfg, s.live, s.job, p) && NoWrap(call.ipc);
    CallFits(cfg, s.job, c, p);
    JoinedMeans(cfg, s.live, s.job, c, p);
    RegisterThenUnregister(cfg.SiteOf(p), cfg.maxRegions, At(cfg, s.live, p), s.job[p], call);
  }
}
