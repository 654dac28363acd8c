/** Collective symmetric registration over all PEs of a job, in lock step.

    The concrete state is one `Pe` per process. The abstract state is a single sequence of
    live registrations, in slot order. Every collective call, whatever driver calls fail on
    whatever PEs, acts on the concrete state as its one-line counterpart acts on the
    abstract one: a success appends, an unregister swap-removes, a failure does nothing. */
module SymmProtocol {
  import opened Options
  import opened Intervals
  import opened SymmModel
  import opened SymmView

  /** Fixed facts of a job. `peers[p][i]` is the PE behind peer index `i` of PE `p`: the
      identity for the IPC backend, the node-local PEs for the GDA backend. */
  datatype Config = Config(
    n: nat, maxRegions: nat, peers: seq<seq<nat>>, self: seq<nat>,
    heapBase: seq<Addr>, heapSize: seq<nat>, ipcBases: seq<seq<Addr>>)
  {
    ghost predicate Valid() {
      && 1 <= n == |peers| == |self| == |heapBase| == |heapSize| == |ipcBases|
      && (forall p :: 0 <= p < n ==> self[p] < |peers[p]| == |ipcBases[p]| && peers[p][self[p]] == p)
      && (forall p, i :: 0 <= p < n && 0 <= i < |peers[p]| ==> peers[p][i] < n)
      && (forall p :: 0 <= p < n ==> heapBase[p] + heapSize[p] <= WORD)
    }

    ghost function SiteOf(p: nat): Site
      requires Valid() && p < n
    {
      Site(heapBase[p], heapSize[p], self[p], |peers[p]|)
    }
  }

  /** What the driver answers on one PE: is the buffer usable, the alias mapped, the handle
      exported, each peer's handle opened. */
  datatype Outcome = Outcome(valid: bool, alias: Option<Addr>, fd: Option<nat>, opens: seq<Option<Addr>>)

  /** A collective registration: the arguments and outcomes on every PE. */
  datatype Call = Call(addr: seq<Addr>, length: seq<nat>, out: seq<Outcome>)

  datatype Op = Register(call: Call) | Unregister(addrs: seq<Addr>)

  // ---------------------------------------------------------------- collective agreement

  /** `all_pes_agree` on one PE: every PE's value is gathered, then tested in order. */
  method AllPesAgree<T>(values: seq<T>, ok: T -> bool) returns (r: bool)
    ensures r <==> forall i :: 0 <= i < |values| ==> ok(values[i])
  {
    for i := 0 to |values|
      invariant forall j :: 0 <= j < i ==> ok(values[j])
    {
      if !ok(values[i]) {
        return false;
      }
    }
    return true;
  }

  /** `all_pes_succeeded` over the gathered flags. */
  method AllPesSucceeded(flags: seq<int>) returns (r: bool)
    ensures r <==> 0 !in flags
  {
    r := AllPesAgree(flags, (v: int) => v != 0);
  }

  /** `symm_lengths_match` on PE `p`. */
  method SymmLengthsMatch(c: Call, p: nat) returns (r: bool)
    requires p < |c.length|
    ensures r <==> LengthsMatch(c, p)
  {
    r := AllPesAgree(c.length, (v: nat) => v == c.length[p]);
  }

  /** The agreement on exported handles, as every PE takes part in it. */
  method ExportsAgreed(c: Call) returns (r: bool)
    ensures r <==> AllExported(c)
  {
    var flags := seq(|c.out|, q requires 0 <= q < |c.out| => if c.out[q].fd.Some? then 1 else 0);
    r := AllPesSucceeded(flags);
    assert forall q :: 0 <= q < |c.out| ==> (c.out[q].fd.None? <==> flags[q] == 0);
  }

  ghost predicate LengthsMatch(c: Call, p: nat)
    requires p < |c.length|
  {
    forall q :: 0 <= q < |c.length| ==> c.length[q] == c.length[p]
  }

  /** Each PE tests the gathered lengths against its own, yet all get the same answer. */
  lemma LengthsMatchUnanimous(c: Call, p: nat, q: nat)
    requires p < |c.length| && q < |c.length|
    ensures LengthsMatch(c, p) <==> LengthsMatch(c, q)
  {
    assert LengthsMatch(c, p) ==> c.length[q] == c.length[p];
    assert LengthsMatch(c, q) ==> c.length[p] == c.length[q];
  }

  ghost predicate AllExported(c: Call) {
    forall q :: 0 <= q < |c.out| ==> c.out[q].fd.Some?
  }

  ghost predicate OpensOk(cfg: Config, c: Call, p: nat)
    requires Shaped(cfg, c) && p < cfg.n
  {
    forall i :: 0 <= i < |cfg.peers[p]| && i != cfg.self[p] ==> c.out[p].opens[i].Some?
  }

  ghost predicate AllOpened(cfg: Config, c: Call)
    requires Shaped(cfg, c)
  {
    forall p :: 0 <= p < cfg.n ==> OpensOk(cfg, c, p)
  }

  // -------------------------------------------------------------------- the concrete job

  ghost predicate Shaped(cfg: Config, c: Call) {
    && cfg.Valid()
    && |c.addr| == |c.length| == |c.out| == cfg.n
    && forall p :: 0 <= p < cfg.n ==> |c.out[p].opens| == |cfg.peers[p]|
  }

  ghost function BufferOf(c: Call, p: nat): Buffer
    requires p < |c.addr| == |c.length|
  {
    Buffer(p, c.addr[p], c.length[p])
  }

  /** The handle vector after the all-gather. */
  ghost function Gathered(c: Call): (r: seq<Handle>)
    requires |c.addr| == |c.length| == |c.out|
    ensures |r| == |c.out|
    ensures forall q :: 0 <= q < |r| ==> r[q].buffer == BufferOf(c, q)
  {
    seq(|c.out|, q requires 0 <= q < |c.out| =>
      Handle(BufferOf(c, q), if c.out[q].fd.Some? then c.out[q].fd.value else 0))
  }

  ghost function AliasOf(c: Call, p: nat): Addr
    requires p < |c.out|
  {
    if c.out[p].alias.Some? then c.out[p].alias.value else 0
  }

  ghost function IpcCallOf(cfg: Config, c: Call, p: nat): (k: IpcCall)
    requires Shaped(cfg, c) && p < cfg.n
    ensures k.Fits()
    ensures k.OpenOk() <==> OpensOk(cfg, c, p)
  {
    var k := IpcCall(AliasOf(c, p), BufferOf(c, p), cfg.peers[p], cfg.self[p], c.out[p].fd, c.out[p].opens,
                     AllExported(c), Gathered(c), AllOpened(cfg, c));
    assert k.OpenedFrom(0) == |k.opens| <==> OpensOk(cfg, c, p);
    k
  }

  ghost predicate HostOk(cfg: Config, job: seq<Pe>, c: Call, p: nat)
    requires Shaped(cfg, c) && |job| == cfg.n && p < cfg.n
  {
    HostRegister(cfg.maxRegions, job[p], BufferOf(c, p), c.out[p].valid, c.out[p].alias).Some?
  }

  ghost predicate AllHost(cfg: Config, job: seq<Pe>, c: Call)
    requires Shaped(cfg, c) && |job| == cfg.n
  {
    forall p :: 0 <= p < cfg.n ==> HostOk(cfg, job, c, p)
  }

  ghost function CallOf(cfg: Config, job: seq<Pe>, c: Call, p: nat): RegisterCall
    requires Shaped(cfg, c) && |job| == cfg.n && p < cfg.n
  {
    RegisterCall(c.out[p].valid, c.out[p].alias, LengthsMatch(c, p), AllHost(cfg, job, c), IpcCallOf(cfg, c, p))
  }

  /** What is assumed of the driver on every PE: mappings it makes lie at unused addresses,
      do not wrap, and an alias misses the heap and the live aliases of its PE. */
  ghost predicate Granted(cfg: Config, job: seq<Pe>, c: Call)
    requires Shaped(cfg, c) && |job| == cfg.n
  {
    forall p :: 0 <= p < cfg.n ==>
      && DriverOk(cfg.SiteOf(p), job[p], CallOf(cfg, job, c, p))
      && (LengthsMatch(c, p) ==> NoWrap(IpcCallOf(cfg, c, p)))
  }

  lemma CallFits(cfg: Config, job: seq<Pe>, c: Call, p: nat)
    requires Shaped(cfg, c) && |job| == cfg.n && p < cfg.n && Granted(cfg, job, c)
    ensures RegisterFits(cfg.maxRegions, job[p], CallOf(cfg, job, c, p))
    ensures DriverOk(cfg.SiteOf(p), job[p], CallOf(cfg, job, c, p))
  {
    assert DriverOk(cfg.SiteOf(p), job[p], CallOf(cfg, job, c, p));
    assert AllHost(cfg, job, c) ==> HostOk(cfg, job, c, p);
  }

  /** Status and new state of PE `p` after a collective registration. */
  ghost function RegisterAt(cfg: Config, job: seq<Pe>, c: Call, p: nat): (bool, Pe)
    requires Shaped(cfg, c) && |job| == cfg.n && Granted(cfg, job, c) && p < cfg.n
  {
    CallFits(cfg, job, c, p);
    RegisterPe(cfg.maxRegions, job[p], CallOf(cfg, job, c, p))
  }

  // ------------------------------------------------------------------ the abstract state

  /** A live registration, as each PE stores it. */
  datatype Registration = Registration(at: seq<LocalReg>)

  type Live = seq<Registration>

  /** Peer index `i` of PE `p` shows the buffer that PE `peers[p][i]` itself registered. */
  ghost predicate CrossOk(cfg: Config, r: Registration)
    requires cfg.Valid()
  {
    && |r.at| == cfg.n
    && (forall p :: 0 <= p < cfg.n ==> r.at[p].length == r.at[0].length && |r.at[p].shown| == |cfg.peers[p]|)
    && forall p, i {:trigger r.at[p].shown[i]} :: 0 <= p < cfg.n && 0 <= i < |cfg.peers[p]| ==>
         r.at[p].shown[i] == Buffer(cfg.peers[p][i], r.at[cfg.peers[p][i]].orig, r.at[0].length)
  }

  ghost predicate AllCross(cfg: Config, live: Live)
    requires cfg.Valid()
  {
    && (forall s :: 0 <= s < |live| ==> |live[s].at| == cfg.n)
    && (forall s {:trigger CrossOk(cfg, live[s])} :: 0 <= s < |live| ==> CrossOk(cfg, live[s]))
  }

  ghost function At(cfg: Config, live: Live, p: nat): (r: seq<LocalReg>)
    requires cfg.Valid() && AllCross(cfg, live) && p < cfg.n
    ensures |r| == |live| && forall s :: 0 <= s < |r| ==> r[s] == live[s].at[p]
  {
    seq(|live|, s requires 0 <= s < |live| => live[s].at[p])
  }

  ghost predicate PeView(cfg: Config, live: Live, job: seq<Pe>, p: nat)
    requires cfg.Valid() && AllCross(cfg, live) && p < cfg.n == |job|
  {
    && RegsOk(cfg.SiteOf(p), At(cfg, live, p))
    && View(cfg.SiteOf(p), At(cfg, live, p), job[p])
  }

  ghost predicate JobView(cfg: Config, live: Live, job: seq<Pe>)
    requires cfg.Valid()
  {
    && AllCross(cfg, live) && |job| == cfg.n
    && forall p :: 0 <= p < cfg.n ==> PeView(cfg, live, job, p)
  }

  /** A registration succeeds, on all PEs, exactly in this case. */
  ghost predicate Succeeds(cfg: Config, live: Live, c: Call)
    requires Shaped(cfg, c) && AllCross(cfg, live)
  {
    && LengthsMatch(c, 0)
    && (forall p :: 0 <= p < cfg.n ==>
          CanJoin(cfg.maxRegions, At(cfg, live, p), BufferOf(c, p), c.out[p].valid, c.out[p].alias))
    && AllExported(c) && AllOpened(cfg, c) && |live| < TableCapacity(cfg.maxRegions)
  }

  ghost function NewRegistration(cfg: Config, c: Call): (r: Registration)
    requires Shaped(cfg, c) && AllExported(c) && AllOpened(cfg, c)
    ensures |r.at| == cfg.n && forall p :: 0 <= p < cfg.n ==> r.at[p] == NewReg(IpcCallOf(cfg, c, p))
  {
    Registration(seq(cfg.n, p requires 0 <= p < cfg.n => NewReg(IpcCallOf(cfg, c, p))))
  }

  // -------------------------------------------------------------- registration is refined

  lemma JoinedMeans(cfg: Config, live: Live, job: seq<Pe>, c: Call, p: nat)
    requires Shaped(cfg, c) && JobView(cfg, live, job) && Granted(cfg, job, c) && p < cfg.n
    ensures Joined(cfg.maxRegions, At(cfg, live, p), CallOf(cfg, job, c, p)) <==> Succeeds(cfg, live, c)
  {
    LengthsMatchUnanimous(c, 0, p);
    forall q | 0 <= q < cfg.n
      ensures HostOk(cfg, job, c, q) <==>
              CanJoin(cfg.maxRegions, At(cfg, live, q), BufferOf(c, q), c.out[q].valid, c.out[q].alias)
    {
      assert PeView(cfg, live, job, q) && DriverOk(cfg.SiteOf(q), job[q], CallOf(cfg, job, c, q));
      HostTestMeans(cfg.SiteOf(q), cfg.maxRegions, At(cfg, live, q), job[q], BufferOf(c, q), c.out[q].valid,
                    c.out[q].alias);
    }
  }

  /** Every PE returns the same status, namely the abstract one; and a failing call leaves
      every PE as it was: maps, table, open mappings, exported handles. */
  lemma RegisterUnanimous(cfg: Config, live: Live, job: seq<Pe>, c: Call, p: nat)
    requires Shaped(cfg, c) && JobView(cfg, live, job) && Granted(cfg, job, c) && p < cfg.n
    ensures RegisterAt(cfg, job, c, p).0 <==> Succeeds(cfg, live, c)
    ensures !Succeeds(cfg, live, c) ==> RegisterAt(cfg, job, c, p) == (false, job[p])
  {
    CallFits(cfg, job, c, p);
    assert PeView(cfg, live, job, p);
    JoinedMeans(cfg, live, job, c, p);
    RegisterOutcome(cfg.SiteOf(p), cfg.maxRegions, At(cfg, live, p), job[p], CallOf(cfg, job, c, p));
  }

  lemma NewCross(cfg: Config, c: Call)
    requires Shaped(cfg, c) && AllExported(c) && AllOpened(cfg, c) && LengthsMatch(c, 0)
    ensures CrossOk(cfg, NewRegistration(cfg, c))
  {
    var r := NewRegistration(cfg, c);
    forall p, i | 0 <= p < cfg.n && 0 <= i < |cfg.peers[p]|
      ensures r.at[p].shown[i] == Buffer(cfg.peers[p][i], r.at[cfg.peers[p][i]].orig, r.at[0].length)
    {
      var q := cfg.peers[p][i];
      assert r.at[q].orig == c.addr[q] && c.length[q] == c.length[0];
    }
  }

  lemma AtExtends(cfg: Config, live: Live, r: Registration, p: nat)
    requires cfg.Valid() && AllCross(cfg, live) && CrossOk(cfg, r) && p < cfg.n
    ensures AllCross(cfg, live + [r])
    ensures At(cfg, live + [r], p) == At(cfg, live, p) + [r.at[p]]
  {
  }

  /** A successful call appends one registration to the abstract state. */
  lemma RegisterRefines(cfg: Config, live: Live, job: seq<Pe>, c: Call, job': seq<Pe>)
    requires Shaped(cfg, c) && JobView(cfg, live, job) && Granted(cfg, job, c) && Succeeds(cfg, live, c)
    requires |job'| == cfg.n && forall p :: 0 <= p < cfg.n ==> job'[p] == RegisterAt(cfg, job, c, p).1
    ensures JobView(cfg, live + [NewRegistration(cfg, c)], job')
  {
    var r := NewRegistration(cfg, c);
    NewCross(cfg, c);
    AtExtends(cfg, live, r, 0);
    forall p | 0 <= p < cfg.n ensures PeView(cfg, live + [r], job', p) {
      CallFits(cfg, job, c, p);
      JoinedMeans(cfg, live, job, c, p);
      AtExtends(cfg, live, r, p);
      LengthsMatchUnanimous(c, 0, p);
      assert PeView(cfg, live, job, p) && NoWrap(IpcCallOf(cfg, c, p));
      RegisterKeepsOk(cfg.SiteOf(p), cfg.maxRegions, At(cfg, live, p), job[p], CallOf(cfg, job, c, p));
      RegisterKeepsView(cfg.SiteOf(p), cfg.maxRegions, At(cfg, live, p), job[p], CallOf(cfg, job, c, p));
    }
  }

  // ------------------------------------------------------------ unregistration is refined

  ghost predicate Names(cfg: Config, live: Live, addrs: seq<Addr>, s: nat)
    requires cfg.Valid() && AllCross(cfg, live) && |addrs| == cfg.n && s < |live|
  {
    forall p :: 0 <= p < cfg.n ==> addrs[p] == live[s].at[p].alias
  }

  ghost predicate NamesNothing(cfg: Config, live: Live, addrs: seq<Addr>)
    requires cfg.Valid() && AllCross(cfg, live) && |addrs| == cfg.n
  {
    forall s, p :: 0 <= s < |live| && 0 <= p < cfg.n ==> addrs[p] != live[s].at[p].alias
  }

  ghost predicate JobSlotsMatch(job: seq<Pe>) {
    forall p :: 0 <= p < |job| ==> SlotsMatch(job[p])
  }

  lemma JobViewSlots(cfg: Config, live: Live, job: seq<Pe>)
    requires cfg.Valid() && JobView(cfg, live, job)
    ensures JobSlotsMatch(job)
  {
    forall p | 0 <= p < |job| ensures SlotsMatch(job[p]) {
      assert PeView(cfg, live, job, p);
      ViewSlotsMatch(cfg.SiteOf(p), At(cfg, live, p), job[p]);
    }
  }

  lemma AtShrinks(cfg: Config, live: Live, s: nat, p: nat)
    requires cfg.Valid() && AllCross(cfg, live) && s < |live| && p < cfg.n
    ensures AllCross(cfg, SwapRemove(live, s))
    ensures At(cfg, SwapRemove(live, s), p) == SwapRemove(At(cfg, live, p), s)
  {
  }

  /** Passing each PE its alias of registration `s` removes that registration everywhere. */
  lemma UnregisterRefines(cfg: Config, live: Live, job: seq<Pe>, addrs: seq<Addr>, s: nat, job': seq<Pe>)
    requires cfg.Valid() && JobView(cfg, live, job) && JobSlotsMatch(job)
    requires |addrs| == cfg.n && s < |live| && Names(cfg, live, addrs, s)
    requires |job'| == cfg.n && forall p :: 0 <= p < cfg.n ==> job'[p] == UnregisterPe(job[p], addrs[p]).1
    ensures forall p :: 0 <= p < cfg.n ==> UnregisterPe(job[p], addrs[p]).0
    ensures JobView(cfg, SwapRemove(live, s), job')
  {
    AtShrinks(cfg, live, s, 0);
    forall p | 0 <= p < cfg.n
      ensures UnregisterPe(job[p], addrs[p]).0 && PeView(cfg, SwapRemove(live, s), job', p)
    {
      var regs := At(cfg, live, p);
      assert PeView(cfg, live, job, p);
      AtShrinks(cfg, live, s, p);
      UnregisterKeepsView(cfg.SiteOf(p), regs, job[p], s);
      SwapRemoveOk(cfg.SiteOf(p), regs, s);
    }
  }

  /** Addresses that are no live alias are refused everywhere, and nothing changes. */
  lemma UnregisterRefuses(cfg: Config, live: Live, job: seq<Pe>, addrs: seq<Addr>, p: nat)
    requires cfg.Valid() && JobView(cfg, live, job) && JobSlotsMatch(job)
    requires |addrs| == cfg.n && NamesNothing(cfg, live, addrs) && p < cfg.n
    ensures UnregisterPe(job[p], addrs[p]) == (false, job[p])
  {
    assert PeView(cfg, live, job, p);
    var regs := At(cfg, live, p);
    forall a: Addr | a in job[p].records ensures a != addrs[p] {
      var s := job[p].records[a].slot;
      assert regs[s] == live[s].at[p];
    }
  }
}
