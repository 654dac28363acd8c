/** The test for a free slot at the end of a registration, for every configured maximum: it
    can refuse an otherwise good registration exactly when the maximum does not survive the
    cast to `int` that sizes the table. */
module SymmCapacity {
  import opened Options
  import opened Intervals
  import opened MachineInts
  import opened SymmModel
  import opened SymmView
  import opened SymmProtocol
  import opened SymmTheorems

  /** In a reachable state, a registration that passes every test before the last. */
  ghost predicate GoodSoFar(cfg: Config, s: State, c: Call) {
    && cfg.Valid() && Reachable(cfg, s) && |s.job| == cfg.n && Shaped(cfg, c) && Granted(cfg, s.job, c)
    && LengthsMatch(c, 0) && AllHost(cfg, s.job, c) && AllExported(c) && AllOpened(cfg, c)
  }

  /** Whatever the processes and the run, every such registration finds a slot on every PE. */
  ghost predicate AlwaysASlot(maxRegions: nat) {
    forall cfg: Config, s: State, c: Call {:trigger GoodSoFar(cfg, s, c)} ::
      cfg.maxRegions == maxRegions && GoodSoFar(cfg, s, c) ==>
        forall p :: 0 <= p < cfg.n ==> |s.job[p].table| < TableCapacity(maxRegions)
  }

  // Below 2^31.

  /** The host part has counted the registrations already. */
  lemma SlotTestNeverFails(cfg: Config, s: State, c: Call, p: nat)
    requires GoodSoFar(cfg, s, c) && p < cfg.n && cfg.maxRegions < INT_LIMIT
    ensures |s.job[p].table| < TableCapacity(cfg.maxRegions)
  {
    assert HostOk(cfg, s.job, c, p);
    SlotLeft(cfg, s, c, p);
  }

  lemma SlotLeft(cfg: Config, s: State, c: Call, p: nat)
    requires cfg.Valid() && Reachable(cfg, s) && Shaped(cfg, c) && p < cfg.n == |s.job| && cfg.maxRegions < INT_LIMIT
    requires HostOk(cfg, s.job, c, p)
    ensures |s.job[p].table| < TableCapacity(cfg.maxRegions)
  {
    BoundedAndSeparated(cfg, s, p);
  }

  // From 2^31 on: one process fills its table.

  /** One process without a heap. */
  function Lone(maxRegions: nat): Config { Config(1, maxRegions, [[0]], [0], [0], [0], [[0]]) }

  /** Where the `k`-th buffer of 8 bytes lies, and its alias. */
  function BufferAt(k: nat): Addr
    requires k < INT_LIMIT
  {
    16 * (k + 1)
  }

  function AliasAt(k: nat): Addr
    requires k < INT_LIMIT
  {
    0x100_0000_0000 + 16 * (k + 1)
  }

  /** Its registration, all driver calls succeeding. */
  function FillCall(k: nat): Call
    requires k < INT_LIMIT
  {
    Call([BufferAt(k)], [8], [Outcome(true, Some(AliasAt(k)), Some(0), [None])])
  }

  lemma FillShaped(cfg: Config, k: nat)
    requires cfg == Lone(cfg.maxRegions) && k < INT_LIMIT
    ensures cfg.Valid() && Shaped(cfg, FillCall(k)) && AllExported(FillCall(k)) && AllOpened(cfg, FillCall(k))
  {
  }

  /** How the process stores it. */
  ghost predicate IsFill(r: LocalReg, k: nat)
    requires k < INT_LIMIT
  {
    r.alias == AliasAt(k) && r.length == 8 && r.orig == BufferAt(k) && r.bases == [AliasAt(k)]
  }

  lemma FillReg(cfg: Config, k: nat)
    requires cfg == Lone(cfg.maxRegions) && k < INT_LIMIT && Shaped(cfg, FillCall(k))
    ensures IsFill(NewReg(IpcCallOf(cfg, FillCall(k), 0)), k)
  {
    var call := IpcCallOf(cfg, FillCall(k), 0);
    assert call.OpenedFrom(0) == 1;
    assert call.Bases()[0] == call.Base(0);
  }

  /** The first `|regs|` buffers are registered, in order. */
  ghost predicate Filled(regs: seq<LocalReg>) {
    |regs| < INT_LIMIT && forall i: nat :: i < |regs| ==> IsFill(regs[i], i)
  }

  lemma AliasRoom(site: Site, regs: seq<LocalReg>, st: Pe)
    requires TableView(regs, st.table) && SpaceView(regs, st.space) && Filled(regs)
    requires site.heapBase == site.heapSize == 0
    ensures AliasFresh(site, st, AliasAt(|regs|), 8)
  {
    var alias := AliasAt(|regs|);
    forall i: nat | i < |regs| ensures regs[i].alias + 8 <= alias && alias !in regs[i].bases {
      assert IsFill(regs[i], i);
    }
    assert !HasBase(regs, alias);
  }

  lemma HostRoom(site: Site, maxRegions: nat, regs: seq<LocalReg>, st: Pe)
    requires RegsOk(site, regs) && View(site, regs, st) && Filled(regs) && |regs| < maxRegions
    ensures CanJoin(maxRegions, regs, Buffer(0, BufferAt(|regs|), 8), true, Some(AliasAt(|regs|)))
    ensures HostRegister(maxRegions, st, Buffer(0, BufferAt(|regs|), 8), true, Some(AliasAt(|regs|))).Some?
  {
    forall i: nat | i < |regs| ensures Disjoint(regs[i].orig, regs[i].length, BufferAt(|regs|), 8) {
      assert IsFill(regs[i], i);
    }
    HostTestMeans(site, maxRegions, regs, st, Buffer(0, BufferAt(|regs|), 8), true, Some(AliasAt(|regs|)));
  }

  /** The driver grants the call if the alias is fresh. */
  lemma FillGranted(cfg: Config, job: seq<Pe>, k: nat)
    requires cfg == Lone(cfg.maxRegions) && k < INT_LIMIT && |job| == 1 && Shaped(cfg, FillCall(k))
    requires AliasFresh(cfg.SiteOf(0), job[0], AliasAt(k), 8)
    ensures Granted(cfg, job, FillCall(k)) && LengthsMatch(FillCall(k), 0)
  {
  }

  /** The process has the first `k` buffers registered. */
  ghost predicate FilledUp(cfg: Config, s: State, k: nat) {
    && cfg == Lone(cfg.maxRegions) && cfg.Valid() && Reachable(cfg, s) && JobView(cfg, s.live, s.job)
    && |s.live| == k && Filled(At(cfg, s.live, 0))
  }

  /** Then the next registration is good, so far. */
  lemma NextIsGood(cfg: Config, s: State, k: nat)
    requires FilledUp(cfg, s, k) && k < cfg.maxRegions && k < INT_LIMIT
    ensures GoodSoFar(cfg, s, FillCall(k))
    ensures CanJoin(cfg.maxRegions, At(cfg, s.live, 0), BufferOf(FillCall(k), 0), true, Some(AliasAt(k)))
    ensures |s.job[0].table| == k
  {
    var regs, site := At(cfg, s.live, 0), cfg.SiteOf(0);
    assert PeView(cfg, s.live, s.job, 0);
    FillShaped(cfg, k);
    AliasRoom(site, regs, s.job[0]);
    HostRoom(site, cfg.maxRegions, regs, s.job[0]);
    FillGranted(cfg, s.job, k);
    assert HostOk(cfg, s.job, FillCall(k), 0);
  }

  /** A run goes on with a registration that succeeds. */
  lemma RunMore(cfg: Config, s: State, c: Call) returns (t: State)
    requires cfg.Valid() && Reachable(cfg, s) && JobView(cfg, s.live, s.job)
    requires Shaped(cfg, c) && Granted(cfg, s.job, c) && Succeeds(cfg, s.live, c)
    ensures Reachable(cfg, t) && JobView(cfg, t.live, t.job) && t.live == s.live + [NewRegistration(cfg, c)]
  {
    var ops :| Run(cfg, ops) == Some(s);
    var op := Register(c);
    assert (ops + [op])[..|ops|] == ops;
    t := State(LiveStep(cfg, s, op), JobStep(cfg, s, op));
    assert Run(cfg, ops + [op]) == Some(t);
  }

  /** And with a free slot it fills one more. */
  lemma FillOne(cfg: Config, s: State, k: nat) returns (t: State)
    requires FilledUp(cfg, s, k) && k < cfg.maxRegions && k < TableCapacity(cfg.maxRegions) && k + 1 < INT_LIMIT
    ensures FilledUp(cfg, t, k + 1)
  {
    NextIsGood(cfg, s, k);
    assert Succeeds(cfg, s.live, FillCall(k));
    t := RunMore(cfg, s, FillCall(k));
    FillReg(cfg, k);
    var regs, more := At(cfg, s.live, 0), At(cfg, t.live, 0);
    forall i: nat | i < k + 1 ensures IsFill(more[i], i) {
      assert i < k ==> more[i] == regs[i] && IsFill(regs[i], i);
    }
  }

  /** A run that registers `k` buffers. */
  lemma {:induction false} Fill(cfg: Config, k: nat) returns (s: State)
    requires cfg == Lone(cfg.maxRegions)
    requires k <= cfg.maxRegions && k <= TableCapacity(cfg.maxRegions) && k < INT_LIMIT
    ensures FilledUp(cfg, s, k)
  {
    if k == 0 {
      s := State([], Initial(cfg));
      assert Run(cfg, []) == Some(s);
    } else {
      s := Fill(cfg, k - 1);
      s := FillOne(cfg, s, k - 1);
    }
  }

  /** The cast leaves fewer slots than the maximum. */
  lemma Truncated(maxRegions: nat)
    requires maxRegions >= INT_LIMIT
    ensures TableCapacity(maxRegions) < INT_LIMIT <= maxRegions
  {
  }

  /** For every maximum from 2^31 on, a run after which a registration that passes every other
      test is refused for want of a slot. */
  lemma SlotTestCanFail(maxRegions: nat) returns (cfg: Config, s: State, c: Call)
    requires maxRegions >= INT_LIMIT
    ensures cfg.maxRegions == maxRegions && GoodSoFar(cfg, s, c)
    ensures |s.job[0].table| >= TableCapacity(maxRegions) && !RegisterAt(cfg, s.job, c, 0).0
  {
    Truncated(maxRegions);
    cfg := Lone(maxRegions);
    var k := TableCapacity(maxRegions);
    s := Fill(cfg, k);
    c := FillCall(k);
    NextIsGood(cfg, s, k);
    RegisterUnanimous(cfg, s.live, s.job, c, 0);
  }

  /** The slot test never refuses a good registration if and only if the maximum is below
      2^31. */
  lemma SlotTestIff(maxRegions: nat)
    ensures AlwaysASlot(maxRegions) <==> maxRegions < INT_LIMIT
  {
    if maxRegions < INT_LIMIT {
      forall cfg: Config, s: State, c: Call, p: nat
        | cfg.maxRegions == maxRegions && GoodSoFar(cfg, s, c) && p < cfg.n
        ensures |s.job[p].table| < TableCapacity(maxRegions)
      {
        SlotTestNeverFails(cfg, s, c, p);
      }
    } else {
      var cfg, s, c := SlotTestCanFail(maxRegions);
    }
  }
}
