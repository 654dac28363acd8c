/** What the collective calls of a run do, said in the words of the calls themselves: the
    arguments each PE passed and what the driver answered it. Nothing here goes through
    the definitions by which the model builds a registration from a call. */
module SymmCalls {
  import opened Options
  import opened Intervals
  import opened SymmModel
  import opened SymmView
  import opened SymmProtocol
  import opened SymmTheorems

  // ------------------------------------------------------------------------ registration

  /** On PE `q` the buffer is usable, ends inside the address space, and gets an alias, an
      exported handle and a mapping of every other peer's buffer. */
  ghost predicate Served(cfg: Config, c: Call, q: nat)
    requires Shaped(cfg, c) && q < cfg.n
  {
    && c.out[q].valid && c.out[q].alias.Some? && c.out[q].fd.Some? && c.addr[q] + c.length[q] < WORD
    && forall i :: 0 <= i < |cfg.peers[q]| && i != cfg.self[q] ==> c.out[q].opens[i].Some?
  }

  /** On PE `q` the buffer misses every live original. */
  ghost predicate Clear(cfg: Config, live: Live, c: Call, q: nat)
    requires Shaped(cfg, c) && AllCross(cfg, live) && q < cfg.n
  {
    forall k :: 0 <= k < |live| ==>
      var other := live[k].at[q];
      c.addr[q] + c.length[q] <= other.orig || other.orig + other.length <= c.addr[q]
  }

  lemma ServedAndClear(cfg: Config, live: Live, c: Call, q: nat)
    requires Shaped(cfg, c) && AllCross(cfg, live) && q < cfg.n
    ensures && CanJoin(cfg.maxRegions, At(cfg, live, q), BufferOf(c, q), c.out[q].valid, c.out[q].alias)
            && c.out[q].fd.Some? && OpensOk(cfg, c, q)
       <==> Served(cfg, c, q) && Clear(cfg, live, c, q) && |live| < cfg.maxRegions
  {
    var regs := At(cfg, live, q);
    assert forall k :: 0 <= k < |live| ==> regs[k] == live[k].at[q];
  }

  lemma SucceedsMeans(cfg: Config, live: Live, c: Call)
    requires Shaped(cfg, c) && AllCross(cfg, live)
    ensures Succeeds(cfg, live, c) <==>
            && (forall q, r :: 0 <= q < cfg.n && 0 <= r < cfg.n ==> c.length[q] == c.length[r])
            && (forall q :: 0 <= q < cfg.n ==> Served(cfg, c, q) && Clear(cfg, live, c, q))
            && |live| < cfg.maxRegions && |live| < TableCapacity(cfg.maxRegions)
  {
    assert LengthsMatch(c, 0) <==>
        forall q, r :: 0 <= q < cfg.n && 0 <= r < cfg.n ==> c.length[q] == c.length[r];
    forall q | 0 <= q < cfg.n
      ensures && CanJoin(cfg.maxRegions, At(cfg, live, q), BufferOf(c, q), c.out[q].valid, c.out[q].alias)
              && c.out[q].fd.Some? && OpensOk(cfg, c, q)
         <==> Served(cfg, c, q) && Clear(cfg, live, c, q) && |live| < cfg.maxRegions
    {
      ServedAndClear(cfg, live, c, q);
    }
    if |live| >= cfg.maxRegions {
      ServedAndClear(cfg, live, c, 0);
    }
  }

  /** A registration succeeds, on whichever PE one looks, exactly if all lengths are equal,
      every PE is served and clear, and the maximum and the table leave room. */
  lemma RegisterSucceedsIff(cfg: Config, s: State, c: Call, p: nat)
    requires cfg.Valid() && JobView(cfg, s.live, s.job) && Allowed(cfg, s, Register(c)) && p < cfg.n
    ensures StatusAt(cfg, s, Register(c), p) <==>
            && (forall q, r :: 0 <= q < cfg.n && 0 <= r < cfg.n ==> c.length[q] == c.length[r])
            && (forall q :: 0 <= q < cfg.n ==> Served(cfg, c, q) && Clear(cfg, s.live, c, q))
            && |s.live| < cfg.maxRegions && |s.live| < TableCapacity(cfg.maxRegions)
  {
    RegisterUnanimous(cfg, s.live, s.job, c, p);
    SucceedsMeans(cfg, s.live, c);
  }

  /** The job after one more call. */
  ghost function After(cfg: Config, s: State, op: Op): (t: State)
    requires cfg.Valid() && JobView(cfg, s.live, s.job) && Allowed(cfg, s, op)
    ensures JobView(cfg, t.live, t.job)
  {
    StepRefines(cfg, s, op);
    State(LiveStep(cfg, s, op), JobStep(cfg, s, op))
  }

  /** That is where the run goes on. */
  lemma AfterRun(cfg: Config, ops: seq<Op>, s: State, op: Op)
    requires cfg.Valid() && Run(cfg, ops) == Some(s) && Allowed(cfg, s, op)
    ensures Run(cfg, ops + [op]) == Some(After(cfg, s, op))
  {
    assert (ops + [op])[..|ops|] == ops;
  }

  /** On PE `p`, registration `r` records what that PE passed to the call, and what the
      driver gave it: alias, exported handle, and one mapping per peer. */
  ghost predicate HoldsCall(cfg: Config, c: Call, r: Registration, p: nat)
    requires Shaped(cfg, c) && p < cfg.n
  {
    && |r.at| == cfg.n && |r.at[p].bases| == |cfg.peers[p]|
    && r.at[p].orig == c.addr[p] && r.at[p].length == c.length[p]
    && c.out[p].alias == Some(r.at[p].alias)
    && c.out[p].fd.Some? && r.at[p].handle == Handle(Buffer(p, c.addr[p], c.length[p]), c.out[p].fd.value)
    && forall i :: 0 <= i < |cfg.peers[p]| ==>
         if i == cfg.self[p] then r.at[p].bases[i] == r.at[p].alias else c.out[p].opens[i] == Some(r.at[p].bases[i])
  }

  /** A successful registration adds one live registration, the last, which on every PE
      holds that PE's part of the call. */
  lemma RegisteredAsAsked(cfg: Config, s: State, c: Call, p: nat)
    requires cfg.Valid() && JobView(cfg, s.live, s.job) && Allowed(cfg, s, Register(c)) && p < cfg.n
    requires StatusAt(cfg, s, Register(c), p)
    ensures var live := After(cfg, s, Register(c)).live;
            && |live| == |s.live| + 1 && live[..|s.live|] == s.live
            && forall q :: 0 <= q < cfg.n ==> HoldsCall(cfg, c, live[|s.live|], q)
  {
    RegisterUnanimous(cfg, s.live, s.job, c, p);
    var r := NewRegistration(cfg, c);
    assert After(cfg, s, Register(c)).live == s.live + [r];
    forall q | 0 <= q < cfg.n ensures HoldsCall(cfg, c, r, q) {
      assert CanJoin(cfg.maxRegions, At(cfg, s.live, q), BufferOf(c, q), c.out[q].valid, c.out[q].alias);
      assert OpensOk(cfg, c, q);
    }
  }

  /** `t` holds the registrations of `s` and one more, which answers to `c`. */
  ghost predicate Grown(cfg: Config, s: State, c: Call, t: State)
    requires Shaped(cfg, c)
  {
    && JobView(cfg, s.live, s.job) && JobView(cfg, t.live, t.job)
    && |t.live| == |s.live| + 1 && t.live[..|s.live|] == s.live
    && forall q :: 0 <= q < cfg.n ==> HoldsCall(cfg, c, t.live[|s.live|], q)
  }

  /** What PE `p` has stored for a new registration. */
  ghost predicate Stored(c: Call, p: nat, st: Pe, st': Pe)
    requires p < |c.addr| == |c.length| == |c.out|
  {
    && c.out[p].alias.Some? && c.out[p].fd.Some?
    && var alias := c.out[p].alias.value;
    && alias in st'.symm && st'.symm[alias] == SymmRegion(c.length[p], c.addr[p])
    && c.addr[p] in st'.orig && st'.orig[c.addr[p]] == c.length[p]
    && |st'.table| == |st.table| + 1 && st'.table[..|st.table|] == st.table
    && st'.table[|st.table|].localBase == alias && st'.table[|st.table|].length == c.length[p]
    && alias in st'.records && st'.records[alias].slot == |st.table|
    && st'.exported == st.exported + multiset{Handle(Buffer(p, c.addr[p], c.length[p]), c.out[p].fd.value)}
  }

  lemma HandlesGrow(regs: seq<LocalReg>, r: LocalReg)
    ensures multiset(HandlesOf(regs + [r])) == multiset(HandlesOf(regs)) + multiset{r.handle}
  {
    assert HandlesOf(regs + [r]) == HandlesOf(regs) + [r.handle];
  }

  lemma TableGrown(regs: seq<LocalReg>, r: LocalReg, table: seq<Region>, table': seq<Region>)
    requires TableView(regs, table) && TableView(regs + [r], table')
    ensures |table| == |regs| && |table'| == |table| + 1 && table'[..|table|] == table
    ensures table'[|table|].localBase == r.alias && table'[|table|].length == r.length
  {
    var all := regs + [r];
    assert all[|regs|] == r && forall k :: 0 <= k < |regs| ==> all[k] == regs[k];
  }

  lemma ViewGrown(site: Site, regs: seq<LocalReg>, r: LocalReg, st: Pe, st': Pe)
    requires View(site, regs, st) && View(site, regs + [r], st')
    ensures |st'.table| == |st.table| + 1 && st'.table[..|st.table|] == st.table
    ensures st'.table[|st.table|].localBase == r.alias && st'.table[|st.table|].length == r.length
    ensures r.alias in st'.records && st'.records[r.alias].slot == |st.table|
    ensures r.alias in st'.symm && st'.symm[r.alias] == SymmRegion(r.length, r.orig)
    ensures r.orig in st'.orig && st'.orig[r.orig] == r.length
    ensures st'.exported == st.exported + multiset{r.handle}
  {
    TableGrown(regs, r, st.table, st'.table);
    HandlesGrow(regs, r);
    assert (regs + [r])[|regs|] == r;
  }

  lemma AtGrown(cfg: Config, s: State, c: Call, t: State, p: nat)
    requires Shaped(cfg, c) && Grown(cfg, s, c, t) && p < cfg.n
    ensures At(cfg, t.live, p) == At(cfg, s.live, p) + [t.live[|s.live|].at[p]]
  {
    assert forall k :: 0 <= k < |s.live| ==> t.live[k] == t.live[..|s.live|][k];
  }

  lemma GrownStored(cfg: Config, s: State, c: Call, t: State, p: nat)
    requires Shaped(cfg, c) && Grown(cfg, s, c, t) && p < cfg.n
    ensures Stored(c, p, s.job[p], t.job[p])
  {
    var r := t.live[|s.live|].at[p];
    assert PeView(cfg, s.live, s.job, p) && PeView(cfg, t.live, t.job, p);
    AtGrown(cfg, s, c, t, p);
    ViewGrown(cfg.SiteOf(p), At(cfg, s.live, p), r, s.job[p], t.job[p]);
    assert HoldsCall(cfg, c, t.live[|s.live|], p);
  }

  /** After a successful registration every PE has stored one new alias, original range,
      table entry and record, and exports one more handle. */
  lemma RegisteredIsStored(cfg: Config, s: State, c: Call, p: nat, q: nat)
    requires cfg.Valid() && JobView(cfg, s.live, s.job) && Allowed(cfg, s, Register(c)) && p < cfg.n && q < cfg.n
    requires StatusAt(cfg, s, Register(c), p)
    ensures Stored(c, q, s.job[q], After(cfg, s, Register(c)).job[q])
  {
    RegisteredAsAsked(cfg, s, c, p);
    GrownStored(cfg, s, c, After(cfg, s, Register(c)), q);
  }

  /** `ipcPeerPtr` on byte `offset` of the alias that PE `p` got: byte `offset` of the
      mapping that the driver opened for peer `i`, which shows what this peer passed. */
  ghost predicate ReachesPeer(cfg: Config, c: Call, t: State, p: nat, i: nat, offset: nat)
    requires Shaped(cfg, c) && p < cfg.n == |t.job| && i < |cfg.peers[p]|
  {
    var q := cfg.peers[p][i];
    var base := if i == cfg.self[p] then c.out[p].alias else c.out[p].opens[i];
    && c.out[p].alias.Some? && base.Some? && c.out[p].alias.value + offset < WORD
    && PeerPtrAt(cfg, t, p, c.out[p].alias.value + offset, i) == Some(base.value + offset)
    && base.value in t.job[p].space
    && t.job[p].space[base.value] == Buffer(q, c.addr[q], c.length[q])
  }

  lemma GrownReaches(cfg: Config, s: State, c: Call, t: State, p: nat, i: nat, offset: nat)
    requires Shaped(cfg, c) && Grown(cfg, s, c, t) && p < cfg.n && i < |cfg.peers[p]| && offset < c.length[p]
    ensures ReachesPeer(cfg, c, t, p, i, offset)
  {
    var k := |s.live|;
    var at := t.live[k].at;
    var q := cfg.peers[p][i];
    assert HoldsCall(cfg, c, t.live[k], p) && HoldsCall(cfg, c, t.live[k], q);
    assert CrossOk(cfg, t.live[k]);
    TranslationAt(cfg, t, p, k, offset, i);
    assert at[p].shown[i] == Buffer(q, at[q].orig, at[0].length) && at[q].length == at[0].length;
  }

  /** Once the call has succeeded, every byte of every PE's alias reaches, for every peer,
      the same byte of the buffer which that peer passed to this very call. */
  lemma RegisteredReachesPeer(cfg: Config, s: State, c: Call, p: nat, i: nat, offset: nat)
    requires cfg.Valid() && JobView(cfg, s.live, s.job) && Allowed(cfg, s, Register(c)) && p < cfg.n
    requires StatusAt(cfg, s, Register(c), p) && i < |cfg.peers[p]| && offset < c.length[p]
    ensures ReachesPeer(cfg, c, After(cfg, s, Register(c)), p, i, offset)
  {
    RegisteredAsAsked(cfg, s, c, p);
    GrownReaches(cfg, s, c, After(cfg, s, Register(c)), p, i, offset);
  }

  // ---------------------------------------------------------------------- unregistration

  /** Two live registrations never share an alias. */
  lemma OnlyOneNamed(cfg: Config, s: State, addrs: seq<Addr>, k: nat)
    requires cfg.Valid() && JobView(cfg, s.live, s.job) && |addrs| == cfg.n
    requires k < |s.live| && Names(cfg, s.live, addrs, k)
    ensures !NamesNothing(cfg, s.live, addrs)
    ensures forall j :: 0 <= j < |s.live| && Names(cfg, s.live, addrs, j) ==> j == k
  {
    SlotAt(cfg, s, 0, k);
    forall j | 0 <= j < |s.live| && Names(cfg, s.live, addrs, j) ensures j == k {
      SlotAt(cfg, s, 0, j);
    }
  }

  /** `gone` shares no byte and no mapping with any of `regs`. */
  ghost predicate Foreign(gone: LocalReg, regs: seq<LocalReg>) {
    forall j {:trigger regs[j]} :: 0 <= j < |regs| ==> Apart(regs[j], gone) && regs[j].length > 0
  }

  lemma LeftForeign(site: Site, regs: seq<LocalReg>, k: nat)
    requires RegsOk(site, regs) && k < |regs|
    ensures Foreign(regs[k], SwapRemove(regs, k)) && regs[k].length > 0
  {
    var left := SwapRemove(regs, k);
    assert RegOk(site, regs[k]);
    forall j | 0 <= j < |left| ensures Apart(left[j], regs[k]) && left[j].length > 0 {
      var was := if j == k then |regs| - 1 else j;
      assert Apart(regs[was], regs[k]) && RegOk(site, regs[was]);
    }
  }

  lemma NoneMapped(regs: seq<LocalReg>, gone: LocalReg, space: map<Addr, Buffer>)
    requires Foreign(gone, regs) && SpaceView(regs, space)
    ensures forall i :: 0 <= i < |gone.bases| ==> gone.bases[i] !in space
  {
  }

  /** A PE that stores what is left stores nothing of the registration taken out. */
  lemma NoneNamed(site: Site, regs: seq<LocalReg>, gone: LocalReg, st: Pe)
    requires Foreign(gone, regs) && gone.length > 0
    requires RecordsView(site, regs, st.records) && AliasView(regs, st.records, st.symm) && OrigView(regs, st.orig)
    ensures gone.alias !in st.symm && gone.alias !in st.records && gone.orig !in st.orig
  {
  }

  lemma HandlesShrink(regs: seq<LocalReg>, k: nat)
    requires k < |regs|
    ensures multiset(HandlesOf(SwapRemove(regs, k))) + multiset{regs[k].handle} == multiset(HandlesOf(regs))
  {
    var handles := HandlesOf(regs);
    assert HandlesOf(SwapRemove(regs, k)) == SwapRemove(handles, k);
    SwapRemoveMultiset(handles, k);
    assert handles[k] in multiset(handles);
  }

  /** On a PE in state `st'` nothing is left of `gone`, and its handle is closed. */
  ghost predicate Dropped(gone: LocalReg, st: Pe, st': Pe) {
    && gone.alias !in st'.symm && gone.alias !in st'.records && gone.orig !in st'.orig
    && (forall i :: 0 <= i < |gone.bases| ==> gone.bases[i] !in st'.space)
    && st'.exported + multiset{gone.handle} == st.exported
  }

  lemma ShrunkDropped(cfg: Config, s: State, t: State, k: nat, p: nat)
    requires cfg.Valid() && JobView(cfg, s.live, s.job) && JobView(cfg, t.live, t.job) && p < cfg.n
    requires k < |s.live| && t.live == SwapRemove(s.live, k)
    ensures Dropped(s.live[k].at[p], s.job[p], t.job[p])
  {
    assert PeView(cfg, s.live, s.job, p) && PeView(cfg, t.live, t.job, p);
    var regs := At(cfg, s.live, p);
    AtShrinks(cfg, s.live, k, p);
    LeftForeign(cfg.SiteOf(p), regs, k);
    NoneMapped(SwapRemove(regs, k), regs[k], t.job[p].space);
    NoneNamed(cfg.SiteOf(p), SwapRemove(regs, k), regs[k], t.job[p]);
    HandlesShrink(regs, k);
  }

  /** Unregistering registration `k` through each PE's alias of it succeeds everywhere.
      The last registration moves to slot `k`, all others keep theirs, and on every PE
      nothing is left of `k`: no alias, range, record, mapping or handle. */
  lemma UnregisteredAsAsked(cfg: Config, s: State, addrs: seq<Addr>, k: nat, p: nat)
    requires cfg.Valid() && JobView(cfg, s.live, s.job) && Allowed(cfg, s, Unregister(addrs)) && p < cfg.n
    requires k < |s.live| && forall q :: 0 <= q < cfg.n ==> addrs[q] == s.live[k].at[q].alias
    ensures StatusAt(cfg, s, Unregister(addrs), p)
    ensures var t := After(cfg, s, Unregister(addrs));
            && |t.live| == |s.live| - 1
            && (forall j :: 0 <= j < |t.live| ==> t.live[j] == if j == k then s.live[|t.live|] else s.live[j])
            && Dropped(s.live[k].at[p], s.job[p], t.job[p])
  {
    var t := After(cfg, s, Unregister(addrs));
    assert Names(cfg, s.live, addrs, k);
    OnlyOneNamed(cfg, s, addrs, k);
    UnregisterStatus(cfg, s, addrs, p);
    assert t.live == SwapRemove(s.live, k);
    ShrunkDropped(cfg, s, t, k, p);
  }
}
