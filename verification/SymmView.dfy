/** How one PE stores the live registrations, and what each call does to that store.

    `regs` lists the registrations in slot order as this PE sees them. `View` says that
    every map, the table, the open mappings and the exported handles hold exactly `regs`:
    nothing missing, nothing left over. */
module SymmView {
  import opened Options
  import opened Intervals
  import opened SymmModel

  /** One registration on one PE: peer `i`'s buffer `shown[i]` is mapped at `bases[i]`. */
  datatype LocalReg = LocalReg(
    alias: Addr, length: nat, orig: Addr, bases: seq<Addr>, shown: seq<Buffer>, handle: Handle)

  datatype Site = Site(heapBase: Addr, heapSize: nat, self: nat, numPeers: nat)

  ghost predicate RegOk(site: Site, r: LocalReg) {
    && 0 < r.length && r.alias != 0 && r.alias + r.length < WORD && r.orig + r.length < WORD
    && Disjoint(site.heapBase, site.heapSize, r.alias, r.length)
    && site.self < site.numPeers == |r.bases| == |r.shown|
    && r.bases[site.self] == r.alias
    && (forall i :: 0 <= i < |r.bases| ==> r.bases[i] + r.length < WORD)
    && (forall i, j :: 0 <= i < j < |r.bases| ==> r.bases[i] != r.bases[j])
  }

  ghost predicate Apart(r: LocalReg, t: LocalReg) {
    && Disjoint(r.alias, r.length, t.alias, t.length)
    && Disjoint(r.orig, r.length, t.orig, t.length)
    && forall b: Addr :: b in r.bases ==> b !in t.bases
  }

  ghost predicate RegsOk(site: Site, regs: seq<LocalReg>) {
    && (forall s {:trigger RegOk(site, regs[s])} :: 0 <= s < |regs| ==> RegOk(site, regs[s]))
    && (forall s, t {:trigger Apart(regs[s], regs[t])} ::
          0 <= s < |regs| && 0 <= t < |regs| && s != t ==> Apart(regs[s], regs[t]))
  }

  // ------------------------------------------------------------------------------- views

  ghost predicate TableView(regs: seq<LocalReg>, table: seq<Region>) {
    && |table| == |regs|
    && forall s :: 0 <= s < |regs| ==> table[s] == Region(regs[s].alias, regs[s].length, regs[s].bases)
  }

  ghost function RecordOf(site: Site, r: LocalReg, s: nat): Record {
    Record(s, site.numPeers, site.self, r.bases, r.handle)
  }

  ghost predicate RecordsView(site: Site, regs: seq<LocalReg>, records: map<Addr, Record>) {
    && (forall s :: 0 <= s < |regs| ==> regs[s].alias in records && records[regs[s].alias].slot == s)
    && (forall a: Addr :: a in records ==>
          && records[a].slot < |regs| && regs[records[a].slot].alias == a
          && records[a] == RecordOf(site, regs[records[a].slot], records[a].slot))
  }

  ghost predicate AliasView(regs: seq<LocalReg>, records: map<Addr, Record>, symm: map<Addr, SymmRegion>) {
    && symm.Keys == records.Keys
    && forall s :: 0 <= s < |regs| ==>
         regs[s].alias in symm && symm[regs[s].alias] == SymmRegion(regs[s].length, regs[s].orig)
  }

  ghost predicate HasOrig(regs: seq<LocalReg>, a: Addr) {
    exists s :: 0 <= s < |regs| && regs[s].orig == a
  }

  ghost predicate OrigView(regs: seq<LocalReg>, orig: Regions) {
    && (forall s :: 0 <= s < |regs| ==> regs[s].orig in orig && orig[regs[s].orig] == regs[s].length)
    && forall a: Addr :: a in orig ==> HasOrig(regs, a)
  }

  ghost predicate HasBase(regs: seq<LocalReg>, b: Addr) {
    exists s :: 0 <= s < |regs| && b in regs[s].bases
  }

  ghost predicate Shows(r: LocalReg, space: map<Addr, Buffer>) {
    && |r.bases| == |r.shown|
    && forall i :: 0 <= i < |r.bases| ==> r.bases[i] in space && space[r.bases[i]] == r.shown[i]
  }

  ghost predicate SpaceView(regs: seq<LocalReg>, space: map<Addr, Buffer>) {
    && (forall s :: 0 <= s < |regs| ==> Shows(regs[s], space))
    && forall b: Addr :: b in space ==> HasBase(regs, b)
  }

  ghost function HandlesOf(regs: seq<LocalReg>): (r: seq<Handle>)
    ensures |r| == |regs|
    ensures forall s :: 0 <= s < |r| ==> r[s] == regs[s].handle
  {
    seq(|regs|, s requires 0 <= s < |regs| => regs[s].handle)
  }

  ghost predicate View(site: Site, regs: seq<LocalReg>, st: Pe) {
    && TableView(regs, st.table)
    && RecordsView(site, regs, st.records)
    && AliasView(regs, st.records, st.symm)
    && OrigView(regs, st.orig)
    && SpaceView(regs, st.space)
    && st.exported == multiset(HandlesOf(regs))
  }

  lemma EmptyView(site: Site)
    ensures View(site, [], EMPTY_PE)
  {
    assert HandlesOf([]) == [];
  }

  /** Aliases and original ranges correspond one to one, with equal lengths. */
  ghost predicate InBijection(symm: map<Addr, SymmRegion>, orig: Regions) {
    && (forall a: Addr :: a in symm ==> symm[a].origBase in orig && orig[symm[a].origBase] == symm[a].length)
    && (forall a: Addr, b: Addr :: a in symm && b in symm && symm[a].origBase == symm[b].origBase ==> a == b)
    && (forall o: Addr :: o in orig ==> exists a: Addr :: a in symm && symm[a].origBase == o)
  }

  /** Every alias is that of a registration. */
  lemma AliasSlot(site: Site, regs: seq<LocalReg>, st: Pe, a: Addr) returns (s: nat)
    requires View(site, regs, st) && a in st.symm
    ensures s < |regs| && regs[s].alias == a && st.symm[a] == SymmRegion(regs[s].length, regs[s].orig)
  {
    assert a in st.records;
    s := st.records[a].slot;
  }

  lemma AliasHasOrig(site: Site, regs: seq<LocalReg>, st: Pe, a: Addr)
    requires View(site, regs, st) && a in st.symm
    ensures st.symm[a].origBase in st.orig && st.orig[st.symm[a].origBase] == st.symm[a].length
  {
    var s := AliasSlot(site, regs, st, a);
  }

  lemma OneAlias(site: Site, regs: seq<LocalReg>, st: Pe, a: Addr, b: Addr)
    requires RegsOk(site, regs) && View(site, regs, st)
    requires a in st.symm && b in st.symm && st.symm[a].origBase == st.symm[b].origBase
    ensures a == b
  {
    var s := AliasSlot(site, regs, st, a);
    var t := AliasSlot(site, regs, st, b);
    assert RegOk(site, regs[s]) && RegOk(site, regs[t]);
    assert s != t ==> Apart(regs[s], regs[t]);
  }

  lemma SomeAlias(regs: seq<LocalReg>, records: map<Addr, Record>, symm: map<Addr, SymmRegion>, orig: Regions, o: Addr)
    returns (a: Addr)
    requires AliasView(regs, records, symm) && OrigView(regs, orig) && o in orig
    ensures a in symm && symm[a].origBase == o
  {
    var s :| 0 <= s < |regs| && regs[s].orig == o;
    a := regs[s].alias;
  }

  lemma MapsInBijection(site: Site, regs: seq<LocalReg>, st: Pe)
    requires RegsOk(site, regs) && View(site, regs, st)
    ensures InBijection(st.symm, st.orig)
  {
    forall a: Addr | a in st.symm
      ensures st.symm[a].origBase in st.orig && st.orig[st.symm[a].origBase] == st.symm[a].length
    {
      AliasHasOrig(site, regs, st, a);
    }
    forall a: Addr, b: Addr | a in st.symm && b in st.symm && st.symm[a].origBase == st.symm[b].origBase
      ensures a == b
    {
      OneAlias(site, regs, st, a, b);
    }
    forall o: Addr | o in st.orig ensures exists a: Addr :: a in st.symm && st.symm[a].origBase == o {
      var a := SomeAlias(regs, st.records, st.symm, st.orig, o);
    }
  }

  // --------------------------------------------------------------------- opening, closing

  ghost predicate FreshBases(space: map<Addr, Buffer>, c: IpcCall) {
    && (forall i :: 0 <= i < c.OpenedFrom(0) && i != c.self ==> c.Base(i) !in space)
    && (forall i, j :: 0 <= i < j < c.OpenedFrom(0) && i != c.self && j != c.self ==> c.Base(i) != c.Base(j))
  }

  ghost function BaseSet(self: nat, bases: seq<Addr>, k: nat): set<Addr>
    requires k <= |bases|
  {
    set i | 0 <= i < k && i != self :: bases[i]
  }

  lemma BaseSetGrows(self: nat, bases: seq<Addr>, k: nat)
    requires 0 < k <= |bases|
    ensures BaseSet(self, bases, k) ==
            BaseSet(self, bases, k - 1) + if k - 1 == self then {} else {bases[k - 1]}
  {
  }

  lemma {:induction false} CloseContents(space: map<Addr, Buffer>, self: nat, bases: seq<Addr>, k: nat)
    requires k <= |bases|
    ensures CloseUpTo(space, self, bases, k) == space - BaseSet(self, bases, k)
  {
    if k > 0 {
      CloseContents(space, self, bases, k - 1);
      BaseSetGrows(self, bases, k);
    }
  }

  lemma {:induction false} OpenKeys(space: map<Addr, Buffer>, c: IpcCall, k: nat)
    requires c.Fits() && k <= c.OpenedFrom(0)
    ensures OpenUpTo(space, c, k).Keys == space.Keys + BaseSet(c.self, c.Bases(), k)
  {
    if k > 0 {
      OpenKeys(space, c, k - 1);
      BaseSetGrows(c.self, c.Bases(), k);
    }
  }

  lemma {:induction false} OpenKeeps(space: map<Addr, Buffer>, c: IpcCall, k: nat, b: Addr)
    requires c.Fits() && k <= c.OpenedFrom(0) && FreshBases(space, c) && b in space
    ensures b in OpenUpTo(space, c, k) && OpenUpTo(space, c, k)[b] == space[b]
  {
    if k > 0 {
      OpenKeeps(space, c, k - 1, b);
      assert k - 1 != c.self ==> c.Base(k - 1) !in space;
    }
  }

  lemma {:induction false} OpenShows(space: map<Addr, Buffer>, c: IpcCall, k: nat, i: nat)
    requires c.Fits() && i < k <= c.OpenedFrom(0) && FreshBases(space, c) && i != c.self
    ensures c.Base(i) in OpenUpTo(space, c, k) && OpenUpTo(space, c, k)[c.Base(i)] == c.handles[c.peers[i]].buffer
  {
    if i < k - 1 {
      OpenShows(space, c, k - 1, i);
      assert k - 1 != c.self ==> c.Base(i) != c.Base(k - 1);
    }
  }

  /** Rollback closes what was opened and nothing else. */
  lemma OpenThenClose(space: map<Addr, Buffer>, c: IpcCall)
    requires c.Fits() && FreshBases(space, c)
    ensures CloseUpTo(OpenUpTo(space, c, c.OpenedFrom(0)), c.self, c.Bases(), c.OpenedFrom(0)) == space
  {
    var k := c.OpenedFrom(0);
    var all := OpenUpTo(space, c, k);
    var gone := BaseSet(c.self, c.Bases(), k);
    OpenKeys(space, c, k);
    CloseContents(all, c.self, c.Bases(), k);
    forall b: Addr | b in space ensures b in all && all[b] == space[b] {
      OpenKeeps(space, c, k, b);
    }
    forall b: Addr | b in gone ensures b !in space {
      var i :| 0 <= i < k && i != c.self && c.Bases()[i] == b;
      assert c.Base(i) !in space;
    }
    assert all - gone == space;
  }

  /** `now` is `space` and one mapping of each peer's buffer, but this PE's. */
  ghost predicate Mapped(space: map<Addr, Buffer>, c: IpcCall, now: map<Addr, Buffer>)
    requires c.Fits() && c.OpenOk()
  {
    && now.Keys == space.Keys + BaseSet(c.self, c.Bases(), |c.opens|)
    && (forall b: Addr :: b in space ==> b in now && now[b] == space[b])
    && (forall i :: 0 <= i < |c.opens| && i != c.self ==>
          c.Base(i) !in space && c.Base(i) in now && now[c.Base(i)] == c.handles[c.peers[i]].buffer)
  }

  lemma OpenMaps(space: map<Addr, Buffer>, c: IpcCall)
    requires c.Fits() && c.OpenOk() && FreshBases(space, c)
    ensures Mapped(space, c, OpenUpTo(space, c, |c.opens|))
  {
    OpenKeys(space, c, |c.opens|);
    forall b: Addr | b in space
      ensures b in OpenUpTo(space, c, |c.opens|) && OpenUpTo(space, c, |c.opens|)[b] == space[b]
    {
      OpenKeeps(space, c, |c.opens|, b);
    }
    forall i | 0 <= i < |c.opens| && i != c.self
      ensures c.Base(i) in OpenUpTo(space, c, |c.opens|)
      ensures OpenUpTo(space, c, |c.opens|)[c.Base(i)] == c.handles[c.peers[i]].buffer
    {
      OpenShows(space, c, |c.opens|, i);
    }
  }

  /** Handles and mappings are conserved by the IPC part: every failing path leaves the whole
      state as it was; success adds one export, one mapping per peer that is not this PE, one
      slot and one record. */
  lemma RegisterIpcOutcome(capacity: nat, st: Pe, c: IpcCall)
    requires c.Fits() && FreshBases(st.space, c)
    ensures RegisterIpc(capacity, st, c).0 <==> c.allExported && c.allOpened && |st.table| < capacity
    ensures !RegisterIpc(capacity, st, c).0 ==> RegisterIpc(capacity, st, c).1 == st
    ensures RegisterIpc(capacity, st, c).0 ==>
              var now := RegisterIpc(capacity, st, c).1;
              && now.symm == st.symm && now.orig == st.orig
              && now.exported == st.exported + multiset{c.Own()}
              && Mapped(st.space, c, now.space)
              && now.table == st.table + [Region(c.symmAddr, c.buffer.length, c.Bases())]
              && now.records == st.records[c.symmAddr := Record(|st.table|, |c.peers|, c.self, c.Bases(), c.Own())]
  {
    OpenThenClose(st.space, c);
    if c.fd.Some? {
      assert st.exported + multiset{c.Own()} - multiset{c.Own()} == st.exported;
    }
    if c.allOpened {
      OpenMaps(st.space, c);
    }
  }

  // ------------------------------------------------------------------ the host-side tests

  ghost function AliasSet(regs: seq<LocalReg>): set<Addr> {
    set s | 0 <= s < |regs| :: regs[s].alias
  }

  lemma {:induction false} AliasCount(regs: seq<LocalReg>)
    requires forall s, t :: 0 <= s < t < |regs| ==> regs[s].alias != regs[t].alias
    ensures |AliasSet(regs)| == |regs|
  {
    if regs == [] {
      assert AliasSet(regs) == {};
    } else {
      var k := |regs| - 1;
      AliasCount(regs[..k]);
      assert AliasSet(regs) == AliasSet(regs[..k]) + {regs[k].alias};
    }
  }

  lemma SymmCount(site: Site, regs: seq<LocalReg>, st: Pe)
    requires RecordsView(site, regs, st.records) && AliasView(regs, st.records, st.symm)
    ensures |st.symm| == |regs|
  {
    assert forall s, t :: 0 <= s < t < |regs| ==> regs[s].alias != regs[t].alias;
    AliasCount(regs);
    assert st.symm.Keys == AliasSet(regs);
  }

  lemma OrigSeparated(site: Site, regs: seq<LocalReg>, orig: Regions)
    requires RegsOk(site, regs) && OrigView(regs, orig)
    ensures Separated(orig)
  {
    forall a: Addr, b: Addr | a in orig && b in orig && a != b
      ensures Disjoint(a, orig[a], b, orig[b])
    {
      assert HasOrig(regs, a) && HasOrig(regs, b);
      var s :| 0 <= s < |regs| && regs[s].orig == a;
      var t :| 0 <= t < |regs| && regs[t].orig == b;
      assert Apart(regs[s], regs[t]);
    }
    forall a: Addr | a in orig ensures 0 < orig[a] && a + orig[a] < WORD {
      assert HasOrig(regs, a);
      var s :| 0 <= s < |regs| && regs[s].orig == a;
      assert RegOk(site, regs[s]);
    }
  }

  ghost predicate OrigFree(regs: seq<LocalReg>, base: nat, length: nat) {
    forall s :: 0 <= s < |regs| ==> Disjoint(regs[s].orig, regs[s].length, base, length)
  }

  lemma NeighbourTestMeans(site: Site, regs: seq<LocalReg>, orig: Regions, base: Addr, length: nat)
    requires RegsOk(site, regs) && OrigView(regs, orig) && 0 < length
    ensures NeighboursClear(orig, base, length) <==> OrigFree(regs, base, length)
  {
    OrigSeparated(site, regs, orig);
    TwoNeighboursSuffice(orig, base, length);
    if Overlaps(orig, base, length) {
      var a: Addr :| a in orig && !Disjoint(a, orig[a], base, length);
      assert HasOrig(regs, a);
      var s :| 0 <= s < |regs| && regs[s].orig == a;
      assert !Disjoint(regs[s].orig, regs[s].length, base, length);
    }
  }

  /** This PE can take part: nothing but what is live counts against the new range. */
  ghost predicate CanJoin(maxRegions: nat, regs: seq<LocalReg>, buffer: Buffer, valid: bool, alias: Option<Addr>) {
    && valid && alias.Some? && |regs| < maxRegions && buffer.base + buffer.length < WORD
    && OrigFree(regs, buffer.base, buffer.length)
  }

  ghost predicate ValidMeans(buffer: Buffer, valid: bool) {
    valid ==> buffer.base != 0 && 0 < buffer.length < WORD
  }

  lemma HostTestMeans(site: Site, maxRegions: nat, regs: seq<LocalReg>, st: Pe, buffer: Buffer, valid: bool,
                      alias: Option<Addr>)
    requires RegsOk(site, regs) && View(site, regs, st) && ValidMeans(buffer, valid)
    ensures HostRegister(maxRegions, st, buffer, valid, alias).Some?
       <==> CanJoin(maxRegions, regs, buffer, valid, alias)
  {
    SymmCount(site, regs, st);
    if valid {
      NeighbourTestMeans(site, regs, st.orig, buffer.base, buffer.length);
    }
  }

  /** What the driver grants when it maps an alias. */
  ghost predicate AliasFresh(site: Site, st: Pe, alias: Addr, length: nat) {
    && alias != 0 && alias + length < WORD && alias !in st.space
    && Disjoint(site.heapBase, site.heapSize, alias, length)
    && forall s :: 0 <= s < |st.table| ==> Disjoint(st.table[s].localBase, st.table[s].length, alias, length)
  }

  lemma Unused(site: Site, regs: seq<LocalReg>, st: Pe, alias: Addr, buffer: Buffer)
    requires RegsOk(site, regs) && View(site, regs, st)
    requires alias !in st.space && OrigFree(regs, buffer.base, buffer.length) && 0 < buffer.length
    ensures alias !in st.records && alias !in st.symm && buffer.base !in st.orig
  {
    AliasUnused(site, regs, st.space, alias);
    OrigUnused(site, regs, st.orig, buffer);
    forall a: Addr | a in st.records ensures a != alias {
      assert regs[st.records[a].slot].alias == a;
    }
  }

  lemma AliasUnused(site: Site, regs: seq<LocalReg>, space: map<Addr, Buffer>, alias: Addr)
    requires RegsOk(site, regs) && SpaceView(regs, space) && alias !in space
    ensures forall s :: 0 <= s < |regs| ==> regs[s].alias != alias
  {
    forall s | 0 <= s < |regs| ensures regs[s].alias != alias {
      assert RegOk(site, regs[s]) && Shows(regs[s], space);
      assert regs[s].bases[site.self] in space;
    }
  }

  lemma OrigUnused(site: Site, regs: seq<LocalReg>, orig: Regions, buffer: Buffer)
    requires RegsOk(site, regs) && OrigView(regs, orig)
    requires OrigFree(regs, buffer.base, buffer.length) && 0 < buffer.length
    ensures buffer.base !in orig
  {
    forall a: Addr | a in orig ensures a != buffer.base {
      assert HasOrig(regs, a);
      var s :| 0 <= s < |regs| && regs[s].orig == a;
      assert RegOk(site, regs[s]) && Disjoint(regs[s].orig, regs[s].length, buffer.base, buffer.length);
    }
  }

  /** Undoing the host part restores every map. */
  lemma HostUndo(maxRegions: nat, st: Pe, buffer: Buffer, alias: Addr)
    requires HostRegister(maxRegions, st, buffer, true, Some(alias)).Some?
    requires alias != 0 && alias !in st.symm && alias !in st.space && buffer.base !in st.orig
    ensures HostUnregister(HostRegister(maxRegions, st, buffer, true, Some(alias)).value, alias) == (true, st)
  {
    AddThenDrop(st.symm, alias, SymmRegion(buffer.length, buffer.base));
    AddThenDrop(st.orig, buffer.base, buffer.length);
    AddThenDrop(st.space, alias, buffer);
  }

  lemma AddThenDrop<K, V>(m: map<K, V>, k: K, v: V)
    requires k !in m
    ensures m[k := v] - {k} == m
  {
  }

  // ----------------------------------------------------------------- a whole registration

  /** What is assumed of the driver during one call on this PE. */
  ghost predicate DriverOk(site: Site, st: Pe, c: RegisterCall) {
    && c.ipc.self == site.self && |c.ipc.peers| == site.numPeers
    && ValidMeans(c.ipc.buffer, c.valid)
    && (c.alias.Some? ==>
          && AliasFresh(site, st, c.alias.value, c.ipc.buffer.length)
          && FreshBases(st.space[c.alias.value := c.ipc.buffer], c.ipc))
  }

  ghost predicate Joined(maxRegions: nat, regs: seq<LocalReg>, c: RegisterCall) {
    && c.lengthsMatch && c.allHost && CanJoin(maxRegions, regs, c.ipc.buffer, c.valid, c.alias)
    && c.ipc.allExported && c.ipc.allOpened && |regs| < TableCapacity(maxRegions)
  }

  /** A call succeeds exactly when `Joined`, and a failing call changes nothing at all. */
  lemma RegisterOutcome(site: Site, maxRegions: nat, regs: seq<LocalReg>, st: Pe, c: RegisterCall)
    requires RegsOk(site, regs) && View(site, regs, st)
    requires RegisterFits(maxRegions, st, c) && DriverOk(site, st, c)
    ensures RegisterPe(maxRegions, st, c).0 <==> Joined(maxRegions, regs, c)
    ensures !RegisterPe(maxRegions, st, c).0 ==> RegisterPe(maxRegions, st, c).1 == st
  {
    HostTestMeans(site, maxRegions, regs, st, c.ipc.buffer, c.valid, c.alias);
    var host := HostRegister(maxRegions, st, c.ipc.buffer, c.valid, c.alias);
    if host.Some? {
      Unused(site, regs, st, c.alias.value, c.ipc.buffer);
      HostUndo(maxRegions, st, c.ipc.buffer, c.alias.value);
      RegisterIpcOutcome(TableCapacity(maxRegions), host.value, c.ipc);
    }
  }

  /** The registration that a successful call leaves behind. */
  ghost function NewReg(k: IpcCall): LocalReg
    requires k.Fits() && k.fd.Some?
  {
    LocalReg(k.symmAddr, k.buffer.length, k.buffer.base, k.Bases(),
             seq(|k.peers|, i requires 0 <= i < |k.peers| =>
               if i == k.self then k.buffer else k.handles[k.peers[i]].buffer),
             k.Own())
  }

  /** Every opened base leaves room for the registered length. */
  ghost predicate NoWrap(c: IpcCall) {
    forall i :: 0 <= i < c.OpenedFrom(0) && i != c.self ==> c.Base(i) + c.buffer.length < WORD
  }

  lemma NewRegOk(site: Site, st: Pe, c: RegisterCall)
    requires c.ipc.Fits() && c.ipc.OpenOk() && c.ipc.fd.Some? && DriverOk(site, st, c) && NoWrap(c.ipc)
    requires c.valid && c.alias == Some(c.ipc.symmAddr) && c.ipc.buffer.base + c.ipc.buffer.length < WORD
    ensures RegOk(site, NewReg(c.ipc))
  {
    var r := NewReg(c.ipc);
    var k := c.ipc;
    forall i, j | 0 <= i < j < |r.bases| ensures r.bases[i] != r.bases[j] {
      var space := st.space[c.alias.value := k.buffer];
      assert i != k.self ==> k.Base(i) !in space;
      assert j != k.self ==> k.Base(j) !in space;
    }
    forall i | 0 <= i < |r.bases| ensures r.bases[i] + r.length < WORD {
      assert r.bases[i] == k.Base(i);
    }
  }

  lemma NewRegApart(site: Site, maxRegions: nat, regs: seq<LocalReg>, st: Pe, c: RegisterCall, s: nat)
    requires c.ipc.Fits() && c.ipc.OpenOk() && c.ipc.fd.Some? && DriverOk(site, st, c)
    requires CanJoin(maxRegions, regs, c.ipc.buffer, c.valid, c.alias) && c.alias == Some(c.ipc.symmAddr)
    requires s < |regs| && TableView(regs, st.table) && SpaceView(regs, st.space)
    ensures Apart(regs[s], NewReg(c.ipc)) && Apart(NewReg(c.ipc), regs[s])
  {
    var r := NewReg(c.ipc);
    var k := c.ipc;
    assert st.table[s].localBase == regs[s].alias;
    assert Shows(regs[s], st.space);
    forall b: Addr | b in r.bases ensures b !in st.space {
      var i :| 0 <= i < |r.bases| && r.bases[i] == b;
      assert r.bases[i] == k.Base(i);
      assert i != k.self ==> k.Base(i) !in st.space[c.alias.value := k.buffer];
    }
  }

  lemma RegsOkExtends(site: Site, regs: seq<LocalReg>, r: LocalReg)
    requires RegsOk(site, regs) && RegOk(site, r)
    requires forall s :: 0 <= s < |regs| ==> Apart(regs[s], r) && Apart(r, regs[s])
    ensures RegsOk(site, regs + [r])
  {
    var all := regs + [r];
    forall s, t | 0 <= s < |all| && 0 <= t < |all| && s != t ensures Apart(all[s], all[t]) {
      if s == |regs| {
        assert all[t] == regs[t];
      } else if t == |regs| {
        assert all[s] == regs[s];
      } else {
        assert all[s] == regs[s] && all[t] == regs[t];
      }
    }
  }

  /** The registrations stay consistent when a successful call adds one. */
  lemma RegisterKeepsOk(site: Site, maxRegions: nat, regs: seq<LocalReg>, st: Pe, c: RegisterCall)
    requires RegsOk(site, regs) && View(site, regs, st) && RegisterFits(maxRegions, st, c) && DriverOk(site, st, c)
    requires Joined(maxRegions, regs, c) && NoWrap(c.ipc)
    ensures RegsOk(site, regs + [NewReg(c.ipc)])
  {
    NewRegOk(site, st, c);
    forall s | 0 <= s < |regs| ensures Apart(regs[s], NewReg(c.ipc)) && Apart(NewReg(c.ipc), regs[s]) {
      NewRegApart(site, maxRegions, regs, st, c, s);
    }
    RegsOkExtends(site, regs, NewReg(c.ipc));
  }

  lemma RecordsExtend(site: Site, regs: seq<LocalReg>, records: map<Addr, Record>, symm: map<Addr, SymmRegion>,
                      r: LocalReg)
    requires RecordsView(site, regs, records) && AliasView(regs, records, symm) && r.alias !in records
    ensures RecordsView(site, regs + [r], records[r.alias := RecordOf(site, r, |regs|)])
    ensures AliasView(regs + [r], records[r.alias := RecordOf(site, r, |regs|)],
                     symm[r.alias := SymmRegion(r.length, r.orig)])
  {
    var all := regs + [r];
    assert all[|regs|] == r && forall s :: 0 <= s < |regs| ==> all[s] == regs[s];
  }

  lemma OrigExtends(regs: seq<LocalReg>, orig: Regions, r: LocalReg)
    requires OrigView(regs, orig) && r.orig !in orig
    ensures OrigView(regs + [r], orig[r.orig := r.length])
  {
    var all := regs + [r];
    var orig' := orig[r.orig := r.length];
    assert all[|regs|] == r && forall s :: 0 <= s < |regs| ==> all[s] == regs[s];
    forall a: Addr | a in orig' ensures HasOrig(all, a) {
      if a != r.orig {
        assert HasOrig(regs, a);
        var s :| 0 <= s < |regs| && regs[s].orig == a;
        assert all[s].orig == a;
      }
    }
  }

  lemma SpaceExtends(regs: seq<LocalReg>, space: map<Addr, Buffer>, r: LocalReg, space': map<Addr, Buffer>)
    requires SpaceView(regs, space) && Shows(r, space')
    requires forall b: Addr :: b in space ==> b in space' && space'[b] == space[b]
    requires forall b: Addr :: b in space' ==> b in space || b in r.bases
    ensures SpaceView(regs + [r], space')
  {
    var all := regs + [r];
    assert all[|regs|] == r && forall s :: 0 <= s < |regs| ==> all[s] == regs[s];
    forall s | 0 <= s < |all| ensures Shows(all[s], space') {
      if s < |regs| {
        assert Shows(regs[s], space);
      }
    }
    forall b: Addr | b in space' ensures HasBase(all, b) {
      if b in space {
        assert HasBase(regs, b);
        var s :| 0 <= s < |regs| && b in regs[s].bases;
        assert b in all[s].bases;
      } else {
        assert b in all[|regs|].bases;
      }
    }
  }

  /** The mappings after a successful call show the new registration and keep the others. */
  lemma OpenedShows(space: map<Addr, Buffer>, c: RegisterCall)
    requires c.ipc.Fits() && c.ipc.OpenOk() && c.ipc.fd.Some? && c.ipc.symmAddr !in space
    requires FreshBases(space[c.ipc.symmAddr := c.ipc.buffer], c.ipc)
    ensures var space' := OpenUpTo(space[c.ipc.symmAddr := c.ipc.buffer], c.ipc, |c.ipc.opens|);
            && Shows(NewReg(c.ipc), space')
            && (forall b: Addr :: b in space ==> b in space' && space'[b] == space[b])
            && (forall b: Addr :: b in space' ==> b in space || b in NewReg(c.ipc).bases)
  {
    var k := c.ipc;
    var n := |k.opens|;
    var start := space[k.symmAddr := k.buffer];
    var space' := OpenUpTo(start, k, n);
    var r := NewReg(c.ipc);
    OpenKeys(start, k, n);
    forall b: Addr | b in start ensures b in space' && space'[b] == start[b] {
      OpenKeeps(start, k, n, b);
    }
    forall i | 0 <= i < |r.bases| ensures r.bases[i] in space' && space'[r.bases[i]] == r.shown[i] {
      if i != k.self {
        OpenShows(start, k, n, i);
      } else {
        assert k.symmAddr in start;
      }
    }
    forall b: Addr | b in space' ensures b in space || b in r.bases {
      if b == k.symmAddr {
        assert r.bases[k.self] == b;
      } else if b !in space {
        var i :| 0 <= i < n && i != k.self && k.Bases()[i] == b;
        assert r.bases[i] == b;
      }
    }
  }

  /** The state after a successful call, written out. */
  lemma RegisterResult(maxRegions: nat, st: Pe, c: RegisterCall)
    requires RegisterFits(maxRegions, st, c) && c.lengthsMatch && c.allHost && c.ipc.allExported && c.ipc.allOpened
    requires |st.table| < TableCapacity(maxRegions)
    ensures var r := NewReg(c.ipc);
            RegisterPe(maxRegions, st, c) == (true, Pe(
              st.symm[r.alias := SymmRegion(r.length, r.orig)],
              st.orig[r.orig := r.length],
              st.table + [Region(r.alias, r.length, r.bases)],
              st.records[r.alias := Record(|st.table|, |c.ipc.peers|, c.ipc.self, r.bases, r.handle)],
              OpenUpTo(st.space[r.alias := c.ipc.buffer], c.ipc, |c.ipc.opens|),
              st.exported + multiset{r.handle}))
  {
  }

  lemma TableExtends(regs: seq<LocalReg>, table: seq<Region>, r: LocalReg)
    requires TableView(regs, table)
    ensures TableView(regs + [r], table + [Region(r.alias, r.length, r.bases)])
  {
  }

  /** The state reached stores `regs` and the new registration. */
  lemma RegisterKeepsView(site: Site, maxRegions: nat, regs: seq<LocalReg>, st: Pe, c: RegisterCall)
    requires RegsOk(site, regs) && View(site, regs, st) && RegisterFits(maxRegions, st, c) && DriverOk(site, st, c)
    requires Joined(maxRegions, regs, c)
    ensures View(site, regs + [NewReg(c.ipc)], RegisterPe(maxRegions, st, c).1)
  {
    Unused(site, regs, st, c.alias.value, c.ipc.buffer);
    RegisterResult(maxRegions, st, c);
    ViewExtends(site, regs, st, c);
  }

  lemma ViewExtends(site: Site, regs: seq<LocalReg>, st: Pe, c: RegisterCall)
    requires View(site, regs, st) && DriverOk(site, st, c)
    requires c.ipc.Fits() && c.ipc.OpenOk() && c.ipc.fd.Some? && c.alias == Some(c.ipc.symmAddr)
    requires c.ipc.symmAddr !in st.records && c.ipc.buffer.base !in st.orig
    ensures var r := NewReg(c.ipc);
            View(site, regs + [r], Pe(
              st.symm[r.alias := SymmRegion(r.length, r.orig)],
              st.orig[r.orig := r.length],
              st.table + [Region(r.alias, r.length, r.bases)],
              st.records[r.alias := Record(|st.table|, |c.ipc.peers|, c.ipc.self, r.bases, r.handle)],
              OpenUpTo(st.space[r.alias := c.ipc.buffer], c.ipc, |c.ipc.opens|),
              st.exported + multiset{r.handle}))
  {
    var r := NewReg(c.ipc);
    TableExtends(regs, st.table, r);
    SpaceAfterOpen(regs, st.space, c);
    OrigExtends(regs, st.orig, r);
    RecordsExtend(site, regs, st.records, st.symm, r);
    HandlesExtend(regs, r);
  }

  lemma SpaceAfterOpen(regs: seq<LocalReg>, space: map<Addr, Buffer>, c: RegisterCall)
    requires SpaceView(regs, space)
    requires c.ipc.Fits() && c.ipc.OpenOk() && c.ipc.fd.Some? && c.ipc.symmAddr !in space
    requires FreshBases(space[c.ipc.symmAddr := c.ipc.buffer], c.ipc)
    ensures SpaceView(regs + [NewReg(c.ipc)], OpenUpTo(space[c.ipc.symmAddr := c.ipc.buffer], c.ipc, |c.ipc.opens|))
  {
    OpenedShows(space, c);
    SpaceExtends(regs, space, NewReg(c.ipc), OpenUpTo(space[c.ipc.symmAddr := c.ipc.buffer], c.ipc, |c.ipc.opens|));
  }

  lemma HandlesExtend(regs: seq<LocalReg>, r: LocalReg)
    ensures multiset(HandlesOf(regs + [r])) == multiset(HandlesOf(regs)) + multiset{r.handle}
  {
    assert HandlesOf(regs + [r]) == HandlesOf(regs) + [r.handle];
  }

  // --------------------------------------------------------------- a whole unregistration

  /** Where the entry at slot `t` ends up when slot `s` is dropped. */
  function Moved(n: nat, s: nat, t: nat): (u: nat)
    requires s < n && t < n && s != t
    ensures u < n - 1
  {
    if t == n - 1 then s else t
  }

  lemma SwapRemoveMultiset<T>(xs: seq<T>, s: nat)
    requires s < |xs|
    ensures multiset(SwapRemove(xs, s)) == multiset(xs) - multiset{xs[s]}
  {
    var last := |xs| - 1;
    assert xs == xs[..last] + [xs[last]];
    assert s < last ==>
        multiset(xs[..last][s := xs[last]]) == multiset(xs[..last]) - multiset{xs[s]} + multiset{xs[last]};
  }

  lemma SwapRemoveOk(site: Site, regs: seq<LocalReg>, s: nat)
    requires RegsOk(site, regs) && s < |regs|
    ensures RegsOk(site, SwapRemove(regs, s))
  {
  }

  lemma RecordsDropLast(site: Site, regs: seq<LocalReg>, records: map<Addr, Record>)
    requires regs != [] && RecordsView(site, regs, records)
    ensures RecordsView(site, SwapRemove(regs, |regs| - 1), records - {regs[|regs| - 1].alias})
  {
  }

  lemma RecordsSwap(site: Site, regs: seq<LocalReg>, s: nat, records: map<Addr, Record>)
    requires s < |regs| - 1 && RecordsView(site, regs, records)
    ensures RecordsView(site, SwapRemove(regs, s), Relabel(records, |regs| - 1, s) - {regs[s].alias})
  {
    var last := |regs| - 1;
    var left := Relabel(records, last, s) - {regs[s].alias};
    var regs' := SwapRemove(regs, s);
    forall t | 0 <= t < |regs'| ensures regs'[t].alias in left && left[regs'[t].alias].slot == t {
      var u := if t == s then last else t;
      assert regs'[t] == regs[u];
    }
    forall b: Addr | b in left
      ensures left[b].slot < |regs'| && regs'[left[b].slot].alias == b
      ensures left[b] == RecordOf(site, regs'[left[b].slot], left[b].slot)
    {
      assert b in records && records[b].slot != s;
    }
  }

  ghost function RecordsWithout(regs: seq<LocalReg>, s: nat, records: map<Addr, Record>): map<Addr, Record>
    requires s < |regs|
  {
    (if s == |regs| - 1 then records else Relabel(records, |regs| - 1, s)) - {regs[s].alias}
  }

  lemma RecordsShrink(site: Site, regs: seq<LocalReg>, s: nat, records: map<Addr, Record>)
    requires s < |regs| && RecordsView(site, regs, records)
    ensures RecordsView(site, SwapRemove(regs, s), RecordsWithout(regs, s, records))
  {
    if s == |regs| - 1 {
      RecordsDropLast(site, regs, records);
    } else {
      RecordsSwap(site, regs, s, records);
    }
  }

  lemma SymmShrinks(site: Site, regs: seq<LocalReg>, s: nat, records: map<Addr, Record>, symm: map<Addr, SymmRegion>)
    requires s < |regs| && RecordsView(site, regs, records) && AliasView(regs, records, symm)
    ensures AliasView(SwapRemove(regs, s), RecordsWithout(regs, s, records), symm - {regs[s].alias})
  {
    var regs' := SwapRemove(regs, s);
    var symm' := symm - {regs[s].alias};
    forall t | 0 <= t < |regs'|
      ensures regs'[t].alias in symm' && symm'[regs'[t].alias] == SymmRegion(regs'[t].length, regs'[t].orig)
    {
      var u := if t == s then |regs| - 1 else t;
      assert regs'[t] == regs[u] && records[regs[u].alias].slot != records[regs[s].alias].slot;
    }
  }

  lemma OrigShrinks(site: Site, regs: seq<LocalReg>, s: nat, orig: Regions)
    requires s < |regs| && RegsOk(site, regs) && OrigView(regs, orig)
    ensures OrigView(SwapRemove(regs, s), orig - {regs[s].orig})
  {
    var regs' := SwapRemove(regs, s);
    forall t | 0 <= t < |regs'|
      ensures regs'[t].orig in orig && regs'[t].orig != regs[s].orig && orig[regs'[t].orig] == regs'[t].length
    {
      var u := if t == s then |regs| - 1 else t;
      assert regs'[t] == regs[u] && Apart(regs[u], regs[s]) && RegOk(site, regs[u]) && RegOk(site, regs[s]);
    }
    forall a: Addr | a in orig && a != regs[s].orig ensures HasOrig(regs', a) {
      assert HasOrig(regs, a);
      var t :| 0 <= t < |regs| && regs[t].orig == a;
      assert regs'[Moved(|regs|, s, t)] == regs[t];
    }
  }

  lemma ShowsWithout(r: LocalReg, space: map<Addr, Buffer>, gone: set<Addr>)
    requires Shows(r, space) && forall b: Addr :: b in r.bases ==> b !in gone
    ensures Shows(r, space - gone)
  {
  }

  lemma SpaceShrinks(regs: seq<LocalReg>, s: nat, space: map<Addr, Buffer>, gone: set<Addr>)
    requires s < |regs| && SpaceView(regs, space)
    requires forall b: Addr :: b in gone <==> b in regs[s].bases
    requires forall t :: 0 <= t < |regs| && t != s ==> Apart(regs[t], regs[s])
    ensures SpaceView(SwapRemove(regs, s), space - gone)
  {
    var regs' := SwapRemove(regs, s);
    forall t | 0 <= t < |regs'| ensures Shows(regs'[t], space - gone) {
      var u := if t == s then |regs| - 1 else t;
      assert regs'[t] == regs[u] && Apart(regs[u], regs[s]) && Shows(regs[u], space);
      ShowsWithout(regs[u], space, gone);
    }
    forall b: Addr | b in space - gone ensures HasBase(regs', b) {
      assert HasBase(regs, b);
      var t :| 0 <= t < |regs| && b in regs[t].bases;
      assert regs'[Moved(|regs|, s, t)] == regs[t];
    }
  }

  lemma RecordsFit(site: Site, regs: seq<LocalReg>, records: map<Addr, Record>)
    requires RegsOk(site, regs) && RecordsView(site, regs, records)
    ensures SlotsFit(records, |regs|)
  {
    forall a: Addr | a in records
      ensures records[a].slot < |regs| && records[a].numPeers == |records[a].peerBases|
    {
      assert RegOk(site, regs[records[a].slot]);
    }
    forall a: Addr, b: Addr | a in records && b in records && a != b
      ensures records[a].slot != records[b].slot
    {
      assert regs[records[a].slot].alias == a && regs[records[b].slot].alias == b;
    }
  }

  lemma ViewSlotsMatch(site: Site, regs: seq<LocalReg>, st: Pe)
    requires RegsOk(site, regs) && View(site, regs, st)
    ensures SlotsMatch(st)
  {
    RecordsFit(site, regs, st.records);
  }

  ghost function Without(site: Site, regs: seq<LocalReg>, st: Pe, s: nat): Pe
    requires s < |regs| == |st.table|
  {
    var r := regs[s];
    Pe(st.symm - {r.alias},
       st.orig - {r.orig},
       SwapRemove(st.table, s),
       RecordsWithout(regs, s, st.records),
       st.space - (BaseSet(site.self, r.bases, |r.bases|) + {r.alias}),
       st.exported - multiset{r.handle})
  }

  /** The state after a successful unregistration, written out. */
  lemma UnregisterResult(site: Site, regs: seq<LocalReg>, st: Pe, s: nat)
    requires SlotsMatch(st) && s < |regs| == |st.table| && RegOk(site, regs[s])
    requires regs[s].alias in st.records && st.records[regs[s].alias] == RecordOf(site, regs[s], s)
    requires regs[s].alias in st.symm && st.symm[regs[s].alias] == SymmRegion(regs[s].length, regs[s].orig)
    ensures UnregisterPe(st, regs[s].alias) == (true, Without(site, regs, st, s))
  {
    var r := regs[s];
    CloseContents(st.space, site.self, r.bases, |r.bases|);
    assert st.space - BaseSet(site.self, r.bases, |r.bases|) - {r.alias} ==
           st.space - (BaseSet(site.self, r.bases, |r.bases|) + {r.alias});
  }

  lemma TableShrinks(regs: seq<LocalReg>, s: nat, table: seq<Region>)
    requires s < |regs| && TableView(regs, table)
    ensures TableView(SwapRemove(regs, s), SwapRemove(table, s))
  {
  }

  lemma HandlesShrink(regs: seq<LocalReg>, s: nat)
    requires s < |regs|
    ensures multiset(HandlesOf(SwapRemove(regs, s))) == multiset(HandlesOf(regs)) - multiset{regs[s].handle}
  {
    assert HandlesOf(SwapRemove(regs, s)) == SwapRemove(HandlesOf(regs), s);
    SwapRemoveMultiset(HandlesOf(regs), s);
  }

  lemma WithoutKeys(site: Site, regs: seq<LocalReg>, st: Pe, s: nat)
    requires s < |regs| && RecordsView(site, regs, st.records) && AliasView(regs, st.records, st.symm)
    ensures RecordsView(site, SwapRemove(regs, s), RecordsWithout(regs, s, st.records))
    ensures AliasView(SwapRemove(regs, s), RecordsWithout(regs, s, st.records), st.symm - {regs[s].alias})
  {
    RecordsShrink(site, regs, s, st.records);
    SymmShrinks(site, regs, s, st.records, st.symm);
  }

  lemma WithoutSpace(site: Site, regs: seq<LocalReg>, space: map<Addr, Buffer>, s: nat)
    requires s < |regs| && RegsOk(site, regs) && SpaceView(regs, space)
    ensures SpaceView(SwapRemove(regs, s),
                      space - (BaseSet(site.self, regs[s].bases, |regs[s].bases|) + {regs[s].alias}))
  {
    assert RegOk(site, regs[s]);
    AllBases(site, regs[s]);
    SpaceShrinks(regs, s, space, BaseSet(site.self, regs[s].bases, |regs[s].bases|) + {regs[s].alias});
  }

  lemma WithoutView(site: Site, regs: seq<LocalReg>, st: Pe, s: nat)
    requires RegsOk(site, regs) && View(site, regs, st) && s < |regs|
    ensures View(site, SwapRemove(regs, s), Without(site, regs, st, s))
  {
    WithoutKeys(site, regs, st, s);
    OrigShrinks(site, regs, s, st.orig);
    WithoutSpace(site, regs, st.space, s);
    TableShrinks(regs, s, st.table);
    HandlesShrink(regs, s);
  }

  /** Unregistering the registration in slot `s` succeeds and removes it and nothing else. */
  lemma UnregisterKeepsView(site: Site, regs: seq<LocalReg>, st: Pe, s: nat)
    requires RegsOk(site, regs) && View(site, regs, st) && SlotsMatch(st) && s < |regs|
    ensures UnregisterPe(st, regs[s].alias).0
    ensures View(site, SwapRemove(regs, s), UnregisterPe(st, regs[s].alias).1)
  {
    assert RegOk(site, regs[s]);
    UnregisterResult(site, regs, st, s);
    WithoutView(site, regs, st, s);
  }

  lemma AllBases(site: Site, r: LocalReg)
    requires RegOk(site, r)
    ensures forall b: Addr :: b in BaseSet(site.self, r.bases, |r.bases|) + {r.alias} <==> b in r.bases
  {
    forall b: Addr | b in r.bases ensures b in BaseSet(site.self, r.bases, |r.bases|) + {r.alias} {
      var i :| 0 <= i < |r.bases| && r.bases[i] == b;
    }
  }

  /** Unregistering the registration just made restores the state exactly. */
  lemma RegisterThenUnregister(site: Site, maxRegions: nat, regs: seq<LocalReg>, st: Pe, c: RegisterCall)
    requires RegsOk(site, regs) && View(site, regs, st) && RegisterFits(maxRegions, st, c) && DriverOk(site, st, c)
    requires Joined(maxRegions, regs, c) && NoWrap(c.ipc)
    ensures var st' := RegisterPe(maxRegions, st, c).1;
            SlotsMatch(st') && UnregisterPe(st', c.ipc.symmAddr) == (true, st)
  {
    var r := NewReg(c.ipc);
    var all := regs + [r];
    var s := |regs|;
    var st' := RegisterPe(maxRegions, st, c).1;
    assert View(site, all, st') by { RegisterKeepsView(site, maxRegions, regs, st, c); }
    assert RegsOk(site, all) by { RegisterKeepsOk(site, maxRegions, regs, st, c); }
    ViewSlotsMatch(site, all, st');
    assert all[s] == r && RegOk(site, r);
    UnregisterResult(site, all, st', s);
    Unused(site, regs, st, c.alias.value, c.ipc.buffer);
    RegisterResult(maxRegions, st, c);
    WithoutNew(site, regs, st, c);
  }

  lemma AddRemove<V>(m: map<Addr, V>, a: Addr, v: V)
    requires a !in m
    ensures m[a := v] - {a} == m
  {
  }

  lemma OpenedRemoved(st: Pe, k: IpcCall)
    requires k.Fits() && k.OpenOk() && k.symmAddr !in st.space
    requires FreshBases(st.space[k.symmAddr := k.buffer], k)
    ensures OpenUpTo(st.space[k.symmAddr := k.buffer], k, |k.opens|)
            - (BaseSet(k.self, k.Bases(), |k.opens|) + {k.symmAddr}) == st.space
  {
    var start := st.space[k.symmAddr := k.buffer];
    var space' := OpenUpTo(start, k, |k.opens|);
    OpenThenClose(start, k);
    CloseContents(space', k.self, k.Bases(), |k.opens|);
    AddRemove(st.space, k.symmAddr, k.buffer);
    assert space' - (BaseSet(k.self, k.Bases(), |k.opens|) + {k.symmAddr}) ==
           space' - BaseSet(k.self, k.Bases(), |k.opens|) - {k.symmAddr};
  }

  lemma WithoutNew(site: Site, regs: seq<LocalReg>, st: Pe, c: RegisterCall)
    requires c.ipc.Fits() && c.ipc.OpenOk() && c.ipc.fd.Some? && c.ipc.self == site.self && |regs| == |st.table|
    requires c.ipc.symmAddr !in st.space && FreshBases(st.space[c.ipc.symmAddr := c.ipc.buffer], c.ipc)
    requires c.ipc.symmAddr !in st.symm && c.ipc.symmAddr !in st.records && c.ipc.buffer.base !in st.orig
    ensures var r := NewReg(c.ipc);
            var record := Record(|st.table|, |c.ipc.peers|, c.ipc.self, r.bases, r.handle);
            Without(site, regs + [r], Pe(
              st.symm[r.alias := SymmRegion(r.length, r.orig)],
              st.orig[r.orig := r.length],
              st.table + [Region(r.alias, r.length, r.bases)],
              st.records[r.alias := record],
              OpenUpTo(st.space[r.alias := c.ipc.buffer], c.ipc, |c.ipc.opens|),
              st.exported + multiset{r.handle}), |regs|) == st
  {
    var r := NewReg(c.ipc);
    AddRemove(st.symm, r.alias, SymmRegion(r.length, r.orig));
    AddRemove(st.records, r.alias, Record(|st.table|, |c.ipc.peers|, c.ipc.self, r.bases, r.handle));
    AddRemove(st.orig, r.orig, r.length);
    OpenedRemoved(st, c.ipc);
    assert st.exported + multiset{r.handle} - multiset{r.handle} == st.exported;
    assert SwapRemove(st.table + [Region(r.alias, r.length, r.bases)], |regs|) == st.table;
  }

  // ------------------------------------------------------------------------- translation

  ghost predicate Within(r: LocalReg, addr: nat) {
    r.alias <= addr < r.alias + r.length
  }

  ghost predicate InHeap(site: Site, addr: nat) {
    site.heapBase <= addr < site.heapBase + site.heapSize
  }

  lemma {:induction false} LookupMisses(table: seq<Region>, regs: seq<LocalReg>, site: Site, addr: Addr, peer: nat,
                                        i: nat)
    requires RegsOk(site, regs) && TableView(regs, table) && peer < site.numPeers && i <= |table|
    requires forall s :: i <= s < |regs| ==> !Within(regs[s], addr)
    ensures Lookup(table, addr, peer, i) == None
    decreases |table| - i
  {
    if i < |table| {
      assert RegOk(site, regs[i]) && !Within(regs[i], addr);
      LookupMisses(table, regs, site, addr, peer, i + 1);
    }
  }

  lemma {:induction false} LookupHits(table: seq<Region>, regs: seq<LocalReg>, site: Site, addr: Addr, peer: nat,
                                      i: nat, s: nat)
    requires RegsOk(site, regs) && TableView(regs, table) && peer < site.numPeers && i <= s < |regs|
    requires Within(regs[s], addr)
    ensures Lookup(table, addr, peer, i) == Some(Pick(regs[s].bases, peer) + (addr - regs[s].alias))
    decreases s - i
  {
    assert RegOk(site, regs[s]) && RegOk(site, regs[i]);
    if i < s {
      assert Apart(regs[i], regs[s]);
      LookupHits(table, regs, site, addr, peer, i + 1, s);
    }
  }

  lemma HeapTestMeans(site: Site, addr: Addr)
    requires site.heapBase + site.heapSize <= WORD
    ensures Sub(addr, site.heapBase) < site.heapSize <==> InHeap(site, addr)
    ensures InHeap(site, addr) ==> Sub(addr, site.heapBase) == addr - site.heapBase
  {
  }

  ghost function Translated(site: Site, st: Pe, ipcBases: seq<Addr>, addr: Addr, peer: nat): Option<Addr>
  {
    PeerPtr(site.heapBase, site.heapSize, ipcBases, st.table, addr, peer)
  }

  /** An address of live registration `s` goes to the same offset of the peer's mapping. */
  lemma TranslatesRegion(site: Site, regs: seq<LocalReg>, st: Pe, ipcBases: seq<Addr>, addr: Addr, peer: nat, s: nat)
    requires RegsOk(site, regs) && TableView(regs, st.table) && peer < site.numPeers == |ipcBases|
    requires site.heapBase + site.heapSize <= WORD && s < |regs| && Within(regs[s], addr)
    ensures Translated(site, st, ipcBases, addr, peer) == Some(Pick(regs[s].bases, peer) + (addr - regs[s].alias))
  {
    assert RegOk(site, regs[s]);
    HeapTestMeans(site, addr);
    LookupHits(st.table, regs, site, addr, peer, 0, s);
  }

  /** An address of neither the heap nor a live registration goes to null. */
  lemma TranslatesNothingElse(site: Site, regs: seq<LocalReg>, st: Pe, ipcBases: seq<Addr>, addr: Addr, peer: nat)
    requires RegsOk(site, regs) && TableView(regs, st.table) && peer < site.numPeers == |ipcBases|
    requires site.heapBase + site.heapSize <= WORD && !InHeap(site, addr)
    requires forall s :: 0 <= s < |regs| ==> !Within(regs[s], addr)
    ensures Translated(site, st, ipcBases, addr, peer) == None
  {
    HeapTestMeans(site, addr);
    LookupMisses(st.table, regs, site, addr, peer, 0);
  }

  /** Byte `offset` of registration `s` goes to byte `offset` of the mapping of the buffer
      that peer `peer` shows. */
  lemma TranslatesOffset(site: Site, regs: seq<LocalReg>, st: Pe, ipcBases: seq<Addr>, s: nat, offset: nat, peer: nat)
    requires RegsOk(site, regs) && TableView(regs, st.table) && SpaceView(regs, st.space)
    requires peer < site.numPeers == |ipcBases| && site.heapBase + site.heapSize <= WORD
    requires s < |regs| && offset < regs[s].length
    ensures regs[s].alias + offset < WORD && |regs[s].bases| == |regs[s].shown| == site.numPeers
    ensures Translated(site, st, ipcBases, regs[s].alias + offset, peer) == Some(regs[s].bases[peer] + offset)
    ensures regs[s].bases[peer] in st.space && st.space[regs[s].bases[peer]] == regs[s].shown[peer]
  {
    assert RegOk(site, regs[s]) && Shows(regs[s], st.space);
    TranslatesRegion(site, regs, st, ipcBases, regs[s].alias + offset, peer, s);
  }

  /** An address translates to something exactly when the heap or a registration holds it. */
  lemma TranslatesExactly(site: Site, regs: seq<LocalReg>, st: Pe, ipcBases: seq<Addr>, addr: Addr, peer: nat)
    requires RegsOk(site, regs) && TableView(regs, st.table) && peer < site.numPeers == |ipcBases|
    requires site.heapBase + site.heapSize <= WORD
    ensures Translated(site, st, ipcBases, addr, peer).None? <==>
            !InHeap(site, addr) && forall s :: 0 <= s < |regs| ==> !Within(regs[s], addr)
  {
    HeapTestMeans(site, addr);
    if s :| 0 <= s < |regs| && Within(regs[s], addr) {
      TranslatesRegion(site, regs, st, ipcBases, addr, peer, s);
    } else if !InHeap(site, addr) {
      TranslatesNothingElse(site, regs, st, ipcBases, addr, peer);
    }
  }

  lemma SlotHolds(site: Site, regs: seq<LocalReg>, st: Pe, s: nat)
    requires TableView(regs, st.table) && RecordsView(site, regs, st.records) && s < |regs|
    ensures |st.table| == |regs| && st.table[s] == Region(regs[s].alias, regs[s].length, regs[s].bases)
    ensures regs[s].alias in st.records && st.records[regs[s].alias] == RecordOf(site, regs[s], s)
  {
  }

  /** Translation does not depend on which slot holds which registration. */
  lemma SlotOrderIrrelevant(site: Site, regs: seq<LocalReg>, regs': seq<LocalReg>, table: seq<Region>,
                            table': seq<Region>, addr: Addr, peer: nat)
    requires RegsOk(site, regs) && TableView(regs, table) && RegsOk(site, regs') && TableView(regs', table')
    requires multiset(regs) == multiset(regs') && peer < site.numPeers
    ensures Lookup(table, addr, peer, 0) == Lookup(table', addr, peer, 0)
  {
    if s :| 0 <= s < |regs| && Within(regs[s], addr) {
      assert regs[s] in multiset(regs');
      var t :| 0 <= t < |regs'| && regs'[t] == regs[s];
      LookupHits(table, regs, site, addr, peer, 0, s);
      LookupHits(table', regs', site, addr, peer, 0, t);
    } else {
      forall t | 0 <= t < |regs'| ensures !Within(regs'[t], addr) {
        assert regs'[t] in multiset(regs);
        var s :| 0 <= s < |regs| && regs[s] == regs'[t];
      }
      LookupMisses(table, regs, site, addr, peer, 0);
      LookupMisses(table', regs', site, addr, peer, 0);
    }
  }
}
