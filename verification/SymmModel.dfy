/** Symmetric buffer registration as one PE sees it.

    The state of a PE and, step by step, what `Backend::buffer_register_symmetric`,
    `register_ipc_symm_region`, their inverses and `ipcPeerPtr` do to it. The results of
    driver calls, and the values the collectives return, are arguments. */
module SymmModel {
  import opened Options
  import opened Intervals
  import opened MachineInts

  /** A user buffer: `length` bytes at `base` in the address space of `pe`. */
  datatype Buffer = Buffer(pe: nat, base: Addr, length: nat)

  /** An exported IPC handle; two exports of one buffer differ in `fd`. */
  datatype Handle = Handle(buffer: Buffer, fd: nat)

  datatype SymmRegion = SymmRegion(length: nat, origBase: Addr)

  /** `IpcSymmRegion`: one slot of the table that the device reads. */
  datatype Region = Region(localBase: Addr, length: nat, peerBases: seq<Addr>)

  /** `IpcSymmRecord`: what the host keeps to tear a registration down. */
  datatype Record = Record(slot: nat, numPeers: nat, selfIndex: nat, peerBases: seq<Addr>, localHandle: Handle)

  /** State of one PE. `space` lists the mappings that this PE holds open, by base
      address, with the buffer each one shows; `exported` the handles it has exported. */
  datatype Pe = Pe(
    symm: map<Addr, SymmRegion>,
    orig: Regions,
    table: seq<Region>,
    records: map<Addr, Record>,
    space: map<Addr, Buffer>,
    exported: multiset<Handle>)

  const EMPTY_PE := Pe(map[], map[], [], map[], map[], multiset{})

  /** Slots that `alloc_ipc_symm_table` makes for a configured maximum. */
  function TableCapacity(maxRegions: nat): (capacity: nat)
    ensures capacity >= 1
    ensures 0 < maxRegions < 0x8000_0000 ==> capacity == maxRegions
  {
    var capacity := IntCast(maxRegions);
    if capacity <= 0 then 1 else capacity
  }

  // ------------------------------------------------------------------- host bookkeeping

  /** `Backend::buffer_register_symmetric`: `None` is an error, which changes nothing. */
  ghost function HostRegister(maxRegions: nat, st: Pe, buffer: Buffer, valid: bool, alias: Option<Addr>): Option<Pe> {
    if !valid || |st.symm| >= maxRegions || buffer.base > UINTPTR_MAX - buffer.length then None
    else if !NeighboursClear(st.orig, buffer.base, buffer.length) then None
    else if alias.None? then None
    else Some(st.(
      symm := st.symm[alias.value := SymmRegion(buffer.length, buffer.base)],
      orig := st.orig[buffer.base := buffer.length],
      space := st.space[alias.value := buffer]))
  }

  /** `Backend::buffer_unregister_symmetric`. */
  ghost function HostUnregister(st: Pe, alias: Addr): (bool, Pe) {
    if alias == 0 || alias !in st.symm then (false, st)
    else (true, st.(
      symm := st.symm - {alias},
      orig := st.orig - {st.symm[alias].origBase},
      space := st.space - {alias}))
  }

  // ------------------------------------------------------------- the IPC part of a call

  /** One PE's call of `register_ipc_symm_region`: its arguments, the outcome of the driver
      calls it makes, and what the three collectives return to it. */
  datatype IpcCall = IpcCall(
    symmAddr: Addr, buffer: Buffer, peers: seq<nat>, self: nat,
    fd: Option<nat>, opens: seq<Option<Addr>>,
    allExported: bool, handles: seq<Handle>, allOpened: bool)
  {
    /** Index of the first peer whose open fails; `|opens|` when none does. */
    function OpenedFrom(k: nat): (r: nat)
      requires k <= |opens|
      ensures k <= r <= |opens|
      ensures forall i :: k <= i < r && i != self ==> opens[i].Some?
      ensures r < |opens| ==> r != self && opens[r].None?
      decreases |opens| - k
    {
      if k == |opens| then k
      else if k == self || opens[k].Some? then OpenedFrom(k + 1)
      else k
    }

    predicate OpenOk() { OpenedFrom(0) == |opens| }

    /** A collective answers yes only if this PE contributed yes. */
    predicate Fits() {
      && self < |peers| == |opens|
      && (forall i :: 0 <= i < |peers| ==> peers[i] < |handles|)
      && (allExported ==> fd.Some?)
      && (allOpened ==> OpenOk())
    }

    function Own(): Handle
      requires fd.Some?
    {
      Handle(buffer, fd.value)
    }

    function Base(i: nat): Addr
      requires i < OpenedFrom(0)
    {
      if i == self then symmAddr else opens[i].value
    }

    function Bases(): (r: seq<Addr>)
      ensures |r| == OpenedFrom(0) && forall i :: 0 <= i < |r| ==> r[i] == Base(i)
    {
      seq(OpenedFrom(0), i requires 0 <= i < OpenedFrom(0) => Base(i))
    }
  }

  /** Mappings after opening the peers below `k`, in order. */
  ghost function OpenUpTo(space: map<Addr, Buffer>, c: IpcCall, k: nat): map<Addr, Buffer>
    requires c.Fits() && k <= c.OpenedFrom(0)
  {
    if k == 0 then space
    else
      var before := OpenUpTo(space, c, k - 1);
      if k - 1 == c.self then before else before[c.Base(k - 1) := c.handles[c.peers[k - 1]].buffer]
  }

  /** Mappings after closing the bases below `k`, in order. */
  ghost function CloseUpTo(space: map<Addr, Buffer>, self: nat, bases: seq<Addr>, k: nat): map<Addr, Buffer>
    requires k <= |bases|
  {
    if k == 0 then space
    else
      var before := CloseUpTo(space, self, bases, k - 1);
      if k - 1 == self then before else before - {bases[k - 1]}
  }

  /** `Backend::register_ipc_symm_region`. */
  ghost function RegisterIpc(capacity: nat, st: Pe, c: IpcCall): (bool, Pe)
    requires c.Fits()
  {
    var exported := if c.fd.Some? then st.exported + multiset{c.Own()} else st.exported;
    if !c.allExported then
      (false, st.(exported := if c.fd.Some? then exported - multiset{c.Own()} else exported))
    else
      var k := c.OpenedFrom(0);
      var mapped := OpenUpTo(st.space, c, k);
      var closed := CloseUpTo(mapped, c.self, c.Bases(), k);
      if !c.allOpened || |st.table| >= capacity then
        (false, st.(exported := exported - multiset{c.Own()}, space := closed))
      else
        (true, st.(
          exported := exported,
          space := mapped,
          table := st.table + [Region(c.symmAddr, c.buffer.length, c.Bases())],
          records := st.records[c.symmAddr := Record(|st.table|, |c.peers|, c.self, c.Bases(), c.Own())]))
  }

  /** `slot` field of the record that named the moved last entry. */
  ghost function Relabel(records: map<Addr, Record>, last: nat, slot: nat): (r: map<Addr, Record>)
    ensures r.Keys == records.Keys
  {
    map a | a in records :: if records[a].slot == last then records[a].(slot := slot) else records[a]
  }

  /** Drop entry `s` of a compact table by moving the last entry into its place. */
  function SwapRemove<T>(xs: seq<T>, s: nat): (r: seq<T>)
    requires s < |xs|
    ensures |r| == |xs| - 1
    ensures forall i :: 0 <= i < |r| ==> r[i] == if i == s then xs[|xs| - 1] else xs[i]
  {
    if s == |xs| - 1 then xs[..s] else xs[..|xs| - 1][s := xs[|xs| - 1]]
  }

  /** Every record names one of `count` slots, and no two the same one. */
  ghost predicate SlotsFit(records: map<Addr, Record>, count: nat) {
    && (forall a: Addr :: a in records ==> records[a].slot < count && records[a].numPeers == |records[a].peerBases|)
    && (forall a: Addr, b: Addr :: a in records && b in records && a != b ==> records[a].slot != records[b].slot)
  }

  ghost predicate SlotsMatch(st: Pe) {
    SlotsFit(st.records, |st.table|)
  }

  /** The records that stay when the one of `a` goes and the last entry takes its slot. */
  ghost function DropRecord(records: map<Addr, Record>, count: nat, a: Addr): map<Addr, Record>
    requires a in records && SlotsFit(records, count)
  {
    (if records[a].slot == count - 1 then records else Relabel(records, count - 1, records[a].slot)) - {a}
  }

  /** `Backend::unregister_ipc_symm_region`. */
  ghost function UnregisterIpc(st: Pe, symmAddr: Addr): (bool, Pe)
    requires SlotsMatch(st)
  {
    if symmAddr !in st.records then (false, st)
    else
      var rec := st.records[symmAddr];
      (true, st.(
        space := CloseUpTo(st.space, rec.selfIndex, rec.peerBases, |rec.peerBases|),
        exported := st.exported - multiset{rec.localHandle},
        table := SwapRemove(st.table, rec.slot),
        records := DropRecord(st.records, |st.table|, symmAddr)))
  }

  // ------------------------------------------------------------------------- whole calls

  /** One PE's call of `IPCBackend::buffer_register_symmetric`. */
  datatype RegisterCall = RegisterCall(
    valid: bool, alias: Option<Addr>, lengthsMatch: bool, allHost: bool, ipc: IpcCall)

  ghost predicate RegisterFits(maxRegions: nat, st: Pe, c: RegisterCall) {
    && c.ipc.Fits()
    && (c.alias.Some? ==> c.alias.value == c.ipc.symmAddr != 0)
    && (c.allHost ==> HostRegister(maxRegions, st, c.ipc.buffer, c.valid, c.alias).Some?)
  }

  ghost function RegisterPe(maxRegions: nat, st: Pe, c: RegisterCall): (bool, Pe)
    requires RegisterFits(maxRegions, st, c)
  {
    if !c.lengthsMatch then (false, st)
    else
      var host := HostRegister(maxRegions, st, c.ipc.buffer, c.valid, c.alias);
      if host.None? then (false, st)
      else if !c.allHost then (false, HostUnregister(host.value, c.ipc.symmAddr).1)
      else
        var (ok, st') := RegisterIpc(TableCapacity(maxRegions), host.value, c.ipc);
        if ok then (true, st') else (false, HostUnregister(st', c.ipc.symmAddr).1)
  }

  /** One PE's call of `IPCBackend::buffer_unregister_symmetric`. */
  ghost function UnregisterPe(st: Pe, addr: Addr): (bool, Pe)
    requires SlotsMatch(st)
  {
    if addr == 0 then (false, st)
    else
      var (ok, st') := UnregisterIpc(st, addr);
      if !ok then (false, st) else HostUnregister(st', addr)
  }

  // ------------------------------------------------------------------------- translation

  /** Unsigned 64-bit difference. */
  function Sub(a: Addr, b: Addr): Addr { if b <= a then a - b else a - b + WORD }

  /** Unsigned 64-bit sum. */
  function Add(a: Addr, k: nat): Addr { if a + k < WORD then a + k else (a + k) % WORD }

  /** `bases[peer]`; callers pass an index below the number of peers. */
  function Pick(bases: seq<Addr>, peer: nat): Addr { if peer < |bases| then bases[peer] else 0 }

  /** The scan of the table from slot `i` on. */
  function Lookup(table: seq<Region>, addr: Addr, peer: nat, i: nat): Option<Addr>
    requires i <= |table|
    decreases |table| - i
  {
    if i == |table| then None
    else
      var r := table[i];
      if r.localBase <= addr < Add(r.localBase, r.length)
      then Some(Add(Pick(r.peerBases, peer), addr - r.localBase))
      else Lookup(table, addr, peer, i + 1)
  }

  /** `ipcPeerPtr`: the heap first, by one unsigned compare, then the table. */
  function PeerPtr(heapBase: Addr, heapSize: nat, ipcBases: seq<Addr>, table: seq<Region>, addr: Addr, peer: nat)
    : Option<Addr>
  {
    if Sub(addr, heapBase) < heapSize
    then Some(Add(Pick(ipcBases, peer), Sub(addr, heapBase)))
    else Lookup(table, addr, peer, 0)
  }
}
