/** One PE's backend object, with the fields, loops and rollback paths of the source.

    Each method is proved to do to the object's state what the matching function of
    `SymmModel` does to a `Pe` value. Driver results and collective answers are passed in. */
module SymmBackend {
  import opened Options
  import opened Intervals
  import opened SymmModel

  /** Compaction leaves the slots in use 0, 1, ..., count - 1, each named once. */
  lemma CompactKeepsSlots(records: map<Addr, Record>, count: nat, a: Addr)
    requires SlotsFit(records, count) && a in records
    ensures SlotsFit(DropRecord(records, count, a), count - 1)
  {
    forall b: Addr | b in records && b != a ensures records[b].slot != records[a].slot {
    }
  }

  class Backend {
    const maxRegions: nat
    var symm: map<Addr, SymmRegion>
    var orig: Regions
    var regions: array<Region>        // IpcSymmTable.regions, of IpcSymmTable.capacity entries
    var count: nat                    // IpcSymmTable.count
    var records: map<Addr, Record>
    var space: map<Addr, Buffer>
    var exported: multiset<Handle>

    ghost predicate Valid()
      reads this, regions
    {
      && regions.Length == TableCapacity(maxRegions)
      && count <= regions.Length
      && SlotsFit(records, count)
    }

    /** The value that this object stands for. */
    ghost function State(): Pe
      reads this, regions
      requires count <= regions.Length
    {
      Pe(symm, orig, regions[..count], records, space, exported)
    }

    constructor (maxRegions: nat)
      ensures Valid() && State() == EMPTY_PE && this.maxRegions == maxRegions && fresh(regions)
    {
      this.maxRegions := maxRegions;
      symm, orig, records, space, exported := map[], map[], map[], map[], multiset{};
      regions := new Region[TableCapacity(maxRegions)](i => Region(0, 0, []));
      count := 0;
    }

    // ------------------------------------------------------------------ host bookkeeping

    method HostRegisterSymmetric(buffer: Buffer, valid: bool, alias: Option<Addr>) returns (ok: bool)
      requires Valid()
      modifies this`symm, this`orig, this`space
      ensures Valid()
      ensures ok <==> HostRegister(maxRegions, old(State()), buffer, valid, alias).Some?
      ensures ok ==> State() == HostRegister(maxRegions, old(State()), buffer, valid, alias).value
      ensures !ok ==> State() == old(State())
    {
      if !valid {
        return false;
      }
      if |symm| >= maxRegions {
        return false;
      }
      if buffer.base > UINTPTR_MAX - buffer.length {
        return false;
      }
      var end := buffer.base + buffer.length;
      var it := LowerBound(orig, buffer.base);
      var prev := Before(orig, it);
      NeighboursDecide(orig, buffer.base, buffer.length, it, prev);
      if it.Some? && it.value < end {
        return false;
      }
      if prev.Some? {
        var prevEnd := prev.value + orig[prev.value];
        if prevEnd > buffer.base {
          return false;
        }
      }
      if alias.None? {
        return false;
      }
      space := space[alias.value := buffer];
      symm := symm[alias.value := SymmRegion(buffer.length, buffer.base)];
      orig := orig[buffer.base := buffer.length];
      return true;
    }

    method HostUnregisterSymmetric(addr: Addr) returns (ok: bool)
      requires Valid()
      modifies this`symm, this`orig, this`space
      ensures Valid()
      ensures (ok, State()) == HostUnregister(old(State()), addr)
    {
      if addr == 0 || addr !in symm {
        return false;
      }
      space := space - {addr};
      orig := orig - {symm[addr].origBase};
      symm := symm - {addr};
      return true;
    }

    // -------------------------------------------------------------------- the IPC region

    method CloseBases(self: nat, bases: seq<Addr>)
      modifies this`space
      ensures space == CloseUpTo(old(space), self, bases, |bases|)
    {
      for i := 0 to |bases|
        invariant space == CloseUpTo(old(space), self, bases, i)
      {
        if i != self {
          space := space - {bases[i]};
        }
      }
    }

    /** The loop that opens the peers' handles, closing them again on the first failure. */
    method OpenPeers(c: IpcCall) returns (ok: bool, bases: seq<Addr>)
      requires c.Fits()
      modifies this`space
      ensures ok == c.OpenOk() && bases == c.Bases()
      ensures ok ==> space == OpenUpTo(old(space), c, |c.peers|)
      ensures !ok ==> space == CloseUpTo(OpenUpTo(old(space), c, c.OpenedFrom(0)), c.self, c.Bases(), c.OpenedFrom(0))
    {
      bases := [];
      for i := 0 to |c.peers|
        invariant i <= c.OpenedFrom(0) == c.OpenedFrom(i)
        invariant bases == c.Bases()[..i]
        invariant space == OpenUpTo(old(space), c, i)
      {
        if i == c.self {
          bases := bases + [c.symmAddr];
        } else if c.opens[i].None? {
          CloseBases(c.self, bases);
          return false, bases;
        } else {
          space := space[c.opens[i].value := c.handles[c.peers[i]].buffer];
          bases := bases + [c.opens[i].value];
        }
      }
      ok := true;
    }

    method RegisterIpcSymmRegion(c: IpcCall) returns (ok: bool)
      requires Valid() && c.Fits() && c.symmAddr !in records
      modifies this`space, this`exported, this`count, this`records, regions
      ensures Valid()
      ensures (ok, State()) == RegisterIpc(regions.Length, old(State()), c)
    {
      var exportOk := c.fd.Some?;
      if exportOk {
        exported := exported + multiset{c.Own()};
      }
      if !c.allExported {
        if exportOk {
          exported := exported - multiset{c.Own()};
        }
        return false;
      }
      ok := OpenAndPublish(c);
    }

    /** The part after the handles are exchanged; a failure takes the export back. */
    method OpenAndPublish(c: IpcCall) returns (ok: bool)
      requires Valid() && c.Fits() && c.allExported && c.symmAddr !in records
      modifies this`space, this`exported, this`count, this`records, regions
      ensures Valid() && (ok <==> c.allOpened && old(count) < regions.Length)
      ensures ok ==>
                && exported == old(exported) && space == OpenUpTo(old(space), c, c.OpenedFrom(0))
                && regions[..count] == old(regions[..count]) + [Region(c.symmAddr, c.buffer.length, c.Bases())]
                && records == old(records)[c.symmAddr := Record(old(count), |c.peers|, c.self, c.Bases(), c.Own())]
      ensures !ok ==>
                && exported == old(exported) - multiset{c.Own()} && count == old(count)
                && regions[..count] == old(regions[..count]) && records == old(records)
                && space == CloseUpTo(OpenUpTo(old(space), c, c.OpenedFrom(0)), c.self, c.Bases(), c.OpenedFrom(0))
    {
      var openOk, bases := OpenPeers(c);
      if !c.allOpened {
        if openOk {
          CloseBases(c.self, bases);
        }
        exported := exported - multiset{c.Own()};
        return false;
      }
      if count >= regions.Length {
        CloseBases(c.self, bases);
        exported := exported - multiset{c.Own()};
        return false;
      }
      Publish(c, bases);
      return true;
    }

    /** Fill the next free slot and remember it in a record. */
    method Publish(c: IpcCall, bases: seq<Addr>)
      requires Valid() && c.fd.Some? && |bases| == |c.peers| && count < regions.Length && c.symmAddr !in records
      modifies this`count, this`records, regions
      ensures Valid() && count == old(count) + 1
      ensures regions[..count] == old(regions[..count]) + [Region(c.symmAddr, c.buffer.length, bases)]
      ensures records == old(records)[c.symmAddr := Record(old(count), |c.peers|, c.self, bases, c.Own())]
    {
      var slot := count;
      regions[slot] := Region(c.symmAddr, c.buffer.length, bases);
      count := slot + 1;
      records := records[c.symmAddr := Record(slot, |c.peers|, c.self, bases, c.Own())];
    }

    /** The loop that relabels the record of the entry moved out of the last slot. */
    method RelabelLast(last: nat, slot: nat)
      requires forall a: Addr, b: Addr :: a in records && b in records && a != b ==> records[a].slot != records[b].slot
      requires slot != last
      modifies this`records
      ensures records == Relabel(old(records), last, slot)
    {
      var todo := records.Keys;
      while todo != {}
        invariant todo <= records.Keys && records == old(records)
        invariant forall a: Addr :: a in records && a !in todo ==> records[a].slot != last
        decreases todo
      {
        var a: Addr :| a in todo;
        todo := todo - {a};
        if records[a].slot == last {
          records := records[a := records[a].(slot := slot)];
          assert records == Relabel(old(records), last, slot);
          return;
        }
      }
      assert records == Relabel(old(records), last, slot);
    }

    method UnregisterIpcSymmRegion(symmAddr: Addr) returns (ok: bool)
      requires Valid()
      modifies this`space, this`exported, this`count, this`records, regions
      ensures Valid()
      ensures (ok, State()) == UnregisterIpc(old(State()), symmAddr)
    {
      if symmAddr !in records {
        return false;
      }
      var rec := records[symmAddr];
      CloseBases(rec.selfIndex, rec.peerBases);
      exported := exported - multiset{rec.localHandle};
      Compact(symmAddr);
      return true;
    }

    /** Move the last entry into the freed slot and drop the record. */
    method Compact(symmAddr: Addr)
      requires Valid() && symmAddr in records
      modifies this`count, this`records, regions
      ensures Valid() && count == old(count) - 1
      ensures regions[..count] == SwapRemove(old(regions[..count]), old(records)[symmAddr].slot)
      ensures records == DropRecord(old(records), old(count), symmAddr)
    {
      CompactKeepsSlots(records, count, symmAddr);
      ghost var dropped := DropRecord(records, count, symmAddr);
      var slot := records[symmAddr].slot;
      MoveLast(slot);
      count := count - 1;
      records := records - {symmAddr};
      assert records == dropped;
    }

    method MoveLast(slot: nat)
      requires Valid() && slot < count
      modifies this`records, regions
      ensures regions[..count - 1] == SwapRemove(old(regions[..count]), slot)
      ensures records == if slot == count - 1 then old(records) else Relabel(old(records), count - 1, slot)
    {
      var last := count - 1;
      if slot != last {
        regions[slot] := regions[last];
        RelabelLast(last, slot);
      }
    }

    // ----------------------------------------------------------------------- whole calls

    method BufferRegisterSymmetric(c: RegisterCall) returns (ok: bool)
      requires Valid() && RegisterFits(maxRegions, State(), c) && (c.alias.Some? ==> c.ipc.symmAddr !in records)
      modifies this, regions
      ensures Valid() && regions == old(regions)
      ensures (ok, State()) == RegisterPe(maxRegions, old(State()), c)
    {
      if !c.lengthsMatch {
        return false;
      }
      var registered := HostRegisterSymmetric(c.ipc.buffer, c.valid, c.alias);
      if !c.allHost {
        if registered {
          var undone := HostUnregisterSymmetric(c.ipc.symmAddr);
        }
        return false;
      }
      var published := RegisterIpcSymmRegion(c.ipc);
      if !published {
        var undone := HostUnregisterSymmetric(c.ipc.symmAddr);
        return false;
      }
      return true;
    }

    method BufferUnregisterSymmetric(addr: Addr) returns (ok: bool)
      requires Valid()
      modifies this, regions
      ensures Valid() && regions == old(regions)
      ensures (ok, State()) == UnregisterPe(old(State()), addr)
    {
      if addr == 0 {
        return false;
      }
      var gone := UnregisterIpcSymmRegion(addr);
      if !gone {
        return false;
      }
      ok := HostUnregisterSymmetric(addr);
    }

    /** `ipcPeerPtr`, the scan that every put and get starts with. */
    method IpcPeerPtr(heapBase: Addr, heapSize: nat, ipcBases: seq<Addr>, addr: Addr, peer: nat)
      returns (r: Option<Addr>)
      requires Valid()
      ensures r == PeerPtr(heapBase, heapSize, ipcBases, State().table, addr, peer)
    {
      if Sub(addr, heapBase) < heapSize {
        return Some(Add(Pick(ipcBases, peer), Sub(addr, heapBase)));
      }
      ghost var table := regions[..count];
      for i := 0 to count
        invariant Lookup(table, addr, peer, 0) == Lookup(table, addr, peer, i)
      {
        var region := regions[i];
        assert region == table[i];
        if region.localBase <= addr < Add(region.localBase, region.length) {
          return Some(Add(Pick(region.peerBases, peer), addr - region.localBase));
        }
      }
      return None;
    }
  }
}
