/** The SDMA dirty mask in a context that one thread uses at a time.

    A queue holds `pending[idx]` copies that may be unfinished; `idx` is
    `local_pe * numChannels + channel`, the same index in the mask, in the handle array and
    in the loops. A one bit in `dirty` says that queue may hold unfinished copies. */
module Sdma {
  import opened Arith
  import opened BitWords

  /** Position of a (PE, channel) pair. */
  function Index(pe: nat, channel: nat, numChannels: nat): nat {
    pe * numChannels + channel
  }

  lemma IndexBounds(pe: nat, channel: nat, shmSize: nat, numChannels: nat)
    requires pe < shmSize && channel < numChannels
    ensures pe * numChannels + numChannels <= shmSize * numChannels
    ensures Index(pe, channel, numChannels) < shmSize * numChannels
  {
    RowsApart(pe, shmSize, numChannels);
  }

  /** `i` is the position of one of this PE's channels. */
  ghost predicate Slot(pe: nat, numChannels: nat, i: int) {
    pe * numChannels <= i < pe * numChannels + numChannels
  }

  /** Channel that a wavefront uses. */
  function Effective(channel: nat, stride: nat, wavefront: nat, numChannels: nat): nat
    requires numChannels > 0
  {
    (channel + stride * wavefront) % numChannels
  }

  lemma SmallMod(x: nat, n: nat)
    requires x < n
    ensures x % n == x
  {
    DivMod(0, x, n);
  }

  /** Fewer than `numChannels` wavefronts apart, two wavefronts with stride 1 never share a
      channel. */
  lemma Spread(channel: nat, a: nat, b: nat, numChannels: nat)
    requires a < b < a + numChannels
    ensures Effective(channel, 1, a, numChannels) != Effective(channel, 1, b, numChannels)
  {
    var x, y := channel + a, channel + b;
    PositionSplit(x, numChannels);
    PositionSplit(y, numChannels);
    if x % numChannels == y % numChannels {
      if x / numChannels < y / numChannels {
        RowsApart(x / numChannels, y / numChannels, numChannels);
      } else {
        MulMonotone(y / numChannels, x / numChannels, numChannels);
      }
    }
  }

  /** The inner loop of `sdmaHostInit`: the handles of one PE. */
  method RowOfHandles(pe: nat, numChannels: nat, connected: (nat, nat) -> bool) returns (row: seq<bool>)
    ensures |row| == numChannels && forall ch: nat :: ch < numChannels ==> row[ch] == connected(pe, ch)
  {
    row := [];
    for ch := 0 to numChannels
      invariant |row| == ch && forall c: nat :: c < ch ==> row[c] == connected(pe, c)
    {
      row := row + [connected(pe, ch)];
    }
  }

  /** The handle at the index that the mask uses is that of the pair. */
  ghost predicate LaidOut(handles: seq<bool>, rows: nat, numChannels: nat, connected: (nat, nat) -> bool) {
    && |handles| == rows * numChannels
    && forall pe: nat, ch: nat :: pe < rows && ch < numChannels ==>
         Index(pe, ch, numChannels) < |handles| && handles[Index(pe, ch, numChannels)] == connected(pe, ch)
  }

  lemma OneMoreRow(handles: seq<bool>, rows: nat, numChannels: nat, connected: (nat, nat) -> bool, row: seq<bool>)
    requires LaidOut(handles, rows, numChannels, connected)
    requires |row| == numChannels && forall ch: nat :: ch < numChannels ==> row[ch] == connected(rows, ch)
    ensures LaidOut(handles + row, rows + 1, numChannels, connected)
  {
    assert (rows + 1) * numChannels == rows * numChannels + numChannels;
    forall pe: nat, ch: nat | pe < rows + 1 && ch < numChannels
      ensures Index(pe, ch, numChannels) < |handles + row|
      ensures (handles + row)[Index(pe, ch, numChannels)] == connected(pe, ch)
    {
      if pe < rows {
        assert Index(pe, ch, numChannels) < |handles|;
      } else {
        assert Index(pe, ch, numChannels) == |handles| + ch;
      }
    }
  }

  /** The loops of `sdmaHostInit` that fill the handle array. */
  method LayOutHandles(shmSize: nat, numChannels: nat, connected: (nat, nat) -> bool) returns (handles: seq<bool>)
    ensures LaidOut(handles, shmSize, numChannels, connected)
  {
    handles := [];
    for pe := 0 to shmSize
      invariant LaidOut(handles, pe, numChannels, connected)
    {
      var row := RowOfHandles(pe, numChannels, connected);
      OneMoreRow(handles, pe, numChannels, connected, row);
      handles := handles + row;
    }
  }

  class SdmaContext {
    const shmSize: nat
    const numChannels: nat
    const sdmaEnabled: bool
    const sdmaThreshold: nat
    var sdmaChannel: nat
    var sdmaChannelStride: nat
    var handles: seq<bool>       // false: the handle is null
    var dirty: Word
    var pending: seq<nat>

    ghost predicate Valid()
      reads this
    {
      && 1 <= numChannels <= 8 && shmSize * numChannels <= 64
      && |handles| == |pending| == shmSize * numChannels
      && (forall i :: i in dirty ==> i < |pending|)
      && (forall i :: 0 <= i < |pending| && pending[i] > 0 ==> handles[i] && i in dirty)
      && (!sdmaEnabled ==> dirty == ZERO)
    }

    /** `sdmaHostInit`: one handle per pair. Without SDMA no handle is made. */
    constructor (shmSize: nat, numChannels: nat, enabled: bool, threshold: nat, connected: (nat, nat) -> bool)
      requires 1 <= numChannels <= 8 && shmSize * numChannels <= 64
      ensures Valid() && this.shmSize == shmSize && this.numChannels == numChannels && dirty == ZERO
      ensures sdmaEnabled == enabled && sdmaThreshold == threshold
      ensures enabled ==> LaidOut(handles, shmSize, numChannels, connected)
      ensures forall i :: 0 <= i < |pending| ==> pending[i] == 0
    {
      this.shmSize := shmSize;
      this.numChannels := numChannels;
      this.sdmaEnabled := enabled;
      this.sdmaThreshold := threshold;
      this.sdmaChannel := 0;
      this.sdmaChannelStride := 0;
      this.dirty := ZERO;
      this.pending := seq(shmSize * numChannels, i => 0);
      this.handles := seq(shmSize * numChannels, i => false);
      new;
      if enabled {
        handles := LayOutHandles(shmSize, numChannels, connected);
      }
    }

    /** Every wavefront gets a channel. In context 0, or when spreading is asked for, any
        `numChannels` consecutive wavefronts get different ones; in other contexts all get
        the context's own. */
    method AssignSdmaChannel(ctxId: nat, spread: bool)
      requires Valid()
      modifies this`sdmaChannel, this`sdmaChannelStride
      ensures Valid()
      ensures forall w: nat :: Effective(sdmaChannel, sdmaChannelStride, w, numChannels) < numChannels
      ensures ctxId == 0 || spread ==> forall a: nat, b: nat :: a < b < a + numChannels ==>
                Effective(sdmaChannel, sdmaChannelStride, a, numChannels)
                != Effective(sdmaChannel, sdmaChannelStride, b, numChannels)
      ensures ctxId != 0 && !spread ==> forall w: nat ::
                Effective(sdmaChannel, sdmaChannelStride, w, numChannels) == ctxId % numChannels
      ensures Effective(sdmaChannel, sdmaChannelStride, 0, numChannels) == ctxId % numChannels
    {
      sdmaChannel := ctxId % numChannels;
      sdmaChannelStride := if ctxId == 0 || spread then 1 else 0;
      SmallMod(sdmaChannel, numChannels);
      forall a: nat, b: nat | (ctxId == 0 || spread) && a < b < a + numChannels
        ensures Effective(sdmaChannel, 1, a, numChannels) != Effective(sdmaChannel, 1, b, numChannels)
      {
        Spread(sdmaChannel, a, b, numChannels);
      }
    }

    /** `sdmaCopy` followed by what `ipcCopy` does with the handle. */
    method SdmaCopy(pe: nat, wavefront: nat, blocking: bool) returns (idx: nat)
      requires Valid() && pe < shmSize && sdmaEnabled
      modifies this`dirty, this`pending
      ensures Valid() && Slot(pe, numChannels, idx) && idx < |pending| == old(|pending|)
      ensures idx == Index(pe, Effective(sdmaChannel, sdmaChannelStride, wavefront, numChannels), numChannels)
      ensures !handles[idx] || blocking ==> dirty == old(dirty)
      ensures handles[idx] && !blocking ==> dirty == old(dirty) + {idx}
      ensures handles[idx] ==> pending[idx] == if blocking then 0 else old(pending)[idx] + 1
      ensures !handles[idx] ==> pending == old(pending)
      ensures forall i :: 0 <= i < |pending| && i != idx ==> pending[i] == old(pending)[i]
    {
      var channel := Effective(sdmaChannel, sdmaChannelStride, wavefront, numChannels);
      IndexBounds(pe, channel, shmSize, numChannels);
      idx := Index(pe, channel, numChannels);
      if handles[idx] {
        pending := pending[idx := pending[idx] + 1];
        if !blocking {
          OneIs(idx);
          dirty := Or(dirty, One(idx));
        } else {
          pending := pending[idx := 0];
        }
      }
    }

    /** `ipcCopy`: by SDMA from the threshold on, otherwise by `memcpy_lane`, which leaves the
        queues alone. A queue's count never falls, except that a blocking copy drains it. */
    method IpcCopy(size: nat, pe: nat, wavefront: nat, blocking: bool) returns (bySdma: bool)
      requires Valid() && pe < shmSize
      modifies this`dirty, this`pending
      ensures Valid() && (bySdma <==> sdmaEnabled && size >= sdmaThreshold)
      ensures !bySdma ==> dirty == old(dirty) && pending == old(pending)
      ensures |pending| == old(|pending|)
      ensures var idx := pe * numChannels + (sdmaChannel + sdmaChannelStride * wavefront) % numChannels;
              bySdma ==>
                && idx < |pending|
                && (!handles[idx] ==> dirty == old(dirty) && pending == old(pending))
                && (handles[idx] && !blocking ==>
                      dirty == old(dirty) + {idx} && pending == old(pending)[idx := old(pending)[idx] + 1])
                && (handles[idx] && blocking ==> dirty == old(dirty) && pending == old(pending)[idx := 0])
      ensures forall i :: 0 <= i < |pending| && !Slot(pe, numChannels, i) ==> pending[i] == old(pending)[i]
      ensures blocking ==> dirty == old(dirty) && forall i :: 0 <= i < |pending| ==> pending[i] <= old(pending)[i]
      ensures !blocking ==> old(dirty) <= dirty && forall i :: 0 <= i < |pending| ==> pending[i] >= old(pending)[i]
    {
      bySdma := sdmaEnabled && size >= sdmaThreshold;
      if bySdma {
        var idx := SdmaCopy(pe, wavefront, blocking);
      }
    }

    /** Drain one queue if its handle is not null. */
    method Quiet(idx: nat)
      requires idx < |handles| == |pending|
      modifies this`pending
      ensures pending == if handles[idx] then old(pending)[idx := 0] else old(pending)
    {
      if handles[idx] {
        pending := pending[idx := 0];
      }
    }

    /** `sdmaQuiet(local_pe)`: take the PE's bits, drain the channels that had one. */
    method SdmaQuiet(pe: nat)
      requires Valid() && pe < shmSize
      modifies this`dirty, this`pending
      ensures Valid() && |pending| == old(|pending|)
      ensures forall i :: Slot(pe, numChannels, i) ==> i < |pending| && pending[i] == 0
      ensures forall i :: 0 <= i < |pending| && !Slot(pe, numChannels, i) ==> pending[i] == old(pending)[i]
      ensures forall i :: i in dirty <==> i in old(dirty) && !Slot(pe, numChannels, i)
    {
      IndexBounds(pe, 0, shmSize, numChannels);
      var peMask := Field(numChannels, pe * numChannels);
      FieldIs(numChannels, pe * numChannels);
      var wasDirty := And(dirty, peMask);
      dirty := And(dirty, Not(peMask));
      assert forall i :: Slot(pe, numChannels, i) && i in old(dirty) ==> i in wasDirty;
      if wasDirty == ZERO {
        return;
      }
      DrainChannels(pe * numChannels, wasDirty);
    }

    /** The loop over the channels of one PE, whose positions start at `base`. */
    method DrainChannels(base: nat, wasDirty: Word)
      requires numChannels <= 8 && base + numChannels <= |pending| == |handles| <= 64
      requires forall i :: base <= i < base + numChannels && pending[i] > 0 ==> handles[i] && i in wasDirty
      modifies this`pending
      ensures |pending| == old(|pending|)
      ensures forall i :: 0 <= i < |pending| ==>
                pending[i] == if base <= i < base + numChannels then 0 else old(pending)[i]
    {
      for ch := 0 to numChannels
        invariant |pending| == old(|pending|)
        invariant forall i :: 0 <= i < |pending| ==>
                    pending[i] == if base <= i < base + ch then 0 else old(pending)[i]
      {
        var idx := base + ch;
        OneIs(idx);
        assert idx in wasDirty <==> idx in And(wasDirty, One(idx));
        if And(wasDirty, One(idx)) != ZERO {
          Quiet(idx);
        }
      }
    }

    /** `sdmaQuietAll()`: take the whole mask, drain bit after bit. */
    method SdmaQuietAll()
      requires Valid()
      modifies this`dirty, this`pending
      ensures Valid() && |pending| == old(|pending|)
      ensures dirty == ZERO && forall i :: 0 <= i < |pending| ==> pending[i] == 0
    {
      var left := dirty;
      dirty := ZERO;
      while left != ZERO
        invariant |pending| == old(|pending|) && dirty == ZERO
        invariant forall i :: i in left ==> i < |pending|
        invariant forall i :: 0 <= i < |pending| && pending[i] > 0 ==> handles[i] && i in left
        decreases left
      {
        var bit := Lowest(left);
        Quiet(bit);
        OneIs(bit);
        left := And(left, Not(One(bit)));
      }
    }

    /** `ipcFence(local_pe)` and `ipcQuiet(local_pe)`: look before draining. */
    method IpcFencePe(pe: nat)
      requires Valid() && pe < shmSize
      modifies this`dirty, this`pending
      ensures Valid() && |pending| == old(|pending|)
      ensures forall i :: Slot(pe, numChannels, i) ==> i < |pending| && pending[i] == 0
      ensures forall i :: 0 <= i < |pending| && !Slot(pe, numChannels, i) ==> pending[i] == old(pending)[i]
      ensures forall i :: i in dirty <==> i in old(dirty) && !Slot(pe, numChannels, i)
    {
      IndexBounds(pe, 0, shmSize, numChannels);
      var peMask := Field(numChannels, pe * numChannels);
      FieldIs(numChannels, pe * numChannels);
      assert forall i :: i in And(dirty, peMask) <==> i in dirty && Slot(pe, numChannels, i);
      if sdmaEnabled && And(dirty, peMask) != ZERO {
        SdmaQuiet(pe);
      }
    }

    /** `ipcFence()` and `ipcQuiet()`. */
    method IpcFence()
      requires Valid()
      modifies this`dirty, this`pending
      ensures Valid() && |pending| == old(|pending|)
      ensures dirty == ZERO && forall i :: 0 <= i < |pending| ==> pending[i] == 0
    {
      if sdmaEnabled && dirty != ZERO {
        SdmaQuietAll();
      }
    }
  }
}
