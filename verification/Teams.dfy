/** Teams as strided sets of PEs: splits, translation, and the checks a split makes. */
module Teams {
  import opened Arith
  import opened MachineInts
  import opened Options

  /** A team: its triplet with respect to the world, and the split that made it from its
      parent. Products of strides are taken to fit an `int`. */
  datatype Team =
    | World(num: int)
    | Child(parent: Team, start: int, stride: int, size: int, worldStart: int, worldStride: int, myPe: int)

  function WorldStart(t: Team): int { if t.World? then 0 else t.worldStart }

  function WorldStride(t: Team): int { if t.World? then 1 else t.worldStride }

  function NumPes(t: Team): int { if t.World? then t.num else t.size }

  /** `get_pe_in_world`; any `pe` is taken, in range or not. */
  function PeInWorld(t: Team, pe: int): int { WorldStart(t) + WorldStride(t) * pe }

  /** `get_pe_in_my_team`. */
  function PeInMyTeam(t: Team, pe: int): int
    requires WorldStride(t) >= 1
  {
    var d := pe - WorldStart(t);
    if d < 0 then -1
    else if d % WorldStride(t) != 0 then -1
    else if d / WorldStride(t) >= NumPes(t) then -1
    else d / WorldStride(t)
  }

  /** `pe_in_active_set`; the quotient of a negative difference is not used. */
  function PeInActiveSet(start: int, stride: int, size: int, pe: int): int
    requires stride >= 1
  {
    var translated := (pe - start) / stride;
    if pe < start || (pe - start) % stride != 0 || translated >= size then -1 else translated
  }

  /** `team_translate_pe`. */
  function TranslatePe(src: Option<Team>, pe: int, dst: Option<Team>): int
    requires dst.Some? ==> WorldStride(dst.value) >= 1
  {
    if src.None? || dst.None? then -1 else PeInMyTeam(dst.value, PeInWorld(src.value, pe))
  }

  // Splitting.

  const ROCSHMEM_ERROR := 1

  /** What a PE knows: the world's size, its number, and how many user teams it may track. */
  datatype Env = Env(numPes: int, myPe: int, limit: nat)

  /** Teams a user may have: the configured number, through `int` and back to `size_t`. */
  function Limit(configured: nat, reserved: nat): (limit: nat)
    ensures configured + reserved < INT_LIMIT ==> limit == configured
    ensures INT_LIMIT <= configured + reserved < INT_MOD ==> limit == SIZE_MOD - INT_MOD + configured
  {
    (IntCast(configured + reserved) - reserved) % SIZE_MOD
  }

  predicate SaneSplit(parent: Team, start: int, stride: int, size: int) {
    0 <= start < NumPes(parent) && 1 <= size <= NumPes(parent) && stride >= 1
  }

  /** The child as every PE computes it; `myPe` is -1 outside the active set. */
  function MakeChild(parent: Team, start: int, stride: int, size: int, myPe: int): Team
    requires stride * WorldStride(parent) >= 1
  {
    var worldStart := PeInWorld(parent, start);
    var worldStride := stride * WorldStride(parent);
    Child(parent, start, stride, size, worldStart, worldStride, PeInActiveSet(worldStart, worldStride, size, myPe))
  }

  /** The bound that the split checks: the last PE, an `int`, against the size of the world. */
  predicate EndAccepted(env: Env, parent: Team, start: int, stride: int, size: int) {
    IntCast(PeInWorld(parent, start) + stride * WorldStride(parent) * (size - 1)) <= env.numPes
  }

  datatype Outcome = Outcome(ret: int, team: Option<Team>, tracked: seq<Team>)

  /** `rocshmem_team_split_strided`. `created` says whether the backend makes the team. */
  function SplitStrided(env: Env, tracked: seq<Team>, parent: Option<Team>, start: int, stride: int, size: int,
                        created: bool): Outcome
    requires parent.Some? ==> Sound(parent.value)
  {
    if |tracked| >= env.limit then Outcome(-1, None, tracked)
    else if parent.None? then Outcome(0, None, tracked)
    else if !SaneSplit(parent.value, start, stride, size) then Outcome(-1, None, tracked)
    else if !EndAccepted(env, parent.value, start, stride, size) then Outcome(-1, None, tracked)
    else
      var child := NewChild(parent.value, start, stride, size, env.myPe);
      if child.myPe < 0 then Outcome(0, None, tracked)
      else if !created then Outcome(ROCSHMEM_ERROR, None, tracked)
      else Outcome(0, Some(child), tracked + [child])
  }

  /** A team that splits can build: any depth, any arguments that pass the sanity check. */
  predicate Sound(t: Team) {
    match t
    case World(num) => num >= 1
    case Child(parent, start, stride, size, worldStart, worldStride, _) =>
      && Sound(parent) && SaneSplit(parent, start, stride, size)
      && worldStart == PeInWorld(parent, start) && worldStride == stride * WorldStride(parent)
  }

  /** Strides are positive and a sound team has members. */
  lemma {:induction false} SoundTeam(t: Team)
    requires Sound(t)
    ensures WorldStride(t) >= 1 && NumPes(t) >= 1
  {
    if t.Child? {
      SoundTeam(t.parent);
      assert t.stride * WorldStride(t.parent) >= 1 by {
        MulMonotone(1, t.stride, WorldStride(t.parent));
      }
    }
  }

  function NewChild(parent: Team, start: int, stride: int, size: int, myPe: int): (child: Team)
    requires Sound(parent) && SaneSplit(parent, start, stride, size)
    ensures child.Child? && Sound(child)
  {
    SoundTeam(parent);
    MulMonotone(1, stride, WorldStride(parent));
    MakeChild(parent, start, stride, size, myPe)
  }

  // Composition.

  /** The PE of the world that is number `pe` of a team, split by split. */
  function Through(t: Team, pe: int): int
    decreases t
  {
    if t.World? then pe else Through(t.parent, t.start + t.stride * pe)
  }

  lemma Reassociate(w: int, start: int, stride: int, pe: int)
    ensures w * (start + stride * pe) == w * start + stride * w * pe
  {
    assert w * (start + stride * pe) == w * start + w * (stride * pe);
  }

  /** The stored triplet is the composition of all the splits, at any depth. */
  lemma {:induction false} TripletComposes(t: Team, pe: int)
    requires Sound(t)
    ensures PeInWorld(t, pe) == Through(t, pe)
    decreases t
  {
    if t.Child? {
      TripletComposes(t.parent, t.start + t.stride * pe);
      Reassociate(WorldStride(t.parent), t.start, t.stride, pe);
    }
  }

  /** Every split on the way stays inside its parent. */
  predicate Nested(t: Team) {
    match t
    case World(_) => true
    case Child(parent, start, stride, size, _, _, _) => Nested(parent) && start + stride * (size - 1) < NumPes(parent)
  }

  lemma WithinLast(stride: nat, pe: nat, last: nat)
    requires pe <= last
    ensures 0 <= stride * pe <= stride * last
  {
    MulMonotone(pe, last, stride);
  }

  /** Numbers of a nested team are numbers of its parent, so its members are PEs. */
  lemma MemberOfParent(t: Team, pe: int)
    requires Sound(t) && t.Child? && Nested(t) && 0 <= pe < NumPes(t)
    ensures 0 <= t.start + t.stride * pe < NumPes(t.parent)
  {
    WithinLast(t.stride, pe, t.size - 1);
  }

  lemma {:induction false} NestedInWorld(t: Team, num: int, pe: int)
    requires Sound(t) && Nested(t) && Root(t) == World(num) && 0 <= pe < NumPes(t)
    ensures 0 <= PeInWorld(t, pe) < num
    decreases t
  {
    if t.Child? {
      MemberOfParent(t, pe);
      NestedInWorld(t.parent, num, t.start + t.stride * pe);
      TripletComposes(t, pe);
      TripletComposes(t.parent, t.start + t.stride * pe);
    }
  }

  function Root(t: Team): Team
    decreases t
  {
    if t.World? then t else Root(t.parent)
  }

  // Translation.

  lemma Multiple(stride: nat, k: nat)
    requires stride >= 1
    ensures (stride * k) % stride == 0 && (stride * k) / stride == k
  {
    DivMod(k, 0, stride);
  }

  lemma Quotient(d: nat, stride: nat)
    requires stride >= 1 && d % stride == 0
    ensures stride * (d / stride) == d
  {
    PositionSplit(d, stride);
  }

  lemma BelowStart(stride: nat, pe: int)
    requires stride >= 1 && pe < 0
    ensures stride * pe < 0
  {
    MulMonotone(1, -pe, stride);
    assert stride * pe == -(-pe * stride);
  }

  /** `get_pe_in_my_team` inverts `get_pe_in_world` on the numbers of the team, and only
      there. */
  lemma BackFromWorld(t: Team, pe: int)
    requires WorldStride(t) >= 1
    ensures PeInMyTeam(t, PeInWorld(t, pe)) == if 0 <= pe < NumPes(t) then pe else -1
  {
    if pe >= 0 {
      Multiple(WorldStride(t), pe);
    } else {
      BelowStart(WorldStride(t), pe);
    }
  }

  /** And the other way round: a PE with a number is that number's PE. */
  lemma WorldFromBack(t: Team, world: int)
    requires WorldStride(t) >= 1 && PeInMyTeam(t, world) >= 0
    ensures PeInMyTeam(t, world) < NumPes(t) && PeInWorld(t, PeInMyTeam(t, world)) == world
  {
    Quotient(world - WorldStart(t), WorldStride(t));
  }

  /** A PE's own number, as the split computes it, is its number in the new team. */
  lemma ActiveSetAgrees(parent: Team, start: int, stride: int, size: int, myPe: int)
    requires Sound(parent) && SaneSplit(parent, start, stride, size)
    ensures var child := NewChild(parent, start, stride, size, myPe);
            WorldStride(child) >= 1 && child.myPe == PeInMyTeam(child, myPe)
  {
    SoundTeam(NewChild(parent, start, stride, size, myPe));
  }

  /** PE `world` is number `k` of the split, counted through all the splits above it. */
  predicate Names(parent: Team, start: int, stride: int, size: int, k: int, world: int) {
    0 <= k < size && world == Through(parent, start + stride * k)
  }

  /** A split inside the parent gives a team to exactly the PEs that the composed splits
      name, each with its number; it tracks that team and nothing else. */
  lemma SplitGivesMembers(env: Env, tracked: seq<Team>, parent: Team, start: int, stride: int, size: int, created: bool)
    requires Sound(parent) && Nested(parent) && Root(parent) == World(env.numPes) && IsInt(env.numPes)
    requires |tracked| < env.limit
    requires SaneSplit(parent, start, stride, size) && start + stride * (size - 1) < NumPes(parent)
    ensures var o := SplitStrided(env, tracked, Some(parent), start, stride, size, created);
            && (o.team.Some? ==> o.team.value.Child? && o.ret == 0 && o.tracked == tracked + [o.team.value])
            && (o.team.Some? ==> Names(parent, start, stride, size, o.team.value.myPe, env.myPe))
            && (o.team.None? && created ==> o.ret == 0 && o.tracked == tracked)
            && (o.team.None? && created ==> forall k :: !Names(parent, start, stride, size, k, env.myPe))
  {
    NestedAccepted(env, parent, start, stride, size);
    var child := NewChild(parent, start, stride, size, env.myPe);
    SoundTeam(child);
    ActiveSetAgrees(parent, start, stride, size, env.myPe);
    if child.myPe >= 0 {
      WorldFromBack(child, env.myPe);
      TripletComposes(child, child.myPe);
    } else {
      forall k | 0 <= k < size ensures !Names(parent, start, stride, size, k, env.myPe) {
        BackFromWorld(child, k);
        TripletComposes(child, k);
      }
    }
  }

  /** A backend that cannot make the team gives an error on exactly the PEs that the split
      names, and no team anywhere. */
  lemma SplitNotCreated(env: Env, tracked: seq<Team>, parent: Team, start: int, stride: int, size: int)
    requires Sound(parent) && Nested(parent) && Root(parent) == World(env.numPes) && IsInt(env.numPes)
    requires |tracked| < env.limit
    requires SaneSplit(parent, start, stride, size) && start + stride * (size - 1) < NumPes(parent)
    ensures SplitStrided(env, tracked, Some(parent), start, stride, size, false)
         == Outcome(if exists k :: Names(parent, start, stride, size, k, env.myPe) then 1 else 0, None, tracked)
  {
    NestedAccepted(env, parent, start, stride, size);
    SplitGivesMembers(env, tracked, parent, start, stride, size, true);
  }

  /** There and back gives the PE again if and only if it was a number of the source team
      (or the -1 that an unknown number comes back as). */
  lemma TranslateRoundTrip(src: Team, pe: int, dst: Team)
    requires WorldStride(src) >= 1 && WorldStride(dst) >= 1 && TranslatePe(Some(src), pe, Some(dst)) != -1
    ensures TranslatePe(Some(dst), TranslatePe(Some(src), pe, Some(dst)), Some(src)) == pe
       <==> 0 <= pe < NumPes(src) || pe == -1
  {
    WorldFromBack(dst, PeInWorld(src, pe));
    BackFromWorld(src, pe);
  }

  /** Whatever the arguments, the answer is -1 or a number of the destination team that
      names the same PE of the world. */
  lemma TranslatedIsSame(src: Option<Team>, pe: int, dst: Option<Team>)
    requires dst.Some? ==> WorldStride(dst.value) >= 1
    ensures var number := TranslatePe(src, pe, dst);
            number == -1 ||
            (src.Some? && dst.Some? && 0 <= number < NumPes(dst.value)
             && PeInWorld(dst.value, number) == PeInWorld(src.value, pe))
  {
    if src.Some? && dst.Some? && TranslatePe(src, pe, dst) >= 0 {
      WorldFromBack(dst.value, PeInWorld(src.value, pe));
    }
  }

  /** The first two PEs of a world of eight. */
  const PAIR := Child(World(8), 0, 1, 2, 0, 1, 0)

  /** A number past the end of a team can name a PE of the world, which has no number back. */
  lemma TranslateOutOfRange()
    ensures Sound(PAIR)
    ensures TranslatePe(Some(PAIR), 5, Some(World(8))) == 5 && TranslatePe(Some(World(8)), 5, Some(PAIR)) == -1
  {
    BackFromWorld(World(8), 5);
    BackFromWorld(PAIR, 5);
  }

  // The bound of a split.

  /** The members of an accepted split are all numbers of the parent if and only if the
      last one is. */
  lemma InsideIff(parent: Team, start: int, stride: int, size: int)
    requires Sound(parent) && SaneSplit(parent, start, stride, size)
    ensures (forall pe :: 0 <= pe < size ==> 0 <= start + stride * pe < NumPes(parent))
       <==> start + stride * (size - 1) < NumPes(parent)
  {
    if start + stride * (size - 1) < NumPes(parent) {
      forall pe | 0 <= pe < size ensures 0 <= start + stride * pe < NumPes(parent) {
        WithinLast(stride, pe, size - 1);
      }
    }
  }

  /** The first PE of an admitted split gets the team, as its number 0. */
  lemma Admits(env: Env, parent: Team, start: int, stride: int, size: int)
    requires Sound(parent) && env.limit > 0 && SaneSplit(parent, start, stride, size)
    requires EndAccepted(env, parent, start, stride, size) && env.myPe == PeInWorld(parent, start)
    ensures var o := SplitStrided(env, [], Some(parent), start, stride, size, true);
            && o.ret == 0 && o.team == Some(NewChild(parent, start, stride, size, env.myPe))
            && o.team.value.myPe == 0
  {
    var child := NewChild(parent, start, stride, size, env.myPe);
    SoundTeam(child);
    BackFromWorld(child, 0);
    ActiveSetAgrees(parent, start, stride, size, env.myPe);
  }

  /** A split of two from the last number of any team on: if the check admits it, the last
      PE of the parent gets a team with a member that is not in the parent. */
  lemma LeavesParent(env: Env, parent: Team)
    requires Sound(parent) && env.limit > 0 && NumPes(parent) >= 2
    requires EndAccepted(env, parent, NumPes(parent) - 1, 1, 2)
    requires env.myPe == PeInWorld(parent, NumPes(parent) - 1)
    ensures WorldStride(parent) >= 1
    ensures var o := SplitStrided(env, [], Some(parent), NumPes(parent) - 1, 1, 2, true);
            o.ret == 0 && o.team.Some? && PeInMyTeam(parent, PeInWorld(o.team.value, 1)) == -1
  {
    SoundTeam(parent);
    Admits(env, parent, NumPes(parent) - 1, 1, 2);
    BeyondParent(parent, NewChild(parent, NumPes(parent) - 1, 1, 2, env.myPe));
    BackFromWorld(parent, NumPes(parent));
  }

  lemma BeyondParent(parent: Team, child: Team)
    requires Sound(child) && child.Child? && child.parent == parent
    requires child.start == NumPes(parent) - 1 && child.stride == 1
    ensures PeInWorld(child, 1) == PeInWorld(parent, NumPes(parent))
  {
    TripletComposes(child, 1);
    TripletComposes(parent, NumPes(parent));
  }

  /** The check admits that for every team of consecutive PEs inside the world, and for the
      world itself, which then takes in a PE that does not exist. */
  lemma EndCheckIsWide(env: Env, parent: Team)
    requires WorldStride(parent) == 1 && 0 <= WorldStart(parent) && NumPes(parent) >= 1
    requires WorldStart(parent) + NumPes(parent) <= env.numPes < INT_LIMIT
    ensures EndAccepted(env, parent, NumPes(parent) - 1, 1, 2)
  {
    var w := WorldStride(parent);
    assert w * (NumPes(parent) - 1) == NumPes(parent) - 1 && 1 * w * (2 - 1) == 1;
  }

  /** In a world of eight it admits a last PE that overflows `int`. */
  lemma EndCheckOverflows(env: Env, stride: int)
    requires env.numPes == 8 && stride == INT_LIMIT - 1
    ensures SaneSplit(World(8), 0, stride, 3) && EndAccepted(env, World(8), 0, stride, 3)
    ensures PeInWorld(World(8), stride * 2) > 8
  {
  }

  /** A split with a free slot and sane arguments, whose last PE fits an `int`, is refused
      if and only if that PE is past the size of the world; then nothing is tracked. */
  lemma RefusedIff(env: Env, tracked: seq<Team>, parent: Team, start: int, stride: int, size: int, created: bool)
    requires Sound(parent) && |tracked| < env.limit
    requires 0 <= start < NumPes(parent) && 1 <= size <= NumPes(parent) && stride >= 1
    requires IsInt(WorldStart(parent) + WorldStride(parent) * start + stride * WorldStride(parent) * (size - 1))
    ensures var last := WorldStart(parent) + WorldStride(parent) * start + stride * WorldStride(parent) * (size - 1);
            var o := SplitStrided(env, tracked, Some(parent), start, stride, size, created);
            && (last > env.numPes <==> o.ret == -1)
            && (last > env.numPes ==> o == Outcome(-1, None, tracked))
  {
  }

  /** Refusals that come before the bound is looked at: no free slot, no parent (which is
      not an error), and a start, size or stride out of range. */
  lemma RefusedEarly(env: Env, tracked: seq<Team>, parent: Option<Team>, start: int, stride: int, size: int,
                     created: bool)
    requires parent.Some? ==> Sound(parent.value)
    ensures var o := SplitStrided(env, tracked, parent, start, stride, size, created);
            && (|tracked| >= env.limit ==> o == Outcome(-1, None, tracked))
            && (|tracked| < env.limit && parent.None? ==> o == Outcome(0, None, tracked))
            && (|tracked| < env.limit && parent.Some?
                && (start < 0 || start >= NumPes(parent.value) || size < 1 || size > NumPes(parent.value) || stride < 1)
                ==> o == Outcome(-1, None, tracked))
  {
  }

  /** A nested split of a nested team always passes the check. */
  lemma NestedAccepted(env: Env, parent: Team, start: int, stride: int, size: int)
    requires Sound(parent) && Nested(parent) && Root(parent) == World(env.numPes) && IsInt(env.numPes)
    requires SaneSplit(parent, start, stride, size) && start + stride * (size - 1) < NumPes(parent)
    ensures EndAccepted(env, parent, start, stride, size)
  {
    var last := start + stride * (size - 1);
    WithinLast(stride, 0, size - 1);
    NestedInWorld(parent, env.numPes, last);
    Reassociate(WorldStride(parent), start, stride, size - 1);
  }
}
