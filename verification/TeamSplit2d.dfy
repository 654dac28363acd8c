/** The calls that `rocshmem_team_split_2d` makes on one PE, and what they come to. */
module TeamSplit2d {
  import opened Arith
  import opened MachineInts
  import opened Options
  import opened Teams
  import opened TeamGrid

  /** One of the two loops, from iteration `i` on; `mine` is the team found so far. */
  function AxisLoop(env: Env, tracked: seq<Team>, parent: Team, axis: Axis, x: nat, i: nat, mine: Option<Team>,
                    created: bool): Outcome
    requires Sound(parent) && x >= 1
    decreases Count(axis, NumPes(parent), x) - i
  {
    SoundTeam(parent);
    var s := NumPes(parent);
    if i >= Count(axis, s, x) then Outcome(0, mine, tracked)
    else
      var o := SplitStrided(env, tracked, Some(parent), Start(axis, x, i), Stride(axis, x), Size(axis, s, x, i),
                            created);
      if o.ret != 0 then Outcome(ROCSHMEM_ERROR, mine, o.tracked)
      else AxisLoop(env, o.tracked, parent, axis, x, i + 1, if o.team.Some? then o.team else mine, created)
  }

  datatype Outcome2d = Outcome2d(ret: int, xteam: Option<Team>, yteam: Option<Team>, tracked: seq<Team>)

  /** `rocshmem_team_split_2d`; `xcreated` and `ycreated` say whether the backend makes the
      two teams. */
  function Split2d(env: Env, tracked: seq<Team>, parent: Option<Team>, xrange: int, xcreated: bool, ycreated: bool)
    : Outcome2d
    requires parent.Some? ==> Sound(parent.value)
  {
    if parent.None? || xrange < 1 then Outcome2d(ROCSHMEM_ERROR, None, None, tracked)
    else
      SoundTeam(parent.value);
      var x := RowLength(NumPes(parent.value), xrange);
      var a := AxisLoop(env, tracked, parent.value, X, x, 0, None, xcreated);
      if a.ret != 0 then Outcome2d(a.ret, a.team, None, a.tracked)
      else
        var b := AxisLoop(env, a.tracked, parent.value, Y, x, 0, None, ycreated);
        Outcome2d(b.ret, a.team, b.team, b.tracked)
  }

  // On a member of a nested parent.

  /** This PE is number `p` of a parent whose splits all stay inside. */
  ghost predicate Here(env: Env, parent: Team, p: nat) {
    && Sound(parent) && Nested(parent) && Root(parent) == World(env.numPes) && IsInt(env.numPes)
    && p < NumPes(parent) && env.myPe == PeInWorld(parent, p)
  }

  /** Member `p` of the parent is in the child exactly if the split counts it, with that
      number. */
  lemma ChildNumber(env: Env, parent: Team, p: nat, start: nat, stride: nat, size: nat, k: nat)
    requires Here(env, parent, p) && SaneSplit(parent, start, stride, size)
    requires k < size && p == Numbered(start, stride, k)
    ensures NewChild(parent, start, stride, size, env.myPe).myPe == k
  {
    var child := NewChild(parent, start, stride, size, env.myPe);
    SoundTeam(child);
    Reassociate(WorldStride(parent), start, stride, k);
    BackFromWorld(child, k);
    ActiveSetAgrees(parent, start, stride, size, env.myPe);
  }

  lemma ChildMember(env: Env, parent: Team, p: nat, start: nat, stride: nat, size: nat)
    requires Here(env, parent, p) && SaneSplit(parent, start, stride, size)
    ensures start + stride * (size - 1) < NumPes(parent) && NewChild(parent, start, stride, size, env.myPe).myPe >= 0
        ==> InSplit(start, stride, size, p)
  {
    var child := NewChild(parent, start, stride, size, env.myPe);
    SoundTeam(child);
    SoundTeam(parent);
    ActiveSetAgrees(parent, start, stride, size, env.myPe);
    if child.myPe >= 0 && start + stride * (size - 1) < NumPes(parent) {
      WorldFromBack(child, env.myPe);
      var k := PeInMyTeam(child, env.myPe);
      Reassociate(WorldStride(parent), start, stride, k);
      WithinLast(stride, k, size - 1);
      BackFromWorld(parent, start + stride * k);
      BackFromWorld(parent, p);
      assert p == Numbered(start, stride, k);
    }
  }

  /** The team of one axis that PE `p` ends up in. */
  function Mine(env: Env, parent: Team, axis: Axis, x: nat, p: nat): Team
    requires Here(env, parent, p) && 1 <= x <= NumPes(parent)
  {
    var s, i := NumPes(parent), Index(axis, x, p);
    Numbering(axis, s, x, p);
    Within(axis, s, x, i);
    NewChild(parent, Start(axis, x, i), Stride(axis, x), Size(axis, s, x, i), env.myPe)
  }

  /** One call of the loop: only my own row or column gives me a team. */
  lemma Call(env: Env, tracked: seq<Team>, parent: Team, axis: Axis, x: nat, i: nat, p: nat)
    requires Here(env, parent, p) && 1 <= x <= NumPes(parent) && i < Count(axis, NumPes(parent), x)
    ensures SplitStrided(env, tracked, Some(parent), Start(axis, x, i), Stride(axis, x),
                         Size(axis, NumPes(parent), x, i), true)
         == if |tracked| >= env.limit then Outcome(-1, None, tracked)
            else if i == Index(axis, x, p) then
              Outcome(0, Some(Mine(env, parent, axis, x, p)), tracked + [Mine(env, parent, axis, x, p)])
            else Outcome(0, None, tracked)
  {
    var s := NumPes(parent);
    var start, stride, size := Start(axis, x, i), Stride(axis, x), Size(axis, s, x, i);
    Within(axis, s, x, i);
    NestedAccepted(env, parent, start, stride, size);
    Partition(axis, s, x, i, p);
    var child := NewChild(parent, start, stride, size, env.myPe);
    if i == Index(axis, x, p) {
      Numbering(axis, s, x, p);
      ChildNumber(env, parent, p, start, stride, size, Index(Cross(axis), x, p));
    } else if child.myPe >= 0 {
      ChildMember(env, parent, p, start, stride, size);
    }
  }

  /** One iteration on a member PE. */
  lemma LoopStep(env: Env, tracked: seq<Team>, parent: Team, axis: Axis, x: nat, i: nat, p: nat, mine: Option<Team>)
    requires Here(env, parent, p) && 1 <= x <= NumPes(parent) && i < Count(axis, NumPes(parent), x)
    ensures AxisLoop(env, tracked, parent, axis, x, i, mine, true)
         == if |tracked| >= env.limit then Outcome(ROCSHMEM_ERROR, mine, tracked)
            else if i == Index(axis, x, p) then
              var team := Mine(env, parent, axis, x, p);
              AxisLoop(env, tracked + [team], parent, axis, x, i + 1, Some(team), true)
            else AxisLoop(env, tracked, parent, axis, x, i + 1, mine, true)
  {
    Call(env, tracked, parent, axis, x, i, p);
  }

  /** Past my own team the calls only ask for a free slot. */
  lemma {:induction false} LoopAfter(env: Env, tracked: seq<Team>, parent: Team, axis: Axis, x: nat, i: nat, p: nat,
                                     mine: Option<Team>)
    requires Here(env, parent, p) && 1 <= x <= NumPes(parent) && i > Index(axis, x, p)
    ensures AxisLoop(env, tracked, parent, axis, x, i, mine, true)
         == Outcome(if i < Count(axis, NumPes(parent), x) && |tracked| >= env.limit then ROCSHMEM_ERROR else 0,
                    mine, tracked)
    decreases Count(axis, NumPes(parent), x) - i
  {
    if i < Count(axis, NumPes(parent), x) {
      LoopStep(env, tracked, parent, axis, x, i, p, mine);
      if |tracked| < env.limit {
        LoopAfter(env, tracked, parent, axis, x, i + 1, p, mine);
      }
    }
  }

  /** What a whole loop comes to: my team takes a slot, and a call after it asks for one
      more to be free. */
  function LoopOutcome(env: Env, tracked: seq<Team>, team: Team, last: bool): Outcome {
    if |tracked| >= env.limit then Outcome(ROCSHMEM_ERROR, None, tracked)
    else Outcome(if !last && |tracked| + 1 >= env.limit then ROCSHMEM_ERROR else 0, Some(team), tracked + [team])
  }

  lemma {:induction false} LoopIs(env: Env, tracked: seq<Team>, parent: Team, axis: Axis, x: nat, i: nat, p: nat,
                                  team: Team)
    requires Here(env, parent, p) && 1 <= x <= NumPes(parent) && i <= Index(axis, x, p)
    requires team == Mine(env, parent, axis, x, p)
    ensures AxisLoop(env, tracked, parent, axis, x, i, None, true)
         == LoopOutcome(env, tracked, team, Index(axis, x, p) + 1 >= Count(axis, NumPes(parent), x))
    decreases Index(axis, x, p) - i
  {
    Numbering(axis, NumPes(parent), x, p);
    LoopStep(env, tracked, parent, axis, x, i, p, None);
    if |tracked| < env.limit {
      if i < Index(axis, x, p) {
        LoopIs(env, tracked, parent, axis, x, i + 1, p, team);
      } else {
        LoopTakes(env, tracked, parent, axis, x, p);
      }
    }
  }

  /** The iterations after the one that gives me my team. */
  lemma LoopTakes(env: Env, tracked: seq<Team>, parent: Team, axis: Axis, x: nat, p: nat)
    requires Here(env, parent, p) && 1 <= x <= NumPes(parent) && |tracked| < env.limit
    ensures var team := Mine(env, parent, axis, x, p);
            AxisLoop(env, tracked + [team], parent, axis, x, Index(axis, x, p) + 1, Some(team), true)
            == LoopOutcome(env, tracked, team, Index(axis, x, p) + 1 >= Count(axis, NumPes(parent), x))
  {
    var team := Mine(env, parent, axis, x, p);
    LoopAfter(env, tracked + [team], parent, axis, x, Index(axis, x, p) + 1, p, Some(team));
  }

  /** When the split succeeds: two free slots are needed, and a third unless this PE is in
      the last column, although only two teams are made. */
  predicate Succeeds(env: Env, used: nat, x: nat, p: nat)
    requires x >= 1
  {
    used + 2 <= env.limit && (p % x == x - 1 || used + 3 <= env.limit)
  }

  /** The row that PE `p` of the parent is in: `x` consecutive PEs, or what is left of them;
      the PE's number there is its column. */
  predicate IsRow(team: Team, s: nat, x: nat, p: nat)
    requires x >= 1
  {
    && team.Child? && team.start == p / x * x && team.stride == 1 && team.myPe == p % x
    && team.size == if p / x * x + x <= s then x else s - p / x * x
  }

  /** The column: every `x`-th PE to the end of the parent; the PE's number is its row. */
  predicate IsColumn(team: Team, s: nat, x: nat, p: nat)
    requires x >= 1
  {
    && team.Child? && team.start == p % x && team.stride == x && team.myPe == p / x
    && team.start + x * (team.size - 1) < s <= team.start + x * team.size
  }

  /** On every member PE, with team creation working, a two-dimensional split succeeds
      exactly if there are slots; then it tracks two more teams, the PE's row with its
      column as its number and the PE's column with its row as its number. A failing split
      leaves the teams for which there were slots behind, tracked and handed out. */
  lemma Split2dOutcome(env: Env, tracked: seq<Team>, parent: Team, xrange: nat, p: nat)
    requires Here(env, parent, p) && xrange >= 1
    ensures NumPes(parent) >= 1
    ensures var s := NumPes(parent);
            var x := if xrange > s then s else xrange;
            var o := Split2d(env, tracked, Some(parent), xrange, true, true);
            var xteam, yteam := Mine(env, parent, X, x, p), Mine(env, parent, Y, x, p);
            && IsRow(xteam, s, x, p) && IsColumn(yteam, s, x, p)
            && (o.ret == 0 <==> Succeeds(env, |tracked|, x, p))
            && o == if |tracked| >= env.limit then Outcome2d(ROCSHMEM_ERROR, None, None, tracked)
                    else if |tracked| + 1 == env.limit then
                      Outcome2d(ROCSHMEM_ERROR, Some(xteam), None, tracked + [xteam])
                    else Outcome2d(o.ret, Some(xteam), Some(yteam), tracked + [xteam, yteam])
  {
    SoundTeam(parent);
    var s, x := NumPes(parent), RowLength(NumPes(parent), xrange);
    var xteam, yteam := Mine(env, parent, X, x, p), Mine(env, parent, Y, x, p);
    LoopIs(env, tracked, parent, X, x, 0, p, xteam);
    LoopIs(env, tracked + [xteam], parent, Y, x, 0, p, yteam);
    assert tracked + [xteam] + [yteam] == tracked + [xteam, yteam];
    MineIsRow(env, parent, x, p);
    MineIsColumn(env, parent, x, p);
  }

  lemma MineIsRow(env: Env, parent: Team, x: nat, p: nat)
    requires Here(env, parent, p) && 1 <= x <= NumPes(parent)
    ensures IsRow(Mine(env, parent, X, x, p), NumPes(parent), x, p)
  {
    MyNumber(env, parent, X, x, p);
    Numbering(X, NumPes(parent), x, p);
    RowEnd(NumPes(parent), x, p / x);
  }

  lemma MineIsColumn(env: Env, parent: Team, x: nat, p: nat)
    requires Here(env, parent, p) && 1 <= x <= NumPes(parent)
    ensures IsColumn(Mine(env, parent, Y, x, p), NumPes(parent), x, p)
  {
    MyNumber(env, parent, Y, x, p);
    Numbering(Y, NumPes(parent), x, p);
    ColumnEnd(NumPes(parent), x, p % x);
  }

  /** Rows at least as long as the parent: one row holds the whole parent, and every PE is
      alone in its column. */
  lemma OneRow(env: Env, tracked: seq<Team>, parent: Team, xrange: nat, p: nat)
    requires Here(env, parent, p) && xrange >= NumPes(parent) >= 1 && |tracked| + 3 <= env.limit
    ensures var o := Split2d(env, tracked, Some(parent), xrange, true, true);
            && o.ret == 0 && o.xteam.Some? && o.yteam.Some? && o.xteam.value.Child? && o.yteam.value.Child?
            && o.xteam.value.start == 0 && o.xteam.value.stride == 1
            && o.xteam.value.size == NumPes(parent) && o.xteam.value.myPe == p
            && o.yteam.value.start == p && o.yteam.value.size == 1 && o.yteam.value.myPe == 0
  {
    Split2dOutcome(env, tracked, parent, xrange, p);
    DivMod(0, p, NumPes(parent));
  }

  /** Without a parent or a row length the split is an error and makes no team. */
  lemma Split2dRefuses(env: Env, tracked: seq<Team>, parent: Option<Team>, xrange: int, xcreated: bool, ycreated: bool)
    requires (parent.Some? ==> Sound(parent.value)) && (parent.None? || xrange < 1)
    ensures Split2d(env, tracked, parent, xrange, xcreated, ycreated) == Outcome2d(1, None, None, tracked)
  {
  }

  lemma MyNumber(env: Env, parent: Team, axis: Axis, x: nat, p: nat)
    requires Here(env, parent, p) && 1 <= x <= NumPes(parent)
    ensures Mine(env, parent, axis, x, p).myPe == Index(Cross(axis), x, p)
  {
    var s, i := NumPes(parent), Index(axis, x, p);
    Numbering(axis, s, x, p);
    Within(axis, s, x, i);
    ChildNumber(env, parent, p, Start(axis, x, i), Stride(axis, x), Size(axis, s, x, i), Index(Cross(axis), x, p));
  }

  /** Four PEs in rows of two, with two slots each: the same call succeeds on the PEs of the
      last column and fails on the others. */
  lemma ThirdSlotNeeded(world: Team, p: nat)
    requires world == World(4) && p < 4
    ensures Split2d(Env(4, p, 2), [], Some(world), 2, true, true).ret == 0 <==> p % 2 == 1
  {
    Split2dOutcome(Env(4, p, 2), [], world, 2, p);
  }
}
