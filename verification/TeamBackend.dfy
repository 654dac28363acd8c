/** The team calls of one PE, with the tracker's list of user teams. */
module TeamBackend {
  import opened MachineInts
  import opened Options
  import opened Teams
  import opened TeamGrid
  import opened TeamSplit2d

  class Backend {
    const env: Env
    var teams: seq<Team>

    /** Every user team was made by splits that passed the checks, and none is over the limit. */
    ghost predicate Ready()
      reads this
    {
      |teams| <= env.limit && forall t :: t in teams ==> t.Child? && Sound(t)
    }

    constructor (numPes: nat, myPe: nat, configured: nat, reserved: nat)
      ensures Ready() && teams == [] && env == Env(numPes, myPe, Limit(configured, reserved))
    {
      env := Env(numPes, myPe, Limit(configured, reserved));
      teams := [];
    }

    method TeamSplitStrided(parent: Option<Team>, start: int, stride: int, size: int, created: bool)
      returns (ret: int, team: Option<Team>)
      requires Ready() && (parent.Some? ==> Sound(parent.value))
      modifies this`teams
      ensures Ready()
      ensures Outcome(ret, team, teams) == SplitStrided(env, old(teams), parent, start, stride, size, created)
      ensures team.Some? ==> ret == 0 && team.value.Child? && teams == old(teams) + [team.value]
      ensures team.Some? ==> WorldStride(team.value) >= 1 && team.value.myPe == PeInMyTeam(team.value, env.myPe)
      ensures team.None? ==> teams == old(teams)
      ensures |old(teams)| >= env.limit ==> ret == -1
      ensures |old(teams)| < env.limit && parent.None? ==> ret == 0
      ensures |old(teams)| < env.limit && parent.Some? ==>
                var p := parent.value;
                var last := WorldStart(p) + WorldStride(p) * start + stride * WorldStride(p) * (size - 1);
                (ret == -1 <==>
                   || start < 0 || start >= NumPes(p) || size < 1 || size > NumPes(p) || stride < 1
                   || IntCast(last) > env.numPes)
    {
      team := None;
      if |teams| >= env.limit {
        return -1, None;
      }
      if parent.None? {
        return 0, None;
      }
      var p := parent.value;
      if start < 0 || start >= NumPes(p) || size < 1 || size > NumPes(p) || stride < 1 {
        return -1, None;
      }
      var worldStart := PeInWorld(p, start);
      var worldStride := stride * WorldStride(p);
      if IntCast(worldStart + worldStride * (size - 1)) > env.numPes {
        return -1, None;
      }
      ghost var child := NewChild(p, start, stride, size, env.myPe);
      SoundTeam(child);
      var my := PeInActiveSet(worldStart, worldStride, size, env.myPe);
      if my >= 0 {
        if !created {
          return ROCSHMEM_ERROR, None;
        }
        ActiveSetAgrees(p, start, stride, size, env.myPe);
        team := Some(Child(p, start, stride, size, worldStart, worldStride, my));
        teams := teams + [team.value];
      }
      ret := 0;
    }

    /** First loop of `rocshmem_team_split_2d`: rows of the parent. */
    method MakeXTeams(p: Team, x: nat, created: bool) returns (ret: int, xteam: Option<Team>)
      requires Ready() && Sound(p) && x >= 1
      modifies this`teams
      ensures Ready()
      ensures Outcome(ret, xteam, teams) == AxisLoop(env, old(teams), p, X, x, 0, None, created)
    {
      SoundTeam(p);
      var s := NumPes(p);
      var numX, remainder, start := (s + x - 1) / x, s % x, 0;
      xteam := None;
      NextRow(x, 0);
      for i := 0 to numX
        invariant Ready() && start == Start(X, x, i)
        invariant AxisLoop(env, teams, p, X, x, i, xteam, created)
               == AxisLoop(env, old(teams), p, X, x, 0, None, created)
      {
        var size := if i == numX - 1 && remainder != 0 then remainder else x;
        var r, mine := TeamSplitStrided(Some(p), start, 1, size, created);
        if r != 0 {
          return ROCSHMEM_ERROR, xteam;
        }
        NextRow(x, i);
        start := start + x;
        if mine.Some? {
          xteam := mine;
        }
      }
      ret := 0;
    }

    /** Second loop: columns. */
    method MakeYTeams(p: Team, x: nat, created: bool) returns (ret: int, yteam: Option<Team>)
      requires Ready() && Sound(p) && x >= 1
      modifies this`teams
      ensures Ready()
      ensures Outcome(ret, yteam, teams) == AxisLoop(env, old(teams), p, Y, x, 0, None, created)
    {
      SoundTeam(p);
      var yrange, remainder, start := NumPes(p) / x, NumPes(p) % x, 0;
      yteam := None;
      for i := 0 to x
        invariant Ready() && start == i
        invariant AxisLoop(env, teams, p, Y, x, i, yteam, created)
               == AxisLoop(env, old(teams), p, Y, x, 0, None, created)
      {
        var size := yrange;
        if remainder != 0 && i < remainder {
          size := size + 1;
        }
        assert start == Start(Y, x, i) && x == Stride(Y, x) && size == Size(Y, NumPes(p), x, i);
        var r, mine := TeamSplitStrided(Some(p), start, x, size, created);
        if r != 0 {
          return ROCSHMEM_ERROR, yteam;
        }
        start := start + 1;
        if mine.Some? {
          yteam := mine;
        }
      }
      ret := 0;
    }

    method TeamSplit2d(parent: Option<Team>, xrange: int, xcreated: bool, ycreated: bool)
      returns (ret: int, xteam: Option<Team>, yteam: Option<Team>)
      requires Ready() && (parent.Some? ==> Sound(parent.value))
      modifies this`teams
      ensures Ready()
      ensures Outcome2d(ret, xteam, yteam, teams) == Split2d(env, old(teams), parent, xrange, xcreated, ycreated)
    {
      yteam, xteam := None, None;
      if parent.None? || xrange < 1 {
        return ROCSHMEM_ERROR, xteam, yteam;
      }
      var p := parent.value;
      SoundTeam(p);
      var x := if xrange > NumPes(p) then NumPes(p) else xrange;
      ret, xteam := MakeXTeams(p, x, xcreated);
      if ret == 0 {
        ret, yteam := MakeYTeams(p, x, ycreated);
      }
    }

    /** `destroy_all`: hands every user team to `team_destroy`, last one first. */
    method DestroyAll() returns (destroyed: seq<Team>)
      requires Ready()
      modifies this`teams
      ensures Ready() && teams == []
      ensures |destroyed| == |old(teams)|
      ensures forall i :: 0 <= i < |destroyed| ==> destroyed[i] == old(teams)[|destroyed| - 1 - i]
    {
      destroyed := [];
      while teams != []
        invariant Ready() && |destroyed| + |teams| == |old(teams)| && teams == old(teams)[..|teams|]
        invariant forall i :: 0 <= i < |destroyed| ==> destroyed[i] == old(teams)[|old(teams)| - 1 - i]
        decreases |teams|
      {
        destroyed := destroyed + [teams[|teams| - 1]];
        teams := teams[..|teams| - 1];
      }
    }
  }
}
