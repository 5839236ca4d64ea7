/**
 The combat resolver behind the server's `shoot` handler, as pure functions:
 a sphere hit test against every other live ship, a fixed damage per shot,
 and the death transition. `Resolve` follows the handler's `forEach` over the
 table one entry at a time; the lemmas below give its outcome in closed form.
 */
module Combat {
  import opened Protocol

  /** Damage one shot deals to each ship it reaches. */
  const Damage: int := 34

  /** A ship is hit when the shot lands strictly closer than this to it. */
  const HitRadius: real := 2.2

  function SquaredDistance(a: Vec3, b: Vec3): real
  {
    (a.x - b.x) * (a.x - b.x) + (a.y - b.y) * (a.y - b.y) + (a.z - b.z) * (a.z - b.z)
  }

  /** `Math.sqrt(dx*dx + dy*dy + dz*dz) < 2.2`, squared on both sides. */
  predicate WithinHitRadius(ship: Vec3, shot: Vec3)
  {
    SquaredDistance(ship, shot) < HitRadius * HitRadius
  }

  /** The record as the shot leaves it when the shot reaches it. */
  function Damaged(p: Player): Player
  {
    var hp := p.hp - Damage;
    if hp <= 0 then p.(hp := hp, alive := false, deaths := p.deaths + 1) else p.(hp := hp)
  }

  /** The shot reaches `p`: it is alive and within the hit radius. */
  predicate Reached(p: Player, shot: Vec3)
  {
    p.alive && WithinHitRadius(p.position, shot)
  }

  /** The shot kills `p`. */
  predicate Fatal(p: Player, shot: Vec3)
  {
    Reached(p, shot) && p.hp - Damage <= 0
  }

  /** The target's record after the shot, independent of every other record. */
  function Outcome(p: Player, shot: Vec3): (r: Player)
    ensures r.id == p.id && r.position == p.position && r.rotation == p.rotation
    ensures r.color == p.color && r.username == p.username && r.kills == p.kills
    ensures r.hp == if Reached(p, shot) then p.hp - Damage else p.hp
    ensures r.alive == (p.alive && !Fatal(p, shot))
    ensures r.deaths == if Fatal(p, shot) then p.deaths + 1 else p.deaths
  {
    if Reached(p, shot) then Damaged(p) else p
  }

  /** The health invariant the server keeps: alive exactly while hp is positive, hp at most 100 and above -34. */
  predicate HealthConsistent(p: Player)
  {
    (p.alive <==> p.hp > 0) && -Damage < p.hp <= MaxHp
  }

  /** The state the `forEach` threads through its iterations: the table and the events emitted so far. */
  datatype Progress = Progress(players: map<string, Player>, events: seq<Emit>)

  /**
   One iteration of the `forEach`, for entry `pid`: skip the shooter and dead
   ships; damage a ship within range; on death, count the kill and the death
   and emit `playerDied` then the scoreboard; otherwise emit `playerHit` with
   the new hp.
   */
  function Step(c: Progress, order: seq<string>, shooter: string, shot: Vec3, pid: string): (r: Progress)
    requires shooter in c.players
    requires forall i :: 0 <= i < |order| ==> order[i] in c.players
    ensures r.players.Keys == c.players.Keys
    ensures forall t :: t in c.players && t != pid && t != shooter ==> r.players[t] == c.players[t]
    ensures pid != shooter && pid in c.players ==> r.players[pid] == Outcome(c.players[pid], shot)
    ensures r.players[shooter].kills == c.players[shooter].kills
      + (if pid != shooter && pid in c.players && Fatal(c.players[pid], shot) then 1 else 0)
    ensures r.players[shooter] == c.players[shooter].(kills := r.players[shooter].kills)
    ensures |r.events| >= |c.events| && r.events[..|c.events|] == c.events
  {
    if pid == shooter || pid !in c.players || !Reached(c.players[pid], shot) then c
    else
      var t := Damaged(c.players[pid]);
      if t.alive then
        Progress(c.players[pid := t], c.events + [Emit(Everyone, PlayerHit(pid, t.hp))])
      else
        var s := c.players[shooter];
        var m := c.players[pid := t][shooter := s.(kills := s.kills + 1)];
        Progress(m, c.events + [Emit(Everyone, PlayerDied(pid)), Emit(Everyone, Scoreboard(ScoreboardOf(m, order)))])
  }

  /** The `forEach` over the entries `ids`, in that order. */
  function Resolve(c: Progress, order: seq<string>, shooter: string, shot: Vec3, ids: seq<string>): (r: Progress)
    requires shooter in c.players
    requires forall i :: 0 <= i < |order| ==> order[i] in c.players
    ensures r.players.Keys == c.players.Keys
    decreases |ids|
  {
    if ids == [] then c
    else
      var prev := Resolve(c, order, shooter, shot, ids[..|ids| - 1]);
      Step(prev, order, shooter, shot, ids[|ids| - 1])
  }

  /** An iteration only appends to the events already emitted. */
  lemma StepAppendsTo(c: Progress, order: seq<string>, shooter: string, shot: Vec3, pid: string)
    requires shooter in c.players
    requires forall i :: 0 <= i < |order| ==> order[i] in c.players
    ensures Step(c, order, shooter, shot, pid).players == Step(Progress(c.players, []), order, shooter, shot, pid).players
    ensures Step(c, order, shooter, shot, pid).events == c.events + Step(Progress(c.players, []), order, shooter, shot, pid).events
  {
  }

  /** How many of the entries `ids` the shot kills, the shooter aside. */
  function Kills(players: map<string, Player>, shooter: string, shot: Vec3, ids: seq<string>): nat
    decreases |ids|
  {
    if ids == [] then 0
    else
      var last := ids[|ids| - 1];
      Kills(players, shooter, shot, ids[..|ids| - 1])
        + if last != shooter && last in players && Fatal(players[last], shot) then 1 else 0
  }

  /**
   The records a shot leaves in closed form: each other ship visited ends as
   `Outcome` of its own record before the shot, every other record is
   untouched, and the shooter's record differs only in kills, which rise by
   the number of ships killed.
   */
  lemma {:induction false} ResolveClosedForm(c: Progress, order: seq<string>, shooter: string, shot: Vec3, ids: seq<string>)
    requires shooter in c.players
    requires forall i :: 0 <= i < |order| ==> order[i] in c.players
    requires Distinct(ids)
    ensures forall t :: t in c.players && t != shooter ==>
      Resolve(c, order, shooter, shot, ids).players[t] == if t in ids then Outcome(c.players[t], shot) else c.players[t]
    ensures Resolve(c, order, shooter, shot, ids).players[shooter]
      == c.players[shooter].(kills := c.players[shooter].kills + Kills(c.players, shooter, shot, ids))
    decreases |ids|
  {
    if ids != [] {
      var init, last := ids[..|ids| - 1], ids[|ids| - 1];
      assert Distinct(init);
      ResolveClosedForm(c, order, shooter, shot, init);
      assert last !in init;
      assert forall t :: t in ids <==> t in init || t == last;
    }
  }

  /** The ships a shot kills among the entries `ids`, the shooter aside. */
  ghost function KilledIn(players: map<string, Player>, shooter: string, shot: Vec3, ids: seq<string>): set<string>
  {
    set t | t in ids && t != shooter && t in players && Fatal(players[t], shot)
  }

  /** For distinct entries, `Kills` is the number of ships killed, whatever their order. */
  lemma {:induction false} KillsIsCount(players: map<string, Player>, shooter: string, shot: Vec3, ids: seq<string>)
    requires Distinct(ids)
    ensures Kills(players, shooter, shot, ids) == |KilledIn(players, shooter, shot, ids)|
    decreases |ids|
  {
    if ids != [] {
      var init, last := ids[..|ids| - 1], ids[|ids| - 1];
      assert Distinct(init);
      KillsIsCount(players, shooter, shot, init);
      assert last !in init;
      assert forall t :: t in ids <==> t in init || t == last;
      if last != shooter && last in players && Fatal(players[last], shot) {
        assert KilledIn(players, shooter, shot, ids) == KilledIn(players, shooter, shot, init) + {last};
      } else {
        assert KilledIn(players, shooter, shot, ids) == KilledIn(players, shooter, shot, init);
      }
    }
  }

  /**
   The table a shot leaves does not depend on the order in which the
   `forEach` visits the entries: any two orders of the same distinct keys
   give the same records. (The order of the emitted events does depend on it.)
   */
  lemma ResolveOrderFree(c: Progress, order: seq<string>, shooter: string, shot: Vec3, a: seq<string>, b: seq<string>)
    requires shooter in c.players
    requires forall i :: 0 <= i < |order| ==> order[i] in c.players
    requires Distinct(a) && Distinct(b)
    requires forall t :: t in a <==> t in b
    ensures Resolve(c, order, shooter, shot, a).players == Resolve(c, order, shooter, shot, b).players
  {
    var ra := Resolve(c, order, shooter, shot, a).players;
    var rb := Resolve(c, order, shooter, shot, b).players;
    ResolveClosedForm(c, order, shooter, shot, a);
    ResolveClosedForm(c, order, shooter, shot, b);
    KillsIsCount(c.players, shooter, shot, a);
    KillsIsCount(c.players, shooter, shot, b);
    assert KilledIn(c.players, shooter, shot, a) == KilledIn(c.players, shooter, shot, b);
    forall t | t in ra
      ensures ra[t] == rb[t]
    {
      if t == shooter {
        assert ra[t] == c.players[shooter].(kills := c.players[shooter].kills + Kills(c.players, shooter, shot, a));
        assert rb[t] == c.players[shooter].(kills := c.players[shooter].kills + Kills(c.players, shooter, shot, b));
      } else {
        assert ra[t] == if t in a then Outcome(c.players[t], shot) else c.players[t];
        assert rb[t] == if t in b then Outcome(c.players[t], shot) else c.players[t];
      }
    }
    assert ra == rb;
  }

  /** What one iteration appends: events about entry `pid` only, sent to everyone. */
  lemma StepAppends(c: Progress, order: seq<string>, shooter: string, shot: Vec3, pid: string)
    requires shooter in c.players
    requires forall i :: 0 <= i < |order| ==> order[i] in c.players
    ensures Step(c, order, shooter, shot, pid).events[..|c.events|] == c.events
    ensures forall e :: e in Step(c, order, shooter, shot, pid).events[|c.events|..] ==>
      e.to == Everyone && (e.msg.PlayerHit? || e.msg.PlayerDied? || e.msg.Scoreboard?)
    ensures forall t, hp :: Emit(Everyone, PlayerHit(t, hp)) in Step(c, order, shooter, shot, pid).events[|c.events|..] <==>
      t == pid && t != shooter && t in c.players && Reached(c.players[t], shot) && !Fatal(c.players[t], shot)
      && hp == c.players[t].hp - Damage
    ensures forall t :: Emit(Everyone, PlayerDied(t)) in Step(c, order, shooter, shot, pid).events[|c.events|..] <==>
      t == pid && t != shooter && t in c.players && Fatal(c.players[t], shot)
  {
  }

  /**
   Exactly what one iteration emits: nothing for the shooter, a dead ship or
   a ship out of range; `playerHit` with the new hp for a ship it wounds; and
   for a ship it kills, `playerDied` followed at once by the scoreboard of the
   table with that death and the shooter's kill already counted.
   */
  lemma StepEventsExact(c: Progress, order: seq<string>, shooter: string, shot: Vec3, pid: string)
    requires shooter in c.players
    requires forall i :: 0 <= i < |order| ==> order[i] in c.players
    ensures var r := Step(c, order, shooter, shot, pid);
      r.events == c.events +
        if pid == shooter || pid !in c.players || !Reached(c.players[pid], shot) then []
        else if Fatal(c.players[pid], shot) then
          [Emit(Everyone, PlayerDied(pid)), Emit(Everyone, Scoreboard(ScoreboardOf(r.players, order)))]
        else [Emit(Everyone, PlayerHit(pid, c.players[pid].hp - Damage))]
  {
  }

  /**
   Every `playerDied` in `e` is followed at once by a `scoreboard`, and every
   `scoreboard` comes right after a `playerDied`: scoreboards are sent only
   for kills, one per kill.
   */
  ghost predicate DiedFollowed(e: seq<Emit>)
  {
    && (forall k :: 0 <= k < |e| && e[k].msg.PlayerDied? ==> k + 1 < |e| && e[k + 1].msg.Scoreboard?)
    && (forall k :: 0 <= k < |e| && e[k].msg.Scoreboard? ==> 0 < k && e[k - 1].msg.PlayerDied?)
  }

  lemma DiedFollowedAppend(a: seq<Emit>, b: seq<Emit>)
    requires DiedFollowed(a) && DiedFollowed(b)
    ensures DiedFollowed(a + b)
  {
    var ab := a + b;
    forall k | 0 <= k < |ab| && ab[k].msg.PlayerDied?
      ensures k + 1 < |ab| && ab[k + 1].msg.Scoreboard?
    {
      if k < |a| {
        assert a[k].msg.PlayerDied?;
      } else {
        assert b[k - |a|].msg.PlayerDied?;
      }
    }
    forall k | 0 <= k < |ab| && ab[k].msg.Scoreboard?
      ensures 0 < k && ab[k - 1].msg.PlayerDied?
    {
      if k < |a| {
        assert a[k].msg.Scoreboard?;
      } else {
        assert b[k - |a|].msg.Scoreboard?;
      }
    }
  }

  /**
   Over a whole shot every `playerDied` is followed at once by a scoreboard,
   and no scoreboard is sent except right after a `playerDied`.
   */
  lemma {:induction false} DiedThenScoreboard(c: Progress, order: seq<string>, shooter: string, shot: Vec3, ids: seq<string>)
    requires shooter in c.players
    requires forall i :: 0 <= i < |order| ==> order[i] in c.players
    requires DiedFollowed(c.events)
    ensures DiedFollowed(Resolve(c, order, shooter, shot, ids).events)
    decreases |ids|
  {
    if ids != [] {
      var init, last := ids[..|ids| - 1], ids[|ids| - 1];
      DiedThenScoreboard(c, order, shooter, shot, init);
      var prev := Resolve(c, order, shooter, shot, init);
      assert Resolve(c, order, shooter, shot, ids) == Step(prev, order, shooter, shot, last);
      StepEventsExact(prev, order, shooter, shot, last);
      var r := Step(prev, order, shooter, shot, last);
      var added := r.events[|prev.events|..];
      assert r.events == prev.events + added;
      assert DiedFollowed(added);
      DiedFollowedAppend(prev.events, added);
    }
  }

  /**
   The events of a whole shot: `playerHit` exactly for the ships the shot
   wounds, carrying their new hp, and `playerDied` exactly for the ships it
   kills; every event goes to everyone and none is about the shooter.
   */
  lemma {:induction false} ResolveEvents(c: Progress, order: seq<string>, shooter: string, shot: Vec3, ids: seq<string>)
    requires shooter in c.players
    requires forall i :: 0 <= i < |order| ==> order[i] in c.players
    requires c.events == []
    requires Distinct(ids)
    ensures forall e :: e in Resolve(c, order, shooter, shot, ids).events ==>
      e.to == Everyone && (e.msg.PlayerHit? || e.msg.PlayerDied? || e.msg.Scoreboard?)
    ensures forall t, hp :: Emit(Everyone, PlayerHit(t, hp)) in Resolve(c, order, shooter, shot, ids).events <==>
      t in ids && t != shooter && t in c.players && Reached(c.players[t], shot) && !Fatal(c.players[t], shot)
      && hp == c.players[t].hp - Damage
    ensures forall t :: Emit(Everyone, PlayerDied(t)) in Resolve(c, order, shooter, shot, ids).events <==>
      t in ids && t != shooter && t in c.players && Fatal(c.players[t], shot)
    decreases |ids|
  {
    if ids != [] {
      var init, last := ids[..|ids| - 1], ids[|ids| - 1];
      assert Distinct(init);
      ResolveEvents(c, order, shooter, shot, init);
      ResolveClosedForm(c, order, shooter, shot, init);
      var prev := Resolve(c, order, shooter, shot, init);
      var r := Resolve(c, order, shooter, shot, ids);
      assert r == Step(prev, order, shooter, shot, last);
      StepAppends(prev, order, shooter, shot, last);
      assert last !in init;
      assert last != shooter && last in c.players ==> prev.players[last] == c.players[last];
      var added := r.events[|prev.events|..];
      assert r.events == prev.events + added;
      assert forall e :: e in r.events <==> e in prev.events || e in added;
    }
  }

  /** A shot keeps every record health-consistent. */
  lemma OutcomeKeepsHealth(p: Player, shot: Vec3)
    requires HealthConsistent(p)
    ensures HealthConsistent(Outcome(p, shot))
    ensures Outcome(p, shot).kills == p.kills && Outcome(p, shot).deaths >= p.deaths
    ensures Outcome(p, shot).id == p.id
  {
  }
}
