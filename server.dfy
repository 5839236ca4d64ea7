/**
 The authoritative game server: a player table keyed by connection id and a
 username counter, changed by one socket handler at a time. Each handler runs
 to completion and returns the events it emits, in emission order.
 */
module GameServer {
  import opened Protocol
  import opened Usernames
  import opened Combat

  /** `s` without the key `x`: the property order after `delete`. */
  function Without(s: seq<string>, x: string): (r: seq<string>)
    ensures forall y :: y in r <==> y in s && y != x
    ensures Distinct(s) ==> Distinct(r)
    decreases |s|
  {
    if s == [] then []
    else if s[0] == x then Without(s[1..], x)
    else
      var rest := Without(s[1..], x);
      assert Distinct(s) ==> s[0] !in s[1..];
      [s[0]] + rest
  }

  /** Deleting a key that is present keeps the other keys in their order. */
  lemma {:induction false} WithoutClosedForm(s: seq<string>, x: string, k: nat)
    requires Distinct(s) && k < |s| && s[k] == x
    ensures Without(s, x) == s[..k] + s[k + 1..]
    decreases |s|
  {
    if k == 0 {
      assert s[0] !in s[1..];
      WithoutAbsent(s[1..], x);
    } else {
      assert Distinct(s[1..]);
      WithoutClosedForm(s[1..], x, k - 1);
      assert s[1..][..k - 1] == s[1..k];
      assert s[1..][k..] == s[k + 1..];
      assert s[..k] == [s[0]] + s[1..k];
    }
  }

  /** Deleting an absent key changes nothing. */
  lemma {:induction false} WithoutAbsent(s: seq<string>, x: string)
    requires x !in s
    ensures Without(s, x) == s
    decreases |s|
  {
    if s != [] {
      WithoutAbsent(s[1..], x);
      assert s == [s[0]] + s[1..];
    }
  }

  /**
   The events of a shot by a live shooter, with the relayed shot appended:
   `playerHit` exactly for the ships wounded, with a positive hp of at most
   66, and `playerDied` exactly for the ships killed.
   */
  lemma ShotEvents(players: map<string, Player>, order: seq<string>, shooter: string, shot: Vec3, relay: Emit)
    requires KeyOrder(players, order) && shooter in players
    requires forall t :: t in players ==> HealthConsistent(players[t])
    requires relay.msg.PlayerShot?
    ensures var out := Resolve(Progress(players, []), order, shooter, shot, order).events + [relay];
      && (forall t, hp :: Emit(Everyone, PlayerHit(t, hp)) in out <==>
            t in players && t != shooter && Reached(players[t], shot) && !Fatal(players[t], shot)
            && hp == players[t].hp - Damage)
      && (forall t :: Emit(Everyone, PlayerDied(t)) in out <==>
            t in players && t != shooter && Fatal(players[t], shot))
      && (forall t, hp :: Emit(Everyone, PlayerHit(t, hp)) in out ==> 0 < hp <= MaxHp - Damage)
      && DiedFollowed(out)
  {
    var events := Resolve(Progress(players, []), order, shooter, shot, order).events;
    ResolveEvents(Progress(players, []), order, shooter, shot, order);
    DiedThenScoreboard(Progress(players, []), order, shooter, shot, order);
    DiedFollowedAppend(events, [relay]);
    assert forall e :: e in events + [relay] <==> e in events || e == relay;
  }

  class Server {
    /** The player table, `players[socket.id]`. */
    var players: map<string, Player>
    /** The table's keys in property order, which `Object.entries` and `Object.values` follow. */
    var order: seq<string>
    /** The next number `randomUsername` hands out. */
    var userCount: nat

    ghost predicate Valid()
      reads this
    {
      && KeyOrder(players, order)
      && userCount >= 1
      && (forall id :: id in players ==> players[id].id == id && HealthConsistent(players[id]))
    }

    constructor ()
      ensures Valid()
      ensures players == map[] && order == [] && userCount == 1
    {
      players, order, userCount := map[], [], 1;
    }

    /** `randomUsername`: `Player<N>` from the counter, which moves on by one. */
    method RandomUsername() returns (name: string)
      modifies this`userCount
      ensures name == Generated(old(userCount))
      ensures userCount == old(userCount) + 1
    {
      name := Generated(userCount);
      userCount := userCount + 1;
    }

    /**
     The `connection` handler: one new record with full health, no score, a
     zero rotation, the given spawn point and hue, and a generated name; the
     snapshot goes to the new client, the record to the others and the
     scoreboard to everyone.
     */
    method Connect(id: string, spawn: Vec3, hue: nat) returns (out: seq<Emit>)
      requires Valid()
      requires id !in players
      requires ValidSpawn(spawn) && hue < HueCount
      modifies this
      ensures Valid()
      ensures id in players && |players| == |old(players)| + 1
      ensures players == old(players)[id := Player(id, spawn, Origin, Hsl(hue), MaxHp, true, 0, 0, Generated(old(userCount)))]
      ensures order == old(order) + [id]
      ensures userCount == old(userCount) + 1
      ensures out == [
        Emit(Sender, CurrentPlayers(ValuesOf(players, order))),
        Emit(AllButSender, NewPlayer(players[id])),
        Emit(Everyone, Scoreboard(ScoreboardOf(players, order)))]
    {
      var color := Hsl(hue);
      var username := RandomUsername();
      players := players[id := Player(id, spawn, Origin, color, MaxHp, true, 0, 0, username)];
      order := order + [id];
      out := [
        Emit(Sender, CurrentPlayers(ValuesOf(players, order))),
        Emit(AllButSender, NewPlayer(players[id])),
        Emit(Everyone, Scoreboard(ScoreboardOf(players, order)))];
    }

    /**
     The `updateState` handler: the sender's position and rotation change
     only while the sender is in the table and alive; the move is relayed to
     the others either way.
     */
    method UpdateState(id: string, position: Vec3, rotation: Vec3) returns (out: seq<Emit>)
      requires Valid()
      modifies this
      ensures Valid()
      ensures players == if id in old(players) && old(players)[id].alive
        then old(players)[id := old(players)[id].(position := position, rotation := rotation)]
        else old(players)
      ensures order == old(order) && userCount == old(userCount)
      ensures out == [Emit(AllButSender, PlayerMoved(id, position, rotation))]
    {
      if id in players && players[id].alive {
        players := players[id := players[id].(position := position, rotation := rotation)];
      }
      out := [Emit(AllButSender, PlayerMoved(id, position, rotation))];
    }

    /**
     The `shoot` handler. A shooter that is unknown or dead changes nothing
     and emits nothing. Otherwise every entry is visited in property order as
     `Resolve` describes, and the shot itself is relayed to everyone last.
     */
    method Shoot(id: string, position: Vec3, rotation: Vec3, direction: Vec3, now: int) returns (out: seq<Emit>)
      requires Valid()
      modifies this
      ensures Valid()
      ensures order == old(order) && userCount == old(userCount)
      ensures id !in old(players) || !old(players)[id].alive ==> players == old(players) && out == []
      ensures id in old(players) && old(players)[id].alive ==>
        var r := Resolve(Progress(old(players), []), order, id, position, order);
        && players == r.players
        && out == r.events + [Emit(Everyone, PlayerShot(id, position, rotation, direction, now))]
      ensures id in old(players) && old(players)[id].alive ==>
        && players.Keys == old(players).Keys
        && (forall t :: t in players && t != id ==> players[t] == Outcome(old(players)[t], position))
        && players[id] == old(players)[id].(kills := old(players)[id].kills + Kills(old(players), id, position, order))
      ensures id in old(players) && old(players)[id].alive ==>
        && (forall t, hp :: Emit(Everyone, PlayerHit(t, hp)) in out <==>
              t in old(players) && t != id && Reached(old(players)[t], position) && !Fatal(old(players)[t], position)
              && hp == old(players)[t].hp - Damage)
        && (forall t :: Emit(Everyone, PlayerDied(t)) in out <==>
              t in old(players) && t != id && Fatal(old(players)[t], position))
        && (forall t, hp :: Emit(Everyone, PlayerHit(t, hp)) in out ==> 0 < hp <= MaxHp - Damage)
        && DiedFollowed(out)
    {
      if id !in players || !players[id].alive {
        return [];
      }
      ghost var start := Progress(players, []);
      out := VisitAll(id, position);
      ResolveClosedForm(start, order, id, position, order);
      forall t | t in players
        ensures players[t].id == t && HealthConsistent(players[t])
      {
        if t != id {
          OutcomeKeepsHealth(old(players)[t], position);
        }
      }
      var relay := Emit(Everyone, PlayerShot(id, position, rotation, direction, now));
      ShotEvents(old(players), order, id, position, relay);
      out := out + [relay];
    }

    /**
     The `forEach` callback of `shoot` for the entry `pid`: skip the shooter
     and dead ships; take 34 hp from a ship within range of the shot; on
     death, mark it dead, count the death and the shooter's kill, and emit
     `playerDied` and the scoreboard; otherwise emit `playerHit`.
     */
    method VisitTarget(shooter: string, shot: Vec3, pid: string) returns (events: seq<Emit>)
      requires shooter in players
      requires forall i :: 0 <= i < |order| ==> order[i] in players
      modifies this`players
      ensures Progress(players, events) == Step(Progress(old(players), []), order, shooter, shot, pid)
    {
      events := [];
      if pid == shooter || pid !in players || !players[pid].alive {
        return;
      }
      var p := players[pid];
      if WithinHitRadius(p.position, shot) {
        var hp := p.hp - Damage;
        if hp <= 0 {
          players := players[pid := p.(hp := hp, alive := false, deaths := p.deaths + 1)];
          players := players[shooter := players[shooter].(kills := players[shooter].kills + 1)];
          events := [Emit(Everyone, PlayerDied(pid)), Emit(Everyone, Scoreboard(ScoreboardOf(players, order)))];
        } else {
          players := players[pid := p.(hp := hp)];
          events := [Emit(Everyone, PlayerHit(pid, hp))];
        }
      }
    }

    /**
     The `Object.entries(players).forEach(...)` of `shoot`: the callback on
     every entry, in property order.
     */
    method VisitAll(id: string, position: Vec3) returns (out: seq<Emit>)
      requires id in players
      requires forall i :: 0 <= i < |order| ==> order[i] in players
      modifies this`players
      ensures Progress(players, out) == Resolve(Progress(old(players), []), order, id, position, order)
    {
      ghost var start := Progress(players, []);
      out := [];
      var i := 0;
      while i < |order|
        invariant 0 <= i <= |order|
        invariant players.Keys == old(players).Keys
        invariant start.players == old(players)
        invariant Progress(players, out) == Resolve(start, order, id, position, order[..i])
      {
        ghost var before := Progress(players, out);
        assert order[..i + 1][..i] == order[..i];
        assert Resolve(start, order, id, position, order[..i + 1]) == Step(before, order, id, position, order[i]);
        var events := VisitTarget(id, position, order[i]);
        StepAppendsTo(before, order, id, position, order[i]);
        out := out + events;
        i := i + 1;
      }
      assert order[..|order|] == order;
    }

    /**
     The respawn timer's callback for the ship `id` killed earlier: the
     captured record gets the new spawn point, full health and life back, and
     `playerRespawn` goes to everyone. The callback does not consult the
     table, so a ship that disconnected in the meantime stays gone while the
     event is still emitted.
     */
    method Respawn(id: string, spawn: Vec3) returns (out: seq<Emit>)
      requires Valid()
      requires ValidSpawn(spawn)
      modifies this
      ensures Valid()
      ensures players == if id in old(players)
        then old(players)[id := old(players)[id].(position := spawn, hp := MaxHp, alive := true)]
        else old(players)
      ensures order == old(order) && userCount == old(userCount)
      ensures out == [Emit(Everyone, PlayerRespawn(id, spawn))]
    {
      if id in players {
        players := players[id := players[id].(position := spawn, hp := MaxHp, alive := true)];
      }
      out := [Emit(Everyone, PlayerRespawn(id, spawn))];
    }

    /**
     The `setUsername` handler: for a known sender, store the first 16
     characters of the name, or a generated name when that is empty (which
     uses up a counter value), and send the scoreboard to everyone; for an
     unknown sender, do nothing.
     */
    method SetUsername(id: string, name: string) returns (out: seq<Emit>)
      requires Valid()
      modifies this
      ensures Valid()
      ensures order == old(order)
      ensures id !in old(players) ==> players == old(players) && userCount == old(userCount) && out == []
      ensures id in old(players) ==>
        && players == old(players)[id := old(players)[id].(username := ChosenName(name, old(userCount)))]
        && userCount == old(userCount) + (if name == [] then 1 else 0)
        && out == [Emit(Everyone, Scoreboard(ScoreboardOf(players, order)))]
    {
      if id in players {
        var chosen := Truncated(name);
        if chosen == [] {
          chosen := RandomUsername();
        }
        players := players[id := players[id].(username := chosen)];
        out := [Emit(Everyone, Scoreboard(ScoreboardOf(players, order)))];
      } else {
        out := [];
      }
    }

    /**
     The `disconnect` handler: exactly the sender's key leaves the table, and
     the departure and the new scoreboard go to everyone.
     */
    method Disconnect(id: string) returns (out: seq<Emit>)
      requires Valid()
      modifies this
      ensures Valid()
      ensures players == old(players) - {id}
      ensures id !in players && forall t :: t in players ==> players[t] == old(players)[t]
      ensures order == Without(old(order), id) && userCount == old(userCount)
      ensures out == [Emit(Everyone, PlayerDisconnected(id)), Emit(Everyone, Scoreboard(ScoreboardOf(players, order)))]
    {
      players := players - {id};
      order := Without(order, id);
      assert forall i :: 0 <= i < |order| ==> order[i] in order;
      out := [Emit(Everyone, PlayerDisconnected(id)), Emit(Everyone, Scoreboard(ScoreboardOf(players, order)))];
    }
  }
}
