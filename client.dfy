/**
 The browser client's mirror of the server state: the `otherPlayers`
 dictionary, the local ship's `hp`, `alive` and movement flags, and the
 scoreboard rows, updated by the socket event handlers.
 */
module Client {
  import opened Protocol
  import opened ScoreboardOrder

  /** The `move` flags the keyboard sets. */
  datatype MoveFlags = MoveFlags(forward: bool, backward: bool, left: bool, right: bool)

  const Still: MoveFlags := MoveFlags(false, false, false, false)

  /** What the client last heard about another ship: its full record on joining, or its last move. */
  datatype LastState =
    | Joined(player: Player)
    | Moved(id: string, position: Vec3, rotation: Vec3)
  {
    function Id(): string
    {
      match this
      case Joined(p) => p.id
      case Moved(id, _, _) => id
    }
  }

  /** One entry of `otherPlayers`, with the transform and visibility of its ship mesh. */
  datatype OtherPlayer = OtherPlayer(
    color: Color,
    lastState: LastState,
    hp: int,
    position: Vec3,
    rotation: Vec3,
    visible: bool)

  /** The entry `addOtherPlayer` creates: a new, visible mesh placed as the record says, and full health. */
  function NewEntry(p: Player): OtherPlayer
  {
    OtherPlayer(p.color, Joined(p), MaxHp, p.position, p.rotation, true)
  }

  /** `otherPlayers` after `addOtherPlayer(p)`. */
  function Added(others: map<string, OtherPlayer>, self: string, p: Player): (r: map<string, OtherPlayer>)
    ensures r.Keys == if p.id == self then others.Keys else others.Keys + {p.id}
    ensures forall id :: id in others ==> r[id] == others[id]
    ensures p.id != self && p.id !in others ==> r[p.id] == NewEntry(p) && r[p.id].hp == MaxHp
  {
    if p.id == self || p.id in others then others else others[p.id := NewEntry(p)]
  }

  /** `otherPlayers` after `addOtherPlayer` on each of `ps` in turn. */
  function AddedAll(others: map<string, OtherPlayer>, self: string, ps: seq<Player>): (r: map<string, OtherPlayer>)
    ensures others.Keys <= r.Keys
    ensures self in r <==> self in others
    decreases |ps|
  {
    if ps == [] then others else Added(AddedAll(others, self, ps[..|ps| - 1]), self, ps[|ps| - 1])
  }

  /** Ids a snapshot adds: every id of the list but the client's own. */
  function IdsOf(ps: seq<Player>, self: string): set<string>
  {
    set i | 0 <= i < |ps| && ps[i].id != self :: ps[i].id
  }

  /**
   Adding a list of players keeps every entry already there, never adds the
   client's own id, and adds every other id of the list.
   */
  lemma {:induction false} AddedAllKeeps(others: map<string, OtherPlayer>, self: string, ps: seq<Player>)
    ensures AddedAll(others, self, ps).Keys == others.Keys + IdsOf(ps, self)
    ensures forall id :: id in others ==> AddedAll(others, self, ps)[id] == others[id]
    ensures self in AddedAll(others, self, ps) <==> self in others
    decreases |ps|
  {
    if ps != [] {
      var init, last := ps[..|ps| - 1], ps[|ps| - 1];
      AddedAllKeeps(others, self, init);
      assert IdsOf(ps, self) == IdsOf(init, self) + (if last.id != self then {last.id} else {}) by {
        forall id | id in IdsOf(ps, self) ensures id in IdsOf(init, self) || (last.id != self && id == last.id) {
          var i :| 0 <= i < |ps| && ps[i].id != self && ps[i].id == id;
          if i < |init| { assert init[i] == ps[i]; }
        }
        forall id | id in IdsOf(init, self) ensures id in IdsOf(ps, self) {
          var i :| 0 <= i < |init| && init[i].id != self && init[i].id == id;
          assert ps[i] == init[i];
        }
      }
    }
  }

  /** The entry for a newly added id is made from the first record in the list that carries it. */
  lemma {:induction false} AddedAllEntry(others: map<string, OtherPlayer>, self: string, ps: seq<Player>, i: int)
    requires 0 <= i < |ps| && ps[i].id != self && ps[i].id !in others
    requires forall j :: 0 <= j < i ==> ps[j].id != ps[i].id
    ensures ps[i].id in AddedAll(others, self, ps)
    ensures AddedAll(others, self, ps)[ps[i].id] == NewEntry(ps[i])
    decreases |ps|
  {
    var init, last := ps[..|ps| - 1], ps[|ps| - 1];
    if i < |init| {
      AddedAllEntry(others, self, init, i);
    } else {
      AddedAllKeeps(others, self, init);
      assert ps[i].id !in IdsOf(init, self);
    }
  }

  /** A remote shot the client keeps to animate. */
  datatype RemoteShot = RemoteShot(position: Vec3, rotation: Vec3, direction: Vec3)

  /** What `otherProjectiles` holds at run time. */
  datatype ProjectileStore = PlainObject | ArrayOf(shots: seq<RemoteShot>)

  /** How a handler finishes: normally, leaving the store as given, or by throwing a `TypeError`. */
  datatype Completion = Normal(store: ProjectileStore) | ThrewTypeError

  /** `store.push(shot)`: only an array has `push`. */
  function Push(store: ProjectileStore, shot: RemoteShot): Completion
  {
    match store
    case PlainObject => ThrewTypeError
    case ArrayOf(shots) => Normal(ArrayOf(shots + [shot]))
  }

  /** The `playerShot` handler's projectile bookkeeping on a given store. */
  function ReceiveShot(store: ProjectileStore, self: string, id: string, shot: RemoteShot): (r: Completion)
    ensures r.ThrewTypeError? <==> id != self && store.PlainObject?
    ensures id == self ==> r == Normal(store)
    ensures r.Normal? && store.ArrayOf? ==>
      && r.store.ArrayOf?
      && |r.store.shots| == |store.shots| + (if id == self then 0 else 1)
      && r.store.shots[..|store.shots|] == store.shots
      && (id != self ==> r.store.shots[|store.shots|] == shot)
  {
    if id == self then Normal(store) else Push(store, shot)
  }

  /**
   As written, `otherProjectiles` is declared as `{}`, which has no `push`:
   every shot from another player makes the handler throw, and no remote
   projectile is ever recorded.
   */
  lemma RemoteShotThrowsAsWritten(self: string, id: string, shot: RemoteShot)
    requires id != self
    ensures ReceiveShot(PlainObject, self, id, shot) == ThrewTypeError
  {
  }

  /**
   With the store an array, as the animation loop that walks it by index
   expects, the client's own echo is ignored and every other shot is recorded
   exactly once, at the end.
   */
  lemma ReceiveShotIntended(shots: seq<RemoteShot>, self: string, id: string, shot: RemoteShot)
    ensures ReceiveShot(ArrayOf(shots), self, id, shot).Normal?
    ensures ReceiveShot(ArrayOf(shots), self, id, shot).store.shots
      == if id == self then shots else shots + [shot]
  {
  }

  class Mirror {
    /** `socket.id`: the id the server gave this client. */
    const self: string
    var otherPlayers: map<string, OtherPlayer>
    var hp: int
    var alive: bool
    var move: MoveFlags
    /** The local ship mesh's position and visibility. */
    var shipPosition: Vec3
    var shipVisible: bool
    var otherProjectiles: seq<RemoteShot>
    var scoreboardData: seq<ScoreEntry>

    /** The client never mirrors itself, and each entry is filed under the id it was last heard as. */
    ghost predicate Valid()
      reads this
    {
      && self !in otherPlayers
      && forall id :: id in otherPlayers ==> otherPlayers[id].lastState.Id() == id
    }

    constructor (id: string)
      ensures Valid()
      ensures self == id && otherPlayers == map[] && hp == MaxHp && alive && move == Still
      ensures shipPosition == Origin && shipVisible && otherProjectiles == [] && scoreboardData == []
    {
      self := id;
      otherPlayers := map[];
      hp, alive, move := MaxHp, true, Still;
      shipPosition, shipVisible := Origin, true;
      otherProjectiles, scoreboardData := [], [];
    }

    /**
     `addOtherPlayer` (also the `newPlayer` handler): ignore the client's own
     record and ids already present; otherwise add one entry at full health
     whose last state is the received record.
     */
    method AddOtherPlayer(p: Player)
      requires Valid()
      modifies this`otherPlayers
      ensures Valid()
      ensures p.id == self || p.id in old(otherPlayers) ==> otherPlayers == old(otherPlayers)
      ensures p.id != self && p.id !in old(otherPlayers) ==>
        otherPlayers == old(otherPlayers)[p.id := NewEntry(p)] && otherPlayers[p.id].hp == MaxHp
      ensures otherPlayers == Added(old(otherPlayers), self, p)
    {
      if p.id == self {
        return;
      }
      if p.id in otherPlayers {
        return;
      }
      otherPlayers := otherPlayers[p.id := NewEntry(p)];
    }

    /** `removeOtherPlayer` (the `playerDisconnected` handler): drop exactly that id, if present. */
    method RemoveOtherPlayer(id: string)
      requires Valid()
      modifies this`otherPlayers
      ensures Valid()
      ensures otherPlayers == old(otherPlayers) - {id}
      ensures id in old(otherPlayers) ==> |otherPlayers| == |old(otherPlayers)| - 1
      ensures id !in old(otherPlayers) ==> otherPlayers == old(otherPlayers)
    {
      if id in otherPlayers {
        otherPlayers := otherPlayers - {id};
      }
    }

    /**
     The `currentPlayers` handler: `addOtherPlayer` on every record of the
     snapshot, in order. The client's own record is never added.
     */
    method OnCurrentPlayers(players: seq<Player>)
      requires Valid()
      modifies this`otherPlayers
      ensures Valid()
      ensures otherPlayers == AddedAll(old(otherPlayers), self, players)
      ensures otherPlayers.Keys == old(otherPlayers).Keys + IdsOf(players, self)
      ensures forall id :: id in old(otherPlayers) ==> otherPlayers[id] == old(otherPlayers)[id]
    {
      var i := 0;
      while i < |players|
        invariant 0 <= i <= |players|
        invariant Valid()
        invariant otherPlayers == AddedAll(old(otherPlayers), self, players[..i])
      {
        assert players[..i + 1][..i] == players[..i];
        AddOtherPlayer(players[i]);
        i := i + 1;
      }
      assert players[..|players|] == players;
      AddedAllKeeps(old(otherPlayers), self, players);
    }

    /**
     The `playerMoved` handler: for a known id, move its mesh and record the
     move as its last state; for an unknown id, nothing.
     */
    method OnPlayerMoved(id: string, position: Vec3, rotation: Vec3)
      requires Valid()
      modifies this`otherPlayers
      ensures Valid()
      ensures otherPlayers == if id in old(otherPlayers)
        then old(otherPlayers)[id := old(otherPlayers)[id].(lastState := Moved(id, position, rotation), position := position, rotation := rotation)]
        else old(otherPlayers)
    {
      if id in otherPlayers {
        var entry := otherPlayers[id];
        otherPlayers := otherPlayers[id := entry.(position := position, rotation := rotation, lastState := Moved(id, position, rotation))];
      }
    }

    /**
     The `playerShot` handler with the projectile list as the animation loop
     uses it, an array: the client's own echoed shot is ignored, every other
     shot is recorded once.
     */
    method OnPlayerShot(id: string, shot: RemoteShot)
      requires Valid()
      modifies this`otherProjectiles
      ensures Valid()
      ensures otherProjectiles == if id == self then old(otherProjectiles) else old(otherProjectiles) + [shot]
      ensures ReceiveShot(ArrayOf(old(otherProjectiles)), self, id, shot) == Normal(ArrayOf(otherProjectiles))
    {
      if id == self {
        return;
      }
      otherProjectiles := otherProjectiles + [shot];
    }

    /**
     The `playerHit` handler: the client's own hp, or a known entry's hp,
     takes the carried value; an unknown id changes nothing.
     */
    method OnPlayerHit(id: string, newHp: int)
      requires Valid()
      modifies this`hp, this`otherPlayers
      ensures Valid()
      ensures id == self ==> hp == newHp && otherPlayers == old(otherPlayers)
      ensures id != self ==> hp == old(hp) && otherPlayers == if id in old(otherPlayers)
        then old(otherPlayers)[id := old(otherPlayers)[id].(hp := newHp)]
        else old(otherPlayers)
    {
      if id == self {
        hp := newHp;
      } else if id in otherPlayers {
        otherPlayers := otherPlayers[id := otherPlayers[id].(hp := newHp)];
      }
    }

    /**
     The `playerDied` handler: for the client itself, dead with hp 0, ship
     hidden and every movement flag cleared; for a known entry, its mesh is
     hidden; for an unknown id, nothing.
     */
    method OnPlayerDied(id: string)
      requires Valid()
      modifies this
      ensures Valid()
      ensures id == self ==>
        && !alive && hp == 0 && move == Still && !shipVisible
        && otherPlayers == old(otherPlayers)
      ensures id != self ==>
        && alive == old(alive) && hp == old(hp) && move == old(move) && shipVisible == old(shipVisible)
        && otherPlayers == if id in old(otherPlayers)
          then old(otherPlayers)[id := old(otherPlayers)[id].(visible := false)]
          else old(otherPlayers)
      ensures shipPosition == old(shipPosition)
      ensures otherProjectiles == old(otherProjectiles) && scoreboardData == old(scoreboardData)
    {
      if id == self {
        alive := false;
        hp := 0;
        shipVisible := false;
        move := move.(forward := false, backward := false, left := false, right := false);
      } else if id in otherPlayers {
        otherPlayers := otherPlayers[id := otherPlayers[id].(visible := false)];
      }
    }

    /**
     The `playerRespawn` handler: for the client itself, alive again at full
     health, its ship shown at the new position; for a known entry, its mesh
     moved there and shown (its recorded hp is left as it was); for an
     unknown id, nothing.
     */
    method OnPlayerRespawn(id: string, position: Vec3)
      requires Valid()
      modifies this
      ensures Valid()
      ensures id == self ==>
        && alive && hp == MaxHp && shipPosition == position && shipVisible
        && otherPlayers == old(otherPlayers)
      ensures id != self ==>
        && alive == old(alive) && hp == old(hp) && shipPosition == old(shipPosition) && shipVisible == old(shipVisible)
        && otherPlayers == if id in old(otherPlayers)
          then old(otherPlayers)[id := old(otherPlayers)[id].(position := position, visible := true)]
          else old(otherPlayers)
      ensures move == old(move)
      ensures otherProjectiles == old(otherProjectiles) && scoreboardData == old(scoreboardData)
    {
      if id == self {
        alive := true;
        hp := MaxHp;
        shipPosition := position;
        shipVisible := true;
      } else if id in otherPlayers {
        otherPlayers := otherPlayers[id := otherPlayers[id].(position := position, visible := true)];
      }
    }

    /**
     The `scoreboard` handler and the sort in `renderScoreboard`: the rows
     received, reordered by kills descending and then deaths ascending.
     */
    method OnScoreboard(data: seq<ScoreEntry>)
      requires Valid()
      modifies this`scoreboardData
      ensures Valid()
      ensures Ordered(scoreboardData)
      ensures multiset(scoreboardData) == multiset(data)
    {
      var rows := new ScoreEntry[|data|](i requires 0 <= i < |data| => data[i]);
      assert rows[..] == data;
      SortScoreboard(rows);
      scoreboardData := rows[..];
    }
  }
}
