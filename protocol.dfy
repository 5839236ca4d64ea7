/**
 Records and wire messages shared by the game server and the browser client
 of the spaceship battle: participant records, scoreboard rows and the named
 socket events with their payloads.
 */
module Protocol {

  /** A 3D vector; positions and Euler rotations travel as `{x, y, z}`. */
  datatype Vec3 = Vec3(x: real, y: real, z: real)

  const Origin: Vec3 := Vec3(0.0, 0.0, 0.0)

  /** Half the side of the square arena in which spawn points are drawn. */
  const SpawnHalfWidth: real := 50.0

  /** A spawn point as `randomSpawn` produces it: x and z in [-50, 50), y = 0. */
  predicate ValidSpawn(v: Vec3)
  {
    -SpawnHalfWidth <= v.x < SpawnHalfWidth && v.y == 0.0 && -SpawnHalfWidth <= v.z < SpawnHalfWidth
  }

  /** The colour `hsl(<hue>,80%,60%)`; only the hue varies. */
  datatype Color = Hsl(hue: nat)

  const HueCount: nat := 360

  /** Health of a freshly spawned or respawned ship. */
  const MaxHp: int := 100

  /** One participant record of the server's player table. */
  datatype Player = Player(
    id: string,
    position: Vec3,
    rotation: Vec3,
    color: Color,
    hp: int,
    alive: bool,
    kills: nat,
    deaths: nat,
    username: string)

  /** One row of the `scoreboard` payload. */
  datatype ScoreEntry = ScoreEntry(id: string, username: string, kills: nat, deaths: nat, color: Color)

  function EntryOf(p: Player): ScoreEntry
  {
    ScoreEntry(p.id, p.username, p.kills, p.deaths, p.color)
  }

  /** The named events the server sends, with their payloads. */
  datatype Message =
    | CurrentPlayers(players: seq<Player>)
    | NewPlayer(player: Player)
    | PlayerMoved(id: string, position: Vec3, rotation: Vec3)
    | PlayerShot(id: string, position: Vec3, rotation: Vec3, direction: Vec3, timestamp: int)
    | PlayerHit(id: string, hp: int)
    | PlayerDied(id: string)
    | PlayerRespawn(id: string, position: Vec3)
    | Scoreboard(entries: seq<ScoreEntry>)
    | PlayerDisconnected(id: string)

  /** Who receives an emitted event: `socket.emit`, `socket.broadcast.emit` or `io.emit`. */
  datatype Audience = Sender | AllButSender | Everyone

  datatype Emit = Emit(to: Audience, msg: Message)

  /** No key appears twice. */
  ghost predicate Distinct(ids: seq<string>)
  {
    forall i, j :: 0 <= i < j < |ids| ==> ids[i] != ids[j]
  }

  /** The keys of a JS object in property order: each key once, exactly the keys of `m`. */
  ghost predicate KeyOrder<V>(m: map<string, V>, order: seq<string>)
  {
    && (forall i :: 0 <= i < |order| ==> order[i] in m)
    && Distinct(order)
    && (forall id :: id in m ==> id in order)
  }

  /**
   The scoreboard as `getScoreboard` projects it: one row per record, in the
   table's property order, unsorted.
   */
  function ScoreboardOf(players: map<string, Player>, order: seq<string>): (r: seq<ScoreEntry>)
    requires forall i :: 0 <= i < |order| ==> order[i] in players
    ensures |r| == |order|
    ensures forall i :: 0 <= i < |order| ==>
      && r[i].id == players[order[i]].id && r[i].username == players[order[i]].username
      && r[i].kills == players[order[i]].kills && r[i].deaths == players[order[i]].deaths
      && r[i].color == players[order[i]].color
  {
    seq(|order|, i requires 0 <= i < |order| => EntryOf(players[order[i]]))
  }

  /**
   Every record of the table has exactly one scoreboard row, and that row
   copies its id, username, kills, deaths and colour; every row belongs to a
   record.
   */
  lemma ScoreboardCoversTable(players: map<string, Player>, order: seq<string>)
    requires KeyOrder(players, order)
    requires forall id :: id in players ==> players[id].id == id
    ensures forall id :: id in players ==>
      exists i :: 0 <= i < |order| && ScoreboardOf(players, order)[i] == EntryOf(players[id])
    ensures forall i, j :: 0 <= i < j < |order| ==>
      ScoreboardOf(players, order)[i].id != ScoreboardOf(players, order)[j].id
    ensures forall i :: 0 <= i < |order| ==> ScoreboardOf(players, order)[i].id in players
  {
    var r := ScoreboardOf(players, order);
    forall id | id in players
      ensures exists i :: 0 <= i < |order| && r[i] == EntryOf(players[id])
    {
      var i :| 0 <= i < |order| && order[i] == id;
      assert r[i] == EntryOf(players[id]);
    }
  }

  /** The records of the table in property order, as `Object.values` lists them. */
  function ValuesOf(players: map<string, Player>, order: seq<string>): (r: seq<Player>)
    requires forall i :: 0 <= i < |order| ==> order[i] in players
    ensures |r| == |order|
    ensures forall i :: 0 <= i < |order| ==> r[i] == players[order[i]]
    ensures KeyOrder(players, order) ==> forall p :: p in players.Values ==> p in r
  {
    seq(|order|, i requires 0 <= i < |order| => players[order[i]])
  }
}
