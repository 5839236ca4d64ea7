# Spaceship battle: authoritative game state and client mirror

This project models the state-keeping core of a small multiplayer spaceship
game. The Node.js server (`server.js`) owns a player table keyed by socket id
and a username counter. It changes them in its socket handlers: connection,
`updateState`, `shoot`, `setUsername` and `disconnect`, plus the respawn timer
callback. Each handler broadcasts named events. The browser client (`main.js`)
mirrors part of that state: the `otherPlayers` dictionary, its own `hp`,
`alive` and movement flags, and the scoreboard, which it sorts before drawing.

Modules:

- `Protocol` (protocol.dfy): positions, colours, player records, scoreboard
  rows and the wire events with their audiences (`socket.emit`,
  `socket.broadcast.emit`, `io.emit`). `KeyOrder` ties a table to the order
  of its keys. A JavaScript object lists non-index string keys in insertion
  order, and `Object.entries`, `Object.values` and `getScoreboard` follow
  that order. Keys that are array indices ("0", "7") would come first, in
  numeric order. Socket ids are 20-character strings that are never array
  indices, so the model keeps insertion order for every key.
- `Usernames` (usernames.dfy): `Player<N>` names and the 16-character limit.
- `Combat` (combat.dfy): the `shoot` handler's `forEach` as pure functions.
  `Step` is one callback and `Resolve` is the whole loop. Lemmas give the table
  after a shot in closed form (`ResolveClosedForm`), prove that this table
  does not depend on the order the keys are visited in (`ResolveOrderFree`),
  say which ships get `playerHit` and `playerDied` (`ResolveEvents`), give
  one callback's events exactly (`StepEventsExact`), and prove that each
  `playerDied` is followed at once by a scoreboard (`DiedThenScoreboard`).
  The emitted events do depend on the key order, including what the
  scoreboards sent after each kill contain.
- `GameServer` (server.dfy): class `Server` with the fields `players`,
  `order` and `userCount`. There is one method per handler. Each returns the
  events it emits, in order, and states the whole new state. `Valid()` is
  kept by every handler. It says the table and key order agree, each record
  is filed under its own id, and each record is health-consistent: alive
  exactly when hp > 0, and -34 < hp <= 100.
- `ScoreboardOrder` (scoreboard_order.dfy): the comparator of
  `renderScoreboard` and an in-place sort of an array of rows.
- `Client` (client.dfy): class `Mirror`, with one method per socket handler.
  `Valid()` says the client never mirrors itself and that each entry is
  filed under the id it was last heard as.

Random values and the clock become parameters. `Connect` takes the spawn
point and the hue. `Respawn` takes the spawn point. `Shoot` takes the
timestamp `now`. Positions are reals. The hit test
`sqrt(dx²+dy²+dz²) < 2.2` is stated as `dx²+dy²+dz² < 2.2·2.2`.

Three behaviours of the code are easy to misread; the model follows the
code:

- hp is not clamped. It goes 100 → 66 → 32 → -2, and a dead record keeps
  its negative hp until respawn. The proved bound is -34 < hp <= 100.
- The respawn callback does not check that the player is still connected.
  For a disconnected id it changes no record but still emits `playerRespawn`.
  The client ignores that event for an id it does not know.
- The server does not sort the scoreboard. Rows follow the table's key
  order, and each client sorts them.

## Model

| member | source | states |
|---|---|---|
| GameServer.Server.constructor | server.js:16-27 | The table starts empty and the username counter starts at 1. |
| GameServer.Server.RandomUsername | server.js:27-30 | Returns `Player<N>` for the current counter value N, and the counter rises by exactly 1. |
| Usernames.Decimal | server.js:29 | The decimal spelling of the counter: non-empty, digits only, no leading zero, and at least two digits from 10 up. That it spells the number is `DecimalValue`. |
| Usernames.DecimalValue | server.js:29 | The decimal spelling of n, read back digit by digit (most significant first), is n. |
| Usernames.DecimalInjective | server.js:29 | Different numbers have different decimal spellings; a corollary of `DecimalValue`. |
| Usernames.Generated | server.js:29 | A generated name is `Player` followed by decimal digits only, and those digits spell the counter value. |
| Usernames.GeneratedDistinct | server.js:27-30 | Different counter values give different names. The counter only grows, so no generated name is handed out twice. |
| GameServer.Server.Connect | server.js:35-54 | Adds exactly one record. It has hp 100, is alive, has 0 kills and 0 deaths, rotation (0,0,0), the given spawn point and colour, and the name `Player<userCount>`. The id goes last in key order and the counter rises by 1. Emits the snapshot to the sender, `newPlayer` to the others and the scoreboard to everyone. |
| GameServer.Server.UpdateState | server.js:57-68 | Changes only the sender's position and rotation, and only if the sender is present and alive. Every other record is untouched. `playerMoved` goes to the others even when the sender is dead or unknown. |
| GameServer.Server.Shoot | server.js:71-108 | An unknown or dead shooter changes nothing and emits nothing. Otherwise the result equals `Resolve` over all keys. Each other record becomes `Outcome` of its old value. The shooter changes only in kills, which rise by the number of ships killed. `playerHit` is sent exactly for wounded ships, with a new hp in (0, 66]. `playerDied` is sent exactly for killed ships. Every `playerDied` is followed at once by a scoreboard, and no other scoreboard is sent. `playerShot` goes to everyone last. |
| GameServer.Server.VisitAll | server.js:74-99 | The `forEach` visits every entry in key order and equals `Resolve` over the table's keys. |
| GameServer.Server.VisitTarget | server.js:75-97 | One callback of the `forEach` equals `Step`. It skips the shooter and dead ships. A ship within range loses 34 hp. On death the ship is marked dead, its deaths and the shooter's kills each rise by 1, and `playerDied` then `scoreboard` are emitted. Otherwise `playerHit` carries the new hp. |
| Combat.Outcome | server.js:75-97 | What one shot does to one record. Id, position, rotation, colour, username and kills never change. hp drops by exactly 34 when the ship is alive and strictly within 2.2, and is unchanged otherwise. The ship ends alive exactly when it was alive and the shot is not fatal. Deaths rise by 1 exactly when the shot is fatal. |
| Combat.Step | server.js:75-97 | One callback of the `forEach`. It keeps the key set and every record except the entry's own and the shooter's. The entry, when it is not the shooter, becomes `Outcome` of its record. The shooter's kills rise by 1 exactly when the shot kills the entry, and nothing else of the shooter changes. Earlier events are kept as a prefix. |
| Combat.Resolve | server.js:74-99 | The loop over the entries never adds or removes a key. |
| Combat.ResolveClosedForm | server.js:74-99 | For distinct keys, each visited ship other than the shooter ends as `Outcome` of its record before the shot, so it is damaged once if alive and strictly within 2.2, with no first-hit short-circuit. Unvisited records are untouched. The shooter's hp and everything else stay as they were, and only its kills rise, by `Kills`. |
| Combat.KillsIsCount | server.js:86 | The shooter's kill count over a shot is the number of distinct visited ships, other than the shooter, that the shot kills. |
| Combat.ResolveOrderFree | server.js:74-99 | Visiting the same distinct keys in any two orders gives the same table. The emitted events do depend on the order, including what the scoreboards sent after each kill contain. |
| Combat.StepAppends | server.js:82-97 | One callback only appends events. They all go to everyone, and none is about the shooter. It appends `playerHit` for the entry exactly when the shot wounds it and `playerDied` exactly when the shot kills it. |
| Combat.StepAppendsTo | server.js:82-97 | A callback's result depends only on the table, not on the events emitted before it, and it appends to them. |
| Combat.StepEventsExact | server.js:75-97 | One callback emits nothing for the shooter, a dead ship or a ship out of range. For a wounded ship it emits `playerHit` with the hp minus 34. For a killed ship it emits `playerDied` and then the scoreboard of the table with that death and the shooter's kill already counted. |
| Combat.DiedThenScoreboard | server.js:86-88 | Over a whole shot every `playerDied` is followed at once by a scoreboard, and a scoreboard is sent only right after a `playerDied`: one per kill. |
| Combat.ResolveEvents | server.js:82-97 | Over a whole shot, every event goes to everyone and is a hit, a death or a scoreboard. `playerHit(t, hp)` is emitted exactly when t was wounded, and hp is t's old hp minus 34. `playerDied(t)` is emitted exactly when t was killed. |
| Combat.OutcomeKeepsHealth | server.js:82-85 | A shot keeps a record health-consistent: alive exactly when hp > 0, and -34 < hp <= 100. Deaths never decrease and kills do not change. |
| GameServer.ShotEvents | server.js:82-107 | With the relayed shot appended, `playerHit` and `playerDied` still match the wounded and killed ships exactly, every hp carried by a hit is in (0, 66], and each `playerDied` is still followed at once by a scoreboard. |
| GameServer.Server.Respawn | server.js:89-94 | If the id is still present, its record gets the spawn point (y = 0), hp 100 and alive. Otherwise nothing changes and no record is re-added. `playerRespawn` is emitted either way. |
| Usernames.Truncated | server.js:113 | `slice(0, 16)`: a prefix of the name, of length 16 or the whole name. |
| Usernames.ChosenName | server.js:113 | The stored name is never empty. It is the truncated name when the name is non-empty, and `Player<N>` for the current counter when it is empty. |
| GameServer.Server.SetUsername | server.js:111-116 | An unknown id is a no-op with no event. Otherwise only that record's username changes, to `ChosenName`. The counter rises by 1 exactly when the name was empty. The scoreboard goes to everyone. |
| GameServer.Without | server.js:120 | Key order after `delete`: exactly the other keys, still without duplicates. |
| GameServer.WithoutClosedForm | server.js:120 | `delete` of a present key removes it from its place and keeps every other key in its relative order. |
| GameServer.WithoutAbsent | server.js:120 | `delete` of an absent key leaves the key order as it was. |
| GameServer.Server.Disconnect | server.js:119-123 | Removes exactly the sender's key and leaves every other record unchanged. `playerDisconnected` and then the scoreboard go to everyone. |
| Protocol.ScoreboardOf | server.js:126-134 | `getScoreboard`: one row per key, in key order, each copying the record's id, username, kills, deaths and colour. |
| Protocol.ValuesOf | server.js:51 | `Object.values(players)` as sent in `currentPlayers`: the records in key order, one per key, covering every record of the table. |
| Protocol.ScoreboardCoversTable | server.js:126-134 | The scoreboard has exactly one row per record. Each row copies id, username, kills, deaths and colour, and the rows come in key order without sorting. |
| Client.Mirror.constructor | main.js:134-418 | The client's start-up state: the ship mesh shown at the origin (line 134), all four movement flags off (line 292), no other players (line 323), no remote projectiles (an empty array, see Findings), hp 100 and alive (lines 416-418). |
| Client.Added | main.js:327-340 | `addOtherPlayer` on the dictionary: the client's own id is ignored, every existing entry is kept as it was, and a new id gets the entry built from the record, with hp 100. |
| Client.AddedAll | main.js:351-353 | `forEach(addOtherPlayer)` over a snapshot: existing keys stay, and the client's own id is present afterwards exactly when it was before. |
| Client.Mirror.AddOtherPlayer | main.js:327-340 | Ignores the client's own id and ids already present. Otherwise it adds exactly one entry with hp 100, `lastState` equal to the received record, and a visible mesh placed as the record says. |
| Client.AddedAllKeeps | main.js:351-353 | Adding a snapshot keeps every existing entry, never adds the client's own id, and adds every other id in the snapshot. |
| Client.AddedAllEntry | main.js:351-353 | A newly added id gets the entry built from the first record in the snapshot that carries it. |
| Client.Mirror.OnCurrentPlayers | main.js:351-353 | `addOtherPlayer` runs on every record in order. The keys become the old keys plus every snapshot id except the client's own, and existing entries are untouched. |
| Client.Mirror.RemoveOtherPlayer | main.js:343-348 | Deletes only the given id. An unknown id is a no-op. |
| Client.Mirror.OnPlayerMoved | main.js:357-364 | An unknown id changes nothing. For a known id, only that entry's `lastState` and mesh transform are replaced. |
| Client.ReceiveShot | main.js:369-390 | The handler throws exactly when the shot is another player's and the store is a plain object. The client's own echo leaves the store alone. On an array the old shots are kept as a prefix and another player's shot is appended once, at the end. |
| Client.RemoteShotThrowsAsWritten | main.js:384-388 | With `otherProjectiles` declared as `{}`, every shot from another player makes the handler throw a `TypeError`. |
| Client.ReceiveShotIntended | main.js:369-390 | With the store an array, the client's own echoed shot is ignored and every other shot is appended exactly once. |
| Client.Mirror.OnPlayerShot | main.js:369-390 | The client ignores its own echoed shot and records every other shot once, as `ReceiveShot` on an array. |
| Client.Mirror.OnPlayerHit | main.js:442-449 | For the client's own id, the local hp becomes `data.hp`. For a known other id, that entry's hp changes. An unknown id changes nothing. |
| Client.Mirror.OnPlayerDied | main.js:450-470 | For the client itself: not alive, hp 0, all four movement flags off and the ship hidden. For a known other id, its mesh is hidden. Nothing else changes. |
| Client.Mirror.OnPlayerRespawn | main.js:471-486 | For the client itself: alive, hp 100, and the ship shown at the new position. For a known other id, its mesh moves there and is shown, and its recorded hp is not reset. An unknown id changes nothing. |
| ScoreboardOrder.Compare | main.js:511 | The comparator is negative exactly when the first row has more kills, or equal kills and fewer deaths. It is zero exactly when kills and deaths are equal, and positive in the remaining cases. |
| ScoreboardOrder.CompareConsistent | main.js:511 | The comparator is a consistent total preorder. A row goes first when it has more kills, or equal kills and fewer deaths. |
| ScoreboardOrder.OrderedRanks | main.js:511 | In a sorted scoreboard, every row has at least as many kills as any row below it. Among rows with equal kills, deaths do not increase. |
| ScoreboardOrder.SortScoreboard | main.js:511 | The in-place sort leaves the rows ordered, and they are a permutation of the rows it was given. |
| Client.Mirror.OnScoreboard | main.js:519-522 | The stored rows are the received rows, as a multiset, sorted by kills descending and then deaths ascending. |

## Left out

- Express, HTTP, socket.io and `server.listen` are left out. Emitted events are returned as lists of (audience, event) and are not delivered.
- `Math.random` is not modelled. The spawn point and the hue are parameters. Their ranges are required: x and z in [-50, 50), y = 0, hue below 360. `Date.now()` is the parameter `now`.
- The 3000 ms respawn delay is a scheduler concern. `GameServer.Server.Respawn` is an explicit operation keyed by id. Socket ids are never reused, so while the id is present the captured record is the table's entry. The model does not check that `Respawn` follows a death.
- GameServer.Server.Connect: requires an id that is not already in the table. The transport gives every live connection a unique id. What the code would do on a reused id is not modelled.
- The server's `projectiles` array is left out: it is never read or written.
- Float rounding is not modelled, because positions are real numbers. Malformed payloads, such as a missing `position`, are not modelled either.
- Usernames.Truncated: counts Unicode scalar values, not UTF-16 code units as `slice` does. `String(name)` on a non-string value is not modelled: the name is already a string.
- ScoreboardOrder.SortScoreboard: does not state stability. `Array.prototype.sort` keeps rows with equal kills and deaths in their received order, and the model proves only order and permutation.
- Client.Mirror.OnScoreboard: does not state stability either, for the same reason: it sorts with `SortScoreboard`, so the stored rows are proved ordered and a permutation of the received rows, but rows with equal kills and deaths are not proved to keep their received order.
- All of THREE.js in the client is left out: the scene, meshes, camera, flight loop, auto-aim, projectile movement and expiry. The movement of remote projectiles and `direction.normalize()` are left out too. A mesh is represented only by its position, rotation and visibility.
- DOM and HUD drawing, audio, pointer lock and `localStorage` are left out. So are the keyboard listeners that set the movement flags; only their reset on death is modelled.
- The client's timers are left out: the 20 Hz `sendState` interval, and the 2500 ms respawn request with its `clearTimeout`.
- The client's `socket.id` is fixed when the client mirror is created.

## Findings

| source | as written | input that shows it | evidently intended | confidence | as-written member | corrected member |
|---|---|---|---|---|---|---|
| main.js:324 | `otherProjectiles` is declared as `{}`, and the `playerShot` handler calls `otherProjectiles.push(...)`, which throws a `TypeError`. | Any `playerShot` whose id is not the client's own. | `otherProjectiles` is an array, as the animation loop that walks it by index and `splice`s it expects. Every remote shot is recorded once. | high; not executed | Client.RemoteShotThrowsAsWritten | Client.Mirror.OnPlayerShot |
