# Two-player Asteroids: the authoritative game rules in Dafny

This project models the rule core of a two-player networked Asteroids game.
An authoritative server admits exactly two players into fixed slots (0 and 1).
It runs a fixed-tick simulation of ships, asteroids and lasers, resolves
collisions and scores, and broadcasts newline-framed snapshots. Each client
mirrors those snapshots onto two shadow ships. A local single-player mode
(PvE) runs the same entities against a bot with different collision rules.

Time is an explicit `now` parameter in integer milliseconds. The source's
constants become 1500 ms reload, 200 ms per-shot cooldown, 600 ms
invincibility and 2000 ms respawn. "Within radius" (`math.hypot(...) < r`) is
the exact integer comparison `dx*dx + dy*dy < r*r` on integer positions
(`Utils.Within`). Trigonometry is passed in as parameters: the motion delta of
a heading, the muzzle offset and the laser velocity. So is randomness: an
asteroid `Roll` holds the `randint`/`choice` outcomes. Sockets are opaque
`Conn` handles. A received chunk is an `Option<string>`, where `None` means
the receive raised. A failed send is membership of its connection in a `dead`
set, one set per broadcast. JSON decoding is a parameter `decode: string -> Option<...>` that yields
message datatypes.

Layout, one module per source file or concern:

- `utils.dfy` (`Utils`): field size, caps, wrap-around with Python's floor `%`, truncating seconds.
- `ship_rules.dfy` (`ShipRules`) and `ships.dfy` (`Ships`): the ship state machine of `ship.py`.
  `ShipRules` defines it as pure transitions on a `ShipState` value.
  `Ships.Ship` is the in-place class, and each of its methods is proved equal to the matching transition.
- `asteroid.dfy` (`Asteroids`), `laser.dfy` (`Lasers`): the two entity managers, as classes whose list field is updated in place.
- `gamerules.dfy` (`GameRules`): the collision and scoring tick of `gamelogic.py` as functions on a `World` value, with its invariants.
- `logic.dfy` (`Logic`): the `GameLogic` class, whose loops are proved equal to `GameRules`.
- `protocol.dfy` (`Protocol`): `str.strip`, newline framing, the message datatypes and the winner rule.
- `server.dfy` (`Server`): the `GameServer` session of `serverTCP.py`. It covers:
  - the slot table and the handshake;
  - the reader loop and its cleanup;
  - message dispatch and broadcast;
  - the game-loop tick with its once-only game-over latch.
- `client.dfy` (`Client`): `handle_server_message`, `listen_server` and `restart_game` of `clientTCP.py`.
  The same module covers its draft `client.py` (the `Draft` variant, which has no waiting branch).
- `pve.dfy` (`PvE`): `LocalPvELogic` and `BotPlayer2.find_nearest_asteroid` of `pve.py`.

Three behaviours of `gamelogic.py` are reproduced as written:
- The ship–asteroid loop walks the live list and always advances, so the asteroid after a removed one is not examined (`GameRules.RemovalSkipsNext`, `GameRules.SkippedAsteroidKeepsHp`).
- A laser–ship hit scores for the owner even when `take_damage` was a no-op (`GameRules.ResolveLaser`).
- A laser–asteroid hit removes the asteroid outright (`GameRules.ResolveLaser`).

Other behaviours of the source that the model keeps:
- A laser–ship hit scores whenever the laser's owner is not the hit ship, whether or not the ship is destroyed (gamelogic.py:66-70).
- In `GameLogic`, a laser–asteroid hit removes the asteroid without decrementing its hit points (gamelogic.py:79-81).
- The server spawns at most one asteroid per tick, and only while fewer than `MAX_ASTEROIDS` are alive (serverTCP.py:279-280).
- The reload and respawn timers run inside the ship loop of the tick, at the start of each ship's turn (gamelogic.py:30-44).
- A refused handshake only closes the connection, and nothing is sent to the peer (serverTCP.py:99-135).
- The server tick has no ship–ship collision step (gamelogic.py:21-92).
- A hello whose value or payload is not an object raises inside `handle_raw_connection` (serverTCP.py:119-124). The handler at serverTCP.py:152-155 only reports the error, so the connection is abandoned without being closed (`Admission.Dropped`).

## Model

| member | source | states |
|---|---|---|
| `Utils.Wrap` | asteroid.py:31-32 | The wrapped point lies in [0,WIDTH)×[0,HEIGHT) and differs from the input by a multiple of the field size on each axis (Python `%` with a positive modulus). |
| `Utils.TruncSeconds` | gamelogic.py:104 | `int(ms/1000)` truncates toward zero: bracketed from below for non-negative input and from above for negative input. |
| `ShipRules.Reset` | ship.py:74-82 | The reset ship has hp 3, 10 shots and `invincible_until = now + 600`. It is neither reloading nor respawning, and is centred on its slot's start point with its start angle. Every other field (number, last laser time, reload and respawn start times) is kept. |
| `ShipRules.Initial` | ship.py:11-68 | A new ship has its slot number and is healthy with valid ammunition; it equals its own reset at construction time. |
| `ShipRules.TakeDamage` | ship.py:84-97 | Unchanged exactly while respawning or `now < invincible_until`. An effective hit lowers hp by 1, sets `invincible_until = now + 600`, and enters respawning at hp ≤ 0 with `respawn_start_time = now`. No other field changes, and `hp ≥ 0 ∧ (¬respawning ⇒ hp ≥ 1)` is preserved. |
| `ShipRules.Update` | ship.py:100-139 | A respawning ship is untouched until strictly more than 2000 ms have passed, then it is reset. A live ship turns by ±5, keeps its hp, and lands in the field congruent to its corner moved by the held keys' motion along the new heading. A reload that has lasted ≥ 1500 ms ends with 10 shots; otherwise the reload state is unchanged. For a live ship every other field (number, timestamps, invincibility, respawn flag) is kept. The health and ammunition invariants are preserved. |
| `ShipRules.Shoot` | ship.py:141-165 | Succeeds iff shots > 0, not reloading, cooldown of 200 ms elapsed and not respawning. On success: shots − 1 (never negative), `last_laser_time = now`, reloading exactly when the magazine is empty with `reload_start_time = now`, and the muzzle is the centre plus the aim offset. On failure: `(false, (0,0))` and the ship is unchanged. |
| `ShipRules.DamageIdempotentAtSameTime` | ship.py:89-93 | A second `take_damage` at the same instant is a no-op. |
| `ShipRules.EmptyMagazineStartsReload` | ship.py:147-157 | Firing one cooldown-spaced shot per round held empties the magazine and leaves the ship reloading since the last shot. |
| `ShipRules.ReloadCompletes` | ship.py:133-138 | Once 1500 ms have passed since the reload began, a live ship's update restores 10 shots and clears reloading. |
| `Ships.Ship.constructor` | ship.py:11-68 | The new ship's fields are `ShipRules.Initial` of its number and the creation time. |
| `Ships.Ship.Reset` | ship.py:74-82 | The fields become `ShipRules.Reset` of the old fields. |
| `Ships.Ship.TakeDamage` | ship.py:84-97 | The fields become `ShipRules.TakeDamage` of the old fields. |
| `Ships.Ship.Update` | ship.py:100-139 | The fields become `ShipRules.Update` of the old fields for the held keys. |
| `Ships.Ship.TryShoot` | ship.py:141-165 | Returns the success flag and muzzle of `ShipRules.Shoot` and leaves its ship. |
| `Asteroids.MoveAll` | asteroid.py:26-32 | Same count and order; every position lands in [0,WIDTH)×[0,HEIGHT) and is congruent to old position + velocity; velocity, radius, hp and colour are unchanged. |
| `Asteroids.Moved` | asteroid.py:29-32 | One asteroid's step lands in the field, congruent to position + velocity; every other field is kept. |
| `Asteroids.SpeedFor` | asteroid.py:16 | `max(1, 3 − size//7)`: at least 1 and at least `3 − size//7`, equal to one of them, and 1 exactly for sizes ≥ 14. |
| `Asteroids.SpeedIsOne` | asteroid.py:15-16 | `max(1, 3 − size//7)` is 1 for every size in [20,45]. |
| `Asteroids.Spawned` | asteroid.py:13-23 | Radius in [20,45], hp 1, grey, position the rolled point in the closed box, each velocity component ±1. |
| `Asteroids.AsteroidManager.constructor` | asteroid.py:9-11 | Stores the cap and starts with no asteroids. |
| `Asteroids.AsteroidManager.SpawnAsteroid` | asteroid.py:13-24 | Appends exactly one spawned asteroid whatever the count (the cap is not enforced) and leaves the existing ones untouched. |
| `Asteroids.AsteroidManager.Update` | asteroid.py:26-32 | The loop rewrites each position in place; the list becomes `MoveAll` of the old list. |
| `Lasers.AdvancedSpec` | laser.py:23-31 | After an update: no more lasers than before; every survivor is in the closed field and is an old laser moved by its velocity with velocity and owner kept; an old laser survives iff its moved position is in the closed field. |
| `Lasers.Advanced` | laser.py:23-31 | The survivors of one update never outnumber the old lasers and all lie in the closed field. |
| `Lasers.AdvancedAppend` | laser.py:23-31 | The update distributes over concatenation, so survivors keep their relative order. |
| `Lasers.LaserManager.constructor` | laser.py:8-9 | Starts with no lasers. |
| `Lasers.LaserManager.ShootLaser` | laser.py:11-21 | Appends exactly one laser with the given position, velocity and owner; existing lasers unchanged. |
| `Lasers.LaserManager.Update` | laser.py:23-31 | Walking a copy, moving each laser in place and removing it by value when off the field yields `Advanced` of the old list. |
| `GameRules.ReloadTimer` | gamelogic.py:32-37 | Reloading ends with 10 shots iff it has lasted ≥ 1500 ms; nothing else changes; ammunition stays valid. |
| `GameRules.RespawnTimer` | gamelogic.py:39-44 | A respawning ship stays as it is while ≤ 2000 ms have passed, and is reset once strictly more have passed. |
| `GameRules.Sweep` | gamelogic.py:46-53 | The ship ends either unchanged or as `take_damage` of itself, and is damaged whenever some asteroid from the index on touches it. With no touch, ship and list are unchanged. The list never grows, and ship health, ammunition and positive asteroid hp are preserved. Which asteroids survive is stated by `SweepKeepsPrefix`, `SweepKeepsMisses` and `SweepOrigins`. |
| `GameRules.SweepKeepsPrefix` | gamelogic.py:46-53 | The asteroids before the sweep's start index stay in place, in order. |
| `GameRules.SweepKeepsMisses` | gamelogic.py:46-53 | Every asteroid before the start index, and every asteroid that does not touch the ship, is still in the list, unchanged. |
| `GameRules.SweepOrigins` | gamelogic.py:46-53 | Every asteroid left is an original one, or an asteroid from the start index on that touches the ship, with one hit point less. |
| `GameRules.RemovalSkipsNext` | gamelogic.py:46-53 | When a touched asteroid is worn out, the walk continues at the next index of the shortened list, so the asteroid that followed it is not examined. |
| `GameRules.SkippedAsteroidKeepsHp` | gamelogic.py:46-53 | Concrete case: of two one-hp asteroids on a ship, the second survives untouched though it overlaps. |
| `GameRules.ShipTurn` | gamelogic.py:30-53 | Only ship i and the asteroid list change. The reload timer runs first for every ship. A respawning ship then has only its respawn timer applied and skips the asteroids; a live ship then sweeps the asteroids from index 0. Scores, lasers and start time are kept, and the tick invariant is preserved. |
| `GameRules.ShipPhase` | gamelogic.py:30-53 | The ship loop keeps scores, lasers and start time, never adds asteroids, and preserves the tick invariant. |
| `GameRules.FirstShipHit` | gamelogic.py:60-64 | Returns the first non-respawning ship within the ship radius of the laser; respawning ships are never hit; None iff there is no such ship. |
| `GameRules.FirstAsteroidHit` | gamelogic.py:77-79 | Returns the first asteroid whose radius contains the laser; None iff there is none. |
| `GameRules.RemoveHitAsteroid` | gamelogic.py:77-81 | Removing the first hit asteroid by value removes exactly that entry. |
| `GameRules.ResolveLaser` | gamelogic.py:56-85 | A ship hit damages only the first live ship hit, raises the owner's score by 1 iff the owner is not that ship (whether or not damage applied), removes the laser once and touches no asteroid. With no ship hit, the first asteroid hit is removed outright with the laser and scores are unchanged. With no hit, nothing changes. |
| `GameRules.LaserPhase` | gamelogic.py:56-85 | Over the copied list, scores never decrease and rise by at most one per laser; lasers and asteroids are only removed; the unguarded `remove` never fails; the tick invariant is preserved. |
| `GameRules.LaserStep` | gamelogic.py:56-85 | One laser leaves scores non-decreasing with total at most +1, removes at most that laser, and only removes asteroids. |
| `GameRules.MoveStep` | gamelogic.py:25-27 | Moving asteroids and lasers keeps the tick invariant and leaves only lasers in the closed field, owned by a player. |
| `GameRules.Update` | gamelogic.py:21-92 | One tick keeps start time and score count, never lowers a score, adds at most one point per laser, never adds asteroids, leaves only on-field lasers with valid owners, and preserves the tick invariant. |
| `GameRules.ResetGame` | gamelogic.py:94-100 | Start time becomes `now`, one zero score per ship, no asteroids, no lasers; ships untouched. |
| `GameRules.TimeLeft` | gamelogic.py:102-104 | Never negative, at most the match length, and zero exactly when the match time is up. |
| `Logic.GameLogic.constructor` | gamelogic.py:13-19 | Keeps the ships and managers, starts the clock at `now`, one zero score per ship. |
| `Logic.GameLogic.Update` | gamelogic.py:21-92 | The in-place tick makes the world `GameRules.Update` of the old world and returns whether `now − start_time ≥ max_time`. |
| `Logic.GameLogic.ShipPhase` | gamelogic.py:30-53 | The in-place ship loop equals `GameRules.ShipPhase`. |
| `Logic.GameLogic.ShipTurn` | gamelogic.py:31-53 | One iteration in place equals `GameRules.ShipTurn`. |
| `Logic.GameLogic.Sweep` | gamelogic.py:46-53 | The live-list index loop equals `GameRules.Sweep`. |
| `Logic.GameLogic.LaserPhase` | gamelogic.py:56-85 | The loop over a copy equals `GameRules.LaserPhase` and keeps the invariant. |
| `Logic.GameLogic.ResolveLaser` | gamelogic.py:57-85 | The for/else for one laser equals `GameRules.ResolveLaser`. |
| `Logic.GameLogic.HitShips` | gamelogic.py:60-73 | Reports a hit iff some non-respawning ship is hit (`FirstShipHit`); after a hit the world is the laser's resolution, otherwise nothing changed. |
| `Logic.GameLogic.HitShip` | gamelogic.py:64-73 | On the first ship hit, the world becomes `GameRules.ResolveLaser`: that ship takes damage, the owner scores unless it is the ship's own laser, and the laser goes. |
| `Logic.GameLogic.HitAsteroids` | gamelogic.py:75-85 | When no ship is hit, the world becomes `GameRules.ResolveLaser`: the first asteroid hit and the laser go, or nothing changes. |
| `Logic.GameLogic.ResetGame` | gamelogic.py:94-100 | The world becomes `GameRules.ResetGame`. |
| `Logic.GameLogic.GetTimeLeft` | gamelogic.py:102-104 | Returns `GameRules.TimeLeft`, so it is never negative. |
| `Logic.GameLogic.StartClock` | serverTCP.py:144-147 | The start time becomes `now` and nothing else in the world changes. |
| `Protocol.Strip` | serverTCP.py:170 | The stripped line has no whitespace at either end and is empty iff the line is all whitespace. |
| `Protocol.TrimLeft` | serverTCP.py:170 | The result is a suffix of the line; what was cut is all whitespace, and the result is empty or starts with a non-space. |
| `Protocol.TrimRight` | serverTCP.py:170 | The result is a prefix of the line; what was cut is all whitespace, and the result is empty or ends with a non-space. |
| `Protocol.StripIdempotent` | serverTCP.py:170 | Stripping twice equals stripping once. |
| `Protocol.SplitOnce` | serverTCP.py:169 | `split('\n', 1)`: the buffer is the first line, a newline, and the rest; the first line holds no newline. |
| `Protocol.Partition` | serverTCP.py:104 | `partition('\n')`: as `SplitOnce` when there is a newline, else the whole buffer and an empty rest. |
| `Protocol.Frame` | serverTCP.py:168-178 | The extracted lines contain no newline, the leftover buffer contains no newline, and lines joined with newlines plus the leftover reproduce the buffer. |
| `Protocol.FrameAfterJoin` | serverTCP.py:168-178 | Framing what a sender wrote for newline-free lines yields exactly those lines, in order, before whatever follows. |
| `Protocol.FrameJoin` | serverTCP.py:168-178 | Round trip: framing joined lines plus an unterminated tail gives back the lines and the tail. |
| `Protocol.FrameChunks` | serverTCP.py:161-178 | Framing chunk by chunk, carrying the leftover, gives the same lines and leftover as framing the concatenation. |
| `Protocol.Winner` | serverTCP.py:289-294 | 1 iff p1 > p2, 2 iff p2 > p1, 0 iff equal. |
| `Protocol.WinnerRecord` | serverTCP.py:201-209 | Winner 1 ↦ Player1 with p1, 2 ↦ Player2 with p2, anything else ↦ Draw with p1. |
| `Protocol.RecordedScoreIsBest` | serverTCP.py:201-209 | For the server's own winner code the recorded score is the larger score, and Draw is recorded iff scores are equal. |
| `Server.Claimed` | serverTCP.py:137-139 | A claimed slot is connected, holds both a connection and an address, and keeps its ship id. |
| `Server.Cleared` | serverTCP.py:187-189 | A cleared slot is disconnected with no connection and no address, same ship id, hence claimable again. |
| `Server.ConnectedCount` | serverTCP.py:325 | At most the number of slots, and equal to it iff all slots are connected. |
| `Server.RequestedSlot` | serverTCP.py:119-128 | Some(i) with i ∈ {0,1} iff the first line is a hello for i; None iff it is a hello for neither. |
| `Server.FirstMessage` | serverTCP.py:102-117 | Only the text before the first newline is read: nothing when it is all whitespace, otherwise the decoding of its stripped form. |
| `Server.Admit` | serverTCP.py:90-150 | Admitted iff the chunk is non-empty, its first line is a hello for 0 or 1, and that slot is free; then only that slot changes and the rest of the chunk is carried to the reader. Otherwise the table is untouched. The connection is dropped unclosed exactly when the receive failed or the hello was not an object. |
| `Server.Handshake` | serverTCP.py:95-142 | The chain of early returns agrees with `Admit`: an admission claims exactly the requested slot, any refusal leaves the slot table unchanged. |
| `Server.AfterSend` | serverTCP.py:371-378 | A slot is disconnected after a send iff it was live and its send failed; ship id and slot shape are kept. |
| `Server.AfterBroadcast` | serverTCP.py:370-378 | Every slot is treated by `AfterSend`, independently. |
| `Server.DeliveriesToLiveSlots` | serverTCP.py:367-378 | Every message written goes to a live slot's non-failing connection and is the broadcast message; at most one write per slot. |
| `Server.Deliveries` | serverTCP.py:367-378 | At most one write per slot, each carrying the broadcast message, none on a failing connection. |
| `Server.SendLoop` | serverTCP.py:370-378 | The loop over the slots leaves exactly `AfterBroadcast` of the table and writes exactly `Deliveries`, in slot order. |
| `Server.BroadcastTwice` | serverTCP.py:371-378 | Clearing after failed sends is idempotent. |
| `Server.Posed` | serverTCP.py:239-245 | Centre and angle become the requested ones; nothing else changes. |
| `Server.ResetAll` | serverTCP.py:250-251 | Every ship is reset. |
| `Server.Process` | serverTCP.py:234-261 | Dispatch on the action. `update_position` changes only the sender's pose, with defaults (0,0) and 0. `shoot` changes only the sender's ship and appends a laser owned by the slot iff `try_shoot` succeeds. `restart` is `reset_game` plus a reset of every ship. `hello` and unknown actions change nothing. The handler raises exactly on a non-object value or an unreadable `update_position` payload. |
| `Server.ServeLine` | serverTCP.py:169-178 | A blank line changes nothing. The reader stops iff the stripped line decodes and its handler raises. The ship count, and score and laser-owner validity, are kept. |
| `Server.ServeLines` | serverTCP.py:168-178 | The ship count, and score and laser-owner validity, are kept across a run of lines; the reader can only stop on a line. |
| `Server.BlankLinesIgnored` | serverTCP.py:171-172 | Blank lines change nothing and keep the reader open. |
| `Server.ServeLinesAppend` | serverTCP.py:161-178 | Serving two runs of lines in sequence equals serving them together, unless the first run closed the reader. |
| `Server.Spawn` | serverTCP.py:279-280 | One asteroid is appended iff fewer than `MAX_ASTEROIDS` are alive; nothing else changes; the count passes the cap only if it already had. |
| `Server.SnapshotOf` | serverTCP.py:331-364 | Each ship entry carries its index, hp, centre, angle, shots and both flags; the score list and `time_left` are copied. |
| `Server.Announcements` | serverTCP.py:284-307 | A tick that ends the game sends `game_over` with both scores and the winner, then the snapshot; any other tick sends the snapshot alone. |
| `Server.GameServer.constructor` | serverTCP.py:30-68 | Two empty slots for ships 0 and 1, not started, not ended, fresh ships and managers, zero scores. |
| `Server.NewGame` | serverTCP.py:59-65 | Two fresh ships at their start positions with full hit points, empty asteroid and laser managers, zero scores, the clock started at `now`, a `GAME_TIME` limit. |
| `Server.GameServer.HandleRawConnection` | serverTCP.py:90-150 | The slot table becomes `Admit`'s. `game_started` is latched, turning true (with the clock restarted) when an admission leaves both slots connected and never back to false. Scores and the ended flag are unchanged. |
| `Server.GameServer.StartIfFull` | serverTCP.py:144-147 | When the admission left both slots connected, the clock restarts at `now` and `game_started` latches; the slot table, scores and message logs are unchanged. |
| `Server.GameServer.Cleanup` | serverTCP.py:186-189 | Only the reader's slot is cleared. |
| `Server.GameServer.ProcessMessage` | serverTCP.py:234-261 | The game state becomes `Process`'s result, or is unchanged when the handler raised. |
| `Server.GameServer.SetPose` | serverTCP.py:239-245 | Only the sender's ship pose changes. |
| `Server.GameServer.Restart` | serverTCP.py:247-251 | The state becomes `reset_game` with every ship reset. |
| `Server.GameServer.Fire` | serverTCP.py:253-257 | The sender's ship takes its `try_shoot` step and a laser owned by the slot is appended iff it succeeded. |
| `Server.GameServer.ResetShips` | serverTCP.py:250-251 | Every ship's fields become their reset. |
| `Server.GameServer.Receive` | serverTCP.py:157-194 | A closed or failed receive clears the slot and changes no game state. Otherwise the complete lines are served in order (blank and undecodable ones skipped); the leftover without newlines is carried on. A raising handler ends the reader and clears only its slot. |
| `Server.GameServer.ServeBuffer` | serverTCP.py:168-178 | The game state becomes `ServeLines` over the buffer's complete lines; while the reader stays open the unterminated tail is kept for the next read. |
| `Server.GameServer.Broadcast` | serverTCP.py:367-378 | Writes to every live slot in order; a failed send clears only that slot; records the message. |
| `Server.GameServer.SendAll` | serverTCP.py:370-378 | The slot table becomes `AfterBroadcast` of the old one, the writes are appended to the send log, and the other session fields are unchanged. |
| `Server.GameServer.BroadcastState` | serverTCP.py:313-365 | Before the start, sends the connected-slot count; afterwards, sends the snapshot with `time_left`. |
| `Server.GameServer.SaveWinnerInfo` | serverTCP.py:196-216 | Appends `WinnerRecord` of the winner and scores. |
| `Server.GameServer.Tick` | serverTCP.py:263-307 | Before the start, only the waiting count is broadcast. Afterwards, one asteroid is spawned below the cap before `logic.update`. The first tick on which time is up saves and broadcasts the result; every tick then broadcasts the snapshot. On the ending tick the two broadcasts fail independently (`deadEnd`, then `dead`): the slot table goes through both clearings, and the snapshot reaches only the slots the result broadcast left live. The invariant that `game_over` has been broadcast once iff the game ended, never twice, is preserved, even across restarts. |
| `Server.GameServer.Advance` | serverTCP.py:278-282 | Spawn below the cap, then the logic tick; returns whether time is up. |
| `Server.GameServer.Conclude` | serverTCP.py:284-307 | The ended flag latches; the result is saved and announced only on the first time-up tick, each broadcast with its own failing connections. |
| `Server.GameServer.EndTick` | serverTCP.py:284-307 | On the first time-up tick, `game_ended` latches, the winner record is saved, and `game_over` is broadcast (failing on `deadEnd`) and then the snapshot (failing on `dead`); the game state is unchanged. |
| `Server.GameServer.EndGame` | serverTCP.py:284-305 | Latches `game_ended`, saves `WinnerRecord` of the winner (1, 2 or 0 for a draw) and both scores, broadcasts `game_over`; the game state is unchanged. |
| `Server.StaleCleanupClearsNewcomer` | serverTCP.py:186-189 | The cleanup clears by slot index: a reader exiting after its slot was re-claimed disconnects the newcomer. |
| `Server.SlotReclaimable` | serverTCP.py:131-139 | A second hello for a connected slot is refused with the table unchanged; after cleanup the same slot is admitted again and the other slot is untouched. |
| `Client.EnemyNumber` | client.py:37-38 | `abs(1 − player_id)` is the other slot for players 0 and 1. |
| `Client.ApplyEntry` | clientTCP.py:104-120 | The entry's hp, shots, centre and angle are copied, with missing flags defaulting to false. The reload clock is stamped with `now` exactly on a false→true edge of reloading. No other field changes. |
| `Client.ReloadStampedOnce` | clientTCP.py:113-118 | Successive true reports keep the first stamp. |
| `Client.ShadowUntouched` | clientTCP.py:104-137 | A shadow that no entry is addressed to is unchanged. |
| `Client.ShadowFollowsLastEntry` | clientTCP.py:104-137 | Last write wins: each shadow carries the fields of the last entry addressed to it (id = player for the own ship, any other id for the enemy). |
| `Client.ApplyEntries` | clientTCP.py:104-137 | Both shadows keep their ship numbers. Each shadow is either untouched or carries the hit points of an entry addressed to it. |
| `Client.Handle` | clientTCP.py:95-156 | `update_state` replaces the game state with the payload and applies the entries. `waiting_for_players` sets the waiting state in the TCP client and does nothing in the draft. `game_over` sets only the flag. Unknown events change nothing. An `update_state` payload that is not an object is still stored as the game state, and a `game_over` one still sets the flag, before the handler raises. An unreadable message raises and changes nothing. |
| `Client.SnapshotLastWriteWins` | clientTCP.py:99-100 | After two snapshots, the game state is the later one. |
| `Client.ServeLinesRunning` | clientTCP.py:69-93 | The reader is still running after a run of lines iff it was running before and every line was skipped or handled without raising. |
| `Client.ServeLines` | clientTCP.py:79-88 | Serving lines never restarts a stopped reader and never clears the game-over flag. |
| `Client.GameOverThenStop` | clientTCP.py:143-146 | A `game_over` line whose payload is not an object leaves the client over and its reader stopped. |
| `Client.DraftNeverWaits` | client.py:139-152 | The draft never enters the waiting state. |
| `Client.ShownScores` | clientTCP.py:266 | The game-over screen shows the snapshot's scores, or [0,0] without one; a state that is not an object makes the lookup raise. |
| `Client.ClientWinner` | clientTCP.py:272 | The client's winner formula agrees with the server's `Winner` rule. |
| `Client.SyncShadow` | clientTCP.py:104-120 | The in-place field assignments equal `ApplyEntry`. |
| `Client.GameClient.constructor` | clientTCP.py:26-49 | Own shadow numbered `player_id`, enemy shadow `abs(1 − player_id)`, running, empty state, not over. |
| `Client.GameClient.HandleServerMessage` | clientTCP.py:95-156 | The client view becomes `Handle`'s view, including what it assigned before raising; `ok` is false exactly when it raised. |
| `Client.GameClient.ApplySnapshot` | clientTCP.py:104-137 | The entry loop equals `ApplyEntries`. |
| `Client.GameClient.Receive` | clientTCP.py:69-93 | A closed or failed receive stops the reader and changes nothing else. Otherwise the framed lines are served in order; the leftover has no newline. |
| `Client.GameClient.ServeBuffer` | clientTCP.py:79-88 | The `while '\n' in buffer` loop serves `Frame`'s lines in order and leaves its leftover. |
| `Client.GameClient.RestartGame` | clientTCP.py:210-216 | Clears `game_over`, resets both shadows, empties the state; a failed send stops the client. |
| `PvE.Wear` | pve.py:121-130 | Over a copy, the ship keeps its position and is damaged iff some asteroid touches it. With no touch nothing changes. The list never grows and keeps positive hit points. |
| `PvE.WearVisitsEvery` | pve.py:124-130 | No asteroid is skipped: untouched ones survive unchanged, and touched ones with hp > 1 survive with one hp less. |
| `PvE.CopyWalkRemovesBoth` | pve.py:124-130 | Concrete case: two one-hp asteroids on a ship are both removed here, where `GameLogic` keeps the second. |
| `PvE.ShipsPhase` | pve.py:121-130 | The ship loop keeps the ship count and the lasers, never adds asteroids and keeps asteroid hp positive. Ships before the loop index, and every respawning ship, are left unchanged. |
| `PvE.Discard` | pve.py:140-141 | The guarded `remove` takes one copy of the laser if present, else nothing. |
| `PvE.WearAt` | pve.py:146-149 | The hit asteroid loses one hp, or is removed when that was its last. |
| `PvE.HitShip` | pve.py:134-142 | The first live ship within radius is damaged whoever fired, and the laser is discarded; asteroids untouched. |
| `PvE.HitAsteroid` | pve.py:144-152 | The first asteroid hit is worn by one hp and the laser discarded; ships untouched. |
| `PvE.StrikeShips` | pve.py:134-142 | No owner check and no scoring: any live ship within radius, the owner's included, is damaged. |
| `PvE.StrikeAsteroids` | pve.py:144-152 | Even after a ship hit, the laser goes on to wear the first asteroid it touches, removing it at hp ≤ 0. |
| `PvE.StrikeDiscardsOnce` | pve.py:140-151 | A laser present once leaves the list exactly once iff it hit a ship or an asteroid. |
| `PvE.Strike` | pve.py:133-152 | One laser's collisions keep the ship count, never add lasers (as a multiset) or asteroids, and keep asteroid hp positive. |
| `PvE.LasersPhase` | pve.py:132-152 | The laser loop never adds lasers or asteroids and keeps positive asteroid hp. |
| `PvE.Collide` | pve.py:121-152 | Collisions never add lasers or asteroids. |
| `PvE.Tick` | pve.py:117-155 | Move, collide, then spawn one asteroid only if fewer than the cap remain. Asteroids keep positive hp, grow by at most one and pass the cap only if already over it; remaining lasers are on the field. |
| `PvE.TimeCheck` | pve.py:157-158 | The flag rises once `now − start ≥ max_time` and never falls. |
| `PvE.BotPlayer2.constructor` | pve.py:17-20 | Keeps the bot's ship and managers. |
| `PvE.BotPlayer2.FindNearestAsteroid` | pve.py:90-101 | None iff no asteroids; otherwise an asteroid of minimal distance, the earliest among ties. |
| `PvE.LocalPvELogic.constructor` | pve.py:108-115 | Clock at `now`, 60-second match, not over. |
| `PvE.LocalPvELogic.Update` | pve.py:117-158 | The in-place tick equals `Tick`, and the game-over flag follows `TimeCheck`. |
| `PvE.LocalPvELogic.IsGameOver` | pve.py:160-161 | Returns the game-over flag. |
| `PvE.LocalPvELogic.SweepShips` | pve.py:121-130 | The in-place ship loop equals `ShipsPhase`. |
| `PvE.LocalPvELogic.SweepShip` | pve.py:124-130 | The walk over a copy, decrementing and removing by value in the live list, equals `Wear`. |
| `PvE.LocalPvELogic.StrikeLasers` | pve.py:132-152 | The laser loop over a copy equals `LasersPhase`. |
| `PvE.LocalPvELogic.StrikeLaser` | pve.py:133-152 | One laser equals `Strike`: ship loop, then asteroid loop. |
| `PvE.LocalPvELogic.StrikeShip` | pve.py:134-142 | The ship loop of one laser equals `HitShip`. |
| `PvE.LocalPvELogic.StrikeAsteroid` | pve.py:144-152 | The asteroid loop of one laser equals `HitAsteroid`. |

## Left out

- Sockets, `accept`, `recv`, `sendall`, `close` and the daemon threads. Connections are opaque handles, a receive is an `Option<string>` chunk, and a failed send is membership in a `dead` set given per broadcast (the ending tick takes one for `game_over` and one for the snapshot).
- Races between reader threads and the game loop. Each handler and each tick runs as one atomic step.
- `time.time()` and the sleep-based tick pacing. `now` is a parameter in integer milliseconds.
- Floating-point trigonometry and `math.hypot`. These are inputs:
  - the ship's motion delta for a heading;
  - the muzzle offset;
  - the laser velocity.

  Laser positions are integers, so the fractional positions of the source are not represented. The distance test is an exact integer squared-distance comparison.
- Randomness in `spawn_asteroid`, which is an explicit `Roll` input. The bot's `update`, `random_evade` and `aim_and_attack` in pve.py are randomised and trigonometric, and only `find_nearest_asteroid` is modelled.
- JSON encoding and decoding. The decoder is a parameter producing message datatypes, and a failed decode is `None`.
- UTF-8 decoding of received bytes. A chunk that fails to decode behaves like a failed receive.
- Rendering and input: every `draw*` method, `show_leaderboard`, the client `game_loop`, `menu.py` and `predgame.py`.
- `server.py`, the datagram draft, which is only an address registry plus a broadcast loop.
- The `winners.txt` append. The model records the appended entry (`WinnerLine`) but not its text formatting.
- `load_leaderboard`, which lacks `self` and cannot be called.
- `GameServer.reset_game` (serverTCP.py:82-88), which is never called.
- `Ship.set_hp` and `Ship.draw`, which the core does not use.
- `Client.Handle`: a snapshot whose ship entry raises part-way (a missing key) is modelled as an unreadable message that changes nothing. In the source, `game_state` and the entries before the bad one have already been applied when the reader stops.
- `Client.GameClient.Receive`: the own-ship local prediction between snapshots is `Ship.update`, modelled once as `Ships.Ship.Update` and not repeated for the client.
