// The GameServer of serverTCP.py: a table of two player slots, the handshake
// that admits a connection into a slot, the per-connection reader that frames
// and dispatches client messages, the broadcast that drops a slot whose send
// fails, and the body of the game loop with its once-only game-over latch.
// Sockets are opaque handles; every handler runs as one atomic step.

module Server {
  import opened Utils
  import opened Seqs
  import opened Wrappers
  import opened Protocol
  import SR = ShipRules
  import Ships
  import A = Asteroids
  import L = Lasers
  import Rules = GameRules
  import Logic

  /** An accepted socket and its peer address, as opaque handles. */
  datatype Conn = Conn(id: nat)
  datatype Addr = Addr(host: string, port: int)

  /** One entry of `players`. */
  datatype Slot = Slot(conn: Option<Conn>, addr: Option<Addr>, connected: bool, shipId: int)

  /** A slot is connected exactly when it holds a connection and its address. */
  predicate SlotOk(p: Slot)
  {
    (p.connected <==> p.conn.Some?) && (p.conn.Some? <==> p.addr.Some?)
  }

  function Claimed(p: Slot, conn: Conn, addr: Addr): (r: Slot)
    ensures SlotOk(r) && r.connected && r.shipId == p.shipId
  {
    p.(conn := Some(conn), addr := Some(addr), connected := true)
  }

  /** The cleanup after a reader exits or a send fails: the slot can be claimed again. */
  function Cleared(p: Slot): (r: Slot)
    ensures SlotOk(r) && !r.connected && r.shipId == p.shipId
  {
    p.(connected := false, conn := None, addr := None)
  }

  predicate BothConnected(players: seq<Slot>)
  {
    forall i :: 0 <= i < |players| ==> players[i].connected
  }

  /** `sum(player['connected'] for player in self.players)`. */
  function ConnectedCount(players: seq<Slot>): (n: nat)
    ensures n <= |players|
    ensures n == |players| <==> BothConnected(players)
  {
    if players == [] then 0
    else (if players[0].connected then 1 else 0) + ConnectedCount(players[1..])
  }

  // ------------------------------------------------------------ admission

  /** How `handle_raw_connection` ends: connection closed, abandoned after an exception, or admitted. */
  datatype Admission = Refused | Dropped | Admitted(slot: nat, rest: string)

  /** The first line of the first chunk, stripped and decoded; None when it is blank or not JSON. */
  function FirstMessage(data: string, decode: string -> Option<ClientMsg>): (r: Option<ClientMsg>)
    ensures AllSpace(Partition(data).0) ==> r == None
    ensures !AllSpace(Partition(data).0) ==> r == decode(Strip(Partition(data).0))
  {
    var line := Strip(Partition(data).0);
    if line == [] then None else decode(line)
  }

  /** The requested slot of a hello message whose payload can be read. */
  predicate IsHelloFor(m: Option<ClientMsg>, id: int)
  {
    m.Some? && m.value.Request? && m.value.action == HelloAction
    && m.value.payload.Payload? && m.value.payload.playerId == Some(id)
  }

  /** The slot a first chunk asks for: a hello for player 0 or 1. */
  function RequestedSlot(data: string, decode: string -> Option<ClientMsg>): (r: Option<nat>)
    ensures r.Some? ==> r.value < 2 && IsHelloFor(FirstMessage(data, decode), r.value)
    ensures r.None? ==> !IsHelloFor(FirstMessage(data, decode), 0) && !IsHelloFor(FirstMessage(data, decode), 1)
  {
    var m := FirstMessage(data, decode);
    if IsHelloFor(m, 0) then Some(0) else if IsHelloFor(m, 1) then Some(1) else None
  }

  /**
   * The handshake on the first chunk received (`None` when the receive
   * raised). A connection is admitted into slot `id` exactly when its first
   * line is a hello for 0 or 1 and that slot is free; then only that slot
   * changes. Otherwise the table is untouched; an exception (a failed
   * receive, a value that is not an object, an unreadable hello payload)
   * abandons the connection without closing it.
   */
  function Admit(players: seq<Slot>, conn: Conn, addr: Addr, chunk: Option<string>,
                 decode: string -> Option<ClientMsg>): (r: (Admission, seq<Slot>))
    requires |players| == 2
    ensures r.0.Admitted? <==>
      chunk.Some? && chunk.value != "" && RequestedSlot(chunk.value, decode).Some?
      && !players[RequestedSlot(chunk.value, decode).value].connected
    ensures r.0.Admitted? ==>
      && r.0.slot == RequestedSlot(chunk.value, decode).value
      && r.0.rest == Partition(chunk.value).1
      && r.1 == players[r.0.slot := Claimed(players[r.0.slot], conn, addr)]
    ensures !r.0.Admitted? ==> r.1 == players
    ensures r.0 == Dropped <==>
      chunk.None? || (chunk.value != "" &&
        (FirstMessage(chunk.value, decode) == Some(NotAnObject)
         || FirstMessage(chunk.value, decode) == Some(Request(HelloAction, BadPayload))))
  {
    if chunk.None? then (Dropped, players)
    else if chunk.value == "" then (Refused, players)
    else
      match FirstMessage(chunk.value, decode)
      case None => (Refused, players)
      case Some(NotAnObject) => (Dropped, players)
      case Some(Request(action, payload)) =>
        if action != HelloAction then (Refused, players)
        else if payload.BadPayload? then (Dropped, players)
        else if payload.playerId != Some(0) && payload.playerId != Some(1) then (Refused, players)
        else
          var id: nat := payload.playerId.value;
          if players[id].connected then (Refused, players)
          else (Admitted(id, Partition(chunk.value).1), players[id := Claimed(players[id], conn, addr)])
  }

  // ------------------------------------------------------------ broadcast

  /**
   * The checks of `handle_raw_connection` in order, on the slot table: a
   * failed receive, an empty chunk, a first line that is blank, not JSON, not
   * a hello or names no free slot 0 or 1; a hello whose value or payload is
   * not an object raises before any check.
   */
  method Handshake(players: seq<Slot>, conn: Conn, addr: Addr, chunk: Option<string>,
                   decode: string -> Option<ClientMsg>) returns (outcome: Admission, after: seq<Slot>)
    requires |players| == 2
    ensures (outcome, after) == Admit(players, conn, addr, chunk, decode)
    ensures outcome.Admitted? ==>
      outcome.slot < 2 && after == players[outcome.slot := Claimed(players[outcome.slot], conn, addr)]
    ensures !outcome.Admitted? ==> after == players
  {
    after := players;
    if chunk.None? {
      return Dropped, after;
    }
    var data := chunk.value;
    if data == "" {
      return Refused, after;
    }
    var parts := Partition(data);
    var line := Strip(parts.0);
    if line == [] {
      return Refused, after;
    }
    var msg := decode(line);
    assert msg == FirstMessage(data, decode);
    if msg.None? {
      return Refused, after;
    }
    if msg.value.NotAnObject? {
      return Dropped, after;
    }
    if msg.value.action != HelloAction {
      return Refused, after;
    }
    if msg.value.payload.BadPayload? {
      return Dropped, after;
    }
    var wanted := msg.value.payload.playerId;
    if wanted != Some(0) && wanted != Some(1) {
      return Refused, after;
    }
    var id: nat := wanted.value;
    if players[id].connected {
      return Refused, after;
    }
    after := players[id := Claimed(players[id], conn, addr)];
    outcome := Admitted(id, parts.1);
  }

  predicate Live(p: Slot)
  {
    p.connected && p.conn.Some?
  }

  /** A slot after one `sendall` attempt: a live slot whose connection is in `dead` is cleared. */
  function AfterSend(p: Slot, dead: set<Conn>): (r: Slot)
    ensures r.shipId == p.shipId
    ensures SlotOk(p) ==> SlotOk(r)
    ensures r.connected <==> p.connected && !(Live(p) && p.conn.value in dead)
  {
    if Live(p) && p.conn.value in dead then Cleared(p) else p
  }

  function AfterBroadcast(players: seq<Slot>, dead: set<Conn>): (r: seq<Slot>)
    ensures |r| == |players|
    ensures forall i :: 0 <= i < |r| ==> r[i] == AfterSend(players[i], dead)
  {
    seq(|players|, i requires 0 <= i < |players| => AfterSend(players[i], dead))
  }

  /** The messages actually written by one `broadcast_message`, in slot order. */
  function Deliveries(players: seq<Slot>, dead: set<Conn>, msg: ServerMsg): (r: seq<(Conn, ServerMsg)>)
    decreases |players|
    ensures |r| <= |players|
    ensures forall d :: d in r ==> d.1 == msg && d.0 !in dead
  {
    if players == [] then []
    else
      var p := players[|players| - 1];
      Deliveries(players[..|players| - 1], dead, msg)
        + (if Live(p) && p.conn.value !in dead then [(p.conn.value, msg)] else [])
  }

  /** One more slot of a broadcast: its delivery, if any, comes after those of the slots before it. */
  lemma DeliveriesStep(players: seq<Slot>, i: nat, dead: set<Conn>, msg: ServerMsg)
    requires i < |players|
    ensures var p := players[i];
      Deliveries(players[..i + 1], dead, msg)
        == Deliveries(players[..i], dead, msg) + (if Live(p) && p.conn.value !in dead then [(p.conn.value, msg)] else [])
  {
    assert players[..i + 1][..i] == players[..i];
  }

  /**
   * The send loop of `broadcast_message`, slot by slot: a live slot is
   * written to, and cleared when its send fails. Returns the slot table it
   * leaves and the writes made, in slot order.
   */
  method SendLoop(players: seq<Slot>, msg: ServerMsg, dead: set<Conn>) returns (slots: seq<Slot>, out: seq<(Conn, ServerMsg)>)
    ensures slots == AfterBroadcast(players, dead)
    ensures out == Deliveries(players, dead, msg)
  {
    slots := players;
    out := [];
    var i := 0;
    while i < |slots|
      invariant 0 <= i <= |slots| == |players|
      invariant forall k :: 0 <= k < i ==> slots[k] == AfterSend(players[k], dead)
      invariant forall k :: i <= k < |slots| ==> slots[k] == players[k]
      invariant out == Deliveries(players[..i], dead, msg)
    {
      var p := slots[i];
      DeliveriesStep(players, i, dead, msg);
      if p.connected && p.conn.Some? {
        if p.conn.value in dead {
          slots := slots[i := Cleared(p)];
        } else {
          out := out + [(p.conn.value, msg)];
        }
      }
      i := i + 1;
    }
    assert players[..i] == players;
  }

  /** Every delivery goes to a live slot's connection that did not fail, and carries the broadcast message. */
  lemma {:induction false} DeliveriesToLiveSlots(players: seq<Slot>, dead: set<Conn>, msg: ServerMsg)
    ensures |Deliveries(players, dead, msg)| <= |players|
    ensures forall d :: d in Deliveries(players, dead, msg) ==>
      d.1 == msg && d.0 !in dead && exists i :: 0 <= i < |players| && Live(players[i]) && players[i].conn == Some(d.0)
    decreases |players|
  {
    if players != [] {
      var init := players[..|players| - 1];
      DeliveriesToLiveSlots(init, dead, msg);
      forall d | d in Deliveries(init, dead, msg)
        ensures exists i :: 0 <= i < |players| && Live(players[i]) && players[i].conn == Some(d.0)
      {
        var i :| 0 <= i < |init| && Live(init[i]) && init[i].conn == Some(d.0);
        assert players[i] == init[i];
      }
    }
  }

  /** A second broadcast in the same tick fails on no connection that already failed: clearing is idempotent. */
  lemma BroadcastTwice(players: seq<Slot>, dead: set<Conn>)
    ensures AfterBroadcast(AfterBroadcast(players, dead), dead) == AfterBroadcast(players, dead)
  {
  }

  /** The slot table after a run of broadcasts, the k-th failing on the connections in `deads[k]`. */
  function AfterBroadcasts(players: seq<Slot>, deads: seq<set<Conn>>): (r: seq<Slot>)
    ensures |r| == |players|
    decreases |deads|
  {
    if deads == [] then players else AfterBroadcasts(AfterBroadcast(players, deads[0]), deads[1..])
  }

  /**
   * What a run of broadcasts writes, each one to the slots the previous ones
   * left live; `deads[k]` are the connections whose `sendall` fails during
   * the k-th.
   */
  function Sends(players: seq<Slot>, deads: seq<set<Conn>>, msgs: seq<ServerMsg>): seq<(Conn, ServerMsg)>
    requires |deads| == |msgs|
    decreases |msgs|
  {
    if msgs == [] then []
    else Deliveries(players, deads[0], msgs[0]) + Sends(AfterBroadcast(players, deads[0]), deads[1..], msgs[1..])
  }

  lemma AppendPair<T>(a: seq<T>, x: T, y: T)
    ensures a + [x] + [y] == a + [x, y]
  {
  }

  lemma SendsPair(players: seq<Slot>, d1: set<Conn>, d2: set<Conn>, m1: ServerMsg, m2: ServerMsg)
    ensures Sends(players, [d1], [m1]) == Deliveries(players, d1, m1)
    ensures AfterBroadcasts(players, [d1]) == AfterBroadcast(players, d1)
    ensures Sends(players, [d1, d2], [m1, m2])
      == Deliveries(players, d1, m1) + Deliveries(AfterBroadcast(players, d1), d2, m2)
    ensures AfterBroadcasts(players, [d1, d2]) == AfterBroadcast(AfterBroadcast(players, d1), d2)
  {
    assert [m1, m2][1..] == [m2];
    assert [d1, d2][1..] == [d2];
    assert Sends(AfterBroadcast(players, d1), [d2], [m2]) == Deliveries(AfterBroadcast(players, d1), d2, m2);
    assert AfterBroadcasts(AfterBroadcast(players, d1), [d2]) == AfterBroadcast(AfterBroadcast(players, d1), d2);
  }

  // ------------------------------------------------------------ messages

  /** Centre and heading as `update_position` sets them: the defaults are (0, 0) and 0. */
  function Posed(s: SR.ShipState, pos: Vec, angle: int): (r: SR.ShipState)
    ensures SR.Center(r.rect) == pos && r.angle == angle
    ensures r.(rect := s.rect, angle := s.angle) == s
  {
    s.(rect := SR.RectAround(pos), angle := angle)
  }

  function ResetAll(ships: seq<SR.ShipState>, now: int): (r: seq<SR.ShipState>)
    ensures |r| == |ships| && forall i :: 0 <= i < |r| ==> r[i] == SR.Reset(ships[i], now)
  {
    seq(|ships|, i requires 0 <= i < |ships| => SR.Reset(ships[i], now))
  }

  /**
   * `process_message` on the game state, for the sender's slot. `aim` and
   * `velocity` give the muzzle offset and the laser velocity for a heading
   * (the trigonometry is outside the model). None means the handler raised:
   * a value that is not an object, or `update_position` with an unreadable
   * payload.
   */
  function Process(w: Rules.World, m: ClientMsg, slot: nat, now: int,
                   aim: int -> Vec, velocity: int -> Vec): (r: Option<Rules.World>)
    ensures r.None? <==> m.NotAnObject? || (m.action == UpdatePositionAction && m.payload.BadPayload?)
    ensures r.Some? ==> |r.value.ships| == |w.ships|
    ensures r.Some? && m.action != RestartAction ==>
      r.value.points == w.points && r.value.asteroids == w.asteroids && r.value.startTime == w.startTime
    ensures r.Some? && m.action == UpdatePositionAction && slot < |w.ships| ==>
      && r.value.lasers == w.lasers
      && (forall k :: 0 <= k < |w.ships| && k != slot ==> r.value.ships[k] == w.ships[k])
      && r.value.ships[slot] == Posed(w.ships[slot], m.payload.pos.GetOr(Vec(0, 0)), m.payload.angle.GetOr(0))
    ensures r.Some? && m.action == ShootAction && slot < |w.ships| ==>
      var shot := SR.Shoot(w.ships[slot], now, aim(w.ships[slot].angle));
      && (forall k :: 0 <= k < |w.ships| && k != slot ==> r.value.ships[k] == w.ships[k])
      && r.value.ships[slot] == shot.ship
      && r.value.lasers == w.lasers + (if shot.ok then [L.Laser(shot.tip, velocity(w.ships[slot].angle), slot)] else [])
    ensures r.Some? && m.action == RestartAction ==>
      r.value == Rules.ResetGame(w, now).(ships := ResetAll(w.ships, now))
    ensures r.Some? && (m.action == HelloAction || m.action == OtherAction) ==> r.value == w
    ensures r.Some? && m.action != RestartAction && slot >= |w.ships| ==> r.value == w
    ensures r.Some? && |w.points| == |w.ships| && slot < |w.ships| && Rules.OwnersValid(w.lasers, |w.points|) ==>
      |r.value.points| == |r.value.ships| && Rules.OwnersValid(r.value.lasers, |r.value.points|)
  {
    match m
    case NotAnObject => None
    case Request(action, payload) =>
      match action
      case UpdatePositionAction =>
        if payload.BadPayload? then None
        else if slot < |w.ships| then
          var s := Posed(w.ships[slot], payload.pos.GetOr(Vec(0, 0)), payload.angle.GetOr(0));
          Some(w.(ships := w.ships[slot := s]))
        else Some(w)
      case RestartAction =>
        Some(Rules.ResetGame(w, now).(ships := ResetAll(w.ships, now)))
      case ShootAction =>
        if slot < |w.ships| then
          var s := w.ships[slot];
          var shot := SR.Shoot(s, now, aim(s.angle));
          Some(w.(ships := w.ships[slot := shot.ship],
                  lasers := w.lasers + (if shot.ok then [L.Laser(shot.tip, velocity(s.angle), slot)] else [])))
        else Some(w)
      case _ => Some(w)
  }

  /** The state a reader leaves after a run of lines: the game state, and whether it is still reading. */
  datatype Served = Served(world: Rules.World, open: bool)

  /** One framed line: blank and undecodable lines are skipped; a raising handler ends the reader. */
  function ServeLine(w: Rules.World, line: string, slot: nat, decode: string -> Option<ClientMsg>,
                     now: int, aim: int -> Vec, velocity: int -> Vec): (r: Option<Rules.World>)
    ensures AllSpace(line) ==> r == Some(w)
    ensures r.None? <==>
      !AllSpace(line) && decode(Strip(line)).Some? && Process(w, decode(Strip(line)).value, slot, now, aim, velocity).None?
    ensures r.Some? ==> |r.value.ships| == |w.ships|
    ensures r.Some? && |w.points| == |w.ships| && slot < |w.ships| && Rules.OwnersValid(w.lasers, |w.points|) ==>
      |r.value.points| == |r.value.ships| && Rules.OwnersValid(r.value.lasers, |r.value.points|)
  {
    var t := Strip(line);
    if t == [] then Some(w)
    else match decode(t)
      case None => Some(w)
      case Some(m) => Process(w, m, slot, now, aim, velocity)
  }

  /** The lines of one receive, in order, up to the first one whose handler raised. */
  function ServeLines(w: Rules.World, lines: seq<string>, slot: nat, decode: string -> Option<ClientMsg>,
                      now: int, aim: int -> Vec, velocity: int -> Vec): (r: Served)
    decreases |lines|
    ensures |r.world.ships| == |w.ships|
    ensures |w.points| == |w.ships| && slot < |w.ships| && Rules.OwnersValid(w.lasers, |w.points|) ==>
      |r.world.points| == |r.world.ships| && Rules.OwnersValid(r.world.lasers, |r.world.points|)
    ensures !r.open ==> lines != []
  {
    if lines == [] then Served(w, true)
    else match ServeLine(w, lines[0], slot, decode, now, aim, velocity)
      case None => Served(w, false)
      case Some(w') => ServeLines(w', lines[1..], slot, decode, now, aim, velocity)
  }

  /** Lines that are blank or all whitespace do nothing. */
  lemma BlankLinesIgnored(w: Rules.World, lines: seq<string>, slot: nat, decode: string -> Option<ClientMsg>,
                          now: int, aim: int -> Vec, velocity: int -> Vec)
    requires forall i :: 0 <= i < |lines| ==> AllSpace(lines[i])
    ensures ServeLines(w, lines, slot, decode, now, aim, velocity) == Served(w, true)
    decreases |lines|
  {
    if lines != [] {
      BlankLinesIgnored(w, lines[1..], slot, decode, now, aim, velocity);
    }
  }

  /** Serving two runs of lines one after the other is serving them together, if the reader survives the first. */
  lemma {:induction false} ServeLinesAppend(w: Rules.World, a: seq<string>, b: seq<string>, slot: nat,
                                             decode: string -> Option<ClientMsg>, now: int,
                                             aim: int -> Vec, velocity: int -> Vec)
    ensures var first := ServeLines(w, a, slot, decode, now, aim, velocity);
      ServeLines(w, a + b, slot, decode, now, aim, velocity) ==
        (if first.open then ServeLines(first.world, b, slot, decode, now, aim, velocity) else first)
    decreases |a|
  {
    if a == [] {
      assert a + b == b;
    } else {
      assert (a + b)[0] == a[0] && (a + b)[1..] == a[1..] + b;
      match ServeLine(w, a[0], slot, decode, now, aim, velocity)
      case None =>
      case Some(w') => ServeLinesAppend(w', a[1..], b, slot, decode, now, aim, velocity);
    }
  }

  // ------------------------------------------------------------ game loop

  /** The spawn step of the tick: one asteroid, only while below the cap. */
  function Spawn(w: Rules.World, roll: A.Roll): (r: Rules.World)
    requires A.RollInRange(roll)
    ensures |w.asteroids| < MaxAsteroids ==> r.asteroids == w.asteroids + [A.Spawned(roll)]
    ensures |w.asteroids| >= MaxAsteroids ==> r.asteroids == w.asteroids
    ensures r.(asteroids := w.asteroids) == w
    ensures |r.asteroids| <= if |w.asteroids| < MaxAsteroids then MaxAsteroids else |w.asteroids|
  {
    if |w.asteroids| < MaxAsteroids then w.(asteroids := w.asteroids + [A.Spawned(roll)]) else w
  }

  /** The `update_state` payload for a game state; `timeLeft` is `get_time_left` at the same moment. */
  function SnapshotOf(w: Rules.World, timeLeft: int): (r: Snapshot)
    ensures |r.ships| == |w.ships| && |r.asteroids| == |w.asteroids| && |r.lasers| == |w.lasers|
    ensures forall i :: 0 <= i < |w.ships| ==>
      (r.ships[i].id == i && r.ships[i].hp == w.ships[i].hp && r.ships[i].angle == w.ships[i].angle
       && r.ships[i].pos == SR.Center(w.ships[i].rect) && r.ships[i].shots == w.ships[i].shots
       && r.ships[i].isReloading == Some(w.ships[i].isReloading)
       && r.ships[i].isRespawning == Some(w.ships[i].isRespawning))
    ensures r.score == w.points && r.timeLeft == timeLeft
  {
    Snapshot(
      seq(|w.ships|, i requires 0 <= i < |w.ships| =>
        var s := w.ships[i];
        ShipEntry(i, s.hp, SR.Center(s.rect), s.angle, s.shots, Some(s.isRespawning), Some(s.isReloading))),
      seq(|w.asteroids|, i requires 0 <= i < |w.asteroids| =>
        AsteroidEntry(w.asteroids[i].pos, w.asteroids[i].radius, w.asteroids[i].color)),
      seq(|w.lasers|, i requires 0 <= i < |w.lasers| => LaserEntry(w.lasers[i].pos, w.lasers[i].owner)),
      w.points, timeLeft)
  }

  /** The broadcasts of a started tick: the result when the game ends on it, then the snapshot. */
  function Announcements(w: Rules.World, now: int, ends: bool): (r: seq<ServerMsg>)
    requires |w.points| == 2
    ensures |r| == (if ends then 2 else 1) && r[|r| - 1] == UpdateState(SnapshotOf(w, Rules.TimeLeft(w, now, GameTime)))
    ensures ends ==> r[0] == GameOver([w.points[0], w.points[1]], Winner(w.points[0], w.points[1]))
  {
    var state := UpdateState(SnapshotOf(w, Rules.TimeLeft(w, now, GameTime)));
    if ends then [GameOver([w.points[0], w.points[1]], Winner(w.points[0], w.points[1])), state] else [state]
  }

  function CountGameOver(msgs: seq<ServerMsg>): nat
  {
    if msgs == [] then 0 else (if msgs[0].GameOver? then 1 else 0) + CountGameOver(msgs[1..])
  }

  lemma {:induction false} CountGameOverAppend(a: seq<ServerMsg>, b: seq<ServerMsg>)
    ensures CountGameOver(a + b) == CountGameOver(a) + CountGameOver(b)
    decreases |a|
  {
    if a == [] {
      assert a + b == b;
    } else {
      assert (a + b)[1..] == a[1..] + b;
      CountGameOverAppend(a[1..], b);
    }
  }

  /** One line of the framing loop: what serving the buffer's lines is, in terms of its first line. */
  lemma ServeStep(w: Rules.World, buf: string, slot: nat, decode: string -> Option<ClientMsg>,
                  now: int, aim: int -> Vec, velocity: int -> Vec)
    requires '\n' in buf
    ensures var (line, rest) := SplitOnce(buf);
      var t := Strip(line);
      Frame(buf).1 == Frame(rest).1
      && ServeLines(w, Frame(buf).0, slot, decode, now, aim, velocity) ==
        (if t == [] || decode(t).None? then ServeLines(w, Frame(rest).0, slot, decode, now, aim, velocity)
         else match Process(w, decode(t).value, slot, now, aim, velocity)
           case None => Served(w, false)
           case Some(w') => ServeLines(w', Frame(rest).0, slot, decode, now, aim, velocity))
  {
    var (line, rest) := SplitOnce(buf);
    FrameStep(buf);
    var lines := [line] + Frame(rest).0;
    assert lines[0] == line && lines[1..] == Frame(rest).0;
  }

  /** The objects `__init__` builds: two ships at their start, the two managers, and the logic over them. */
  method NewGame(now: int) returns (ships: seq<Ships.Ship>, am: A.AsteroidManager, lm: L.LaserManager,
                                    lg: Logic.GameLogic)
    ensures fresh(ships) && fresh(am) && fresh(lm) && fresh(lg)
    ensures |ships| == 2 && lg.ships == ships && lg.asteroidManager == am && lg.laserManager == lm
    ensures lg.maxTime == GameTime && lg.Valid()
    ensures lg.World() == Rules.World([SR.Initial(0, now), SR.Initial(1, now)], [], [], [0, 0], now)
  {
    var ship1 := new Ships.Ship(0, now);
    var ship2 := new Ships.Ship(1, now);
    am := new A.AsteroidManager(MaxAsteroids);
    lm := new L.LaserManager();
    ships := [ship1, ship2];
    lg := new Logic.GameLogic(ships, am, lm, now, GameTime);
    assert Logic.States(ships) == [SR.Initial(0, now), SR.Initial(1, now)] by {
      assert Logic.States(ships)[0] == ship1.Value();
      assert Logic.States(ships)[1] == ship2.Value();
    }
  }

  class GameServer {
    var players: seq<Slot>
    var gameStarted: bool
    var gameEnded: bool
    const ships: seq<Ships.Ship>
    const asteroidManager: A.AsteroidManager
    const laserManager: L.LaserManager
    const logic: Logic.GameLogic
    /** Every message passed to `broadcast_message`, in order. */
    var broadcasts: seq<ServerMsg>
    /** Every message actually written to a connection. */
    var sent: seq<(Conn, ServerMsg)>
    /** The lines appended to the winners file. */
    var winners: seq<WinnerLine>

    /** Two well-formed slots, the first for ship 0 and the second for ship 1. */
    predicate SlotsOk()
      reads this
    {
      |players| == 2 && forall i :: 0 <= i < 2 ==> players[i].shipId == i && SlotOk(players[i])
    }

    /**
     * The session invariant: the slot table, one ship per slot shared with
     * the game logic, and a game-over announcement and a saved result
     * exactly when the game has ended, so at most one of each ever.
     */
    predicate Valid()
      reads this, logic, laserManager
    {
      SlotsOk()
      && |ships| == 2 && logic.ships == ships
      && logic.asteroidManager == asteroidManager && logic.laserManager == laserManager
      && logic.maxTime == GameTime && logic.Valid()
      && CountGameOver(broadcasts) == (if gameEnded then 1 else 0)
      && |winners| == (if gameEnded then 1 else 0)
    }

    constructor (now: int)
      ensures Valid() && fresh(ships) && fresh(logic) && fresh(asteroidManager) && fresh(laserManager)
      ensures players == [Slot(None, None, false, 0), Slot(None, None, false, 1)]
      ensures !gameStarted && !gameEnded && broadcasts == [] && sent == [] && winners == []
      ensures logic.World() == Rules.World([SR.Initial(0, now), SR.Initial(1, now)], [], [], [0, 0], now)
    {
      var s, am, lm, lg := NewGame(now);
      players := [Slot(None, None, false, 0), Slot(None, None, false, 1)];
      gameStarted, gameEnded := false, false;
      ships, asteroidManager, laserManager, logic := s, am, lm, lg;
      broadcasts, sent, winners := [], [], [];
    }

    /** `handle_raw_connection` up to the hand-over to the reader; the game starts once both slots are taken. */
    method HandleRawConnection(conn: Conn, addr: Addr, chunk: Option<string>,
                               decode: string -> Option<ClientMsg>, now: int) returns (outcome: Admission)
      requires Valid()
      modifies this, logic
      ensures Valid()
      ensures (outcome, players) == Admit(old(players), conn, addr, chunk, decode)
      ensures var starts := outcome.Admitted? && players[0].connected && players[1].connected;
        gameStarted == (old(gameStarted) || starts)
        && logic.startTime == (if starts then now else old(logic.startTime))
      ensures logic.points == old(logic.points) && gameEnded == old(gameEnded)
      ensures broadcasts == old(broadcasts) && sent == old(sent) && winners == old(winners)
    {
      outcome, players := Handshake(players, conn, addr, chunk, decode);
      assert SlotsOk();
      StartIfFull(outcome.Admitted?, now);
    }

    /** After an admission that leaves both slots connected, the clock restarts and the game starts. */
    method StartIfFull(admitted: bool, now: int)
      requires Valid()
      modifies this, logic
      ensures Valid() && players == old(players)
      ensures var starts := admitted && players[0].connected && players[1].connected;
        gameStarted == (old(gameStarted) || starts)
        && logic.startTime == (if starts then now else old(logic.startTime))
      ensures logic.points == old(logic.points) && gameEnded == old(gameEnded)
      ensures broadcasts == old(broadcasts) && sent == old(sent) && winners == old(winners)
    {
      if admitted && players[0].connected && players[1].connected {
        logic.StartClock(now);
        gameStarted := true;
      }
    }

    /** The cleanup at the end of `handle_client_loop`, for the reader's slot whatever connection it holds now. */
    method Cleanup(slot: nat)
      requires Valid() && slot < 2
      modifies this
      ensures Valid()
      ensures players == old(players)[slot := Cleared(old(players)[slot])]
      ensures gameStarted == old(gameStarted) && gameEnded == old(gameEnded)
      ensures broadcasts == old(broadcasts) && sent == old(sent) && winners == old(winners)
    {
      players := players[slot := Cleared(players[slot])];
    }

    /** `process_message`; `ok` is false when the handler raised, and then nothing changed. */
    method ProcessMessage(m: ClientMsg, slot: nat, now: int, aim: int -> Vec, velocity: int -> Vec)
      returns (ok: bool)
      requires Valid() && slot < 2
      modifies logic, ships, asteroidManager, laserManager
      ensures Valid()
      ensures var r := Process(old(logic.World()), m, slot, now, aim, velocity);
        ok == r.Some? && logic.World() == (if ok then r.value else old(logic.World()))
    {
      if m.NotAnObject? {
        return false;
      }
      ok := true;
      match m.action
      case UpdatePositionAction =>
        if m.payload.BadPayload? {
          return false;
        }
        var pos := m.payload.pos.GetOr(Vec(0, 0));
        var angle := m.payload.angle.GetOr(0);
        if slot < |ships| {
          SetPose(slot, pos, angle);
        }
      case RestartAction =>
        Restart(now);
      case ShootAction =>
        if slot < |ships| {
          Fire(slot, now, aim, velocity);
        }
      case _ =>
    }

    /** The `update_position` branch: the sender's ship is centred on `pos` and turned to `angle`. */
    method SetPose(slot: nat, pos: Vec, angle: int)
      requires Valid() && slot < 2
      modifies ships[slot]
      ensures var w := old(logic.World());
        logic.World() == w.(ships := w.ships[slot := Posed(w.ships[slot], pos, angle)])
    {
      ships[slot].rect := SR.RectAround(pos);
      ships[slot].angle := angle;
      assert forall k :: 0 <= k < |ships| && k != slot ==> ships[k] != ships[slot];
    }

    /** The `restart` branch: the logic's `reset_game`, then every ship's `reset`. */
    method Restart(now: int)
      requires Valid()
      modifies logic, ships, asteroidManager, laserManager
      ensures Valid()
      ensures var w := old(logic.World());
        logic.World() == Rules.ResetGame(w, now).(ships := ResetAll(w.ships, now))
    {
      logic.ResetGame(now);
      ResetShips(now);
    }

    /** The `shoot` branch: `try_shoot` on the sender's ship, and a laser on success. */
    method Fire(slot: nat, now: int, aim: int -> Vec, velocity: int -> Vec)
      requires Valid() && slot < 2
      modifies ships[slot], laserManager
      ensures Valid()
      ensures var w := old(logic.World());
        var shot := SR.Shoot(w.ships[slot], now, aim(w.ships[slot].angle));
        logic.World() == w.(ships := w.ships[slot := shot.ship],
                            lasers := w.lasers + (if shot.ok then [L.Laser(shot.tip, velocity(w.ships[slot].angle), slot)] else []))
    {
      var ship := ships[slot];
      var fired, tip := ship.TryShoot(now, aim(ship.angle));
      assert forall k :: 0 <= k < |ships| && k != slot ==> ships[k] != ship;
      if fired {
        laserManager.ShootLaser(tip, velocity(ship.angle), slot);
      }
    }

    /** `for ship in self.ships: ship.reset()`. */
    method ResetShips(now: int)
      requires Logic.Distinct(ships)
      modifies ships
      ensures Logic.States(ships) == ResetAll(old(Logic.States(ships)), now)
    {
      var i := 0;
      while i < |ships|
        invariant 0 <= i <= |ships|
        invariant forall k :: 0 <= k < i ==> ships[k].Value() == SR.Reset(old(ships[k].Value()), now)
        invariant forall k :: i <= k < |ships| ==> ships[k].Value() == old(ships[k].Value())
      {
        ships[i].Reset(now);
        i := i + 1;
      }
    }

    /**
     * One receive of `handle_client_loop` on the buffer it carries: the
     * chunk (None when the receive raised, "" when the peer closed) is
     * appended, and each complete line is dispatched; the reader ends, and
     * its slot is cleaned up, on a closed or failed receive or when a
     * handler raises. `rest` is the buffer carried to the next receive.
     */
    method Receive(slot: nat, buffer: string, chunk: Option<string>, decode: string -> Option<ClientMsg>,
                   now: int, aim: int -> Vec, velocity: int -> Vec) returns (rest: string, open: bool)
      requires Valid() && slot < 2
      modifies this, logic, ships, asteroidManager, laserManager
      ensures Valid()
      ensures chunk.None? || chunk == Some("") ==> !open && logic.World() == old(logic.World())
      ensures chunk.Some? && chunk.value != "" ==>
        var served := ServeLines(old(logic.World()), Frame(buffer + chunk.value).0, slot, decode, now, aim, velocity);
        logic.World() == served.world && open == served.open
      ensures open ==> rest == Frame(buffer + chunk.value).1 && players == old(players)
      ensures !open ==> players == old(players)[slot := Cleared(old(players)[slot])]
      ensures gameStarted == old(gameStarted) && gameEnded == old(gameEnded)
      ensures broadcasts == old(broadcasts) && sent == old(sent) && winners == old(winners)
    {
      if chunk.None? || chunk.value == "" {
        Cleanup(slot);
        return buffer, false;
      }
      rest, open := ServeBuffer(slot, buffer + chunk.value, decode, now, aim, velocity);
      if !open {
        Cleanup(slot);
      }
    }

    /** The `while '\n' in buffer_str` loop: every complete line in order, until one makes the handler raise. */
    method ServeBuffer(slot: nat, buffer: string, decode: string -> Option<ClientMsg>,
                       now: int, aim: int -> Vec, velocity: int -> Vec) returns (rest: string, open: bool)
      requires Valid() && slot < 2
      modifies logic, ships, asteroidManager, laserManager
      ensures Valid()
      ensures var served := ServeLines(old(logic.World()), Frame(buffer).0, slot, decode, now, aim, velocity);
        logic.World() == served.world && open == served.open
      ensures open ==> rest == Frame(buffer).1
    {
      var buf := buffer;
      ghost var w0 := logic.World();
      ghost var whole := Frame(buf);
      open := true;
      while '\n' in buf
        modifies logic, ships, asteroidManager, laserManager
        invariant Valid()
        invariant Frame(buf).1 == whole.1
        invariant ServeLines(logic.World(), Frame(buf).0, slot, decode, now, aim, velocity)
          == ServeLines(w0, whole.0, slot, decode, now, aim, velocity)
        decreases |buf|
      {
        ServeStep(logic.World(), buf, slot, decode, now, aim, velocity);
        var parts := SplitOnce(buf);
        buf := parts.1;
        var line := Strip(parts.0);
        if line == [] {
          continue;
        }
        var msg := decode(line);
        if msg.None? {
          continue;
        }
        var ok := ProcessMessage(msg.value, slot, now, aim, velocity);
        if !ok {
          open := false;
          break;
        }
      }
      rest := buf;
    }

    /** `broadcast_message`: a send to each live slot in order; a failed send clears that slot. */
    method Broadcast(msg: ServerMsg, dead: set<Conn>)
      requires SlotsOk()
      modifies this
      ensures SlotsOk()
      ensures players == AfterBroadcast(old(players), dead)
      ensures sent == old(sent) + Deliveries(old(players), dead, msg)
      ensures broadcasts == old(broadcasts) + [msg]
      ensures CountGameOver(broadcasts) == CountGameOver(old(broadcasts)) + (if msg.GameOver? then 1 else 0)
      ensures gameStarted == old(gameStarted) && gameEnded == old(gameEnded) && winners == old(winners)
    {
      SendAll(msg, dead);
      broadcasts := broadcasts + [msg];
      CountGameOverAppend(old(broadcasts), [msg]);
    }

    /** The sends of a broadcast, recorded on the session. */
    method SendAll(msg: ServerMsg, dead: set<Conn>)
      modifies this
      ensures players == AfterBroadcast(old(players), dead)
      ensures sent == old(sent) + Deliveries(old(players), dead, msg)
      ensures broadcasts == old(broadcasts) && winners == old(winners)
      ensures gameStarted == old(gameStarted) && gameEnded == old(gameEnded)
    {
      var slots, out := SendLoop(players, msg, dead);
      players, sent := slots, sent + out;
    }

    /** `broadcast_state`: the waiting count before the game starts, the full snapshot after. */
    method BroadcastState(now: int, dead: set<Conn>)
      requires SlotsOk()
      modifies this
      ensures SlotsOk()
      ensures var msg := if gameStarted then UpdateState(SnapshotOf(logic.World(), Rules.TimeLeft(logic.World(), now, logic.maxTime)))
                         else WaitingForPlayers(ConnectedCount(old(players)));
        broadcasts == old(broadcasts) + [msg] && sent == old(sent) + Deliveries(old(players), dead, msg)
      ensures players == AfterBroadcast(old(players), dead)
      ensures CountGameOver(broadcasts) == CountGameOver(old(broadcasts))
      ensures gameStarted == old(gameStarted) && gameEnded == old(gameEnded) && winners == old(winners)
    {
      if !gameStarted {
        Broadcast(WaitingForPlayers(ConnectedCount(players)), dead);
        return;
      }
      var left := logic.GetTimeLeft(now);
      Broadcast(UpdateState(SnapshotOf(logic.World(), left)), dead);
    }

    /** `save_winner_info`: the line appended to the winners file. */
    method SaveWinnerInfo(winner: int, p1: int, p2: int)
      modifies this
      ensures winners == old(winners) + [WinnerRecord(winner, p1, p2)]
      ensures players == old(players) && broadcasts == old(broadcasts) && sent == old(sent)
      ensures gameStarted == old(gameStarted) && gameEnded == old(gameEnded)
    {
      var name, score;
      if winner == 1 {
        name, score := "Player1", p1;
      } else if winner == 2 {
        name, score := "Player2", p2;
      } else {
        name, score := "Draw", p1;
      }
      winners := winners + [WinnerLine(name, score, p1, p2)];
    }

    /**
     * One tick of `game_loop` after its sleep. Before both players are in it
     * only broadcasts the waiting count. Afterwards it spawns below the cap,
     * runs the logic, and the first time the match time is up records the
     * result and announces it; every later tick keeps playing without a
     * second announcement, even after a restart. Each broadcast has its own
     * failing connections: `deadEnd` for `game_over`, `dead` for the state.
     */
    method Tick(now: int, roll: A.Roll, deadEnd: set<Conn>, dead: set<Conn>)
      requires Valid() && A.RollInRange(roll)
      modifies this, logic, ships, asteroidManager, laserManager
      ensures Valid()
      ensures gameStarted == old(gameStarted)
      ensures !old(gameStarted) ==>
        && logic.World() == old(logic.World()) && gameEnded == old(gameEnded) && winners == old(winners)
        && players == AfterBroadcast(old(players), dead)
        && var msg := WaitingForPlayers(ConnectedCount(old(players)));
           broadcasts == old(broadcasts) + [msg] && sent == old(sent) + Deliveries(old(players), dead, msg)
      ensures old(gameStarted) ==>
        var w := Rules.Update(Spawn(old(logic.World()), roll), now);
        var ends := Rules.TimeUp(old(logic.World()), now, GameTime) && !old(gameEnded);
        var deads := if ends then [deadEnd, dead] else [dead];
        && logic.World() == w
        && gameEnded == (old(gameEnded) || Rules.TimeUp(old(logic.World()), now, GameTime))
        && winners == old(winners) + (if ends then [WinnerRecord(Winner(w.points[0], w.points[1]), w.points[0], w.points[1])] else [])
        && players == AfterBroadcasts(old(players), deads)
        && broadcasts == old(broadcasts) + Announcements(w, now, ends)
        && sent == old(sent) + Sends(old(players), deads, Announcements(w, now, ends))
    {
      if !gameStarted {
        BroadcastState(now, dead);
        return;
      }
      ghost var w0 := logic.World();
      var over := Advance(now, roll);
      ghost var w := logic.World();
      assert w == Rules.Update(Spawn(w0, roll), now);
      Conclude(now, over, deadEnd, dead);
      assert logic.World() == w;
    }

    /** The playing part of a tick: a spawn below the cap, then the logic's `update`. */
    method Advance(now: int, roll: A.Roll) returns (over: bool)
      requires Valid() && A.RollInRange(roll)
      modifies logic, ships, asteroidManager, laserManager
      ensures Valid()
      ensures logic.World() == Rules.Update(Spawn(old(logic.World()), roll), now)
      ensures over == Rules.TimeUp(old(logic.World()), now, GameTime)
    {
      ghost var w0 := logic.World();
      if |asteroidManager.asteroids| < MaxAsteroids {
        asteroidManager.SpawnAsteroid(roll);
      }
      assert logic.World() == Spawn(w0, roll);
      over := logic.Update(now);
    }

    /** The rest of a started tick: the once-only result, then the snapshot. */
    method Conclude(now: int, over: bool, deadEnd: set<Conn>, dead: set<Conn>)
      requires Valid() && gameStarted
      modifies this
      ensures Valid() && logic.World() == old(logic.World()) && gameStarted
      ensures var w := logic.World();
        var ends := over && !old(gameEnded);
        var deads := if ends then [deadEnd, dead] else [dead];
        && gameEnded == (old(gameEnded) || over)
        && winners == old(winners) + (if ends then [WinnerRecord(Winner(w.points[0], w.points[1]), w.points[0], w.points[1])] else [])
        && players == AfterBroadcasts(old(players), deads)
        && broadcasts == old(broadcasts) + Announcements(w, now, ends)
        && sent == old(sent) + Sends(old(players), deads, Announcements(w, now, ends))
    {
      ghost var w := logic.World();
      ghost var ps := players;
      ghost var state := UpdateState(SnapshotOf(w, Rules.TimeLeft(w, now, GameTime)));
      if over && !gameEnded {
        EndTick(now, deadEnd, dead);
        SendsPair(ps, deadEnd, dead, GameOver([w.points[0], w.points[1]], Winner(w.points[0], w.points[1])), state);
      } else {
        BroadcastState(now, dead);
        assert logic.World() == w;
        SendsPair(ps, dead, dead, state, state);
        assert Announcements(w, now, false) == [state];
      }
    }

    /**
     * The first time-up tick: the result is saved and announced (failing on
     * `deadEnd`), then the snapshot is sent (failing on `dead`).
     */
    method EndTick(now: int, deadEnd: set<Conn>, dead: set<Conn>)
      requires Valid() && gameStarted && !gameEnded
      modifies this
      ensures Valid() && logic.World() == old(logic.World())
      ensures gameStarted && gameEnded && players == AfterBroadcast(AfterBroadcast(old(players), deadEnd), dead)
      ensures var w := logic.World();
        && winners == old(winners) + [WinnerRecord(Winner(w.points[0], w.points[1]), w.points[0], w.points[1])]
        && broadcasts == old(broadcasts) + Announcements(w, now, true)
        && sent == old(sent) + Sends(old(players), [deadEnd, dead], Announcements(w, now, true))
    {
      ghost var w := logic.World();
      ghost var ps := players;
      ghost var b0, s0 := broadcasts, sent;
      ghost var state := UpdateState(SnapshotOf(w, Rules.TimeLeft(w, now, GameTime)));
      EndGame(deadEnd);
      ghost var result := GameOver([w.points[0], w.points[1]], Winner(w.points[0], w.points[1]));
      assert broadcasts == b0 + [result] && sent == s0 + Deliveries(ps, deadEnd, result);
      assert players == AfterBroadcast(ps, deadEnd);
      BroadcastState(now, dead);
      assert logic.World() == w;
      SendsPair(ps, deadEnd, dead, result, state);
      AppendPair(b0, result, state);
      assert Announcements(w, now, true) == [result, state];
    }

    /** The end of the match: latch `game_ended`, record the winner, announce `game_over` with both scores. */
    method EndGame(dead: set<Conn>)
      requires Valid() && !gameEnded
      modifies this
      ensures Valid() && gameEnded && gameStarted == old(gameStarted)
      ensures players == AfterBroadcast(old(players), dead)
      ensures var w := logic.World();
        var winner := Winner(w.points[0], w.points[1]);
        var result := GameOver([w.points[0], w.points[1]], winner);
        && winners == old(winners) + [WinnerRecord(winner, w.points[0], w.points[1])]
        && broadcasts == old(broadcasts) + [result]
        && sent == old(sent) + Deliveries(old(players), dead, result)
    {
      gameEnded := true;
      var p1 := logic.points[0];
      var p2 := logic.points[1];
      var winner := if p1 > p2 then 1 else if p2 > p1 then 2 else 0;
      SaveWinnerInfo(winner, p1, p2);
      Broadcast(GameOver([p1, p2], winner), dead);
    }
  }

  // ------------------------------------------------------------ scenarios

  /**
   * A second hello for a slot that is still connected is refused and leaves
   * the table alone; once the first reader has cleaned the slot up, the same
   * hello is admitted into it.
   */
  lemma {:induction false} SlotReclaimable(players: seq<Slot>, a: Conn, b: Conn, x: Addr, y: Addr,
                                           hello: string, decode: string -> Option<ClientMsg>)
    requires |players| == 2 && !players[0].connected
    requires hello != [] && RequestedSlot(hello, decode) == Some(0)
    ensures var first := Admit(players, a, x, Some(hello), decode);
      var again := Admit(first.1, b, y, Some(hello), decode);
      var freed := first.1[0 := Cleared(first.1[0])];
      var back := Admit(freed, b, y, Some(hello), decode);
      && first.0 == Admitted(0, Partition(hello).1) && first.1[0].conn == Some(a)
      && again.0 == Refused && again.1 == first.1
      && back.0 == Admitted(0, Partition(hello).1) && back.1[0].conn == Some(b)
      && back.1[1] == players[1]
  {
    var first := Admit(players, a, x, Some(hello), decode);
    assert first.1[0].connected;
    assert IsHelloFor(FirstMessage(hello, decode), 0);
  }

  /**
   * The cleanup clears the slot index, not the connection: when a send
   * failure freed slot 0 and a second client took it, the first client's
   * reader exiting afterwards disconnects the newcomer's slot while the
   * newcomer's reader keeps running.
   */
  lemma StaleCleanupClearsNewcomer(a: Conn, b: Conn, x: Addr, y: Addr, hello: string,
                                   decode: string -> Option<ClientMsg>)
    requires a != b
    requires decode(Strip(Partition(hello).0)) == Some(Request(HelloAction, Payload(Some(0), None, None)))
    requires Strip(Partition(hello).0) != []
    ensures var empty := [Slot(None, None, false, 0), Slot(None, None, false, 1)];
      var first := Admit(empty, a, x, Some(hello), decode);
      var failed := AfterBroadcast(first.1, {a});
      var second := Admit(failed, b, y, Some(hello), decode);
      var stale := second.1[0 := Cleared(second.1[0])];
      && first.0.Admitted? && first.0.slot == 0
      && !failed[0].connected
      && second.0.Admitted? && second.0.slot == 0 && second.1[0].conn == Some(b)
      && !stale[0].connected && stale[0].conn.None?
  {
    assert hello != [];
  }
}
