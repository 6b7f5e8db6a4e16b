// The GameClient of clientTCP.py and of its earlier draft client.py: two
// shadow ships mirrored from the server's snapshots, the last snapshot, and
// the game-over flag. The two sources differ only in the waiting event, which
// the draft does not handle.

module Client {
  import opened Utils
  import opened Wrappers
  import opened Protocol
  import SR = ShipRules
  import Ships

  /** Which of the two client sources is modelled. */
  datatype Variant = Tcp | Draft

  /**
   * `game_state`: `{}`, the `{'time_left': 0}` of the waiting screen, the
   * last snapshot payload, or a payload that is not an object.
   */
  datatype GameState = Empty | Waiting | Live(snapshot: Snapshot) | Malformed

  /** The enemy shadow's number, `abs(1 - player_id)`: the other slot for either player. */
  function EnemyNumber(playerId: int): (r: nat)
    ensures 0 <= playerId <= 1 ==> r == 1 - playerId && r != playerId
    ensures r == 0 <==> playerId == 1
  {
    if playerId <= 1 then 1 - playerId else playerId - 1
  }

  /**
   * One ship entry copied onto a shadow ship: hit points, shots, centre,
   * heading and the two flags (false when absent). The reload clock is
   * stamped with `now` only when reloading starts; nothing else changes.
   */
  function ApplyEntry(s: SR.ShipState, e: ShipEntry, now: int): (r: SR.ShipState)
    ensures r.hp == e.hp && r.shots == e.shots && SR.Center(r.rect) == e.pos && r.angle == e.angle
    ensures r.isRespawning == e.isRespawning.GetOr(false)
    ensures r.isReloading == e.isReloading.GetOr(false)
    ensures r.reloadStartTime == (if r.isReloading && !s.isReloading then now else s.reloadStartTime)
    ensures r.(hp := s.hp, shots := s.shots, rect := s.rect, angle := s.angle, isRespawning := s.isRespawning,
               isReloading := s.isReloading, reloadStartTime := s.reloadStartTime) == s
  {
    var reloading := e.isReloading.GetOr(false);
    s.(hp := e.hp, shots := e.shots, rect := SR.RectAround(e.pos), angle := e.angle,
       isRespawning := e.isRespawning.GetOr(false),
       reloadStartTime := if reloading && !s.isReloading then now else s.reloadStartTime,
       isReloading := reloading)
  }

  /** Successive snapshots that keep reporting a reload leave the clock at the moment the reload began. */
  lemma ReloadStampedOnce(s: SR.ShipState, e1: ShipEntry, e2: ShipEntry, t1: int, t2: int)
    requires e1.isReloading == Some(true) && e2.isReloading == Some(true)
    ensures ApplyEntry(ApplyEntry(s, e1, t1), e2, t2).reloadStartTime
      == (if s.isReloading then s.reloadStartTime else t1)
  {
  }

  /** The shadows after a snapshot's ship entries, in order: own entries to `own`, all others to `enemy`. */
  function ApplyEntries(own: SR.ShipState, enemy: SR.ShipState, entries: seq<ShipEntry>,
                        playerId: int, now: int): (r: (SR.ShipState, SR.ShipState))
    decreases |entries|
    ensures r.0.number == own.number && r.1.number == enemy.number
    ensures r.0 == own || exists k :: 0 <= k < |entries| && entries[k].id == playerId && r.0.hp == entries[k].hp
    ensures r.1 == enemy || exists k :: 0 <= k < |entries| && entries[k].id != playerId && r.1.hp == entries[k].hp
  {
    if entries == [] then (own, enemy)
    else
      var prev := ApplyEntries(own, enemy, entries[..|entries| - 1], playerId, now);
      var e := entries[|entries| - 1];
      if e.id == playerId then (ApplyEntry(prev.0, e, now), prev.1) else (prev.0, ApplyEntry(prev.1, e, now))
  }

  /** Whether an entry is addressed to the own shadow (`mine`) or to the enemy shadow. */
  predicate Addressed(e: ShipEntry, playerId: int, mine: bool)
  {
    (e.id == playerId) == mine
  }

  function Shadow(r: (SR.ShipState, SR.ShipState), mine: bool): SR.ShipState
  {
    if mine then r.0 else r.1
  }

  /** A shadow no entry is addressed to is left as it was. */
  lemma {:induction false} ShadowUntouched(own: SR.ShipState, enemy: SR.ShipState, entries: seq<ShipEntry>,
                                           playerId: int, now: int, mine: bool)
    requires forall j :: 0 <= j < |entries| ==> !Addressed(entries[j], playerId, mine)
    ensures Shadow(ApplyEntries(own, enemy, entries, playerId, now), mine) == Shadow((own, enemy), mine)
    decreases |entries|
  {
    if entries != [] {
      ShadowUntouched(own, enemy, entries[..|entries| - 1], playerId, now, mine);
    }
  }

  /**
   * Last write wins: a shadow ends up with the fields of the last entry
   * addressed to it, whatever came before.
   */
  lemma {:induction false} ShadowFollowsLastEntry(own: SR.ShipState, enemy: SR.ShipState, entries: seq<ShipEntry>,
                                                  playerId: int, now: int, mine: bool, k: nat)
    requires k < |entries| && Addressed(entries[k], playerId, mine)
    requires forall j :: k < j < |entries| ==> !Addressed(entries[j], playerId, mine)
    ensures var s := Shadow(ApplyEntries(own, enemy, entries, playerId, now), mine);
      var e := entries[k];
      s.hp == e.hp && s.shots == e.shots && SR.Center(s.rect) == e.pos && s.angle == e.angle
      && s.isRespawning == e.isRespawning.GetOr(false) && s.isReloading == e.isReloading.GetOr(false)
    decreases |entries|
  {
    var init := entries[..|entries| - 1];
    if k == |entries| - 1 {
    } else {
      ShadowFollowsLastEntry(own, enemy, init, playerId, now, mine, k);
    }
  }

  /** The client-visible state, as a value. */
  datatype ClientView = ClientView(own: SR.ShipState, enemy: SR.ShipState, state: GameState, gameOver: bool, running: bool)

  /** The client's state after a message, and whether the handler raised. */
  datatype Outcome = Outcome(view: ClientView, raised: bool)

  /** The messages the handler raises on. */
  predicate Raises(msg: ServerMsg)
  {
    msg.StateNotObject? || msg.GameOverNotObject? || msg.Unreadable?
  }

  /**
   * `handle_server_message` on the client's state. A snapshot replaces the
   * game state wholesale; only `Tcp` has a waiting branch; game over sets
   * only the flag; other events change nothing. A payload that is not an
   * object is still assigned (`update_state`) or the flag still set
   * (`game_over`) before the handler raises.
   */
  function Handle(variant: Variant, playerId: int, v: ClientView, msg: ServerMsg, now: int): (r: Outcome)
    ensures r.raised <==> Raises(msg)
    ensures r.view.running == v.running
    ensures v.gameOver ==> r.view.gameOver
    ensures msg.UpdateState? ==>
      r.view.state == Live(msg.state) && r.view.gameOver == v.gameOver
      && (r.view.own, r.view.enemy) == ApplyEntries(v.own, v.enemy, msg.state.ships, playerId, now)
    ensures msg.StateNotObject? ==> r.view == v.(state := Malformed)
    ensures msg.WaitingForPlayers? ==> r.view == (if variant == Tcp then v.(state := Waiting) else v)
    ensures msg.GameOver? || msg.GameOverNotObject? ==> r.view == v.(gameOver := true)
    ensures msg.OtherEvent? || msg.Unreadable? ==> r.view == v
  {
    match msg
    case UpdateState(st) =>
      var shadows := ApplyEntries(v.own, v.enemy, st.ships, playerId, now);
      Outcome(v.(own := shadows.0, enemy := shadows.1, state := Live(st)), false)
    case StateNotObject => Outcome(v.(state := Malformed), true)
    case WaitingForPlayers(_) => Outcome(if variant == Tcp then v.(state := Waiting) else v, false)
    case GameOver(_, _) => Outcome(v.(gameOver := true), false)
    case GameOverNotObject => Outcome(v.(gameOver := true), true)
    case OtherEvent => Outcome(v, false)
    case Unreadable => Outcome(v, true)
  }

  /** A later snapshot overrides an earlier one: the game state is the last snapshot received. */
  lemma SnapshotLastWriteWins(variant: Variant, playerId: int, v: ClientView, a: Snapshot, b: Snapshot, t1: int, t2: int)
    ensures var first := Handle(variant, playerId, v, UpdateState(a), t1).view;
      Handle(variant, playerId, first, UpdateState(b), t2).view.state == Live(b)
  {
  }

  /** The lines of one receive in order; blank and undecodable lines are skipped, a raising handler stops the reader. */
  function ServeLines(variant: Variant, playerId: int, v: ClientView, lines: seq<string>,
                      decode: string -> Option<ServerMsg>, now: int): (r: ClientView)
    decreases |lines|
    ensures r.running ==> v.running
    ensures v.gameOver ==> r.gameOver
  {
    if lines == [] then v
    else
      var t := Strip(lines[0]);
      if t == [] || decode(t).None? then ServeLines(variant, playerId, v, lines[1..], decode, now)
      else
        var o := Handle(variant, playerId, v, decode(t).value, now);
        if o.raised then o.view.(running := false) else ServeLines(variant, playerId, o.view, lines[1..], decode, now)
  }

  /** A line that is skipped or whose handler does not raise. */
  predicate Handled(line: string, decode: string -> Option<ServerMsg>)
  {
    var t := Strip(line);
    t == [] || decode(t).None? || !Raises(decode(t).value)
  }

  /** One line of the framing loop: serving the buffer's lines, in terms of its first line. */
  lemma ServeStep(variant: Variant, playerId: int, v: ClientView, buf: string,
                  decode: string -> Option<ServerMsg>, now: int)
    requires '\n' in buf
    ensures var (line, rest) := SplitOnce(buf);
      var t := Strip(line);
      Frame(buf).1 == Frame(rest).1
      && ServeLines(variant, playerId, v, Frame(buf).0, decode, now) ==
        (if t == [] || decode(t).None? then ServeLines(variant, playerId, v, Frame(rest).0, decode, now)
         else
           var o := Handle(variant, playerId, v, decode(t).value, now);
           if o.raised then o.view.(running := false) else ServeLines(variant, playerId, o.view, Frame(rest).0, decode, now))
  {
    var (line, rest) := SplitOnce(buf);
    FrameStep(buf);
    var lines := [line] + Frame(rest).0;
    assert lines[0] == line && lines[1..] == Frame(rest).0;
  }

  /** Every line is skipped or handled without raising. */
  predicate AllHandled(lines: seq<string>, decode: string -> Option<ServerMsg>)
    decreases |lines|
  {
    lines == [] || (Handled(lines[0], decode) && AllHandled(lines[1..], decode))
  }

  /** Serving never restarts a stopped reader, and it stops only on a raising handler. */
  lemma {:induction false} ServeLinesRunning(variant: Variant, playerId: int, v: ClientView, lines: seq<string>,
                                             decode: string -> Option<ServerMsg>, now: int)
    ensures ServeLines(variant, playerId, v, lines, decode, now).running <==> v.running && AllHandled(lines, decode)
    decreases |lines|
  {
    if lines != [] {
      var t := Strip(lines[0]);
      if t == [] || decode(t).None? {
        ServeLinesRunning(variant, playerId, v, lines[1..], decode, now);
      } else {
        var o := Handle(variant, playerId, v, decode(t).value, now);
        if !o.raised {
          ServeLinesRunning(variant, playerId, o.view, lines[1..], decode, now);
        }
      }
    }
  }

  /** A `game_over` whose payload is not an object still sets the flag, and the reader stops on it. */
  lemma GameOverThenStop(variant: Variant, playerId: int, v: ClientView, line: string,
                         decode: string -> Option<ServerMsg>, now: int)
    requires Strip(line) != [] && decode(Strip(line)) == Some(GameOverNotObject)
    ensures var r := ServeLines(variant, playerId, v, [line], decode, now);
      r.gameOver && !r.running && r.state == v.state
  {
  }

  /** The draft ignores the waiting event, so it never leaves the game state at the waiting screen. */
  lemma DraftNeverWaits(playerId: int, v: ClientView, msg: ServerMsg, now: int)
    requires v.state != Waiting
    ensures Handle(Draft, playerId, v, msg, now).view.state != Waiting
  {
  }

  /**
   * `draw_game_over`'s scores: the snapshot's `score`, or `[0, 0]` when the
   * state has none; None when the state is not an object and the lookup raises.
   */
  function ShownScores(state: GameState): (r: Option<seq<int>>)
    ensures r.None? <==> state.Malformed?
    ensures state.Live? ==> r == Some(state.snapshot.score)
    ensures state.Empty? || state.Waiting? ==> r == Some([0, 0])
  {
    match state
    case Live(snapshot) => Some(snapshot.score)
    case Malformed => None
    case _ => Some([0, 0])
  }

  /** `draw_game_over`'s winner, computed in the other order of tests; it agrees with the server's rule. */
  function ClientWinner(scores: seq<int>): (w: int)
    requires |scores| >= 2
    ensures w == Winner(scores[0], scores[1])
  {
    if scores[0] == scores[1] then 0 else if scores[0] > scores[1] then 1 else 2
  }

  /** Copies one entry onto a shadow ship, as each branch of the entry loop does. */
  method SyncShadow(s: Ships.Ship, e: ShipEntry, now: int)
    modifies s
    ensures s.Value() == ApplyEntry(old(s.Value()), e, now)
  {
    s.hp := e.hp;
    s.shots := e.shots;
    s.rect := SR.RectAround(e.pos);
    s.angle := e.angle;
    s.isRespawning := e.isRespawning.GetOr(false);
    var reloading := e.isReloading.GetOr(false);
    if reloading {
      if !s.isReloading {
        s.reloadStartTime := now;
      }
      s.isReloading := true;
    } else {
      s.isReloading := false;
    }
  }

  class GameClient {
    const variant: Variant
    const playerId: int
    const ship: Ships.Ship
    const enemyShip: Ships.Ship
    var running: bool
    var gameState: GameState
    var gameOver: bool

    predicate Valid()
      reads this
    {
      ship != enemyShip
    }

    function View(): ClientView
      reads this, ship, enemyShip
    {
      ClientView(ship.Value(), enemyShip.Value(), gameState, gameOver, running)
    }

    /** `__init__`: the own shadow has the player's number, the enemy shadow the other one. */
    constructor (variant: Variant, playerId: int, now: int)
      ensures Valid() && this.variant == variant && this.playerId == playerId
      ensures ship.Value() == SR.Initial(playerId, now)
      ensures enemyShip.Value() == SR.Initial(EnemyNumber(playerId), now)
      ensures running && gameState == Empty && !gameOver
    {
      this.variant := variant;
      this.playerId := playerId;
      ship := new Ships.Ship(playerId, now);
      enemyShip := new Ships.Ship(EnemyNumber(playerId), now);
      running := true;
      gameState := Empty;
      gameOver := false;
    }

    /** `handle_server_message`; `ok` is false when it raised, after whatever it assigned first. */
    method HandleServerMessage(msg: ServerMsg, now: int) returns (ok: bool)
      requires Valid()
      modifies this, ship, enemyShip
      ensures Valid()
      ensures var r := Handle(variant, playerId, old(View()), msg, now);
        ok == !r.raised && View() == r.view
    {
      ok := true;
      match msg
      case UpdateState(st) =>
        gameState := Live(st);
        ApplySnapshot(st.ships, now);
      case WaitingForPlayers(_) =>
        if variant == Tcp {
          gameState := Waiting;
        }
      case StateNotObject =>
        gameState := Malformed;
        ok := false;
      case GameOver(_, _) =>
        gameOver := true;
      case GameOverNotObject =>
        gameOver := true;
        ok := false;
      case OtherEvent =>
      case Unreadable =>
        ok := false;
    }

    /** The loop over the snapshot's ship entries. */
    method ApplySnapshot(entries: seq<ShipEntry>, now: int)
      requires Valid()
      modifies ship, enemyShip
      ensures (ship.Value(), enemyShip.Value())
        == ApplyEntries(old(ship.Value()), old(enemyShip.Value()), entries, playerId, now)
    {
      var i := 0;
      while i < |entries|
        invariant 0 <= i <= |entries|
        invariant (ship.Value(), enemyShip.Value())
          == ApplyEntries(old(ship.Value()), old(enemyShip.Value()), entries[..i], playerId, now)
      {
        assert entries[..i + 1][..i] == entries[..i];
        var e := entries[i];
        if e.id == playerId {
          SyncShadow(ship, e, now);
        } else {
          SyncShadow(enemyShip, e, now);
        }
        i := i + 1;
      }
      assert entries[..i] == entries;
    }

    /**
     * One receive of `listen_server` on the buffer it carries: the chunk
     * (None when the receive raised, "" when the server closed) is appended
     * and its complete lines are handled; the reader stops on a closed or
     * failed receive or on a raising handler. `rest` is the carried buffer.
     */
    method Receive(buffer: string, chunk: Option<string>, decode: string -> Option<ServerMsg>, now: int)
      returns (rest: string)
      requires Valid() && running
      modifies this, ship, enemyShip
      ensures Valid()
      ensures chunk.None? || chunk == Some("") ==> View() == old(View()).(running := false)
      ensures chunk.Some? && chunk.value != "" ==>
        View() == ServeLines(variant, playerId, old(View()), Frame(buffer + chunk.value).0, decode, now)
      ensures running ==> rest == Frame(buffer + chunk.value).1 && '\n' !in rest
    {
      if chunk.None? || chunk.value == "" {
        running := false;
        return buffer;
      }
      rest := ServeBuffer(buffer + chunk.value, decode, now);
    }

    /** The `while '\n' in buffer` loop: each complete line in order, until a handler raises. */
    method ServeBuffer(buffer: string, decode: string -> Option<ServerMsg>, now: int) returns (rest: string)
      requires Valid() && running
      modifies this, ship, enemyShip
      ensures Valid()
      ensures View() == ServeLines(variant, playerId, old(View()), Frame(buffer).0, decode, now)
      ensures running ==> rest == Frame(buffer).1
    {
      var buf := buffer;
      ghost var v0 := View();
      while '\n' in buf
        invariant Valid() && running
        invariant Frame(buf).1 == Frame(buffer).1
        invariant ServeLines(variant, playerId, View(), Frame(buf).0, decode, now)
          == ServeLines(variant, playerId, v0, Frame(buffer).0, decode, now)
        decreases |buf|
      {
        ServeStep(variant, playerId, View(), buf, decode, now);
        var parts := SplitOnce(buf);
        buf := parts.1;
        var line := Strip(parts.0);
        if line == [] {
          continue;
        }
        var msg := decode(line);
        if msg.None? {
          continue;
        }
        var ok := HandleServerMessage(msg.value, now);
        if !ok {
          running := false;
          break;
        }
      }
      rest := buf;
    }

    /**
     * `restart_game`: the restart request (`sent` is whether `sendall`
     * succeeded; a failure stops the client), then the flag, both shadows
     * and the game state are reset.
     */
    method RestartGame(now: int, sent: bool)
      requires Valid()
      modifies this, ship, enemyShip
      ensures Valid()
      ensures View() == ClientView(SR.Reset(old(ship.Value()), now), SR.Reset(old(enemyShip.Value()), now),
                                    Empty, false, old(running) && sent)
    {
      if !sent {
        running := false;
      }
      gameOver := false;
      ship.Reset(now);
      enemyShip.Reset(now);
      gameState := Empty;
    }
  }
}
