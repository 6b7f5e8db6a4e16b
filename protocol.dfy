// The wire protocol shared by serverTCP.py and the clients: newline-framed
// JSON objects. JSON itself is not modelled; a decoded line is one of the
// message values below, and decoding is a parameter of the readers.

module Protocol {
  import opened Utils
  import opened Seqs
  import opened Wrappers

  // ---------------------------------------------------------------- framing

  /** Python's `str.isspace`, the characters `str.strip()` removes. */
  predicate IsSpace(c: char)
  {
    ('\U{0009}' <= c <= '\U{000D}') || ('\U{001C}' <= c <= '\U{0020}')
    || c == '\U{0085}' || c == '\U{00A0}' || c == '\U{1680}'
    || ('\U{2000}' <= c <= '\U{200A}') || c == '\U{2028}' || c == '\U{2029}'
    || c == '\U{202F}' || c == '\U{205F}' || c == '\U{3000}'
  }

  predicate AllSpace(s: string)
  {
    forall i :: 0 <= i < |s| ==> IsSpace(s[i])
  }

  function TrimLeft(s: string): (r: string)
    ensures |r| <= |s| && r == s[|s| - |r|..]
    ensures AllSpace(s[..|s| - |r|])
    ensures r == [] || !IsSpace(r[0])
  {
    if s != [] && IsSpace(s[0]) then
      var r := TrimLeft(s[1..]);
      assert s[|s| - |r|..] == s[1..][|s| - 1 - |r|..];
      assert forall i :: 0 < i < |s| - |r| ==> s[i] == s[1..][..|s| - 1 - |r|][i - 1];
      r
    else s
  }

  function TrimRight(s: string): (r: string)
    ensures |r| <= |s| && r == s[..|r|]
    ensures AllSpace(s[|r|..])
    ensures r == [] || !IsSpace(r[|r| - 1])
  {
    if s != [] && IsSpace(s[|s| - 1]) then
      var r := TrimRight(s[..|s| - 1]);
      assert s[..|s| - 1][..|r|] == s[..|r|];
      assert forall i :: |r| <= i < |s| - 1 ==> s[i] == s[..|s| - 1][|r|..][i - |r|];
      r
    else s
  }

  /**
   * `str.strip()`: the line without leading and trailing whitespace. It is
   * empty exactly when the line is all whitespace, which is when the readers
   * skip it.
   */
  function Strip(s: string): (r: string)
    ensures |r| <= |s|
    ensures r == [] || (!IsSpace(r[0]) && !IsSpace(r[|r| - 1]))
    ensures r == [] <==> AllSpace(s)
  {
    var l := TrimLeft(s);
    StripEmpty(s, l);
    TrimRight(l)
  }

  /** The stripped line is empty exactly when every character is whitespace. */
  lemma StripEmpty(s: string, l: string)
    requires l == TrimLeft(s)
    ensures TrimRight(l) == [] <==> AllSpace(s)
  {
    var r := TrimRight(l);
    if r == [] {
      assert AllSpace(l) by {
        assert l[|r|..] == l;
      }
      assert forall i :: 0 <= i < |s| ==>
        (i < |s| - |l| ==> s[i] == s[..|s| - |l|][i]) && (i >= |s| - |l| ==> s[i] == l[i - (|s| - |l|)]);
    } else {
      assert !IsSpace(l[0]) && l[0] == s[|s| - |l|];
    }
  }

  /** Stripping twice changes nothing. */
  lemma StripIdempotent(s: string)
    ensures Strip(Strip(s)) == Strip(s)
  {
    var r := Strip(s);
    if r != [] {
      assert TrimLeft(r) == r;
      assert TrimRight(r) == r;
    }
  }

  /** `buf.split('\n', 1)` on a buffer that contains a newline. */
  function SplitOnce(buf: string): (r: (string, string))
    requires '\n' in buf
    ensures buf == r.0 + "\n" + r.1 && '\n' !in r.0
  {
    var k := IndexOf(buf, '\n');
    assert buf == buf[..k] + "\n" + buf[k + 1..];
    assert forall i :: 0 <= i < k ==> buf[..k][i] == buf[i];
    (buf[..k], buf[k + 1..])
  }

  /** `buf.partition('\n')`: the first line, and everything after its newline (empty if there is none). */
  function Partition(buf: string): (r: (string, string))
    ensures '\n' !in r.0
    ensures '\n' in buf ==> buf == r.0 + "\n" + r.1
    ensures '\n' !in buf ==> r == (buf, "")
  {
    if '\n' in buf then SplitOnce(buf) else (buf, "")
  }

  /** The newline-terminated lines, concatenated: what a sender writes for `lines`. */
  function Join(lines: seq<string>): string
  {
    if lines == [] then "" else lines[0] + "\n" + Join(lines[1..])
  }

  predicate NoNewlines(lines: seq<string>)
  {
    forall i :: 0 <= i < |lines| ==> '\n' !in lines[i]
  }

  /**
   * The `while '\n' in buf` loop of both readers: the complete lines in
   * order, and the unterminated rest that stays in the buffer.
   */
  function Frame(buf: string): (r: (seq<string>, string))
    decreases |buf|
    ensures NoNewlines(r.0) && '\n' !in r.1
    ensures Join(r.0) + r.1 == buf
  {
    if '\n' in buf then
      var split := SplitOnce(buf);
      assert |split.1| < |buf|;
      var more := Frame(split.1);
      JoinCons(split.0, more.0);
      ConcatAssoc(split.0 + "\n", Join(more.0), more.1);
      ([split.0] + more.0, more.1)
    else ([], buf)
  }

  lemma ConcatAssoc<T>(a: seq<T>, b: seq<T>, c: seq<T>)
    ensures (a + b) + c == a + (b + c)
  {
  }

  /** Joining a line in front of others; the line's newlines are kept apart from theirs. */
  lemma JoinCons(line: string, lines: seq<string>)
    ensures Join([line] + lines) == line + "\n" + Join(lines)
    ensures '\n' !in line && NoNewlines(lines) ==> NoNewlines([line] + lines)
  {
    assert ([line] + lines)[1..] == lines;
    assert forall i :: 1 <= i < |lines| + 1 ==> ([line] + lines)[i] == lines[i - 1];
  }

  /** Framing what a sender wrote for `lines` gives back those lines, followed by whatever framing the rest gives. */
  lemma {:induction false} FrameAfterJoin(lines: seq<string>, rest: string)
    requires NoNewlines(lines)
    ensures Frame(Join(lines) + rest) == (lines + Frame(rest).0, Frame(rest).1)
    decreases |lines|
  {
    if lines != [] {
      var tail := Join(lines[1..]) + rest;
      var buf := lines[0] + "\n" + tail;
      assert Join(lines) + rest == buf;
      SplitUnique(lines[0], tail);
      FrameStep(buf);
      FrameAfterJoin(lines[1..], rest);
      var more := Frame(rest).0;
      SeqAssoc(lines, more);
    } else {
      assert Join(lines) + rest == rest;
      assert lines + Frame(rest).0 == Frame(rest).0;
    }
  }

  lemma SeqAssoc<T>(a: seq<T>, b: seq<T>)
    requires a != []
    ensures [a[0]] + (a[1..] + b) == a + b
  {
    assert a == [a[0]] + a[1..];
  }

  /** Framing a buffer with a newline: its first line, then the framing of what follows. */
  lemma FrameStep(buf: string)
    requires '\n' in buf
    ensures var (line, rest) := SplitOnce(buf);
      Frame(buf) == ([line] + Frame(rest).0, Frame(rest).1)
  {
  }

  /** A buffer starting with a newline-free line splits after that line. */
  lemma SplitUnique(line: string, tail: string)
    requires '\n' !in line
    ensures '\n' in line + "\n" + tail
    ensures SplitOnce(line + "\n" + tail) == (line, tail)
  {
    var buf := line + "\n" + tail;
    assert buf[|line|] == '\n';
    assert forall i :: 0 <= i < |line| ==> buf[i] == line[i];
    RemoveNewline(buf, |line|);
    assert buf[..|line|] == line;
    assert buf[|line| + 1..] == tail;
  }

  lemma RemoveNewline(buf: string, k: nat)
    requires k < |buf| && buf[k] == '\n' && forall i :: 0 <= i < k ==> buf[i] != '\n'
    ensures '\n' in buf && IndexOf(buf, '\n') == k
  {
    var j := IndexOf(buf, '\n');
  }

  /** The round trip: framing a sender's output recovers exactly its lines and its unterminated tail. */
  lemma FrameJoin(lines: seq<string>, rest: string)
    requires NoNewlines(lines) && '\n' !in rest
    ensures Frame(Join(lines) + rest) == (lines, rest)
  {
    FrameAfterJoin(lines, rest);
    assert lines + [] == lines;
  }

  /**
   * Chunk boundaries do not matter: framing a buffer chunk by chunk,
   * carrying the rest over, yields the same lines as framing it whole.
   */
  lemma FrameChunks(buf: string, chunk: string)
    ensures var first := Frame(buf);
      first.0 + Frame(first.1 + chunk).0 == Frame(buf + chunk).0
      && Frame(first.1 + chunk).1 == Frame(buf + chunk).1
  {
    var first := Frame(buf);
    assert buf + chunk == Join(first.0) + (first.1 + chunk);
    FrameAfterJoin(first.0, first.1 + chunk);
  }

  // ---------------------------------------------------------------- messages

  /** The `action` of a client message. */
  datatype Action = HelloAction | UpdatePositionAction | ShootAction | RestartAction | OtherAction

  /**
   * The client's `payload`: absent fields are None (a missing payload is an
   * empty one); `BadPayload` is a payload that is not an object, on which
   * any `.get` raises.
   */
  datatype Payload = Payload(playerId: Option<int>, pos: Option<Vec>, angle: Option<int>) | BadPayload

  /** A decoded line from a client: an object with action and payload, or a JSON value that is not an object. */
  datatype ClientMsg = Request(action: Action, payload: Payload) | NotAnObject

  /** One ship as the server reports it; the clients default the two flags to false when absent. */
  datatype ShipEntry = ShipEntry(
    id: int, hp: int, pos: Vec, angle: int, shots: int,
    isRespawning: Option<bool>, isReloading: Option<bool>)

  datatype AsteroidEntry = AsteroidEntry(pos: Vec, radius: int, color: Color)

  datatype LaserEntry = LaserEntry(pos: Vec, owner: int)

  /** The payload of `update_state`. */
  datatype Snapshot = Snapshot(
    ships: seq<ShipEntry>, asteroids: seq<AsteroidEntry>, lasers: seq<LaserEntry>,
    score: seq<int>, timeLeft: int)

  /**
   * A decoded line from the server, by its `event`. `StateNotObject` and
   * `GameOverNotObject` are `update_state` and `game_over` whose payload is
   * present but not an object: the client handler makes its first
   * assignment and then raises. `Unreadable` is a value the handler raises
   * on before changing anything (not an object, or a payload it cannot
   * read). A raising handler ends the client's reader.
   */
  datatype ServerMsg =
    | WaitingForPlayers(connected: int)
    | UpdateState(state: Snapshot)
    | StateNotObject
    | GameOver(scores: seq<int>, winner: int)
    | GameOverNotObject
    | OtherEvent
    | Unreadable

  // ---------------------------------------------------------------- winner

  /** The server's winner code: 1 when the first slot leads, 2 when the second does, 0 on a draw. */
  function Winner(p1: int, p2: int): (w: int)
    ensures w == 1 <==> p1 > p2
    ensures w == 2 <==> p2 > p1
    ensures w == 0 <==> p1 == p2
  {
    if p1 > p2 then 1 else if p2 > p1 then 2 else 0
  }

  /** One result line of the winners file (its text formatting is not modelled). */
  datatype WinnerLine = WinnerLine(name: string, score: int, p1: int, p2: int)

  /** `save_winner_info`: the name and score recorded for a winner code. */
  function WinnerRecord(winner: int, p1: int, p2: int): (r: WinnerLine)
    ensures r.p1 == p1 && r.p2 == p2
    ensures r.name == (if winner == 1 then "Player1" else if winner == 2 then "Player2" else "Draw")
    ensures r.score == (if winner == 2 then p2 else p1)
  {
    if winner == 1 then WinnerLine("Player1", p1, p1, p2)
    else if winner == 2 then WinnerLine("Player2", p2, p1, p2)
    else WinnerLine("Draw", p1, p1, p2)
  }

  /** For the server's own winner code, the recorded score is the best score, and "Draw" means equal scores. */
  lemma RecordedScoreIsBest(p1: int, p2: int)
    ensures var r := WinnerRecord(Winner(p1, p2), p1, p2);
      r.score >= p1 && r.score >= p2 && (r.score == p1 || r.score == p2)
      && (r.name == "Draw" <==> p1 == p2)
  {
  }
}
