/**
 * One room's state machine (server.js): the room invariant, and the state
 * each transition produces, as functions of the state before it. The handler
 * methods of the registry are proved to produce exactly these states.
 */
module Rounds {

  import opened Optionals
  import opened OrderedMaps
  import opened Scoring
  import opened RoomCodes
  import opened GameTypes
  import opened Summary

  // ---- The room invariant

  /** Each player record carries its own id, and exactly the host has `isHost`. */
  ghost predicate PlayersConsistent(r: Room) {
    forall p :: p in r.players.vals ==> r.players.vals[p].id == p && (r.players.vals[p].isHost <==> p == r.hostId)
  }

  /** Every player has a match-history row, and their score is that row's total. */
  ghost predicate ScoresMatchHistory(r: Room)
    requires HistoryValid(r.history)
  {
    forall p :: p in r.players.vals ==> p in r.history.vals && r.players.vals[p].score == Sum(r.history.vals[p])
  }

  ghost predicate HistoryNonNegative(h: History) {
    forall g, t :: g in h.vals && t in h.vals[g].vals ==> h.vals[g].vals[t] >= 0
  }

  /** `currentRound` starts at 0 and is only raised while it is below `rounds`. */
  ghost predicate RoundBound(r: Room) {
    0 <= r.currentRound && (r.currentRound == 0 || r.currentRound <= r.settings.rounds)
  }

  /** Nothing has been played in the lobby: no spotlight, empty history rows. */
  ghost predicate LobbyUnplayed(r: Room) {
    r.phase == Lobby ==> r.spotlight == None && forall g :: g in r.history.vals ==> r.history.vals[g].keys == []
  }

  ghost predicate RoomCore(r: Room) {
    && Valid(r.players)
    && HistoryValid(r.history)
    && PlayersConsistent(r)
    && ScoresMatchHistory(r)
    && HistoryNonNegative(r.history)
    && RoundBound(r)
    && LobbyUnplayed(r)
  }

  /** What holds of every room in the registry: it has players, and its host is one of them. */
  ghost predicate RoomInv(r: Room) {
    RoomCore(r) && |r.players.keys| > 0 && r.hostId in r.players.vals
  }

  /** What the handlers read of a room is well formed: its players (at least one) and its match history. */
  ghost predicate Readable(r: Room) {
    Valid(r.players) && |r.players.keys| > 0 && HistoryValid(r.history)
  }

  /** `rooms[c]`: the term through which the registry invariant below is used. */
  function RoomOf(rooms: map<Code, Room>, c: Code): Room
    requires c in rooms
  {
    rooms[c]
  }

  /** Every room of a registry satisfies the invariant. */
  ghost predicate AllRoomsValid(rooms: map<Code, Room>) {
    forall c {:trigger RoomOf(rooms, c)} :: c in rooms ==> RoomInv(RoomOf(rooms, c))
  }

  /** Every room but the one under `code` satisfies the invariant. */
  ghost predicate OthersValid(rooms: map<Code, Room>, code: Code) {
    forall c {:trigger RoomOf(rooms, c)} :: c in rooms && c != code ==> RoomInv(RoomOf(rooms, c))
  }

  /** Storing a room that satisfies the invariant keeps every room valid. */
  lemma RoomsUpdate(rooms: map<Code, Room>, code: Code, r: Room)
    requires OthersValid(rooms, code) && RoomInv(r)
    ensures AllRoomsValid(rooms[code := r])
  {
    var updated := rooms[code := r];
    forall c | c in updated
      ensures RoomInv(RoomOf(updated, c))
    {
      if c != code {
        assert RoomOf(updated, c) == RoomOf(rooms, c);
      }
    }
  }

  /** Replacing the room under `code` leaves the others as they were. */
  lemma RoomsReplace(rooms: map<Code, Room>, code: Code, r: Room)
    requires OthersValid(rooms, code)
    ensures OthersValid(rooms[code := r], code)
  {
    var updated := rooms[code := r];
    forall c | c in updated && c != code
      ensures RoomInv(RoomOf(updated, c))
    {
      assert RoomOf(updated, c) == RoomOf(rooms, c);
    }
  }

  lemma RoomsOthers(rooms: map<Code, Room>, code: Code)
    requires AllRoomsValid(rooms)
    ensures OthersValid(rooms, code)
  {
    forall c | c in rooms && c != code
      ensures RoomInv(RoomOf(rooms, c))
    {
      assert RoomInv(RoomOf(rooms, c));
    }
  }

  lemma RoomsRemove(rooms: map<Code, Room>, code: Code)
    requires AllRoomsValid(rooms)
    ensures AllRoomsValid(rooms - {code})
  {
    forall c | c in rooms - {code}
      ensures RoomInv(RoomOf(rooms - {code}, c))
    {
      assert RoomOf(rooms - {code}, c) == RoomOf(rooms, c);
    }
  }

  lemma RoomAt(rooms: map<Code, Room>, code: Code)
    requires AllRoomsValid(rooms) && code in rooms
    ensures RoomInv(rooms[code])
  {
    assert RoomInv(RoomOf(rooms, code));
  }

  /** Scores are never negative. */
  lemma ScoresNonNegative(r: Room, p: ConnId)
    requires RoomInv(r) && p in r.players.vals
    ensures r.players.vals[p].score >= 0
  {
    var row := r.history.vals[p];
    SumOverNonNegative(row.keys, row.vals);
  }

  // ---- Creating and joining (createRoom, joinRoomLogic)

  /** `playerName.charAt(0).toUpperCase()`. */
  function Avatar(name: string): string {
    if |name| == 0 then "" else [UpperChar(name[0])]
  }

  function NewPlayer(conn: ConnId, name: string, isHost: bool): Player {
    Player(conn, name, 0, Avatar(name), isHost)
  }

  /** The room createRoom registers before its creator joins it. */
  function FreshRoom(host: ConnId): Room {
    Room(Empty(), map[], Lobby, host, DefaultSettings, 0, [], None, None, Empty(), None)
  }

  /** A room `conn` may join: a lobby, whose host is present or is `conn` itself. */
  ghost predicate CanJoin(r: Room, conn: ConnId) {
    RoomCore(r) && r.phase == Lobby && (r.hostId in r.players.vals || r.hostId == conn)
  }

  /** joinRoomLogic: (re)writes the player record and opens a match-history row if there is none. */
  function Joined(r: Room, conn: ConnId, name: string): Room
    requires Valid(r.players) && HistoryValid(r.history)
  {
    r.(players := Put(r.players, conn, NewPlayer(conn, name, conn == r.hostId)),
       history := if conn in r.history.vals then r.history else Put(r.history, conn, Empty()))
  }

  lemma FreshRoomCanBeJoined(host: ConnId)
    ensures CanJoin(FreshRoom(host), host)
  {
  }

  /** After a join the room satisfies the invariant. */
  lemma JoinKeepsInvariant(r: Room, conn: ConnId, name: string)
    requires CanJoin(r, conn)
    ensures RoomInv(Joined(r, conn, name))
  {
    var j := Joined(r, conn, name);
    JoinAddsPlayer(r, conn, name);
    JoinedRowsEmpty(r, conn, name);
    assert ScoresMatchHistory(j) by {
      forall p | p in j.players.vals
        ensures p in j.history.vals && j.players.vals[p].score == Sum(j.history.vals[p])
      {
        assert j.history.vals[p].keys == [];
        if p != conn {
          assert p in r.history.vals && r.history.vals[p].keys == [];
        }
      }
    }
  }

  /**
   * A join (re)writes the joiner's record with score 0, flagged host exactly
   * when they are the host, and leaves every other record as it was.
   */
  lemma JoinAddsPlayer(r: Room, conn: ConnId, name: string)
    requires CanJoin(r, conn)
    ensures var j := Joined(r, conn, name);
      && j.players.vals == r.players.vals[conn := NewPlayer(conn, name, conn == r.hostId)]
      && conn in j.players.vals && j.players.vals[conn].score == 0
      && (j.players.vals[conn].isHost <==> conn == r.hostId)
      && (forall p :: p in r.players.vals && p != conn ==> p in j.players.vals && j.players.vals[p] == r.players.vals[p])
      && PlayersConsistent(j) && Valid(j.players) && j.hostId in j.players.vals
  {
  }

  /** In the lobby every match-history row, the joiner's included, stays empty. */
  lemma JoinedRowsEmpty(r: Room, conn: ConnId, name: string)
    requires CanJoin(r, conn)
    ensures var j := Joined(r, conn, name);
      && HistoryValid(j.history) && conn in j.history.vals
      && (forall g :: g in j.history.vals ==> j.history.vals[g].keys == [])
      && (forall g :: g in r.history.vals ==> g in j.history.vals)
  {
    var j := Joined(r, conn, name);
    if conn !in r.history.vals {
      assert j.history.vals == r.history.vals[conn := Empty()];
    }
  }

  /** sanitizeState. */
  function Sanitize(code: Code, r: Room): Snapshot
    requires Valid(r.players)
  {
    Snapshot(code, Values(r.players), r.hostId, r.phase)
  }

  /**
   * Every snapshot lists each player's record once and nothing else, the
   * host among them, and no one else as host.
   */
  lemma SnapshotHasOneHost(code: Code, r: Room)
    requires RoomInv(r)
    ensures var s := Sanitize(code, r);
      && |s.players| == |r.players.keys|
      && (forall p :: p in r.players.vals ==> r.players.vals[p] in s.players)
      && (forall i :: 0 <= i < |s.players| ==> s.players[i].id in r.players.vals && s.players[i] == r.players.vals[s.players[i].id])
      && (exists i :: 0 <= i < |s.players| && s.players[i].id == r.hostId && s.players[i].isHost)
      && (forall i :: 0 <= i < |s.players| ==> (s.players[i].isHost <==> s.players[i].id == r.hostId))
      && (forall i, j :: 0 <= i < j < |s.players| ==> s.players[i].id != s.players[j].id)
  {
    var s := Sanitize(code, r);
    var i :| 0 <= i < |r.players.keys| && r.players.keys[i] == r.hostId;
    assert s.players[i].id == r.hostId;
    forall p | p in r.players.vals
      ensures r.players.vals[p] in s.players
    {
      var k :| 0 <= k < |r.players.keys| && r.players.keys[k] == p;
      assert s.players[k] == r.players.vals[p];
    }
  }

  // ---- Starting a round (startNewRound, refillDeck)

  /** The refill permutation chosen by `ids.sort(() => Math.random() - 0.5)`. */
  ghost predicate IsShuffleOf(perm: seq<ConnId>, r: Room) {
    multiset(perm) == multiset(r.players.keys)
  }

  /** The deck `pop` takes from: refilled first if it was empty. */
  function DeckToDraw(r: Room, perm: seq<ConnId>): seq<ConnId> {
    if r.deck == [] then perm else r.deck
  }

  /** endGame runs without a TypeError: each name it looks up belongs to a present player. */
  ghost predicate EndGameSafe(r: Room) {
    HistoryValid(r.history) && ScanSafe(AllEntries(r.history), r.players)
  }

  /**
   * startNewRound runs without a TypeError: the drawn spotlight is still a
   * player (its name is read), or, if the game ends, endGame can read every name it looks up.
   */
  ghost predicate RoundStartSafe(r: Room, perm: seq<ConnId>) {
    if r.currentRound >= r.settings.rounds then EndGameSafe(r)
    else
      var d := DeckToDraw(r, perm);
      |d| > 0 && d[|d| - 1] in r.players.vals
  }

  /** The next round: one more round, SELECTION, no answers, spotlight popped off the deck. */
  function NextRoundState(r: Room, perm: seq<ConnId>): Room
    requires |DeckToDraw(r, perm)| > 0
  {
    var d := DeckToDraw(r, perm);
    r.(currentRound := r.currentRound + 1, phase := Selection, answers := map[],
       deck := d[..|d| - 1], spotlight := Some(d[|d| - 1]))
  }

  /** startNewRound: GAMEOVER once `currentRound >= rounds`, otherwise the next round. */
  function AfterRoundStart(r: Room, perm: seq<ConnId>): Room
    requires RoundStartSafe(r, perm)
  {
    if r.currentRound >= r.settings.rounds then r.(phase := GameOver) else NextRoundState(r, perm)
  }

  /** The gameOver event: winner, leaderboard, soulmates and strangers. */
  function GameSummary(code: Code, r: Room): Event
    requires Valid(r.players) && |r.players.keys| > 0 && HistoryValid(r.history)
  {
    var board := SortByScore(Values(r.players));
    LeaderboardLength(Values(r.players));
    var es := AllEntries(r.history);
    GameOverEvent(code, board[0], board, BestPair(es, r.players), Strangers(es, r.players))
  }

  /** endGame's computation of the gameOver event: the sorted leaderboard and the scan of the history. */
  method Summarize(code: Code, r: Room) returns (e: Event)
    requires Valid(r.players) && |r.players.keys| > 0 && EndGameSafe(r)
    ensures e == GameSummary(code, r)
  {
    var board := SortByScore(Values(r.players));
    LeaderboardLength(Values(r.players));
    var best, worst := ScanHistory(r.history, r.players);
    e := GameOverEvent(code, board[0], board, best, worst);
  }

  /** What startNewRound broadcasts. */
  function RoundStartEvents(catalog: seq<Topic>, code: Code, r: Room, perm: seq<ConnId>): seq<Event>
    requires Readable(r) && RoundStartSafe(r, perm)
  {
    if r.currentRound >= r.settings.rounds then [GameSummary(code, r.(phase := GameOver))]
    else
      var n := NextRoundState(r, perm);
      var s := n.spotlight.value;
      [GoToSelection(code, s, n.players.vals[s].name, catalog, n.currentRound, n.settings.rounds),
       UpdateState(code, Sanitize(code, n))]
  }

  /**
   * startNewRound keeps the room invariant, so `currentRound <= rounds` for
   * any non-negative `rounds`; a started round raises `currentRound` by
   * exactly one, draws a present spotlight and shortens the deck by one; a
   * refilled deck held every player once.
   */
  lemma RoundStartKeepsInvariant(r: Room, perm: seq<ConnId>)
    requires RoomInv(r) && IsShuffleOf(perm, r) && RoundStartSafe(r, perm)
    ensures RoomInv(AfterRoundStart(r, perm))
    ensures r.settings.rounds >= 0 ==> AfterRoundStart(r, perm).currentRound <= r.settings.rounds
    ensures r.currentRound >= r.settings.rounds ==>
      AfterRoundStart(r, perm).phase == GameOver && AfterRoundStart(r, perm).currentRound == r.currentRound
    ensures r.currentRound < r.settings.rounds ==>
      var n := AfterRoundStart(r, perm);
      && n.currentRound == r.currentRound + 1
      && n.phase == Selection && n.answers == map[]
      && n.spotlight.Some? && n.spotlight.value in n.players.vals
      && |n.deck| + 1 == |DeckToDraw(r, perm)|
      && (r.deck == [] ==> multiset(n.deck) + multiset{n.spotlight.value} == multiset(r.players.keys))
  {
    if r.currentRound < r.settings.rounds {
      var d := DeckToDraw(r, perm);
      assert d == d[..|d| - 1] + [d[|d| - 1]];
    }
  }

  // ---- Scoring (calculateScores)

  /** The spotlight has submitted a ranking: `room.answers[room.spotlightId]` is defined. */
  predicate Answered(r: Room) {
    r.spotlight.Some? && r.spotlight.value in r.answers
  }

  /** `room.answers[pid] || []`. */
  function AnswerOf(answers: map<ConnId, Ranking>, pid: ConnId): Ranking {
    if pid in answers then answers[pid] else []
  }

  /** One iteration of the `for (let pid in room.players)` loop. */
  function ScoreOne(r: Room, spot: ConnId, truth: Ranking, pid: ConnId): (r': Room)
    requires Valid(r.players) && HistoryValid(r.history) && pid in r.players.vals
    ensures Valid(r'.players) && HistoryValid(r'.history) && r'.players.keys == r.players.keys
    ensures r' == r.(players := r'.players, history := r'.history)
  {
    if pid == spot then r
    else Credit(r, pid, spot, Points(AnswerOf(r.answers, pid), truth))
  }

  /** Credit `points` to a guesser: to their score and to their match-history cell at the spotlight. */
  function Credit(r: Room, pid: ConnId, spot: ConnId, points: int): (r': Room)
    requires Valid(r.players) && HistoryValid(r.history) && pid in r.players.vals
    ensures Valid(r'.players) && HistoryValid(r'.history) && r'.players.keys == r.players.keys
    ensures r' == r.(players := r'.players, history := r'.history)
  {
    var p := r.players.vals[pid];
    var h := if pid in r.history.vals then r.history else Put(r.history, pid, Empty());
    r.(players := Put(r.players, pid, p.(score := p.score + points)),
       history := Put(h, pid, AddTo(h.vals[pid], spot, points)))
  }

  /** The loop run over the keys `ks`, in order. */
  function ScoreFold(r: Room, spot: ConnId, truth: Ranking, ks: seq<ConnId>): (r': Room)
    requires Valid(r.players) && HistoryValid(r.history)
    requires forall k :: k in ks ==> k in r.players.vals
    ensures Valid(r'.players) && HistoryValid(r'.history) && r'.players.keys == r.players.keys
    ensures r' == r.(players := r'.players, history := r'.history)
    decreases |ks|
  {
    if ks == [] then r
    else ScoreOne(ScoreFold(r, spot, truth, ks[..|ks| - 1]), spot, truth, ks[|ks| - 1])
  }

  /** The `roundResults` the loop collects for the keys `ks`. */
  function RoundResults(r: Room, spot: ConnId, truth: Ranking, ks: seq<ConnId>): seq<RoundResult>
    requires forall k :: k in ks ==> k in r.players.vals
  {
    if ks == [] then []
    else
      var pid := ks[|ks| - 1];
      RoundResults(r, spot, truth, ks[..|ks| - 1]) +
      if pid == spot then []
      else [RoundResult(r.players.vals[pid].name, Points(AnswerOf(r.answers, pid), truth), AnswerOf(r.answers, pid), pid)]
  }

  /** The room after a scored round. */
  function Scored(r: Room): Room
    requires Readable(r) && Answered(r)
  {
    var spot := r.spotlight.value;
    ScoreFold(r, spot, r.answers[spot], r.players.keys).(phase := Results)
  }

  function RoundOverEvent(code: Code, r: Room): Event
    requires Readable(r) && Answered(r) && r.spotlight.value in r.players.vals
  {
    var spot := r.spotlight.value;
    var truth := r.answers[spot];
    RoundOver(code, RoundResults(r, spot, truth, r.players.keys), truth, r.players.vals[spot].name)
  }

  /** calculateScores runs without a TypeError. */
  ghost predicate ScoringSafe(r: Room, perm: seq<ConnId>) {
    if Answered(r) then r.spotlight.value in r.players.vals else RoundStartSafe(r, perm)
  }

  /** calculateScores: score the round, or skip straight to the next round start. */
  function AfterScoring(r: Room, perm: seq<ConnId>): Room
    requires Readable(r) && ScoringSafe(r, perm)
  {
    if Answered(r) then Scored(r) else AfterRoundStart(r, perm)
  }

  function ScoringEvents(catalog: seq<Topic>, code: Code, r: Room, perm: seq<ConnId>): seq<Event>
    requires Readable(r) && ScoringSafe(r, perm)
  {
    if Answered(r) then [RoundOverEvent(code, r)]
    else [ErrorToRoom(code, SpotlightSkipped)] + RoundStartEvents(catalog, code, r, perm)
  }

  /**
   * The loop of calculateScores: each player but the spotlight gains the
   * points of their guess, in score and in their match-history row at the
   * spotlight, and gets a result line.
   */
  method ScoreRound(r: Room) returns (s: Room, results: seq<RoundResult>)
    requires Readable(r) && Answered(r)
    ensures s == ScoreFold(r, r.spotlight.value, r.answers[r.spotlight.value], r.players.keys)
    ensures results == RoundResults(r, r.spotlight.value, r.answers[r.spotlight.value], r.players.keys)
  {
    var spot := r.spotlight.value;
    var truth := r.answers[spot];
    var keys := r.players.keys;
    s := r;
    results := [];
    var i := 0;
    while i < |keys|
      invariant 0 <= i <= |keys|
      invariant s == ScoreFold(r, spot, truth, keys[..i])
      invariant results == RoundResults(r, spot, truth, keys[..i])
    {
      var pid := keys[i];
      FoldStep(r, spot, truth, keys, i);
      if pid != spot {
        var guess := AnswerOf(s.answers, pid);
        var score := GuessPoints(guess, truth);
        s := Credit(s, pid, spot, score);
        results := results + [RoundResult(r.players.vals[pid].name, score, guess, pid)];
      }
      i := i + 1;
    }
    assert keys[..i] == keys;
  }

  /** One more key in the loop: one more `ScoreOne`, and one more result line unless it is the spotlight. */
  lemma FoldStep(r: Room, spot: ConnId, truth: Ranking, keys: seq<ConnId>, i: nat)
    requires Valid(r.players) && HistoryValid(r.history)
    requires forall k :: k in keys ==> k in r.players.vals
    requires i < |keys|
    ensures ScoreFold(r, spot, truth, keys[..i + 1]) == ScoreOne(ScoreFold(r, spot, truth, keys[..i]), spot, truth, keys[i])
    ensures RoundResults(r, spot, truth, keys[..i + 1]) == RoundResults(r, spot, truth, keys[..i]) +
      if keys[i] == spot then []
      else [RoundResult(r.players.vals[keys[i]].name, Points(AnswerOf(r.answers, keys[i]), truth), AnswerOf(r.answers, keys[i]), keys[i])]
  {
    assert keys[..i + 1][..i] == keys[..i];
  }

  lemma DistinctPrefix(ks: seq<ConnId>, n: nat)
    requires Distinct(ks) && n <= |ks|
    ensures Distinct(ks[..n])
    ensures n < |ks| ==> ks[n] !in ks[..n]
  {
  }

  /** A player credited with the points of their guess, if they are among `ks` and not the spotlight. */
  function Credited(r: Room, spot: ConnId, truth: Ranking, ks: seq<ConnId>, p: ConnId): Player
    requires p in r.players.vals
  {
    var q := r.players.vals[p];
    if p in ks && p != spot then q.(score := q.score + Points(AnswerOf(r.answers, p), truth)) else q
  }

  /** A match-history row with the guess's points added at the spotlight, under the same condition. */
  function CreditedRow(r: Room, spot: ConnId, truth: Ranking, ks: seq<ConnId>, g: ConnId): OMap<int>
    requires g in r.history.vals && Valid(r.history.vals[g])
  {
    var row := r.history.vals[g];
    if g in ks && g != spot then AddTo(row, spot, Points(AnswerOf(r.answers, g), truth)) else row
  }

  ghost predicate CreditedAll(r: Room, s: Room, spot: ConnId, truth: Ranking, ks: seq<ConnId>)
    requires HistoryValid(r.history)
  {
    s.history.keys == r.history.keys && PlayersCredited(r, s, spot, truth, ks) && RowsCredited(r, s, spot, truth, ks)
  }

  ghost predicate PlayersCredited(r: Room, s: Room, spot: ConnId, truth: Ranking, ks: seq<ConnId>)
  {
    forall p :: p in r.players.vals ==> p in s.players.vals && s.players.vals[p] == Credited(r, spot, truth, ks, p)
  }

  ghost predicate RowsCredited(r: Room, s: Room, spot: ConnId, truth: Ranking, ks: seq<ConnId>)
    requires HistoryValid(r.history)
  {
    forall g :: g in r.history.vals ==> g in s.history.vals && s.history.vals[g] == CreditedRow(r, spot, truth, ks, g)
  }

  lemma ScoreOneEffect(r: Room, spot: ConnId, truth: Ranking, k: ConnId)
    requires Valid(r.players) && HistoryValid(r.history) && k in r.players.vals && k in r.history.vals
    ensures var s := ScoreOne(r, spot, truth, k);
      var pts := Points(AnswerOf(r.answers, k), truth);
      && s.history.keys == r.history.keys
      && s.players.vals == (if k == spot then r.players.vals
                            else r.players.vals[k := r.players.vals[k].(score := r.players.vals[k].score + pts)])
      && s.history.vals == (if k == spot then r.history.vals
                            else r.history.vals[k := AddTo(r.history.vals[k], spot, pts)])
  {
  }

  /** The loop over keys `ks` scores each of them except the spotlight once, and touches nothing else. */
  lemma {:induction false} ScoreFoldEffect(r: Room, spot: ConnId, truth: Ranking, ks: seq<ConnId>)
    requires Valid(r.players) && HistoryValid(r.history)
    requires Distinct(ks) && forall k :: k in ks ==> k in r.players.vals
    requires forall p :: p in r.players.vals ==> p in r.history.vals
    ensures CreditedAll(r, ScoreFold(r, spot, truth, ks), spot, truth, ks)
  {
    if ks != [] {
      var n := |ks| - 1;
      var init, k := ks[..n], ks[n];
      DistinctPrefix(ks, n);
      assert ks == init + [k];
      ScoreFoldEffect(r, spot, truth, init);
      var r1 := ScoreFold(r, spot, truth, init);
      assert ScoreFold(r, spot, truth, ks) == ScoreOne(r1, spot, truth, k);
      assert r1.players.vals[k] == r.players.vals[k] by {
        assert Credited(r, spot, truth, init, k) == r.players.vals[k];
      }
      assert r1.history.vals[k] == r.history.vals[k] by {
        assert CreditedRow(r, spot, truth, init, k) == r.history.vals[k];
      }
      CreditedExtend(r, r1, spot, truth, init, k);
    }
  }

  /** Crediting one more key `k` after the keys `init`. */
  lemma CreditedExtend(r: Room, r1: Room, spot: ConnId, truth: Ranking, init: seq<ConnId>, k: ConnId)
    requires HistoryValid(r.history) && k !in init && k in r.players.vals && k in r.history.vals
    requires Valid(r1.players) && HistoryValid(r1.history)
    requires CreditedAll(r, r1, spot, truth, init)
    requires r1.answers == r.answers && r1.players.vals[k] == r.players.vals[k] && r1.history.vals[k] == r.history.vals[k]
    ensures CreditedAll(r, ScoreOne(r1, spot, truth, k), spot, truth, init + [k])
  {
    ScoreOneEffect(r1, spot, truth, k);
    PlayersCreditedExtend(r, r1, spot, truth, init, k);
    RowsCreditedExtend(r, r1, spot, truth, init, k);
  }

  lemma PlayersCreditedExtend(r: Room, r1: Room, spot: ConnId, truth: Ranking, init: seq<ConnId>, k: ConnId)
    requires k !in init && k in r.players.vals && k in r1.players.vals
    requires PlayersCredited(r, r1, spot, truth, init)
    requires r1.answers == r.answers && r1.players.vals[k] == r.players.vals[k]
    ensures var pts := Points(AnswerOf(r.answers, k), truth);
      PlayersCredited(r, r1.(players := r1.players.(vals := if k == spot then r1.players.vals
        else r1.players.vals[k := r1.players.vals[k].(score := r1.players.vals[k].score + pts)])), spot, truth, init + [k])
  {
    var ks := init + [k];
    forall p | p in r.players.vals && p != k
      ensures Credited(r, spot, truth, ks, p) == Credited(r, spot, truth, init, p)
    {
    }
  }

  lemma RowsCreditedExtend(r: Room, r1: Room, spot: ConnId, truth: Ranking, init: seq<ConnId>, k: ConnId)
    requires HistoryValid(r.history) && k !in init && k in r.history.vals && k in r1.history.vals
    requires RowsCredited(r, r1, spot, truth, init)
    requires r1.answers == r.answers && r1.history.vals[k] == r.history.vals[k]
    ensures var pts := Points(AnswerOf(r.answers, k), truth);
      RowsCredited(r, r1.(history := r1.history.(vals := if k == spot then r1.history.vals
        else r1.history.vals[k := AddTo(r1.history.vals[k], spot, pts)])), spot, truth, init + [k])
  {
    var ks := init + [k];
    forall g | g in r.history.vals && g != k
      ensures CreditedRow(r, spot, truth, ks, g) == CreditedRow(r, spot, truth, init, g)
    {
    }
  }

  /**
   * Scoring a round: phase RESULTS; every guesser's score and
   * `matchHistory[guesser][spotlight]` (created at 0 if missing) grow by the
   * same round points, 10 per matching position, a missing answer counting as
   * empty; the spotlight and everything else stay as they were.
   */
  lemma ScoringAddsRoundPoints(r: Room)
    requires RoomInv(r) && Answered(r)
    ensures var spot := r.spotlight.value;
      var truth := r.answers[spot];
      var s := Scored(r);
      && s == r.(players := s.players, history := s.history, phase := Results)
      && s.players.keys == r.players.keys && s.history.keys == r.history.keys
      && (forall p :: p in r.players.vals ==>
            (p in s.players.vals && s.players.vals[p] ==
              if p == spot then r.players.vals[p]
              else r.players.vals[p].(score := r.players.vals[p].score + Points(AnswerOf(r.answers, p), truth))))
      && (forall g :: g in r.history.vals ==>
            (g in s.history.vals && s.history.vals[g] ==
              if g in r.players.vals && g != spot then AddTo(r.history.vals[g], spot, Points(AnswerOf(r.answers, g), truth))
              else r.history.vals[g]))
  {
    var spot := r.spotlight.value;
    ScoreFoldEffect(r, spot, r.answers[spot], r.players.keys);
  }

  /** Scoring never lowers a score or a match-history cell, and never drops a cell. */
  lemma ScoresNeverDecrease(r: Room)
    requires RoomInv(r) && Answered(r)
    ensures var s := Scored(r);
      && (forall p :: p in r.players.vals ==> p in s.players.vals && s.players.vals[p].score >= r.players.vals[p].score)
      && (forall g, t :: g in r.history.vals && t in r.history.vals[g].vals ==>
            g in s.history.vals && t in s.history.vals[g].vals && s.history.vals[g].vals[t] >= r.history.vals[g].vals[t])
  {
    var spot := r.spotlight.value;
    var truth := r.answers[spot];
    var ks := r.players.keys;
    ScoreFoldEffect(r, spot, truth, ks);
    var f := ScoreFold(r, spot, truth, ks);
    CreditedRaisesScores(r, f, spot, truth, ks);
    CreditedRaisesCells(r, f, spot, truth, ks);
  }

  lemma CreditedRaisesScores(r: Room, s: Room, spot: ConnId, truth: Ranking, ks: seq<ConnId>)
    requires PlayersCredited(r, s, spot, truth, ks)
    ensures forall p :: p in r.players.vals ==> p in s.players.vals && s.players.vals[p].score >= r.players.vals[p].score
  {
    forall p | p in r.players.vals
      ensures p in s.players.vals && s.players.vals[p].score >= r.players.vals[p].score
    {
      assert s.players.vals[p] == Credited(r, spot, truth, ks, p);
    }
  }

  lemma CreditedRaisesCells(r: Room, s: Room, spot: ConnId, truth: Ranking, ks: seq<ConnId>)
    requires HistoryValid(r.history) && RowsCredited(r, s, spot, truth, ks)
    ensures forall g, t :: g in r.history.vals && t in r.history.vals[g].vals ==>
      g in s.history.vals && t in s.history.vals[g].vals && s.history.vals[g].vals[t] >= r.history.vals[g].vals[t]
  {
    forall g, t | g in r.history.vals && t in r.history.vals[g].vals
      ensures g in s.history.vals && t in s.history.vals[g].vals && s.history.vals[g].vals[t] >= r.history.vals[g].vals[t]
    {
      assert s.history.vals[g] == CreditedRow(r, spot, truth, ks, g);
    }
  }

  /** Scoring keeps the room invariant; in particular each score stays equal to its row's total. */
  lemma ScoredKeepsInvariant(r: Room)
    requires RoomInv(r) && Answered(r)
    ensures RoomInv(Scored(r))
  {
    var spot := r.spotlight.value;
    var truth := r.answers[spot];
    var ks := r.players.keys;
    ScoreFoldEffect(r, spot, truth, ks);
    var f := ScoreFold(r, spot, truth, ks);
    CreditedKeepsPlayers(r, f, spot, truth, ks);
    CreditedKeepsScores(r, f, spot, truth, ks);
    CreditedKeepsNonNegative(r, f, spot, truth, ks);
    assert RoomInv(f);
    PhaseKeepsInvariant(f, Results);
  }

  /** Moving a room to any phase but the lobby keeps the invariant. */
  lemma PhaseKeepsInvariant(r: Room, phase: Phase)
    requires RoomInv(r) && phase != Lobby
    ensures RoomInv(r.(phase := phase))
  {
  }

  lemma CreditedKeepsNonNegative(r: Room, s: Room, spot: ConnId, truth: Ranking, ks: seq<ConnId>)
    requires HistoryValid(r.history) && HistoryValid(s.history) && s.history.keys == r.history.keys
    requires HistoryNonNegative(r.history) && RowsCredited(r, s, spot, truth, ks)
    ensures HistoryNonNegative(s.history)
  {
    forall g, t | g in s.history.vals && t in s.history.vals[g].vals
      ensures s.history.vals[g].vals[t] >= 0
    {
      assert g in r.history.vals;
      CreditedCellNonNegative(r, s.history.vals[g], spot, truth, ks, g, t);
    }
  }

  /** A credited cell is an old cell, possibly raised by the guess's points, or those points alone. */
  lemma CreditedCellNonNegative(r: Room, row: OMap<int>, spot: ConnId, truth: Ranking, ks: seq<ConnId>, g: ConnId, t: ConnId)
    requires HistoryValid(r.history) && HistoryNonNegative(r.history) && g in r.history.vals
    requires row == CreditedRow(r, spot, truth, ks, g) && t in row.vals
    ensures row.vals[t] >= 0
  {
    var old_row := r.history.vals[g];
    if g in ks && g != spot && t == spot {
      assert row.vals[t] == Get0(old_row, t) + Points(AnswerOf(r.answers, g), truth);
    } else {
      assert row.vals[t] == old_row.vals[t];
    }
  }

  lemma CreditedKeepsPlayers(r: Room, s: Room, spot: ConnId, truth: Ranking, ks: seq<ConnId>)
    requires Valid(r.players) && Valid(s.players) && s.players.keys == r.players.keys && s.hostId == r.hostId
    requires PlayersConsistent(r) && PlayersCredited(r, s, spot, truth, ks)
    ensures PlayersConsistent(s)
  {
    forall p | p in s.players.vals
      ensures s.players.vals[p].id == p && (s.players.vals[p].isHost <==> p == s.hostId)
    {
      assert s.players.vals[p] == Credited(r, spot, truth, ks, p);
    }
  }

  lemma CreditedKeepsScores(r: Room, s: Room, spot: ConnId, truth: Ranking, ks: seq<ConnId>)
    requires Valid(r.players) && Valid(s.players) && s.players.keys == r.players.keys
    requires HistoryValid(r.history) && HistoryValid(s.history)
    requires ScoresMatchHistory(r) && PlayersCredited(r, s, spot, truth, ks) && RowsCredited(r, s, spot, truth, ks)
    ensures ScoresMatchHistory(s)
  {
    forall p | p in s.players.vals
      ensures p in s.history.vals && s.players.vals[p].score == Sum(s.history.vals[p])
    {
      assert p in r.players.vals;
      CreditedKeepsScoreOf(r, s.players.vals[p], s.history.vals[p], spot, truth, ks, p);
    }
  }

  /** One player's credited score is still the total of their credited row. */
  lemma CreditedKeepsScoreOf(r: Room, q: Player, row: OMap<int>, spot: ConnId, truth: Ranking, ks: seq<ConnId>, p: ConnId)
    requires HistoryValid(r.history) && p in r.players.vals && p in r.history.vals
    requires r.players.vals[p].score == Sum(r.history.vals[p])
    requires q == Credited(r, spot, truth, ks, p) && row == CreditedRow(r, spot, truth, ks, p)
    ensures Valid(row) && q.score == Sum(row)
  {
    if p in ks && p != spot {
      SumAddTo(r.history.vals[p], spot, Points(AnswerOf(r.answers, p), truth));
    }
  }

  /** If the spotlight did not answer, no score or cell changes and the round counter is not rolled back. */
  lemma SkippedRoundScoresNothing(r: Room, perm: seq<ConnId>)
    requires RoomInv(r) && !Answered(r) && RoundStartSafe(r, perm)
    ensures var n := AfterScoring(r, perm);
      && n.players == r.players && n.history == r.history
      && n.currentRound >= r.currentRound
  {
  }

  // ---- Starting the game (startGame)

  /** startGame's updates before startNewRound: new settings, round 0, a freshly shuffled deck. */
  function Started(r: Room, settings: Settings, perm: seq<ConnId>): Room {
    r.(settings := settings, currentRound := 0, deck := perm)
  }

  /**
   * Starting keeps the invariant; the first round start cannot fail when at
   * least one round is asked for, nor when the game starts from the lobby.
   */
  lemma StartKeepsInvariant(r: Room, settings: Settings, perm: seq<ConnId>)
    requires RoomInv(r) && IsShuffleOf(perm, r)
    ensures RoomInv(Started(r, settings, perm))
    ensures settings.rounds > 0 || r.phase == Lobby ==> RoundStartSafe(Started(r, settings, perm), perm)
  {
    var s := Started(r, settings, perm);
    if settings.rounds > 0 {
      assert r.players.keys[0] in multiset(perm);
      assert perm != [];
      assert perm[|perm| - 1] in multiset(r.players.keys);
    } else if r.phase == Lobby {
      EmptyRowsNoEntries(r.history, |r.history.keys|);
    }
  }

  // ---- Choosing the topic (submitTopic)

  /** `defaultTopics.find(t => t.id === id)`: the first catalog topic with that id. */
  function FindTopic(catalog: seq<Topic>, id: string): (r: Option<Topic>)
    ensures r.None? <==> forall i :: 0 <= i < |catalog| ==> catalog[i].id != id
    ensures r.Some? ==> exists i :: (0 <= i < |catalog| && catalog[i] == r.value && r.value.id == id &&
      forall j :: 0 <= j < i ==> catalog[j].id != id)
  {
    if catalog == [] then None
    else if catalog[0].id == id then Some(catalog[0])
    else
      var r := FindTopic(catalog[1..], id);
      assert forall i :: 0 < i < |catalog| ==> catalog[i] == catalog[1..][i - 1];
      if r.Some? then
        var i :| 0 <= i < |catalog[1..]| && catalog[1..][i] == r.value && r.value.id == id &&
          forall j :: 0 <= j < i ==> catalog[1..][j].id != id;
        assert catalog[i + 1] == r.value;
        r
      else r
  }

  /** The question a choice sets: the catalog topic's (none if the id is unknown), or the custom one. */
  function ChosenQuestion(catalog: seq<Topic>, choice: TopicChoice): Option<Question> {
    match choice
    case Premade(id) => (match FindTopic(catalog, id) case None => None case Some(t) => Some(t.question))
    case Custom(prompt, options) => Some(Question(prompt, options))
  }

  /** submitTopic: the question is set, PLAYING with no answers, the countdown armed at `timer`. */
  function TopicChosen(catalog: seq<Topic>, r: Room, choice: TopicChoice): Room {
    r.(question := ChosenQuestion(catalog, choice), phase := Playing, answers := map[],
       countdown := Some(r.settings.timer))
  }

  /** A topic can only be chosen by a spotlight, so never in the lobby; choosing keeps the invariant. */
  lemma TopicKeepsInvariant(catalog: seq<Topic>, r: Room, choice: TopicChoice)
    requires RoomInv(r) && r.spotlight.Some?
    ensures r.phase != Lobby
    ensures var t := TopicChosen(catalog, r, choice);
      RoomInv(t) && t.players == r.players && t.history == r.history && t.currentRound == r.currentRound
  {
  }

  // ---- Leaving (disconnect)

  /**
   * disconnect: the player and their answer are dropped; if the host left
   * and someone remains, the first remaining player becomes host.
   */
  function Departed(r: Room, conn: ConnId): Room
    requires Valid(r.players)
  {
    var ps := Remove(r.players, conn);
    var left := r.(players := ps, answers := r.answers - {conn});
    if conn == r.hostId && |ps.keys| > 0 then
      var h := ps.keys[0];
      left.(hostId := h, players := Put(ps, h, ps.vals[h].(isHost := true)))
    else left
  }

  /**
   * A room someone remains in keeps the invariant: the leaver is gone, the
   * host is the old one or, if the host left, the first remaining player,
   * and every other record, score and history row is untouched.
   */
  lemma DepartKeepsInvariant(r: Room, conn: ConnId)
    requires RoomInv(r)
    ensures var d := Departed(r, conn);
      && (|d.players.keys| == 0 <==> forall p :: p in r.players.vals ==> p == conn)
      && (|d.players.keys| > 0 ==> RoomInv(d))
  {
    var ps := Remove(r.players, conn);
    assert forall p :: p in r.players.vals && p != conn ==> p in ps.keys;
    if |ps.keys| > 0 {
      if conn == r.hostId {
        HostDepartKeepsInvariant(r, conn);
      } else {
        GuestDepartKeepsInvariant(r, conn);
      }
    }
  }

  lemma HostDepartKeepsInvariant(r: Room, conn: ConnId)
    requires RoomInv(r) && conn == r.hostId && |Remove(r.players, conn).keys| > 0
    ensures RoomInv(Departed(r, conn))
  {
    var ps := Remove(r.players, conn);
    var h := ps.keys[0];
    assert h in ps.vals;
    var d := Departed(r, conn);
    assert d.players.vals == ps.vals[h := ps.vals[h].(isHost := true)];
    FewerPlayersKeepInvariant(r, d);
  }

  lemma GuestDepartKeepsInvariant(r: Room, conn: ConnId)
    requires RoomInv(r) && conn != r.hostId && |Remove(r.players, conn).keys| > 0
    ensures RoomInv(Departed(r, conn))
  {
    FewerPlayersKeepInvariant(r, Departed(r, conn));
  }

  /**
   * Leaving drops the leaver and their answer, hands the host role to the
   * first remaining player if the host left, and touches nothing else.
   */
  lemma DepartHandsOverHost(r: Room, conn: ConnId)
    requires RoomInv(r)
    ensures var d := Departed(r, conn);
      && conn !in d.players.vals
      && d == r.(players := d.players, answers := r.answers - {conn}, hostId := d.hostId)
      && (conn != r.hostId || |d.players.keys| == 0 ==> d.hostId == r.hostId && d.players.vals == r.players.vals - {conn})
      && (conn == r.hostId && |d.players.keys| > 0 ==>
            d.hostId == d.players.keys[0] && d.hostId != conn &&
            d.players.vals == (r.players.vals - {conn})[d.hostId := r.players.vals[d.hostId].(isHost := true)])
  {
    var ps := Remove(r.players, conn);
    if conn == r.hostId && |ps.keys| > 0 {
      assert ps.keys[0] in ps.vals;
    }
  }

  /**
   * A room whose players are some of the old ones with unchanged ids and
   * scores, and whose host flags match its host, keeps the invariant.
   */
  lemma FewerPlayersKeepInvariant(r: Room, d: Room)
    requires RoomInv(r) && Valid(d.players) && |d.players.keys| > 0 && d.hostId in d.players.vals
    requires d == r.(players := d.players, answers := d.answers, hostId := d.hostId)
    requires forall p :: p in d.players.vals ==>
      (p in r.players.vals && d.players.vals[p].id == p && d.players.vals[p].score == r.players.vals[p].score &&
       (d.players.vals[p].isHost <==> p == d.hostId))
    ensures RoomInv(d)
  {
    assert ScoresMatchHistory(d) by {
      forall p | p in d.players.vals
        ensures p in d.history.vals && d.players.vals[p].score == Sum(d.history.vals[p])
      {
        assert p in r.players.vals;
      }
    }
  }

  // ---- Answers and the countdown (submitRank, the interval)

  /** `room.answers[socket.id] = rank`. */
  function Ranked(r: Room, conn: ConnId, rank: Ranking): Room {
    r.(answers := r.answers[conn := rank])
  }

  /**
   * A later ranking from the same connection replaces the earlier one: the
   * other answers are kept, and a repeat does not add to the answer count
   * that early completion compares with the player count.
   */
  lemma RankOverwrites(r: Room, conn: ConnId, a: Ranking, b: Ranking)
    ensures Ranked(Ranked(r, conn, a), conn, b) == Ranked(r, conn, b)
    ensures forall c :: c in r.answers && c != conn ==> c in Ranked(r, conn, b).answers && Ranked(r, conn, b).answers[c] == r.answers[c]
    ensures Ranked(r, conn, b).answers.Keys == r.answers.Keys + {conn}
    ensures conn in r.answers ==> |Ranked(r, conn, b).answers.Keys| == |r.answers.Keys|
    ensures conn !in r.answers ==> |Ranked(r, conn, b).answers.Keys| == |r.answers.Keys| + 1
  {
    var k := Ranked(r, conn, b).answers.Keys;
    if conn in r.answers {
      assert k == r.answers.Keys;
    } else {
      assert k == r.answers.Keys + {conn};
    }
  }

  /** submitRank scores once there are as many answers as players (a count, not a comparison of ids). */
  predicate AllAnswered(r: Room) {
    |r.answers.Keys| == |r.players.keys|
  }

  /** `clearInterval(room.timerInterval)`. */
  function Stopped(r: Room): Room {
    r.(countdown := None)
  }

  /** One interval callback that does not fire: `timeLeft--`. */
  function Ticked(r: Room): Room
    requires r.countdown.Some?
  {
    r.(countdown := Some(r.countdown.value - 1))
  }

  /** The callback fires (and scores) when the decremented `timeLeft` is at most -2. */
  predicate Fires(r: Room) {
    r.countdown.Some? && r.countdown.value - 1 <= -2
  }

  /** Only the answers and the countdown change, so the invariant and the scores stay. */
  lemma AnswersKeepInvariant(r: Room, conn: ConnId, rank: Ranking)
    requires RoomInv(r)
    ensures RoomInv(Ranked(r, conn, rank)) && RoomInv(Stopped(r))
    ensures r.countdown.Some? ==> RoomInv(Ticked(r))
    ensures Ranked(r, conn, rank).answers[conn] == rank && Ranked(r, conn, rank).players == r.players
  {
  }

  // ---- The countdown (submitTopic's setInterval)

  /**
   * Counting down from `t`, the number of one-second ticks until the one on
   * which `timeLeft <= -2` and scoring fires: `timer + 2`, and at least one.
   */
  function TicksToFire(t: int): (n: nat)
    ensures n >= 1 && t - n <= -2
    ensures n == 1 || t - (n - 1) > -2
    ensures n == if t >= -1 then t + 2 else 1
    decreases t + 2
  {
    if t - 1 <= -2 then 1 else 1 + TicksToFire(t - 1)
  }

  /** The room after `k` interval callbacks that did not fire: only the countdown has moved. */
  function TickedTimes(r: Room, k: nat): (r': Room)
    requires r.countdown.Some?
    ensures r'.countdown.Some? && r' == r.(countdown := r'.countdown)
  {
    if k == 0 then r else Ticked(TickedTimes(r, k - 1))
  }

  lemma {:induction false} TickedTimesCountdown(r: Room, k: nat)
    requires r.countdown.Some?
    ensures TickedTimes(r, k).countdown == Some(r.countdown.value - k)
  {
    if k > 0 {
      TickedTimesCountdown(r, k - 1);
    }
  }

  /**
   * An armed countdown at `t` does not fire on the callbacks before tick
   * number `TicksToFire(t)` and fires on that one.
   */
  lemma CountdownFiresOnTick(r: Room)
    requires r.countdown.Some?
    ensures var n := TicksToFire(r.countdown.value);
      && (forall k: nat :: k + 1 < n ==> !Fires(TickedTimes(r, k)))
      && Fires(TickedTimes(r, n - 1))
  {
    var n := TicksToFire(r.countdown.value);
    forall k: nat | k + 1 < n
      ensures !Fires(TickedTimes(r, k))
    {
      TickedTimesCountdown(r, k);
    }
    TickedTimesCountdown(r, n - 1);
  }
}
