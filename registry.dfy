/**
 * The server's state and its socket handlers (server.js): the registry of
 * rooms keyed by code, the room each connection last entered
 * (`socket.data.roomCode`), and the events emitted so far. Each handler is
 * a method proved to move a room to the state the matching function of
 * module Rounds describes, and to keep every room's invariant.
 */
module Server {

  import opened Optionals
  import opened OrderedMaps
  import opened Scoring
  import opened RoomCodes
  import opened GameTypes
  import opened Summary
  import opened Rounds

  class Registry {
    /** The topics offered at every round (`defaultTopics`). */
    const catalog: seq<Topic>
    /** `rooms`: every live room by its code. */
    var rooms: map<Code, Room>
    /** `socket.data.roomCode` of each connection that created or joined a room. */
    var roomOf: map<ConnId, Code>
    /** Everything emitted, in order. */
    var outbox: seq<Event>

    ghost predicate Valid()
      reads this
    {
      AllRoomsValid(rooms)
    }

    constructor(catalog: seq<Topic>)
      ensures Valid() && this.catalog == catalog
      ensures rooms == map[] && roomOf == map[] && outbox == []
    {
      this.catalog := catalog;
      rooms := map[];
      roomOf := map[];
      outbox := [];
    }

    /** `rooms[socket.data.roomCode]` exists: the code of the connection's room. */
    function Lookup(conn: ConnId): (r: Option<Code>)
      reads this
      ensures r.Some? <==> conn in roomOf && roomOf[conn] in rooms
      ensures r.Some? ==> r.value == roomOf[conn]
    {
      if conn in roomOf && roomOf[conn] in rooms then Some(roomOf[conn]) else None
    }

    /** createRoom: a fresh lobby under a random code (replacing any room with that code), then join it. */
    method CreateRoom(conn: ConnId, playerName: string, draws: seq<int>) returns (code: Code)
      requires Valid()
      requires |draws| == CodeLength && forall i :: 0 <= i < |draws| ==> 0 <= draws[i] < |Alphabet|
      modifies this
      ensures Valid() && IsRoomCode(code)
      ensures rooms == old(rooms)[code := Joined(FreshRoom(conn), conn, playerName)]
      ensures roomOf == old(roomOf)[conn := code]
      ensures outbox == old(outbox) + [UpdateState(code, Sanitize(code, rooms[code]))]
    {
      code := GenerateRoomCode(draws);
      ghost var before := rooms;
      RoomsOthers(rooms, code);
      RoomsReplace(rooms, code, FreshRoom(conn));
      rooms := rooms[code := FreshRoom(conn)];
      FreshRoomCanBeJoined(conn);
      JoinRoomLogic(conn, code, playerName);
      UpdateTwice(before, code, FreshRoom(conn), Joined(FreshRoom(conn), conn, playerName));
    }

    /** joinRoomLogic: record the player and their (empty) history row, then broadcast the lobby. */
    method JoinRoomLogic(conn: ConnId, code: Code, playerName: string)
      requires code in rooms && CanJoin(rooms[code], conn) && OthersValid(rooms, code)
      modifies this
      ensures Valid()
      ensures rooms == old(rooms)[code := Joined(old(rooms)[code], conn, playerName)]
      ensures roomOf == old(roomOf)[conn := code]
      ensures outbox == old(outbox) + [UpdateState(code, Sanitize(code, rooms[code]))]
    {
      roomOf := roomOf[conn := code];
      var room := rooms[code];
      var players := Put(room.players, conn, NewPlayer(conn, playerName, conn == room.hostId));
      var history := if conn in room.history.vals then room.history else Put(room.history, conn, Empty());
      room := room.(players := players, history := history);
      assert room == Joined(old(rooms)[code], conn, playerName);
      RoomsJoin(rooms, code, conn, playerName);
      rooms := rooms[code := room];
      outbox := outbox + [UpdateState(code, Sanitize(code, room))];
    }

    /** joinRoom: the typed code is upper-cased; unknown codes and started games are refused. */
    method JoinRoom(conn: ConnId, playerName: string, roomCode: string)
      requires Valid()
      modifies this
      ensures Valid()
      ensures var code := Upper(roomCode);
        if code !in old(rooms) then
          rooms == old(rooms) && roomOf == old(roomOf) && outbox == old(outbox) + [ErrorTo(conn, RoomNotFound)]
        else if old(rooms)[code].phase != Lobby then
          rooms == old(rooms) && roomOf == old(roomOf) && outbox == old(outbox) + [ErrorTo(conn, GameAlreadyStarted)]
        else
          && rooms == old(rooms)[code := Joined(RoomOf(old(rooms), code), conn, playerName)]
          && roomOf == old(roomOf)[conn := code]
          && outbox == old(outbox) + [UpdateState(code, Sanitize(code, rooms[code]))]
    {
      var code := Upper(roomCode);
      if code !in rooms {
        outbox := outbox + [ErrorTo(conn, RoomNotFound)];
        return;
      }
      if rooms[code].phase != Lobby {
        outbox := outbox + [ErrorTo(conn, GameAlreadyStarted)];
        return;
      }
      RoomAt(rooms, code);
      RoomsOthers(rooms, code);
      JoinRoomLogic(conn, code, playerName);
    }

    /**
     * startGame, from the host only: with fewer than three players an error
     * to the host; otherwise the new settings, round 0, a shuffled deck, and
     * the first round start. `perm` is the shuffle `refillDeck` draws.
     */
    method StartGame(conn: ConnId, settings: Settings, perm: seq<ConnId>)
      requires Valid()
      requires Lookup(conn).Some? ==> IsShuffleOf(perm, rooms[roomOf[conn]])
      requires Lookup(conn).Some? && conn == rooms[roomOf[conn]].hostId && |rooms[roomOf[conn]].players.keys| >= MinPlayers ==>
        RoundStartSafe(Started(rooms[roomOf[conn]], settings, perm), perm)
      modifies this
      ensures Valid() && unchanged(`roomOf)
      ensures old(Lookup(conn)).None? || conn != old(rooms)[old(roomOf)[conn]].hostId ==>
        rooms == old(rooms) && outbox == old(outbox)
      ensures old(Lookup(conn)).Some? && conn == old(rooms)[roomOf[conn]].hostId ==>
        var code := roomOf[conn];
        var r := RoomOf(old(rooms), code);
        if |r.players.keys| < MinPlayers then
          rooms == old(rooms) && outbox == old(outbox) + [ErrorTo(conn, NeedThreePlayers)]
        else
          && rooms == old(rooms)[code := AfterRoundStart(Started(r, settings, perm), perm)]
          && outbox == old(outbox) + RoundStartEvents(catalog, code, Started(r, settings, perm), perm)
    {
      var found := Lookup(conn);
      if found.None? || conn != rooms[found.value].hostId {
        return;
      }
      var code := found.value;
      var room := RoomOf(rooms, code);
      if |room.players.keys| < MinPlayers {
        outbox := outbox + [ErrorTo(conn, NeedThreePlayers)];
        return;
      }
      var started := room.(settings := settings, currentRound := 0, deck := perm);
      ghost var before := rooms;
      RoomsStart(rooms, code, settings, perm);
      rooms := rooms[code := started];
      StartNewRound(code, perm);
      UpdateTwice(before, code, started, AfterRoundStart(started, perm));
    }

    /**
     * startNewRound: game over once `currentRound >= rounds`; otherwise the
     * next round in SELECTION, with the spotlight popped off the deck
     * (refilled from `perm` when empty).
     */
    method StartNewRound(code: Code, perm: seq<ConnId>)
      requires Valid() && code in rooms && IsShuffleOf(perm, rooms[code]) && RoundStartSafe(rooms[code], perm)
      modifies this
      ensures Valid() && unchanged(`roomOf)
      ensures rooms == old(rooms)[code := AfterRoundStart(RoomOf(old(rooms), code), perm)]
      ensures outbox == old(outbox) + RoundStartEvents(catalog, code, RoomOf(old(rooms), code), perm)
    {
      var room := RoomOf(rooms, code);
      if room.currentRound >= room.settings.rounds {
        assert AfterRoundStart(room, perm) == room.(phase := GameOver);
        EndGame(code);
        assert RoundStartEvents(catalog, code, room, perm) == [GameSummary(code, room.(phase := GameOver))];
        return;
      }
      var deck := room.deck;
      if deck == [] {
        deck := perm;
      }
      assert deck == DeckToDraw(room, perm);
      var spot := deck[|deck| - 1];
      deck := deck[..|deck| - 1];
      var next := room.(currentRound := room.currentRound + 1, phase := Selection, answers := map[],
                        deck := deck, spotlight := Some(spot));
      assert next == AfterRoundStart(room, perm);
      RoomsRoundStart(rooms, code, perm);
      rooms := rooms[code := next];
      outbox := outbox + [GoToSelection(code, spot, next.players.vals[spot].name, catalog, next.currentRound, next.settings.rounds),
                          UpdateState(code, Sanitize(code, next))];
      assert RoundStartEvents(catalog, code, room, perm) ==
        [GoToSelection(code, spot, next.players.vals[spot].name, catalog, next.currentRound, next.settings.rounds),
         UpdateState(code, Sanitize(code, next))];
    }

    /** endGame: GAMEOVER, then the leaderboard and the best and worst pairs. */
    method EndGame(code: Code)
      requires Valid() && code in rooms && EndGameSafe(rooms[code])
      modifies this
      ensures Valid() && unchanged(`roomOf)
      ensures rooms == old(rooms)[code := old(rooms)[code].(phase := GameOver)]
      ensures outbox == old(outbox) + [GameSummary(code, RoomOf(rooms, code))]
    {
      RoomsSetPhase(rooms, code, GameOver);
      var room := RoomOf(rooms, code).(phase := GameOver);
      rooms := rooms[code := room];
      var e := Summarize(code, room);
      outbox := outbox + [e];
    }

    /**
     * submitTopic, from the spotlight only: set the question, PLAYING with
     * no answers, announce it, and (re)arm the countdown at `timer`.
     */
    method SubmitTopic(conn: ConnId, choice: TopicChoice)
      requires Valid()
      requires Lookup(conn).Some? && rooms[roomOf[conn]].spotlight == Some(conn) ==> conn in rooms[roomOf[conn]].players.vals
      modifies this
      ensures Valid() && unchanged(`roomOf)
      ensures old(Lookup(conn)).None? || old(rooms)[old(roomOf)[conn]].spotlight != Some(conn) ==>
        rooms == old(rooms) && outbox == old(outbox)
      ensures old(Lookup(conn)).Some? && old(rooms)[roomOf[conn]].spotlight == Some(conn) ==>
        var code := roomOf[conn];
        var r := old(rooms)[code];
        && rooms == old(rooms)[code := TopicChosen(catalog, r, choice)]
        && outbox == old(outbox) + [RoundStart(code, ChosenQuestion(catalog, choice), r.players.vals[conn].name, r.settings.timer)]
    {
      var found := Lookup(conn);
      if found.None? || rooms[found.value].spotlight != Some(conn) {
        return;
      }
      var code := found.value;
      var room := rooms[code];
      var question: Option<Question>;
      match choice {
        case Premade(id) =>
          var t := FindTopic(catalog, id);
          question := if t.Some? then Some(t.value.question) else None;
        case Custom(prompt, options) =>
          question := Some(Question(prompt, options));
      }
      var timeLeft := room.settings.timer;
      room := room.(question := question, phase := Playing, answers := map[]);
      outbox := outbox + [RoundStart(code, question, room.players.vals[conn].name, timeLeft)];
      room := room.(countdown := Some(timeLeft));
      assert room == TopicChosen(catalog, old(rooms)[code], choice);
      RoomsTopic(catalog, rooms, code, choice);
      rooms := rooms[code := room];
    }

    /**
     * One interval callback of a room's countdown: decrement, and at -2
     * stop the countdown and score the round.
     */
    method Tick(code: Code, perm: seq<ConnId>)
      requires Valid() && code in rooms && rooms[code].countdown.Some?
      requires Fires(rooms[code]) ==> ScoringSafe(Stopped(rooms[code]), perm) && IsShuffleOf(perm, rooms[code])
      modifies this
      ensures Valid() && unchanged(`roomOf)
      ensures !Fires(old(rooms)[code]) ==> rooms == old(rooms)[code := Ticked(old(rooms)[code])] && outbox == old(outbox)
      ensures Fires(old(rooms)[code]) ==>
        var r := Stopped(RoomOf(old(rooms), code));
        && rooms == old(rooms)[code := AfterScoring(r, perm)]
        && outbox == old(outbox) + ScoringEvents(catalog, code, r, perm)
    {
      var room := RoomOf(rooms, code);
      var timeLeft := room.countdown.value - 1;
      if timeLeft <= -2 {
        ghost var before := rooms;
        RoomsStopped(rooms, code);
        rooms := rooms[code := Stopped(room)];
        CalculateScores(code, perm);
        UpdateTwice(before, code, Stopped(room), AfterScoring(Stopped(room), perm));
      } else {
        RoomsTicked(rooms, code);
        rooms := rooms[code := room.(countdown := Some(timeLeft))];
      }
    }

    /**
     * submitRank: record the ranking; once there are as many answers as
     * players, stop the countdown and score.
     */
    method SubmitRank(conn: ConnId, rank: Ranking, perm: seq<ConnId>)
      requires Valid()
      requires Lookup(conn).Some? ==>
        var r := Ranked(rooms[roomOf[conn]], conn, rank);
        AllAnswered(r) ==> ScoringSafe(Stopped(r), perm) && IsShuffleOf(perm, r)
      modifies this
      ensures Valid() && unchanged(`roomOf)
      ensures old(Lookup(conn)).None? ==> rooms == old(rooms) && outbox == old(outbox)
      ensures old(Lookup(conn)).Some? ==>
        var code := roomOf[conn];
        var r := Ranked(RoomOf(old(rooms), code), conn, rank);
        if AllAnswered(r) then
          rooms == old(rooms)[code := AfterScoring(Stopped(r), perm)] &&
          outbox == old(outbox) + ScoringEvents(catalog, code, Stopped(r), perm)
        else rooms == old(rooms)[code := r] && outbox == old(outbox)
    {
      var found := Lookup(conn);
      if found.None? {
        return;
      }
      var code := found.value;
      var room := RoomOf(rooms, code);
      room := room.(answers := room.answers[conn := rank]);
      RoomsRanked(rooms, code, conn, rank);
      if |room.answers.Keys| == |room.players.keys| {
        ghost var before := rooms;
        rooms := rooms[code := Stopped(room)];
        CalculateScores(code, perm);
        UpdateTwice(before, code, Stopped(room), AfterScoring(Stopped(room), perm));
      } else {
        rooms := rooms[code := room];
      }
    }

    /**
     * calculateScores: if the spotlight never answered, announce the skip
     * and start the next round; otherwise score every guess, RESULTS, and
     * announce the results.
     */
    method CalculateScores(code: Code, perm: seq<ConnId>)
      requires Valid() && code in rooms && ScoringSafe(rooms[code], perm) && IsShuffleOf(perm, rooms[code])
      modifies this
      ensures Valid() && unchanged(`roomOf)
      ensures rooms == old(rooms)[code := AfterScoring(RoomOf(old(rooms), code), perm)]
      ensures outbox == old(outbox) + ScoringEvents(catalog, code, RoomOf(old(rooms), code), perm)
    {
      var room := RoomOf(rooms, code);
      if !Answered(room) {
        outbox := outbox + [ErrorToRoom(code, SpotlightSkipped)];
        StartNewRound(code, perm);
        assert AfterScoring(room, perm) == AfterRoundStart(room, perm);
        AppendAssoc(old(outbox), [ErrorToRoom(code, SpotlightSkipped)], RoundStartEvents(catalog, code, room, perm));
        return;
      }
      var spot := room.spotlight.value;
      var truth := room.answers[spot];
      var scored, results := ScoreRound(room);
      var over := RoundOver(code, results, truth, room.players.vals[spot].name);
      assert scored.(phase := Results) == AfterScoring(room, perm);
      assert [over] == ScoringEvents(catalog, code, room, perm);
      RoomsScored(rooms, code);
      rooms := rooms[code := scored.(phase := Results)];
      outbox := outbox + [over];
    }

    /** nextRound, from the host only, in any phase. */
    method NextRound(conn: ConnId, perm: seq<ConnId>)
      requires Valid()
      requires Lookup(conn).Some? && conn == rooms[roomOf[conn]].hostId ==>
        IsShuffleOf(perm, rooms[roomOf[conn]]) && RoundStartSafe(rooms[roomOf[conn]], perm)
      modifies this
      ensures Valid() && unchanged(`roomOf)
      ensures old(Lookup(conn)).None? || conn != old(rooms)[old(roomOf)[conn]].hostId ==>
        rooms == old(rooms) && outbox == old(outbox)
      ensures old(Lookup(conn)).Some? && conn == old(rooms)[roomOf[conn]].hostId ==>
        var code := roomOf[conn];
        && rooms == old(rooms)[code := AfterRoundStart(RoomOf(old(rooms), code), perm)]
        && outbox == old(outbox) + RoundStartEvents(catalog, code, RoomOf(old(rooms), code), perm)
    {
      var found := Lookup(conn);
      if found.Some? && conn == rooms[found.value].hostId {
        StartNewRound(found.value, perm);
      }
    }

    /**
     * disconnect: leave the connection's room; an emptied room is deleted,
     * otherwise the remaining players get the new state.
     */
    method Disconnect(conn: ConnId)
      requires Valid()
      modifies this
      ensures Valid() && roomOf == old(roomOf) - {conn}
      ensures old(Lookup(conn)).None? ==> rooms == old(rooms) && outbox == old(outbox)
      ensures old(Lookup(conn)).Some? ==>
        var code := old(roomOf)[conn];
        var d := Departed(RoomOf(old(rooms), code), conn);
        if |d.players.keys| == 0 then
          rooms == old(rooms) - {code} && outbox == old(outbox)
        else
          rooms == old(rooms)[code := d] && outbox == old(outbox) + [UpdateState(code, Sanitize(code, d))]
    {
      var found := Lookup(conn);
      roomOf := roomOf - {conn};
      if found.None? {
        return;
      }
      var code := found.value;
      var room := RoomOf(rooms, code);
      RoomsDepart(rooms, code, conn);
      var players := Remove(room.players, conn);
      room := room.(players := players, answers := room.answers - {conn});
      if |players.keys| == 0 {
        rooms := rooms - {code};
      } else {
        if conn == room.hostId {
          var host := players.keys[0];
          room := room.(hostId := host, players := Put(players, host, players.vals[host].(isHost := true)));
        }
        assert room == Departed(RoomOf(old(rooms), code), conn);
        rooms := rooms[code := room];
        outbox := outbox + [UpdateState(code, Sanitize(code, room))];
      }
    }
  }

  lemma AppendAssoc<T>(a: seq<T>, b: seq<T>, c: seq<T>)
    ensures a + (b + c) == (a + b) + c
  {
  }

  /** Updating a map twice at one key keeps only the second value. */
  lemma UpdateTwice<K, V>(m: map<K, V>, k: K, v1: V, v2: V)
    ensures m[k := v1][k := v2] == m[k := v2]
  {
  }

  // ---- Each transition keeps every room of the registry valid

  lemma RoomsJoin(rooms: map<Code, Room>, code: Code, conn: ConnId, name: string)
    requires code in rooms && CanJoin(rooms[code], conn) && OthersValid(rooms, code)
    ensures AllRoomsValid(rooms[code := Joined(rooms[code], conn, name)])
  {
    JoinKeepsInvariant(rooms[code], conn, name);
    RoomsUpdate(rooms, code, Joined(rooms[code], conn, name));
  }

  lemma RoomsStart(rooms: map<Code, Room>, code: Code, settings: Settings, perm: seq<ConnId>)
    requires AllRoomsValid(rooms) && code in rooms && IsShuffleOf(perm, rooms[code])
    ensures AllRoomsValid(rooms[code := Started(rooms[code], settings, perm)])
  {
    RoomAt(rooms, code);
    RoomsOthers(rooms, code);
    StartKeepsInvariant(rooms[code], settings, perm);
    RoomsUpdate(rooms, code, Started(rooms[code], settings, perm));
  }

  lemma RoomsRoundStart(rooms: map<Code, Room>, code: Code, perm: seq<ConnId>)
    requires AllRoomsValid(rooms) && code in rooms
    requires IsShuffleOf(perm, rooms[code]) && RoundStartSafe(rooms[code], perm)
    ensures AllRoomsValid(rooms[code := AfterRoundStart(RoomOf(rooms, code), perm)])
  {
    RoomAt(rooms, code);
    RoomsOthers(rooms, code);
    RoundStartKeepsInvariant(rooms[code], perm);
    RoomsUpdate(rooms, code, AfterRoundStart(rooms[code], perm));
  }

  lemma RoomsSetPhase(rooms: map<Code, Room>, code: Code, phase: Phase)
    requires AllRoomsValid(rooms) && code in rooms && phase != Lobby
    ensures AllRoomsValid(rooms[code := rooms[code].(phase := phase)])
  {
    RoomAt(rooms, code);
    RoomsOthers(rooms, code);
    PhaseKeepsInvariant(rooms[code], phase);
    RoomsUpdate(rooms, code, rooms[code].(phase := phase));
  }

  lemma RoomsTopic(catalog: seq<Topic>, rooms: map<Code, Room>, code: Code, choice: TopicChoice)
    requires AllRoomsValid(rooms) && code in rooms && rooms[code].spotlight.Some?
    ensures AllRoomsValid(rooms[code := TopicChosen(catalog, rooms[code], choice)])
  {
    RoomAt(rooms, code);
    RoomsOthers(rooms, code);
    TopicKeepsInvariant(catalog, rooms[code], choice);
    RoomsUpdate(rooms, code, TopicChosen(catalog, rooms[code], choice));
  }

  lemma RoomsRanked(rooms: map<Code, Room>, code: Code, conn: ConnId, rank: Ranking)
    requires AllRoomsValid(rooms) && code in rooms
    ensures AllRoomsValid(rooms[code := Ranked(rooms[code], conn, rank)])
    ensures AllRoomsValid(rooms[code := Stopped(Ranked(rooms[code], conn, rank))])
  {
    RoomAt(rooms, code);
    RoomsOthers(rooms, code);
    var r := Ranked(rooms[code], conn, rank);
    AnswersKeepInvariant(rooms[code], conn, rank);
    AnswersKeepInvariant(r, conn, rank);
    RoomsUpdate(rooms, code, r);
    RoomsUpdate(rooms, code, Stopped(r));
  }

  lemma RoomsStopped(rooms: map<Code, Room>, code: Code)
    requires AllRoomsValid(rooms) && code in rooms
    ensures AllRoomsValid(rooms[code := Stopped(rooms[code])])
  {
    RoomAt(rooms, code);
    RoomsOthers(rooms, code);
    AnswersKeepInvariant(rooms[code], "", []);
    RoomsUpdate(rooms, code, Stopped(rooms[code]));
  }

  lemma RoomsTicked(rooms: map<Code, Room>, code: Code)
    requires AllRoomsValid(rooms) && code in rooms && rooms[code].countdown.Some?
    ensures AllRoomsValid(rooms[code := Ticked(rooms[code])])
  {
    RoomAt(rooms, code);
    RoomsOthers(rooms, code);
    AnswersKeepInvariant(rooms[code], "", []);
    RoomsUpdate(rooms, code, Ticked(rooms[code]));
  }

  lemma RoomsScored(rooms: map<Code, Room>, code: Code)
    requires AllRoomsValid(rooms) && code in rooms && Answered(rooms[code])
    ensures AllRoomsValid(rooms[code := Scored(RoomOf(rooms, code))])
  {
    RoomAt(rooms, code);
    RoomsOthers(rooms, code);
    ScoredKeepsInvariant(rooms[code]);
    RoomsUpdate(rooms, code, Scored(rooms[code]));
  }

  lemma RoomsDepart(rooms: map<Code, Room>, code: Code, conn: ConnId)
    requires AllRoomsValid(rooms) && code in rooms
    ensures var d := Departed(RoomOf(rooms, code), conn);
      if |d.players.keys| == 0 then AllRoomsValid(rooms - {code}) else AllRoomsValid(rooms[code := d])
  {
    RoomAt(rooms, code);
    RoomsOthers(rooms, code);
    DepartKeepsInvariant(rooms[code], conn);
    RoomsRemove(rooms, code);
    if |Departed(rooms[code], conn).players.keys| > 0 {
      RoomsUpdate(rooms, code, Departed(rooms[code], conn));
    }
  }
}
