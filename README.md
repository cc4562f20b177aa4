# FriendSync server, modelled in Dafny

FriendSync is a party game played in rooms. Its server (`server.js`) keeps one
registry of rooms keyed by a four-letter code. In each room:

- a host starts a game of several rounds;
- each round a "spotlight" player picks a topic and ranks its options;
- the other players try to guess that ranking;
- each guessed position earns 10 points, added both to the guesser's score
  and to a guesser-by-spotlight match history;
- at the end, a game-over summary names the winner, the leaderboard, the
  best-matched pair ("soulmates") and the worst-matched pair ("strangers").

The model covers the server's state and every socket handler:

- the room registry and `generateRoomCode`;
- `createRoom`, `joinRoom` and `joinRoomLogic`;
- `startGame`, `refillDeck` and `startNewRound`;
- `submitTopic` and the countdown interval it arms;
- `submitRank`, `calculateScores` and `nextRound`;
- `endGame`;
- `disconnect`, with host migration;
- `sanitizeState`.

Modules:

- `OrderedMaps` models a JavaScript object as an insertion-ordered map: a
  sequence of distinct keys plus a map. `Object.keys`, `Object.values` and
  `for…in` all follow that order.
- `Scoring` holds the points of one guess against the spotlight's ranking.
- `RoomCodes` generates room codes and models the upper-casing of a typed code.
- `Summary` holds the leaderboard sort and the soulmates/strangers scan of `endGame`.
- `Rounds` holds the room invariant and, for every transition, the room state it
  produces as a function of the state before it. Lemmas prove that each
  transition keeps the invariant.
- `Server` holds the class `Registry`. Its fields are:
  - `rooms`: every room by its code;
  - `roomOf`: each connection's `socket.data.roomCode`;
  - `outbox`: every event emitted, in order.

  There is one method per handler. Each method is proved to produce exactly the
  room state and the events that the `Rounds` functions describe, and to keep
  every room's invariant.

The room invariant (`Rounds.RoomInv`) says:

- the player and history maps are well formed;
- every player record carries its own id;
- exactly the host has `isHost`, and the host is present;
- every player's score equals the total of their match-history row;
- every history cell is non-negative;
- `currentRound` stays between 0 and `settings.rounds` once it has been raised;
- a room in the lobby has no spotlight and empty history rows.

Randomness is passed in as parameters:

- the four draws of `Math.random` for a room code;
- the permutation that `ids.sort(() => Math.random() - 0.5)` produces.

Interval ticks are a method, `Tick`, that the environment calls.

## Model

| member | source | states |
|---|---|---|
| RoomCodes.AlphabetIsLetters | server.js:28 | The code alphabet has 26 letters, each between 'A' and 'Z'. |
| RoomCodes.GenerateRoomCode | server.js:27-32 | The code has four characters; character i is the alphabet letter picked by draw i, so it is always a valid room code. |
| RoomCodes.Upper | server.js:56 | `toUpperCase` on a typed code keeps its length and maps each ASCII lower-case letter to upper case (TypedCodeFindsRoom states what joinRoom needs of it). |
| RoomCodes.TypedCodeFindsRoom | server.js:56-57 | A code typed in any mix of upper and lower case upper-cases to the room's code, so the lookup finds the room. |
| Scoring.PointsCountMatchingPositions | server.js:190-195 | The points of a guess are 10 times the number of positions where the guess equals the spotlight's ranking. |
| Scoring.PointsBounded | server.js:193-195 | A guess earns at most 10 points per item of the guess, and at most 10 per item of the spotlight's ranking. |
| Scoring.PerfectGuess | server.js:193-195 | Guessing the spotlight's ranking exactly earns 10 points per item. |
| Scoring.GuessPoints | server.js:190-195 | The `forEach` loop's score equals the points of the guess. |
| Scoring.Points | server.js:190-195 | The points of a guess: 10 per position matched; PointsCountMatchingPositions, PointsBounded and PerfectGuess state its properties. |
| Summary.InsertByScore | server.js:227 | Inserting a player into the leaderboard keeps exactly the same players, with one more. |
| Summary.InsertKeepsSorted | server.js:227 | Inserting into a leaderboard sorted by descending score leaves it sorted. |
| Summary.SortByScore | server.js:227 | The leaderboard is a permutation of the room's players. |
| Summary.LeaderboardSorted | server.js:227 | The leaderboard is in descending score order, so the winner (its head) has the top score. |
| Summary.LeaderboardLength | server.js:227 | The leaderboard has one entry per player. |
| Summary.WinnerIsFirstTopScorer | server.js:227 | The sort is stable, so the winner is the first player in key order among those with the top score. |
| Summary.RowEntriesAreCells | server.js:233-234 | Every entry scanned from a row is a cell of that row with its value, and each of the row's first n cells, in key order, is among the first n entries. |
| Summary.HistEntriesAreCells | server.js:232-234 | The entries scanned from the first n rows are exactly the guesser/target cells of those rows, with their values. |
| Summary.EmptyRowsNoEntries | server.js:232-234 | A history whose rows are all empty yields no entries to scan. |
| Summary.BestIndex | server.js:229-235 | The best pair is the first entry of maximal points that beats -1, or none. |
| Summary.WorstIndex | server.js:230-236 | The worst pair is the first entry of minimal points below 9999, or none. |
| Summary.BestStep | server.js:235 | One scan step replaces the best pair exactly when the entry's points beat its score. |
| Summary.WorstStep | server.js:236 | One scan step replaces the worst pair exactly when the entry's points are below its score. |
| Summary.StrangersSpec | server.js:230-240 | Strangers are ("None", 0) exactly when no cell is below 9999; otherwise they are the first minimal cell's pair. |
| Summary.BestPair | server.js:229-235 | The soulmates after the scan: the pair of the entry BestIndex picks, or ("No Data", -1). |
| Summary.Strangers | server.js:230-240 | The strangers after the scan, characterised by StrangersSpec. |
| Summary.ScanCoversHistory | server.js:232-234 | The scan visits exactly the history's cells: an entry is scanned if and only if it is a guesser/target cell with its value. |
| Summary.PairsBoundEveryCell | server.js:229-240 | No cell of the match history exceeds the soulmates' score, and when some cell is below 9999 no cell is below the strangers' score. |
| Summary.KnownNamesScanSafely | server.js:232-236 | If every guesser and target in the history is a present player, every name lookup of the scan succeeds. |
| Summary.ScanRow | server.js:233-237 | The inner loop over one guesser's row advances both pairs to their values over that row. |
| Summary.ScanHistory | server.js:229-240 | The nested scan returns the best pair and the strangers over all history cells. |
| Rounds.ScoresNonNegative | server.js:193-201 | In a valid room, every score is non-negative. |
| OrderedMaps.Put | server.js:68-76 | `obj[k] = v` keeps the object well formed. |
| OrderedMaps.PutKeepsKeyOrder | server.js:68-76 | Assigning sets the value, keeps every existing key at its place, and appends a new key at the end. |
| OrderedMaps.Remove | server.js:255-256 | `delete obj[k]` drops exactly the key `k` and keeps the object well formed. |
| OrderedMaps.WithoutAt | server.js:255-256 | Deleting the key at position p leaves the keys before and after it in their order. |
| OrderedMaps.Values | server.js:272 | `Object.values`: the values in key order (SnapshotHasOneHost states what the snapshot gets from it). |
| OrderedMaps.AddTo | server.js:199-201 | Adding to a cell, creating it at 0 if absent, keeps the row well formed. |
| OrderedMaps.SumAddTo | server.js:199-201 | Adding d to a cell raises the row's total by exactly d, whether or not the cell existed. |
| Rounds.Avatar | server.js:72 | The avatar is the upper-cased first character of the name, or empty for an empty name. |
| Rounds.FreshRoom | server.js:39-50 | The room createRoom registers: LOBBY, no players, answers or history, the caller as host, 5 rounds of 60 seconds, round 0, an empty deck, no spotlight, question or countdown. |
| Rounds.Joined | server.js:67-76 | joinRoomLogic's room: the player record (re)written, a history row opened if missing; JoinAddsPlayer, JoinedRowsEmpty and JoinKeepsInvariant state its effect. |
| Rounds.Sanitize | server.js:270-273 | The updateState snapshot: code, players in key order, host id, phase; SnapshotHasOneHost states its contents. |
| Rounds.FreshRoomCanBeJoined | server.js:39-51 | The room createRoom registers can be joined by its creator. |
| Rounds.JoinKeepsInvariant | server.js:62-78 | Joining a lobby keeps the room invariant. |
| Rounds.JoinAddsPlayer | server.js:68-74 | After a join, the joiner has a record with score 0, marked host exactly when they are the host. No other player's record changes. |
| Rounds.JoinedRowsEmpty | server.js:76 | After a join in the lobby, the joiner has a history row, every row is empty, and no row is lost. |
| Rounds.SnapshotHasOneHost | server.js:270-273 | The sanitized state lists one record per player: every player's record appears, each listed record is that player's record, ids are distinct, the host is listed and marked host, and no one else is marked host. |
| Rounds.Summarize | server.js:224-248 | endGame's computation (sort plus scan) equals the gameOver event: winner, leaderboard, soulmates and strangers. |
| Rounds.GameSummary | server.js:227-247 | The gameOver event: the leaderboard's head as winner, the leaderboard, the soulmates and the strangers. |
| Rounds.DeckToDraw | server.js:114 | The deck a round pops from: refilled with the shuffle when empty. |
| Rounds.NextRoundState | server.js:110-115 | A started round: round + 1, SELECTION, no answers, the last card of the deck popped as spotlight. |
| Rounds.AfterRoundStart | server.js:103-115 | startNewRound's room: GAMEOVER at the round limit, otherwise the next round; RoundStartKeepsInvariant states its properties. |
| Rounds.RoundStartEvents | server.js:105-123 | What startNewRound broadcasts: gameOver at the limit, otherwise goToSelection (spotlight, name, catalog, round info) then updateState. |
| Rounds.RoundStartKeepsInvariant | server.js:103-124 | startNewRound keeps the invariant. At the round limit, the room goes to GAMEOVER with the round unchanged. Otherwise: the round rises by one; the phase is SELECTION with no answers; the spotlight is a present player; the deck shrinks by one; a refilled deck held every player once. |
| Rounds.ScoreRound | server.js:185-209 | The loop of calculateScores yields the room scored player by player in `for…in` order, plus the results of every player but the spotlight. |
| Rounds.FoldStep | server.js:187-208 | One loop iteration scores one more player and appends that player's result line, unless the player is the spotlight. |
| Rounds.ScoreFoldEffect | server.js:187-201 | After the loop, each listed player but the spotlight has their points added to their score and to their history cell at the spotlight. |
| Rounds.ScoringAddsRoundPoints | server.js:187-211 | A scored round changes only players, history and phase (now RESULTS). Each non-spotlight player gains exactly their guess's points in score and in their cell at the spotlight. The spotlight and the other cells are unchanged. |
| Rounds.ScoresNeverDecrease | server.js:193-201 | Scoring never lowers a score or a history cell. |
| Rounds.ScoredKeepsInvariant | server.js:187-211 | Scoring keeps the invariant, including each score equal to its history row's total. |
| Rounds.PhaseKeepsInvariant | server.js:226 | Setting any phase other than LOBBY keeps the invariant. |
| Rounds.SkippedRoundScoresNothing | server.js:179-183 | When the spotlight did not answer, no score or history changes and the round counter does not go back. |
| Rounds.Answered | server.js:177-179 | The spotlight's ranking is present in the answers (an empty ranking counts). |
| Rounds.AnswerOf | server.js:191 | A player's ranking, or the empty ranking if they did not answer. |
| Rounds.Credit | server.js:197-201 | Adds the points to the guesser's score and to their cell at the spotlight (opening row and cell if missing), changing nothing else. |
| Rounds.ScoreOne | server.js:188-201 | One loop iteration: the spotlight is skipped, any other player is credited their guess's points; only players and history change. |
| Rounds.ScoreFold | server.js:187-209 | The loop over the keys in order; only players and history change, the key order is kept. ScoreFoldEffect states its effect. |
| Rounds.RoundResults | server.js:203-208 | The result lines (name, points, ranking, id) of every player but the spotlight, in key order. |
| Rounds.Scored | server.js:187-211 | The scored room, in RESULTS; ScoringAddsRoundPoints and ScoredKeepsInvariant state its effect. |
| Rounds.RoundOverEvent | server.js:212-216 | The roundOver event: the result lines, the spotlight's ranking, the spotlight's name. |
| Rounds.AfterScoring | server.js:179-211 | calculateScores's room: scored, or the next round start when the spotlight did not answer. |
| Rounds.ScoringEvents | server.js:179-216 | calculateScores's broadcasts: roundOver, or the skip error followed by the round start's events. |
| Rounds.StartKeepsInvariant | server.js:91-94 | startGame's updates keep the invariant. The first round start cannot fail when a round is asked for or when the game starts from the lobby. |
| Rounds.Started | server.js:91-93 | startGame's updates: the new settings, round 0, and the shuffled deck. |
| Rounds.FindTopic | server.js:133 | `find` returns the first catalog topic with the id, and nothing exactly when no topic has it. |
| Rounds.ChosenQuestion | server.js:132-136 | A premade choice takes the first catalog topic's question with that id (none if unknown), a custom choice its own prompt and options. |
| Rounds.TopicChosen | server.js:132-141 | submitTopic's room: the question set, PLAYING, no answers, the countdown armed at `timer`. |
| Rounds.TopicKeepsInvariant | server.js:127-149 | Only a spotlight chooses, so never in the lobby. Choosing keeps the invariant, the players, the history and the round. |
| Rounds.Departed | server.js:255-264 | disconnect's room: record and answer dropped, host handed to the first remaining player if the host left; DepartHandsOverHost and DepartKeepsInvariant state its effect. |
| Rounds.DepartKeepsInvariant | server.js:255-266 | A room is emptied exactly when the leaver was its only player; otherwise it keeps the invariant. |
| Rounds.HostDepartKeepsInvariant | server.js:258-264 | The host leaving a room that still has players keeps the invariant. |
| Rounds.GuestDepartKeepsInvariant | server.js:255-258 | A non-host leaving a room that still has players keeps the invariant. |
| Rounds.DepartHandsOverHost | server.js:255-264 | The leaver's record and answer are gone, every other answer and every other field of the room (history, deck, round, settings, question, countdown, phase) is unchanged. A guest leaving (or the last player) leaves the host and the other records as they were; when the host leaves, the first remaining player in key order becomes host and only their record gains `isHost`. |
| Rounds.AnswersKeepInvariant | server.js:152-169 | Recording an answer, stopping or ticking the countdown keeps the invariant, and the answer is stored. |
| Rounds.Ranked | server.js:166 | The answer recorded under the sender, replacing any earlier one. |
| Rounds.RankOverwrites | server.js:166-168 | A repeated ranking from the same connection replaces the earlier one, every other answer is kept, the answered set gains only the sender, and a repeat leaves the answer count that the early-completion test compares unchanged. |
| Rounds.AllAnswered | server.js:168 | As many answers as players: a comparison of counts, not of ids. |
| Rounds.Stopped | server.js:169 | `clearInterval`: the countdown is disarmed. |
| Rounds.Ticked | server.js:152 | A callback that does not fire decrements the countdown. |
| Rounds.Fires | server.js:153 | A callback fires when the decremented countdown is at most -2. |
| Rounds.TicksToFire | server.js:151-157 | The number of callbacks from `timer` to the first one on which `timeLeft <= -2`: `timer + 2`, and at least one. |
| Rounds.TickedTimes | server.js:151-152 | The room after k callbacks that did not fire: only the countdown has changed. |
| Rounds.TickedTimesCountdown | server.js:151-152 | After k such callbacks the countdown is `timer - k`. |
| Rounds.CountdownFiresOnTick | server.js:151-157 | An armed countdown does not fire on any callback before callback number TicksToFire(timer) and fires on that one, so a round is scored on callback `timer + 2` when no early completion intervenes. |
| Server.Registry.constructor | server.js:17-25 | The server starts with no rooms, no connection rooms and nothing emitted. |
| Server.Registry.Lookup | server.js:82-84 | `rooms[socket.data.roomCode]` exists exactly when the connection has a room code that is still registered; this is the guard of startGame (82-84), submitTopic (128-130), submitRank (162-164), nextRound (220-221) and disconnect (251-252). |
| Server.Registry.CreateRoom | server.js:37-52 | A valid code maps to a fresh lobby that the creator has joined as host (any room under that code is replaced). The creator's room is that code, and the new state is broadcast. |
| Server.Registry.JoinRoomLogic | server.js:62-78 | The room becomes the joined room and the connection's room is set. The new state is broadcast and every room stays valid. |
| Server.Registry.JoinRoom | server.js:55-60 | An unknown code gives "Room not found!", a room out of the lobby gives "Game already started!", and otherwise the join happens. |
| Server.Registry.StartGame | server.js:81-95 | Only the host of an existing room acts. With fewer than 3 players they get "Need at least 3 players to start!". Otherwise the room is started and its first round begins. |
| Server.Registry.StartNewRound | server.js:103-124 | The room becomes the next-round state, and goToSelection plus updateState (or gameOver) are broadcast. |
| Server.Registry.EndGame | server.js:224-248 | The room goes to GAMEOVER and the gameOver summary is broadcast. |
| Server.Registry.SubmitTopic | server.js:127-158 | Only the spotlight acts. The question is set, the phase is PLAYING with no answers, and the countdown is armed at `timer`. roundStart is broadcast. |
| Server.Registry.Tick | server.js:151-157 | A tick decrements the countdown. When it reaches -2 it stops the countdown and scores. |
| Server.Registry.SubmitRank | server.js:161-172 | The answer is recorded. Once the answers are as many as the players, the countdown stops and the round is scored. |
| Server.Registry.CalculateScores | server.js:175-217 | The round is scored and roundOver is broadcast. If the spotlight did not answer, the error is broadcast and the next round starts. |
| Server.Registry.NextRound | server.js:219-222 | Only the host of an existing room starts the next round. |
| Server.Registry.Disconnect | server.js:250-267 | The leaver is removed. An emptied room is deleted; otherwise the host migrates and the new state is broadcast. |

## Left out

- The transport is not modelled:
  - the HTTP server and static files;
  - Socket.IO's `io.to(code)` rooms and `socket.join`.

  An event is a value appended to `outbox`, tagged with the room code or the connection it goes to.
- `Math.random` is replaced by parameters: the four code draws, and the refill permutation of the players' ids.
- Wall-clock time is replaced by `Tick`. The environment calls it once per interval callback of an armed countdown.
- The interval handle is not modelled. It is not cleared when its room is deleted, replaced by a code collision, or moved on by `nextRound`. Ticks arrive only while the room exists and its countdown is armed.
- The `defaultTopics` contents are replaced by the registry's `catalog` parameter.
- A premade topic's `id` is dropped from `currentQuestion`; the question keeps the prompt and options.
- `socket.data.name` is not modelled. It is written and never read.
- RoomCodes.Upper, Rounds.Avatar: `toUpperCase` is modelled for ASCII letters only. JavaScript also maps 'ı' to 'I' and 'ſ' to 'S', so server.js finds room "IABC" for a typed "ıabc" and the model does not; it also changes the length of some strings (such as 'ß' to "SS"), which the model's length-preserving `Upper` does not. `charAt(0)` takes one UTF-16 code unit while a Dafny `char` is a whole Unicode scalar value, so a name starting with a character outside the Basic Multilingual Plane (an emoji) gets its whole first character as avatar here, and half a surrogate pair in server.js.
- The TypeErrors server.js would throw are preconditions of the handler that would throw:
  - `startNewRound` reading a spotlight that has left (RoundStartSafe);
  - `calculateScores` reading the spotlight's name (ScoringSafe);
  - `endGame` reading the names of a cell that beats the best or worst pair so far when that cell names a player who has left (EndGameSafe);
  - `submitTopic` reading the spotlight's name.
- Malformed client payloads are not modelled: a `rank` that is not an array, or non-numeric settings. The timer is taken as an integer, so `parseInt` and `NaN` are out of scope.
- Key order follows insertion. JavaScript lists integer-like keys first; socket ids are not integer-like.
- Server.Registry.Disconnect: removes the leaver from `roomOf`. The socket, and so its `socket.data`, ceases to exist.
- Server.Registry.StartGame, Server.Registry.NextRound and Server.Registry.SubmitRank do not check the phase. server.js does not either:
  - a host may restart a running game;
  - `nextRound` works in any phase;
  - a late `submitRank` in RESULTS can score the round again;
  - a `submitRank` in the lobby can start a round.
- Rounds.Answered: an empty ranking counts as an answer, because an empty array is truthy in JavaScript.

Facts of server.js the model reproduces:

- A spotlight drawn after leaving is not replaced by another draw. startNewRound would throw reading its name, so the model states it as a precondition (RoundStartSafe).
- When the spotlight did not answer, "Spotlight didn't answer! Skipping." goes to the whole room.
- goToSelection carries the whole topic catalog.
- Strangers are the first pair with the minimal cell below 9999, which may be 0.
- endGame does not skip cells naming a player who has left. It reads the names only of a cell that beats the best or worst pair so far, and throws if such a cell names a departed player; the model requires that this does not happen (EndGameSafe). A departed player's cell that beats neither pair is scanned without harm.
- Starting needs at least 3 players.
- Joining is refused once the room has left the lobby.
- A non-host sending `startGame` is ignored without an error message.
- A departing host hands over to the first remaining player in key order.
- Deleting an emptied room does not cancel its countdown.
- A new room's code is not checked against the live rooms. A collision replaces the old room, and CreateRoom states that.
