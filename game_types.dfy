/**
 * The records of server.js: rooms, players, the question of a round, and the
 * events the server sends to connections.
 */
module GameTypes {

  import opened Optionals
  import opened OrderedMaps
  import opened Scoring

  /** A socket.io connection id. */
  type ConnId = string
  /** A room code, the key of the `rooms` registry. */
  type Code = string

  datatype Phase = Lobby | Selection | Playing | Results | GameOver

  /** `room.settings`, as sent by the host with startGame. */
  datatype Settings = Settings(rounds: int, timer: int)

  const DefaultSettings: Settings := Settings(5, 60)

  datatype Player = Player(id: ConnId, name: string, score: int, avatar: string, isHost: bool)

  datatype Question = Question(prompt: string, options: seq<Item>)

  /** An entry of the fixed topic catalog (`defaultTopics`). */
  datatype Topic = Topic(id: string, question: Question)

  /** The submitTopic payload: a catalog topic by id, or a prompt with options. */
  datatype TopicChoice = Premade(topicId: string) | Custom(prompt: string, options: seq<Item>)

  /** `matchHistory`: guesser id to (spotlight id to cumulative points). */
  type History = OMap<OMap<int>>

  /**
   * One entry of `rooms`. `countdown` stands for `timerInterval` together with
   * the `timeLeft` its callback decrements: `Some(t)` while an interval is live.
   */
  datatype Room = Room(
    players: OMap<Player>,
    answers: map<ConnId, Ranking>,
    phase: Phase,
    hostId: ConnId,
    settings: Settings,
    currentRound: int,
    deck: seq<ConnId>,
    spotlight: Option<ConnId>,
    question: Option<Question>,
    history: History,
    countdown: Option<int>)

  /** The payload of `updateState` (sanitizeState). */
  datatype Snapshot = Snapshot(roomCode: Code, players: seq<Player>, hostId: ConnId, phase: Phase)

  /** `soulmates` / `strangers` of the gameOver event. */
  datatype Pair = Pair(names: string, score: int)

  /** One line of the roundOver results. */
  datatype RoundResult = RoundResult(name: string, points: int, rank: Ranking, id: ConnId)

  /** What the server emits: to one connection (`socket.emit`) or to a room (`io.to(code).emit`). */
  datatype Event =
    | ErrorTo(conn: ConnId, message: string)
    | ErrorToRoom(code: Code, message: string)
    | UpdateState(code: Code, state: Snapshot)
    | GoToSelection(code: Code, spotlightId: ConnId, spotlightName: string, topics: seq<Topic>, round: int, rounds: int)
    | RoundStart(code: Code, question: Option<Question>, spotlightName: string, duration: int)
    | RoundOver(code: Code, results: seq<RoundResult>, correctOrder: Ranking, spotlightName: string)
    | GameOverEvent(code: Code, winner: Player, leaderboard: seq<Player>, soulmates: Pair, strangers: Pair)

  const RoomNotFound: string := "Room not found!"
  const GameAlreadyStarted: string := "Game already started!"
  const NeedThreePlayers: string := "Need at least 3 players to start!"
  const SpotlightSkipped: string := "Spotlight didn't answer! Skipping."
  const MinPlayers: nat := 3
}
