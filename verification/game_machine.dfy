/**
 * The phase machine of src/stateMachine/index.ts: NotStarted, Playing (a parallel state whose timer region is
 * Running or Paused) and GameOver, with root-level handlers that edit the roster and the round time in every
 * phase. Cards are opaque to the machine, so the card type is a parameter `C`.
 */
module GameMachine {
  import opened Seqs
  import GameConstants

  datatype Player<C> = Player(id: string, score: int, hand: seq<C>, deck: seq<C>)

  /** Milliseconds elapsed in the round and the round's length. */
  datatype GameTime = GameTime(currentTime: int, roundTime: int)

  datatype GameContext<C> = GameContext(time: GameTime, players: seq<Player<C>>)

  datatype GameEvent<C> =
    | Start
    | Tick(time: int)
    | Pause
    | Resume
    | End
    | Retry
    | SetRoundTime(roundTime: int)
    | AddPlayer(playerId: string)
    | RemovePlayer(playerId: string)
    | SetScore(playerId: string, score: int)
    | SetHand(playerId: string, hand: seq<C>)
    | SetDeck(playerId: string, deck: seq<C>)

  datatype TimerState = Running | Paused

  /** The active state configuration; the players region of Playing has the single state Active. */
  datatype Phase = NotStarted | Playing(timer: TimerState) | GameOver

  datatype MachineState<C> = MachineState(phase: Phase, context: GameContext<C>)

  const DEFAULT_ROUND_TIME: int := GameConstants.SUPPORTED_GAME_TIMES["1m"]

  function CreatePlayer<C>(playerId: string): (p: Player<C>)
    ensures p.id == playerId && p.score == 0 && p.hand == [] && p.deck == []
  {
    Player(playerId, 0, [], [])
  }

  predicate UniqueIds<C>(players: seq<Player<C>>) {
    forall i, j :: 0 <= i < j < |players| ==> players[i].id != players[j].id
  }

  predicate HasPlayer<C>(players: seq<Player<C>>, id: string) {
    exists i :: 0 <= i < |players| && players[i].id == id
  }

  // ---------------------------------------------------------------------------
  // Root-level context handlers
  // ---------------------------------------------------------------------------

  /** addPlayer: a new player with that id at the end of the roster, unless the id is already seated. */
  function AddPlayerTo<C>(players: seq<Player<C>>, id: string): (r: seq<Player<C>>)
    ensures HasPlayer(players, id) ==> r == players
    ensures !HasPlayer(players, id) ==> r == players + [CreatePlayer(id)]
    ensures UniqueIds(players) ==> UniqueIds(r)
  {
    if exists i :: 0 <= i < |players| && players[i].id == id then players
    else players + [CreatePlayer(id)]
  }

  function IdIsNot<C>(id: string): Player<C> -> bool {
    (p: Player<C>) => p.id != id
  }

  /** removePlayer: every player whose id differs, in order. */
  function RemovePlayerFrom<C>(players: seq<Player<C>>, id: string): (r: seq<Player<C>>)
    ensures IsSubsequence(r, players)
    ensures !HasPlayer(r, id)
    ensures forall i :: 0 <= i < |players| && players[i].id != id ==> players[i] in r
  {
    FilterIsSubsequence(players, IdIsNot(id));
    FilterMembers(players, IdIsNot(id));
    Filter(players, IdIsNot(id))
  }

  /** Removing an id nobody has changes nothing. */
  lemma RemoveAbsentPlayer<C>(players: seq<Player<C>>, id: string)
    requires !HasPlayer(players, id)
    ensures RemovePlayerFrom(players, id) == players
  {
    FilterKeepsAll(players, IdIsNot(id));
  }

  /** With unique ids, removing the id of seat `k` takes out exactly seat `k`. */
  lemma RemoveSeatedPlayer<C>(players: seq<Player<C>>, id: string, k: nat)
    requires UniqueIds(players) && k < |players| && players[k].id == id
    ensures RemovePlayerFrom(players, id) == players[..k] + players[k + 1..]
  {
    assert forall i :: 0 <= i < |players| && i != k ==> players[i].id != players[k].id;
    FilterDropsOne(players, IdIsNot(id), k);
  }

  lemma UniqueIdsWithoutSeat<C>(players: seq<Player<C>>, k: nat)
    requires UniqueIds(players) && k < |players|
    ensures UniqueIds(players[..k] + players[k + 1..])
  {
    var r := players[..k] + players[k + 1..];
    forall i, j | 0 <= i < j < |r|
      ensures r[i].id != r[j].id
    {
      var i' := if i < k then i else i + 1;
      var j' := if j < k then j else j + 1;
      assert r[i] == players[i'] && r[j] == players[j'];
    }
  }

  /** Removing a player keeps the remaining ids unique. */
  lemma RemoveKeepsUniqueIds<C>(players: seq<Player<C>>, id: string)
    requires UniqueIds(players)
    ensures UniqueIds(RemovePlayerFrom(players, id))
  {
    if k :| 0 <= k < |players| && players[k].id == id {
      RemoveSeatedPlayer(players, id, k);
      UniqueIdsWithoutSeat(players, k);
    } else {
      RemoveAbsentPlayer(players, id);
    }
  }

  /** Replace the score of every player with that id. */
  function SetScoreOf<C>(players: seq<Player<C>>, id: string, score: int): seq<Player<C>> {
    seq(|players|, i requires 0 <= i < |players| => if players[i].id == id then players[i].(score := score) else players[i])
  }

  /** Replace the hand of every player with that id. */
  function SetHandOf<C>(players: seq<Player<C>>, id: string, hand: seq<C>): seq<Player<C>> {
    seq(|players|, i requires 0 <= i < |players| => if players[i].id == id then players[i].(hand := hand) else players[i])
  }

  /** Replace the deck of every player with that id. */
  function SetDeckOf<C>(players: seq<Player<C>>, id: string, deck: seq<C>): seq<Player<C>> {
    seq(|players|, i requires 0 <= i < |players| => if players[i].id == id then players[i].(deck := deck) else players[i])
  }

  /** The single-field edits keep the roster (same seats, same ids) and touch no other seat and no other field. */
  lemma FieldEditsKeepRoster<C>(players: seq<Player<C>>, id: string, score: int, hand: seq<C>, deck: seq<C>)
    ensures var a := SetScoreOf(players, id, score);
            var b := SetHandOf(players, id, hand);
            var c := SetDeckOf(players, id, deck);
            && |a| == |b| == |c| == |players|
            && (forall i :: 0 <= i < |players| && players[i].id != id ==> a[i] == b[i] == c[i] == players[i])
            && (forall i :: 0 <= i < |players| && players[i].id == id ==>
                  && a[i] == Player(id, score, players[i].hand, players[i].deck)
                  && b[i] == Player(id, players[i].score, hand, players[i].deck)
                  && c[i] == Player(id, players[i].score, players[i].hand, deck))
            && (!HasPlayer(players, id) ==> a == b == c == players)
            && (UniqueIds(players) ==> UniqueIds(a) && UniqueIds(b) && UniqueIds(c))
  {
  }

  // ---------------------------------------------------------------------------
  // The machine
  // ---------------------------------------------------------------------------

  /** Entry action of NotStarted: the clock goes back to 0, the round length is kept. */
  function EnterNotStarted<C>(ctx: GameContext<C>): (r: GameContext<C>)
    ensures r.time.currentTime == 0 && r.time.roundTime == ctx.time.roundTime && r.players == ctx.players
  {
    ctx.(time := GameTime(0, ctx.time.roundTime))
  }

  /** The machine as it starts: NotStarted, no players, the default round length. */
  function Initial<C>(): (m: MachineState<C>)
    ensures m.phase == NotStarted && m.context.players == []
    ensures m.context.time == GameTime(0, 60000)
  {
    MachineState(NotStarted, EnterNotStarted(GameContext(GameTime(0, DEFAULT_ROUND_TIME), [])))
  }

  /** The context part of a root-level handler. */
  function ApplyRootEvent<C>(ctx: GameContext<C>, e: GameEvent<C>): GameContext<C>
    requires e.SetRoundTime? || e.AddPlayer? || e.RemovePlayer? || e.SetScore? || e.SetHand? || e.SetDeck?
  {
    match e
    case SetRoundTime(t) => ctx.(time := ctx.time.(roundTime := t))
    case AddPlayer(id) => ctx.(players := AddPlayerTo(ctx.players, id))
    case RemovePlayer(id) => ctx.(players := RemovePlayerFrom(ctx.players, id))
    case SetScore(id, s) => ctx.(players := SetScoreOf(ctx.players, id, s))
    case SetHand(id, h) => ctx.(players := SetHandOf(ctx.players, id, h))
    case SetDeck(id, d) => ctx.(players := SetDeckOf(ctx.players, id, d))
  }

  /** One event processed by the machine; an event the active states do not handle leaves the machine as it was. */
  function Step<C>(m: MachineState<C>, e: GameEvent<C>): (r: MachineState<C>)
    ensures r.phase == m.phase || PhaseEdge(m.phase, e, r.phase)
  {
    match e
    case Start => if m.phase == NotStarted then m.(phase := Playing(Running)) else m
    case Tick(t) =>
      if m.phase == Playing(Running) then
        var ctx := m.context.(time := m.context.time.(currentTime := m.context.time.currentTime + t));
        if m.context.time.currentTime + t >= m.context.time.roundTime
        then MachineState(GameOver, ctx)
        else MachineState(Playing(Running), ctx)
      else m
    case Pause => if m.phase == Playing(Running) then m.(phase := Playing(Paused)) else m
    case Resume => if m.phase == Playing(Paused) then m.(phase := Playing(Running)) else m
    case End => if m.phase.Playing? then m.(phase := GameOver) else m
    case Retry => if m.phase == GameOver then MachineState(NotStarted, EnterNotStarted(m.context)) else m
    case _ => m.(context := ApplyRootEvent(m.context, e))
  }

  /** A run of the machine over a queue of events, processed one at a time in order. */
  function Run<C>(m: MachineState<C>, events: seq<GameEvent<C>>): MachineState<C>
    decreases |events|
  {
    if |events| == 0 then m else Run(Step(m, events[0]), events[1..])
  }

  /** The phase graph of the machine, written out as a reference: which event moves which phase where. */
  predicate PhaseEdge<C>(from: Phase, e: GameEvent<C>, to: Phase) {
    || (from == NotStarted && e.Start? && to == Playing(Running))
    || (from == Playing(Running) && e.Pause? && to == Playing(Paused))
    || (from == Playing(Paused) && e.Resume? && to == Playing(Running))
    || (from.Playing? && e.End? && to == GameOver)
    || (from == Playing(Running) && e.Tick? && to == GameOver)
    || (from == GameOver && e.Retry? && to == NotStarted)
  }

  /**
   * Every phase change follows an edge of the phase graph, and every edge other than the guarded tick is
   * always taken; the root-level handlers never change the phase.
   */
  lemma StepFollowsPhaseGraph<C>(m: MachineState<C>, e: GameEvent<C>)
    ensures var r := Step(m, e);
            && (r.phase != m.phase ==> PhaseEdge(m.phase, e, r.phase))
            && (forall to :: PhaseEdge(m.phase, e, to) && !e.Tick? ==> r.phase == to)
            && (e.SetRoundTime? || e.AddPlayer? || e.RemovePlayer? || e.SetScore? || e.SetHand? || e.SetDeck? ==>
                  r.phase == m.phase)
  {
  }

  /**
   * A tick while the timer runs advances the clock by its length and ends the game exactly when the round
   * length is reached; in any other state a tick is ignored.
   */
  lemma TickSpec<C>(m: MachineState<C>, t: int)
    ensures var r := Step(m, Tick(t));
            && (m.phase == Playing(Running) ==>
                  && r.context == m.context.(time := GameTime(m.context.time.currentTime + t, m.context.time.roundTime))
                  && (r.phase == GameOver <==> m.context.time.currentTime + t >= m.context.time.roundTime)
                  && (r.phase != GameOver ==> r.phase == Playing(Running) && r.context.time.currentTime < r.context.time.roundTime))
            && (m.phase != Playing(Running) ==> r == m)
  {
  }

  /** Only a tick while running and a retry after the game ends move the clock; only setRoundTime changes the round length. */
  lemma ClockOnlyMovesOnTicks<C>(m: MachineState<C>, e: GameEvent<C>)
    ensures var r := Step(m, e);
            && (r.context.time.currentTime != m.context.time.currentTime ==>
                  (e.Tick? && m.phase == Playing(Running)) || (e.Retry? && m.phase == GameOver))
            && (r.context.time.roundTime != m.context.time.roundTime ==> e.SetRoundTime?)
  {
  }

  /** setRoundTime, in any phase, changes the round length and nothing else. */
  lemma SetRoundTimeOnlyRoundTime<C>(m: MachineState<C>, t: int)
    ensures var r := Step(m, SetRoundTime(t));
            && r.phase == m.phase && r.context.players == m.context.players
            && r.context.time == GameTime(m.context.time.currentTime, t)
  {
  }

  /** Retrying a finished game returns to NotStarted with the clock at 0, the same round length and the same players. */
  lemma RetryResets<C>(m: MachineState<C>)
    requires m.phase == GameOver
    ensures var r := Step(m, Retry);
            r.phase == NotStarted && r.context.time == GameTime(0, m.context.time.roundTime) && r.context.players == m.context.players
  {
  }

  /** The machine invariant: the clock reads 0 until play starts, and player ids are unique. */
  predicate Invariant<C>(m: MachineState<C>) {
    (m.phase == NotStarted ==> m.context.time.currentTime == 0) && UniqueIds(m.context.players)
  }

  lemma StepKeepsInvariant<C>(m: MachineState<C>, e: GameEvent<C>)
    requires Invariant(m)
    ensures Invariant(Step(m, e))
  {
    match e
    case RemovePlayer(id) => RemoveKeepsUniqueIds(m.context.players, id);
    case SetScore(id, s) => FieldEditsKeepRoster(m.context.players, id, s, [], []);
    case SetHand(id, h) => FieldEditsKeepRoster(m.context.players, id, 0, h, []);
    case SetDeck(id, d) => FieldEditsKeepRoster(m.context.players, id, 0, [], d);
    case _ =>
  }

  /** The invariant holds in every state any queue of events can reach from the initial state. */
  lemma {:induction false} RunKeepsInvariant<C>(m: MachineState<C>, events: seq<GameEvent<C>>)
    requires Invariant(m)
    ensures Invariant(Run(m, events))
    decreases |events|
  {
    if |events| > 0 {
      StepKeepsInvariant(m, events[0]);
      RunKeepsInvariant(Step(m, events[0]), events[1..]);
    }
  }

  lemma ReachableStatesAreValid<C>(events: seq<GameEvent<C>>)
    ensures Invariant(Run(Initial<C>(), events))
  {
    RunKeepsInvariant(Initial<C>(), events);
  }

  /** Starting and then letting a full round elapse ends the game. */
  lemma FullRoundEndsGame<C>()
    ensures Run(Initial<C>(), [Start, Tick(60000)]).phase == GameOver
    ensures Run(Initial<C>(), [Start, Pause, Tick(60000)]).phase == Playing(Paused)
  {
    var m0 := Initial<C>();
    var m1 := Step(m0, Start);
    assert Run(m0, [Start, Tick(60000)]) == Run(m1, [Tick(60000)]);
    assert Run(m1, [Tick(60000)]) == Run(Step(m1, Tick(60000)), []);
    var p1 := Step(m1, Pause);
    assert Run(m0, [Start, Pause, Tick(60000)]) == Run(m1, [Pause, Tick(60000)]);
    assert Run(m1, [Pause, Tick(60000)]) == Run(p1, [Tick(60000)]);
    assert Run(p1, [Tick(60000)]) == Run(Step(p1, Tick(60000)), []);
  }
}
