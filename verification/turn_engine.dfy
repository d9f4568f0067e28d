/** Turn advancement, drawing and recycling, the win selectors and the play/draw context transforms (src/stateMachine/stateMachine.helper.ts). */
module TurnEngine {
  import opened Wrappers
  import opened Seqs
  import opened GameConstants
  import opened GameHelper
  import opened ChainSearch

  datatype Controller = Human | Cpu

  datatype Player = Player(id: string, hand: seq<Card>, controller: Controller)

  /** The part of the game context the helpers read and write. */
  datatype GameContext = GameContext(
    players: seq<Player>,
    currentPlayerIndex: int,
    drawPile: seq<Card>,          // front = next card drawn
    discardPile: seq<Card>,       // back = the active top card
    selectedCardIds: seq<string>,
    humanPlayerId: Option<string>,
    winnerId: Option<string>)

  predicate ValidIndex(ctx: GameContext) {
    0 <= ctx.currentPlayerIndex < |ctx.players|
  }

  predicate UniquePlayerIds(players: seq<Player>) {
    forall i, j :: 0 <= i < j < |players| ==> players[i].id != players[j].id
  }

  // ---------------------------------------------------------------------------
  // Queries
  // ---------------------------------------------------------------------------

  /** topDiscard: the last card of the discard pile, if any. */
  function TopDiscard(ctx: GameContext): (r: Option<Card>)
    ensures r.None? <==> |ctx.discardPile| == 0
    ensures r.Some? ==> r.value == ctx.discardPile[|ctx.discardPile| - 1]
  {
    LastOf(None, ctx.discardPile)
  }

  function CurrentPlayer(ctx: GameContext): (r: Player)
    requires ValidIndex(ctx)
    ensures r in ctx.players
    ensures UniquePlayerIds(ctx.players) ==>
              forall k :: 0 <= k < |ctx.players| && ctx.players[k].id == r.id ==> k == ctx.currentPlayerIndex
  {
    ctx.players[ctx.currentPlayerIndex]
  }

  /** currentPlayerIsHuman: controlled by a human, or the configured human player. */
  function CurrentPlayerIsHuman(ctx: GameContext): (r: bool)
    requires ValidIndex(ctx)
    ensures CurrentPlayer(ctx).controller == Human ==> r
    ensures ctx.humanPlayerId == Some(CurrentPlayer(ctx).id) ==> r
    ensures !r ==> CurrentPlayer(ctx).controller == Cpu
  {
    var p := CurrentPlayer(ctx);
    p.controller == Human || ctx.humanPlayerId == Some(p.id)
  }

  /** currentPlayerIsCpu: CPU-controlled and not the configured human player; exactly the negation of currentPlayerIsHuman. */
  function CurrentPlayerIsCpu(ctx: GameContext): (r: bool)
    requires ValidIndex(ctx)
    ensures r <==> !CurrentPlayerIsHuman(ctx)
  {
    var p := CurrentPlayer(ctx);
    p.controller == Cpu && ctx.humanPlayerId != Some(p.id)
  }

  function HasIdIn(ids: seq<string>): Card -> bool {
    (c: Card) => c.id in ids
  }

  function LacksIdIn(ids: seq<string>): Card -> bool {
    (c: Card) => c.id !in ids
  }

  /** The cards of `hand` whose ids are listed, in hand order (`hand.filter(c => ids.includes(c.id))`). */
  function PickIds(hand: seq<Card>, ids: seq<string>): (r: seq<Card>)
    ensures IsSubsequence(r, hand)
    ensures forall i :: 0 <= i < |r| ==> r[i].id in ids && r[i] in hand
    ensures forall i :: 0 <= i < |hand| && hand[i].id in ids ==> hand[i] in r
  {
    FilterIsSubsequence(hand, HasIdIn(ids));
    FilterMembers(hand, HasIdIn(ids));
    Filter(hand, HasIdIn(ids))
  }

  /** The cards of `hand` whose ids are not listed, in hand order. */
  function DropIds(hand: seq<Card>, ids: seq<string>): (r: seq<Card>)
    ensures IsSubsequence(r, hand)
    ensures forall i :: 0 <= i < |r| ==> r[i].id !in ids && r[i] in hand
    ensures forall i :: 0 <= i < |hand| && hand[i].id !in ids ==> hand[i] in r
  {
    FilterIsSubsequence(hand, LacksIdIn(ids));
    FilterMembers(hand, LacksIdIn(ids));
    Filter(hand, LacksIdIn(ids))
  }

  /** The picked and the dropped cards together are the hand. */
  lemma PickDropPartition(hand: seq<Card>, ids: seq<string>)
    ensures multiset(PickIds(hand, ids)) + multiset(DropIds(hand, ids)) == multiset(hand)
  {
    FilterPartition(hand, HasIdIn(ids), LacksIdIn(ids));
  }

  /** selectedCards: the current player's cards whose ids are selected, in hand order. */
  function SelectedCards(ctx: GameContext): (r: seq<Card>)
    requires ValidIndex(ctx)
    ensures IsSubsequence(r, CurrentPlayer(ctx).hand)
    ensures forall i :: 0 <= i < |r| ==> r[i].id in ctx.selectedCardIds
    ensures forall c :: c in CurrentPlayer(ctx).hand && c.id in ctx.selectedCardIds ==> c in r
  {
    PickIds(CurrentPlayer(ctx).hand, ctx.selectedCardIds)
  }

  /** currentPlayableCards: the current player's cards that match the discard top. */
  function CurrentPlayableCards(ctx: GameContext): (r: seq<Card>)
    requires ValidIndex(ctx)
    ensures IsSubsequence(r, CurrentPlayer(ctx).hand)
    ensures forall i :: 0 <= i < |r| ==> CanPlayCard(r[i], TopDiscard(ctx))
    ensures forall c :: c in CurrentPlayer(ctx).hand && CanPlayCard(c, TopDiscard(ctx)) ==> c in r
  {
    GetPlayableCards(CurrentPlayer(ctx).hand, TopDiscard(ctx))
  }

  // ---------------------------------------------------------------------------
  // Turn advancement
  // ---------------------------------------------------------------------------

  /** canDrawCards: a card is waiting in the draw pile, or the discard pile can be recycled below its top. */
  function CanDrawCards(ctx: GameContext): (r: bool)
    ensures r <==> |ctx.drawPile| > 0 || |ctx.discardPile| > 1
  {
    |ctx.drawPile| > 0 || (|ctx.drawPile| == 0 && |ctx.discardPile| > 1)
  }

  /** advanceTurn: the next player after the current one who can act, or -1. */
  function AdvanceTurn(ctx: GameContext): (r: int)
    requires ValidIndex(ctx)
    ensures r == -1 || 0 <= r < |ctx.players|
  {
    ScanTurn(ctx.players, ctx.currentPlayerIndex, CanDrawCards(ctx), 1)
  }

  /** The loop `for (let i = 1; i <= n; i++)` of advanceTurn, from offset `i` on. */
  function ScanTurn(players: seq<Player>, cur: nat, drawAvailable: bool, i: nat): (r: int)
    requires |players| > 0 && 1 <= i
    ensures r == -1 || 0 <= r < |players|
    decreases |players| + 1 - i
  {
    if i > |players| then -1
    else
      var idx := (cur + i) % |players|;
      if drawAvailable || |players[idx].hand| > 0 then idx else ScanTurn(players, cur, drawAvailable, i + 1)
  }

  /** How many steps after `cur` the scan reaches `j`, going round the table; `cur` itself comes last, after n steps. */
  function Offset(cur: nat, j: nat, n: nat): nat
    requires cur < n && j < n
  {
    if j > cur then j - cur else j + n - cur
  }

  lemma ModStep(cur: nat, i: nat, n: nat)
    requires cur < n && 1 <= i <= n
    ensures (cur + i) % n == if cur + i < n then cur + i else cur + i - n
    ensures Offset(cur, (cur + i) % n, n) == i
  {
    if cur + i < n {
      ModBelow(cur + i, n);
    } else {
      ModWrap(cur + i, n);
    }
  }

  lemma ModBelow(a: nat, n: nat)
    requires a < n
    ensures a % n == a
  {
  }

  lemma ModWrap(a: nat, n: nat)
    requires 0 < n <= a < 2 * n
    ensures a % n == a - n
  {
    ModBelow(a - n, n);
    assert (a - n + n) % n == (a - n) % n;
  }

  lemma {:induction false} ScanTurnSpec(players: seq<Player>, cur: nat, i: nat)
    requires cur < |players| && 1 <= i <= |players| + 1
    ensures var r := ScanTurn(players, cur, false, i);
            var n := |players|;
            && (r == -1 <==> forall j :: 0 <= j < n && Offset(cur, j, n) >= i ==> |players[j].hand| == 0)
            && (r != -1 ==> && i <= Offset(cur, r, n)
                            && |players[r].hand| > 0
                            && forall j :: 0 <= j < n && i <= Offset(cur, j, n) < Offset(cur, r, n) ==> |players[j].hand| == 0)
    decreases |players| + 1 - i
  {
    var n := |players|;
    if i <= n {
      ModStep(cur, i, n);
      var idx := (cur + i) % n;
      if |players[idx].hand| == 0 {
        ScanTurnSpec(players, cur, i + 1);
        forall j | 0 <= j < n && Offset(cur, j, n) == i
          ensures j == idx
        {
        }
      }
    }
  }

  /**
   * advanceTurn, in full: with a draw available the next seat in order; otherwise the first seat after the
   * current one, going round with the current seat last, whose hand is non-empty; -1 exactly when nothing can
   * be drawn and every hand is empty.
   */
  lemma AdvanceTurnSpec(ctx: GameContext)
    requires ValidIndex(ctx)
    ensures var r := AdvanceTurn(ctx);
            var n := |ctx.players|;
            var cur := ctx.currentPlayerIndex;
            && (CanDrawCards(ctx) ==> r == (cur + 1) % n)
            && (r == -1 <==> !CanDrawCards(ctx) && forall j :: 0 <= j < n ==> |ctx.players[j].hand| == 0)
            && (!CanDrawCards(ctx) && r != -1 ==>
                  && |ctx.players[r].hand| > 0
                  && forall j :: 0 <= j < n && Offset(cur, j, n) < Offset(cur, r, n) ==> |ctx.players[j].hand| == 0)
  {
    var n := |ctx.players|;
    var cur := ctx.currentPlayerIndex;
    ModStep(cur, 1, n);
    if !CanDrawCards(ctx) {
      ScanTurnSpec(ctx.players, cur, 1);
    }
  }

  /**
   * `next` is where the turn goes from `ctx` under the rule of advanceTurn, with -1 read as "stay": the next
   * seat if a draw is possible; otherwise the nearest following seat holding cards, or the current seat when
   * every hand is empty.
   */
  ghost predicate TurnPassed(ctx: GameContext, next: int)
    requires ValidIndex(ctx)
  {
    var n := |ctx.players|;
    var cur := ctx.currentPlayerIndex;
    && 0 <= next < n
    && (CanDrawCards(ctx) ==> next == (cur + 1) % n)
    && (!CanDrawCards(ctx) && (forall j :: 0 <= j < n ==> |ctx.players[j].hand| == 0) ==> next == cur)
    && (!CanDrawCards(ctx) && (exists j :: 0 <= j < n && |ctx.players[j].hand| > 0) ==>
          && |ctx.players[next].hand| > 0
          && forall j :: 0 <= j < n && Offset(cur, j, n) < Offset(cur, next, n) ==> |ctx.players[j].hand| == 0)
  }

  /** The index the context transforms store: the advanceTurn result, or the current index when it is -1. */
  function NextIndex(ctx: GameContext): (next: int)
    requires ValidIndex(ctx)
    ensures TurnPassed(ctx, next)
  {
    AdvanceTurnSpec(ctx);
    var t := AdvanceTurn(ctx);
    if t == -1 then ctx.currentPlayerIndex else t
  }

  /** Seat 0 has an empty hand, seats 1 and 2 hold cards, nothing can be drawn: the turn passes from seat 0 to seat 1. */
  lemma AdvanceTurnSkipsEmptyHand(a: Card, b: Card, c: Card, top: Card)
    ensures var ctx := GameContext([Player("A", [], Human), Player("B", [a, b, c], Cpu), Player("C", [a, b], Cpu)],
                                   0, [], [top], [], Some("A"), None);
            !CanDrawCards(ctx) && AdvanceTurn(ctx) == 1
  {
  }

  // ---------------------------------------------------------------------------
  // Win selectors
  // ---------------------------------------------------------------------------

  /** isDrawPileEmptyWithWinner: nothing can be drawn any more and some hand is empty. */
  function IsDrawPileEmptyWithWinner(ctx: GameContext): (r: bool)
    ensures r ==> !CanDrawCards(ctx) && |ctx.players| > 0
  {
    if CanDrawCards(ctx) then false else exists p :: p in ctx.players && |p.hand| == 0
  }

  /** `players.find(p => p.hand.length === 0)`, searching from seat `k`. */
  function FirstEmptyHand(players: seq<Player>, k: nat): (r: Option<nat>)
    requires k <= |players|
    ensures r.Some? ==> && k <= r.value < |players|
                        && |players[r.value].hand| == 0
                        && forall j :: k <= j < r.value ==> |players[j].hand| > 0
    ensures r.None? ==> forall j :: k <= j < |players| ==> |players[j].hand| > 0
    decreases |players| - k
  {
    if k == |players| then None
    else if |players[k].hand| == 0 then Some(k)
    else FirstEmptyHand(players, k + 1)
  }

  /** Seat `k` has the lowest hand value, and every earlier seat a strictly higher one. */
  ghost predicate EarliestLowest(players: seq<Player>, k: nat)
    requires k < |players|
  {
    && (forall j :: 0 <= j < |players| ==> HandValue(players[k].hand) <= HandValue(players[j].hand))
    && (forall j :: 0 <= j < k ==> HandValue(players[k].hand) < HandValue(players[j].hand))
  }

  /** The loop of findLowestHandPlayer from seat `i` on, with `best` the seat found so far. */
  function LowestFrom(players: seq<Player>, i: nat, best: nat): (k: nat)
    requires best < |players| && best <= i <= |players|
    requires forall j :: 0 <= j < i ==> HandValue(players[best].hand) <= HandValue(players[j].hand)
    requires forall j :: 0 <= j < best ==> HandValue(players[best].hand) < HandValue(players[j].hand)
    ensures k < |players| && EarliestLowest(players, k)
    decreases |players| - i
  {
    if i == |players| then best
    else if HandValue(players[i].hand) < HandValue(players[best].hand) then LowestFrom(players, i + 1, i)
    else LowestFrom(players, i + 1, best)
  }

  /** findLowestHandPlayer: None without players, otherwise the earliest player with the lowest hand value. */
  function FindLowestHandPlayer(ctx: GameContext): (r: Option<string>)
    ensures r.None? <==> |ctx.players| == 0
    ensures r.Some? ==> exists k :: 0 <= k < |ctx.players| && ctx.players[k].id == r.value && EarliestLowest(ctx.players, k)
  {
    if |ctx.players| == 0 then None
    else
      var k := LowestFrom(ctx.players, 0, 0);
      assert ctx.players[k].id == ctx.players[k].id && EarliestLowest(ctx.players, k);
      Some(ctx.players[k].id)
  }

  /** findEmptyHandWinner: the first empty-handed player, or else the lowest-hand-value player. */
  function FindEmptyHandWinner(ctx: GameContext): (r: Option<string>)
    ensures r.None? <==> |ctx.players| == 0
    ensures r.Some? ==> exists k :: 0 <= k < |ctx.players| && ctx.players[k].id == r.value
  {
    match FirstEmptyHand(ctx.players, 0)
    case Some(k) => Some(ctx.players[k].id)
    case None => FindLowestHandPlayer(ctx)
  }

  lemma EarliestLowestUnique(players: seq<Player>, k1: nat, k2: nat)
    requires k1 < |players| && k2 < |players|
    requires EarliestLowest(players, k1) && EarliestLowest(players, k2)
    ensures k1 == k2
  {
    var v1 := HandValue(players[k1].hand);
    var v2 := HandValue(players[k2].hand);
    assert v1 <= v2 && v2 <= v1;
    assert !(k1 < k2) && !(k2 < k1);
  }

  /**
   * The two winner selectors always agree: an empty hand has value 0 and every non-empty hand a positive value,
   * so the first empty hand is also the earliest lowest one.
   */
  lemma EmptyHandWinnerIsLowest(ctx: GameContext)
    ensures FindEmptyHandWinner(ctx) == FindLowestHandPlayer(ctx)
  {
    match FirstEmptyHand(ctx.players, 0)
    case Some(k) =>
      assert EarliestLowest(ctx.players, k);
      EarliestLowestUnique(ctx.players, k, LowestFrom(ctx.players, 0, 0));
    case None =>
  }

  /** The stalemate trigger fires exactly when nothing can be drawn and the search for an empty hand succeeds. */
  lemma StalemateTrigger(ctx: GameContext)
    ensures IsDrawPileEmptyWithWinner(ctx) <==> !CanDrawCards(ctx) && FirstEmptyHand(ctx.players, 0).Some?
  {
    if FirstEmptyHand(ctx.players, 0).Some? {
      var k := FirstEmptyHand(ctx.players, 0).value;
      assert ctx.players[k] in ctx.players;
    }
  }

  /** When the stalemate trigger fires, the winner is the first player whose hand is empty. */
  lemma StalemateWinnerHasEmptyHand(ctx: GameContext)
    requires IsDrawPileEmptyWithWinner(ctx)
    ensures FirstEmptyHand(ctx.players, 0).Some?
    ensures var k := FirstEmptyHand(ctx.players, 0).value;
            && FindEmptyHandWinner(ctx) == Some(ctx.players[k].id)
            && |ctx.players[k].hand| == 0
            && forall j :: 0 <= j < k ==> |ctx.players[j].hand| > 0
  {
    var p :| p in ctx.players && |p.hand| == 0;
    var j :| 0 <= j < |ctx.players| && ctx.players[j] == p;
  }

  // ---------------------------------------------------------------------------
  // Card conservation
  // ---------------------------------------------------------------------------

  /** All cards held in hands. */
  function HandsOf(players: seq<Player>): multiset<Card> {
    if |players| == 0 then multiset{} else multiset(players[0].hand) + HandsOf(players[1..])
  }

  /** Every card in play: draw pile, discard pile and all hands. */
  function AllCards(ctx: GameContext): multiset<Card> {
    multiset(ctx.drawPile) + multiset(ctx.discardPile) + HandsOf(ctx.players)
  }

  lemma {:induction false} HandsOfUpdate(players: seq<Player>, k: nat, p: Player)
    requires k < |players|
    ensures HandsOf(players[k := p]) + multiset(players[k].hand) == HandsOf(players) + multiset(p.hand)
    decreases k
  {
    var q := players[k := p];
    if k == 0 {
      assert q[1..] == players[1..];
    } else {
      var rest := players[1..];
      assert q[1..] == rest[k - 1 := p];
      assert rest[k - 1] == players[k];
      HandsOfUpdate(rest, k - 1, p);
      var a := multiset(players[0].hand);
      var b := HandsOf(rest[k - 1 := p]);
      var c := multiset(players[k].hand);
      var d := HandsOf(rest);
      var e := multiset(p.hand);
      assert b + c == d + e;
      assert HandsOf(q) == a + b;
      assert HandsOf(players) == a + d;
      assert a + b + c == a + (b + c);
      assert a + d + e == a + (d + e);
    }
  }

  /** `players.map(p => p.id === id ? {...p, hand} : p)`. */
  function SetHand(players: seq<Player>, id: string, hand: seq<Card>): seq<Player> {
    seq(|players|, i requires 0 <= i < |players| => if players[i].id == id then players[i].(hand := hand) else players[i])
  }

  /** `players.map(p => p.id === id ? {...p, hand: [...p.hand, card]} : p)`. */
  function AppendToHand(players: seq<Player>, id: string, card: Card): seq<Player> {
    seq(|players|, i requires 0 <= i < |players| => if players[i].id == id then players[i].(hand := players[i].hand + [card]) else players[i])
  }

  /** With unique ids, replacing the hand by the id of seat `k` touches seat `k` only. */
  lemma SetHandTouchesOneSeat(players: seq<Player>, k: nat, hand: seq<Card>)
    requires UniquePlayerIds(players) && k < |players|
    ensures SetHand(players, players[k].id, hand) == players[k := players[k].(hand := hand)]
  {
  }

  /** With unique ids, appending by the id of seat `k` touches seat `k` only. */
  lemma AppendToHandTouchesOneSeat(players: seq<Player>, k: nat, card: Card)
    requires UniquePlayerIds(players) && k < |players|
    ensures AppendToHand(players, players[k].id, card) == players[k := players[k].(hand := players[k].hand + [card])]
  {
  }

  // ---------------------------------------------------------------------------
  // applyPlayCards
  // ---------------------------------------------------------------------------

  /**
   * applyPlayCards: move the listed cards out of the current hand, order them into a chain (keeping the
   * hand order if that fails), put them on the discard pile, advance the turn, clear selection and winner.
   */
  function ApplyPlayCards(ctx: GameContext, cardIds: seq<string>): (r: GameContext)
    requires ValidIndex(ctx)
    ensures ValidIndex(r)
  {
    var player := CurrentPlayer(ctx);
    var top := TopDiscard(ctx);
    var played := PickIds(player.hand, cardIds);
    var remaining := DropIds(player.hand, cardIds);
    var ordered := OrderChain(played, top).GetOr(played);
    var updatedPlayers := SetHand(ctx.players, player.id, remaining);
    var newDiscard := ctx.discardPile + ordered;
    var nextCtx := ctx.(players := updatedPlayers, discardPile := newDiscard);
    ctx.(players := updatedPlayers,
         discardPile := newDiscard,
         currentPlayerIndex := NextIndex(nextCtx),
         winnerId := None,
         selectedCardIds := [])
  }

  /** The cards applyPlayCards puts on the discard pile are a rearrangement of the played ones. */
  lemma PlayedSuffixIsPermutation(ctx: GameContext, cardIds: seq<string>)
    requires ValidIndex(ctx)
    ensures var r := ApplyPlayCards(ctx, cardIds);
            var n := |ctx.discardPile|;
            && |r.discardPile| >= n
            && r.discardPile[..n] == ctx.discardPile
            && multiset(r.discardPile[n..]) == multiset(PickIds(CurrentPlayer(ctx).hand, cardIds))
  {
    var played := PickIds(CurrentPlayer(ctx).hand, cardIds);
    OrderChainSound(played, TopDiscard(ctx));
    var r := ApplyPlayCards(ctx, cardIds);
    assert r.discardPile[|ctx.discardPile|..] == OrderChain(played, TopDiscard(ctx)).GetOr(played);
  }

  /** With unique player ids, applyPlayCards replaces the current hand by its unlisted cards and appends a rearrangement of the listed ones to the discard pile. */
  lemma ApplyPlayCardsShape(ctx: GameContext, cardIds: seq<string>)
    requires ValidIndex(ctx) && UniquePlayerIds(ctx.players)
    ensures var r := ApplyPlayCards(ctx, cardIds);
            var k := ctx.currentPlayerIndex;
            var hand := ctx.players[k].hand;
            var n := |ctx.discardPile|;
            && r.players == ctx.players[k := ctx.players[k].(hand := DropIds(hand, cardIds))]
            && |r.discardPile| >= n
            && r.discardPile == ctx.discardPile + r.discardPile[n..]
            && multiset(r.discardPile[n..]) == multiset(PickIds(hand, cardIds))
            && r.drawPile == ctx.drawPile
            && r.selectedCardIds == [] && r.winnerId == None
  {
    var k := ctx.currentPlayerIndex;
    SetHandTouchesOneSeat(ctx.players, k, DropIds(ctx.players[k].hand, cardIds));
    PlayedSuffixIsPermutation(ctx, cardIds);
    var r := ApplyPlayCards(ctx, cardIds);
    var n := |ctx.discardPile|;
    assert r.discardPile == ctx.discardPile + r.discardPile[n..];
  }

  /**
   * applyPlayCards, with unique player ids: the current hand keeps exactly its unlisted cards in order, the
   * cards put on the discard pile are the rest of the hand, nothing else about the players or the draw pile
   * changes, and the ids stay unique.
   */
  lemma ApplyPlayCardsEffect(ctx: GameContext, cardIds: seq<string>)
    requires ValidIndex(ctx) && UniquePlayerIds(ctx.players)
    ensures var r := ApplyPlayCards(ctx, cardIds);
            var k := ctx.currentPlayerIndex;
            var hand := ctx.players[k].hand;
            var newHand := r.players[k].hand;
            && |r.players| == |ctx.players|
            && (forall j :: 0 <= j < |ctx.players| && j != k ==> r.players[j] == ctx.players[j])
            && r.players[k].id == ctx.players[k].id && r.players[k].controller == ctx.players[k].controller
            && IsSubsequence(newHand, hand)
            && (forall i :: 0 <= i < |newHand| ==> newHand[i].id !in cardIds)
            && (forall i :: 0 <= i < |hand| && hand[i].id !in cardIds ==> hand[i] in newHand)
            && multiset(r.discardPile[|ctx.discardPile|..]) + multiset(newHand) == multiset(hand)
            && r.drawPile == ctx.drawPile
            && r.selectedCardIds == [] && r.winnerId == None
            && UniquePlayerIds(r.players)
  {
    ApplyPlayCardsShape(ctx, cardIds);
    PickDropPartition(ctx.players[ctx.currentPlayerIndex].hand, cardIds);
  }

  /** applyPlayCards, with unique player ids, keeps every card in play: it only moves cards from a hand to the discard pile. */
  lemma ApplyPlayCardsConserves(ctx: GameContext, cardIds: seq<string>)
    requires ValidIndex(ctx) && UniquePlayerIds(ctx.players)
    ensures AllCards(ApplyPlayCards(ctx, cardIds)) == AllCards(ctx)
  {
    var r := ApplyPlayCards(ctx, cardIds);
    ApplyPlayCardsShape(ctx, cardIds);
    var k := ctx.currentPlayerIndex;
    var hand := ctx.players[k].hand;
    var remaining := DropIds(hand, cardIds);
    PickDropPartition(hand, cardIds);
    HandsOfUpdate(ctx.players, k, ctx.players[k].(hand := remaining));
    MultisetMove(multiset(ctx.discardPile), multiset(ctx.drawPile), multiset(PickIds(hand, cardIds)),
                 multiset(remaining), HandsOf(ctx.players), HandsOf(r.players));
  }

  /** Cards picked from a distinct-id hand that can be arranged into a chain are ordered into one by orderChain. */
  lemma PickedCardsOrder(hand: seq<Card>, cardIds: seq<string>, top: Option<Card>, p: seq<Card>)
    requires DistinctIds(hand)
    requires multiset(p) == multiset(PickIds(hand, cardIds)) && IsChain(top, p)
    ensures OrderChain(PickIds(hand, cardIds), top).Some?
    ensures IsChain(top, OrderChain(PickIds(hand, cardIds), top).value)
  {
    var played := PickIds(hand, cardIds);
    FilterMembers(hand, HasIdIn(cardIds));
    DistinctIdsSubMultiset(played, hand);
    OrderChainComplete(played, top, p);
    OrderChainSound(played, top);
  }

  /** The discard pile after applyPlayCards is the old one followed by the ordered (or, failing that, the picked) cards. */
  lemma ApplyPlayCardsDiscard(ctx: GameContext, cardIds: seq<string>)
    requires ValidIndex(ctx)
    ensures var played := PickIds(CurrentPlayer(ctx).hand, cardIds);
            ApplyPlayCards(ctx, cardIds).discardPile == ctx.discardPile + OrderChain(played, TopDiscard(ctx)).GetOr(played)
  {
  }

  /**
   * If the listed cards (with distinct ids) can be arranged into a chain from the old top, the cards added to
   * the discard pile form such a chain, and the last of them is the new top.
   */
  lemma ApplyPlayCardsPlaysChain(ctx: GameContext, cardIds: seq<string>, p: seq<Card>)
    requires ValidIndex(ctx)
    requires DistinctIds(CurrentPlayer(ctx).hand)
    requires multiset(p) == multiset(PickIds(CurrentPlayer(ctx).hand, cardIds)) && IsChain(TopDiscard(ctx), p)
    ensures var r := ApplyPlayCards(ctx, cardIds);
            var suffix := r.discardPile[|ctx.discardPile|..];
            && IsChain(TopDiscard(ctx), suffix)
            && TopDiscard(r) == LastOf(TopDiscard(ctx), suffix)
  {
    var top := TopDiscard(ctx);
    var played := PickIds(CurrentPlayer(ctx).hand, cardIds);
    PickedCardsOrder(CurrentPlayer(ctx).hand, cardIds, top, p);
    ApplyPlayCardsDiscard(ctx, cardIds);
    var ordered := OrderChain(played, top).value;
    var pile := ApplyPlayCards(ctx, cardIds).discardPile;
    assert pile == ctx.discardPile + ordered;
    assert pile[|ctx.discardPile|..] == ordered;
  }

  // ---------------------------------------------------------------------------
  // applyDrawCard
  // ---------------------------------------------------------------------------

  /** The random choices applyDrawCard's shuffle needs when it recycles the discard pile. */
  predicate DrawSwapsFit(ctx: GameContext, swaps: seq<nat>) {
    |ctx.drawPile| == 0 && |ctx.discardPile| > 1 ==> ValidSwaps(swaps, |ctx.discardPile| - 1)
  }

  /** The draw pile after recycling (if the source recycles): everything below the top, shuffled. */
  function RefilledDrawPile(ctx: GameContext, swaps: seq<nat>): seq<Card>
    requires DrawSwapsFit(ctx, swaps)
  {
    if |ctx.drawPile| == 0 && |ctx.discardPile| > 1
    then Shuffle(ctx.discardPile[..|ctx.discardPile| - 1], swaps)
    else ctx.drawPile
  }

  /** The discard pile after recycling (if the source recycles): only its top. */
  function RefilledDiscardPile(ctx: GameContext): seq<Card> {
    if |ctx.drawPile| == 0 && |ctx.discardPile| > 1
    then [ctx.discardPile[|ctx.discardPile| - 1]]
    else ctx.discardPile
  }

  /** Recycling keeps the discard top on the discard pile and turns the rest into the draw pile; no card is lost or added. */
  lemma RefillKeepsCards(ctx: GameContext, swaps: seq<nat>)
    requires DrawSwapsFit(ctx, swaps)
    ensures multiset(RefilledDrawPile(ctx, swaps)) + multiset(RefilledDiscardPile(ctx))
            == multiset(ctx.drawPile) + multiset(ctx.discardPile)
    ensures |RefilledDrawPile(ctx, swaps)| > 0 <==> CanDrawCards(ctx)
    ensures TopDiscard(ctx.(discardPile := RefilledDiscardPile(ctx))) == TopDiscard(ctx)
  {
    var n := |ctx.discardPile|;
    if |ctx.drawPile| == 0 && n > 1 {
      assert ctx.discardPile == ctx.discardPile[..n - 1] + [ctx.discardPile[n - 1]];
    }
  }

  /** A card count step: the piles lose `c` and a hand gains it. */
  lemma CardMovesToHand(oldDraw: multiset<Card>, oldDiscard: multiset<Card>, newDraw: multiset<Card>,
                        newDiscard: multiset<Card>, c: multiset<Card>, h: multiset<Card>,
                        oldHands: multiset<Card>, newHands: multiset<Card>)
    requires c + newDraw + newDiscard == oldDraw + oldDiscard
    requires newHands + h == oldHands + (h + c)
    ensures newDraw + newDiscard + newHands == oldDraw + oldDiscard + oldHands
  {
    forall x
      ensures (newDraw + newDiscard + newHands)[x] == (oldDraw + oldDiscard + oldHands)[x]
    {
      assert (c + newDraw + newDiscard)[x] == (oldDraw + oldDiscard)[x];
      assert (newHands + h)[x] == (oldHands + (h + c))[x];
    }
  }

  /**
   * applyDrawCard: recycle the discard pile below its top if the draw pile is empty, then move the front card
   * of the draw pile to the end of the current hand; either way advance the turn and clear the selection.
   */
  function ApplyDrawCard(ctx: GameContext, swaps: seq<nat>): (r: GameContext)
    requires ValidIndex(ctx) && DrawSwapsFit(ctx, swaps)
    ensures ValidIndex(r)
  {
    var player := CurrentPlayer(ctx);
    var drawPile := RefilledDrawPile(ctx, swaps);
    var discardPile := RefilledDiscardPile(ctx);
    if |drawPile| == 0 then
      ctx.(currentPlayerIndex := NextIndex(ctx), selectedCardIds := [])
    else
      var drawn := drawPile[0];
      var updatedPlayers := AppendToHand(ctx.players, player.id, drawn);
      var nextCtx := ctx.(players := updatedPlayers, drawPile := drawPile[1..], discardPile := discardPile);
      ctx.(drawPile := drawPile[1..],
           discardPile := discardPile,
           players := updatedPlayers,
           currentPlayerIndex := NextIndex(nextCtx),
           selectedCardIds := [])
  }

  /** With nothing to draw, applyDrawCard only passes the turn and clears the selection. */
  lemma ApplyDrawCardNothingToDraw(ctx: GameContext, swaps: seq<nat>)
    requires ValidIndex(ctx) && DrawSwapsFit(ctx, swaps)
    requires !CanDrawCards(ctx)
    ensures var r := ApplyDrawCard(ctx, swaps);
            r == ctx.(currentPlayerIndex := r.currentPlayerIndex, selectedCardIds := [])
  {
  }

  /**
   * applyDrawCard, with unique player ids and a card available: exactly the front card of the (possibly
   * refilled) draw pile is appended to the current hand, the other seats are unchanged, and a recycle leaves
   * only the old top on the discard pile and the rest, rearranged, as the draw pile.
   */
  lemma ApplyDrawCardEffect(ctx: GameContext, swaps: seq<nat>)
    requires ValidIndex(ctx) && DrawSwapsFit(ctx, swaps) && UniquePlayerIds(ctx.players)
    requires CanDrawCards(ctx)
    ensures var r := ApplyDrawCard(ctx, swaps);
            var pile := RefilledDrawPile(ctx, swaps);
            var k := ctx.currentPlayerIndex;
            && |pile| > 0
            && r.players == ctx.players[k := ctx.players[k].(hand := ctx.players[k].hand + [pile[0]])]
            && r.drawPile == pile[1..]
            && r.discardPile == RefilledDiscardPile(ctx)
            && (|ctx.drawPile| > 0 ==> pile == ctx.drawPile && r.discardPile == ctx.discardPile)
            && (|ctx.drawPile| == 0 ==> r.discardPile == [ctx.discardPile[|ctx.discardPile| - 1]]
                                        && multiset(pile) == multiset(ctx.discardPile[..|ctx.discardPile| - 1]))
            && r.selectedCardIds == [] && r.winnerId == ctx.winnerId
            && UniquePlayerIds(r.players)
  {
    var pile := RefilledDrawPile(ctx, swaps);
    assert |pile| > 0;
    AppendToHandTouchesOneSeat(ctx.players, ctx.currentPlayerIndex, pile[0]);
  }

  /** applyDrawCard, with unique player ids, keeps every card in play: recycling only rearranges the piles and drawing moves one card into a hand. */
  lemma ApplyDrawCardConserves(ctx: GameContext, swaps: seq<nat>)
    requires ValidIndex(ctx) && DrawSwapsFit(ctx, swaps) && UniquePlayerIds(ctx.players)
    ensures AllCards(ApplyDrawCard(ctx, swaps)) == AllCards(ctx)
  {
    RefillKeepsCards(ctx, swaps);
    if CanDrawCards(ctx) {
      ApplyDrawCardEffect(ctx, swaps);
      DrawMovesOneCard(ctx, ApplyDrawCard(ctx, swaps), RefilledDrawPile(ctx, swaps));
    }
  }

  /** Taking the front card of a rearrangement of the piles and appending it to the current hand keeps every card. */
  lemma DrawMovesOneCard(ctx: GameContext, r: GameContext, pile: seq<Card>)
    requires ValidIndex(ctx) && |pile| > 0
    requires multiset(pile) + multiset(r.discardPile) == multiset(ctx.drawPile) + multiset(ctx.discardPile)
    requires r.drawPile == pile[1..]
    requires var k := ctx.currentPlayerIndex;
             r.players == ctx.players[k := ctx.players[k].(hand := ctx.players[k].hand + [pile[0]])]
    ensures AllCards(r) == AllCards(ctx)
  {
    var k := ctx.currentPlayerIndex;
    var h := ctx.players[k].hand;
    HandsOfUpdate(ctx.players, k, ctx.players[k].(hand := h + [pile[0]]));
    assert pile == [pile[0]] + pile[1..];
    CardMovesToHand(multiset(ctx.drawPile), multiset(ctx.discardPile), multiset(r.drawPile), multiset(r.discardPile),
                    multiset{pile[0]}, multiset(h), HandsOf(ctx.players), HandsOf(r.players));
  }

  /** applyDrawCard hands the current player a card exactly when canDrawCards holds. */
  lemma ApplyDrawCardDrawsIffCanDraw(ctx: GameContext, swaps: seq<nat>)
    requires ValidIndex(ctx) && DrawSwapsFit(ctx, swaps) && UniquePlayerIds(ctx.players)
    ensures var r := ApplyDrawCard(ctx, swaps);
            var k := ctx.currentPlayerIndex;
            |r.players[k].hand| == |ctx.players[k].hand| + (if CanDrawCards(ctx) then 1 else 0)
  {
    if CanDrawCards(ctx) {
      ApplyDrawCardEffect(ctx, swaps);
    }
  }

  /** After a play, the turn passes from the seat that played, judged on the piles and hands after the play. */
  lemma ApplyPlayCardsPassesTurn(ctx: GameContext, cardIds: seq<string>)
    requires ValidIndex(ctx)
    ensures var r := ApplyPlayCards(ctx, cardIds);
            && ValidIndex(r.(currentPlayerIndex := ctx.currentPlayerIndex))
            && TurnPassed(r.(currentPlayerIndex := ctx.currentPlayerIndex), r.currentPlayerIndex)
            && (CanDrawCards(ctx) ==> r.currentPlayerIndex == (ctx.currentPlayerIndex + 1) % |ctx.players|)
  {
  }

  /** After a draw (or a failed attempt), the turn passes from the seat that drew, judged on the state after the draw. */
  lemma ApplyDrawCardPassesTurn(ctx: GameContext, swaps: seq<nat>)
    requires ValidIndex(ctx) && DrawSwapsFit(ctx, swaps)
    ensures var r := ApplyDrawCard(ctx, swaps);
            && ValidIndex(r.(currentPlayerIndex := ctx.currentPlayerIndex))
            && TurnPassed(r.(currentPlayerIndex := ctx.currentPlayerIndex), r.currentPlayerIndex)
  {
    RefillKeepsCards(ctx, swaps);
    if !CanDrawCards(ctx) {
      assert ApplyDrawCard(ctx, swaps).(currentPlayerIndex := ctx.currentPlayerIndex) == ctx.(selectedCardIds := []);
    }
  }
}
