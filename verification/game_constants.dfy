/** Suits, ranks, rank values and the game's fixed numbers (src/helpers/game.constants.ts). */
module GameConstants {

  datatype Suit = Hearts | Diamonds | Clubs | Spades

  datatype Rank = Ace | Two | Three | Four | Five | Six | Seven | Eight | Nine | Ten | Jack | Queen | King

  /** A card; `id` is unique and stable, `${rank}-${suit}` for a standard deck. */
  datatype Card = Card(id: string, suit: Suit, rank: Rank)

  /** Round lengths offered to the player, in milliseconds, keyed by label. */
  const SUPPORTED_GAME_TIMES: map<string, int> := map["1m" := 60000, "3m" := 180000, "5m" := 300000]

  const SUITS: seq<Suit> := [Hearts, Diamonds, Clubs, Spades]

  const RANKS: seq<Rank> := [Ace, Two, Three, Four, Five, Six, Seven, Eight, Nine, Ten, Jack, Queen, King]

  /** Milliseconds between two timer ticks. */
  const TICK_MS: int := 250

  const HUMAN_ID: string := "You"

  /** Border colours cycled through for the players. */
  const PLAYER_COLORS: seq<string> := ["#e74c3c", "#3498db", "#2ecc71", "#f39c12", "#9b59b6", "#1abc9c"]

  /** The suit's string value as it appears in card ids. */
  function SuitName(s: Suit): string {
    match s
    case Hearts => "hearts"
    case Diamonds => "diamonds"
    case Clubs => "clubs"
    case Spades => "spades"
  }

  /** The rank's string value as it appears in card ids. */
  function RankName(r: Rank): string {
    match r
    case Ace => "A"
    case Two => "2"
    case Three => "3"
    case Four => "4"
    case Five => "5"
    case Six => "6"
    case Seven => "7"
    case Eight => "8"
    case Nine => "9"
    case Ten => "10"
    case Jack => "J"
    case Queen => "Q"
    case King => "K"
  }

  /** RANK_VALUES: Ace counts 1, number cards their face value, J/Q/K 11/12/13. */
  function RankValue(r: Rank): (v: nat)
    ensures 1 <= v <= 13
  {
    match r
    case Ace => 1
    case Two => 2
    case Three => 3
    case Four => 4
    case Five => 5
    case Six => 6
    case Seven => 7
    case Eight => 8
    case Nine => 9
    case Ten => 10
    case Jack => 11
    case Queen => 12
    case King => 13
  }

  /** Position of a suit in SUITS. */
  function SuitIndex(s: Suit): (i: nat)
    ensures i < |SUITS| && SUITS[i] == s
  {
    match s
    case Hearts => 0
    case Diamonds => 1
    case Clubs => 2
    case Spades => 3
  }

  /** Position of a rank in RANKS; it is one less than the rank's value. */
  function RankIndex(r: Rank): (i: nat)
    ensures i < |RANKS| && RANKS[i] == r
    ensures RankValue(r) == i + 1
  {
    RankValue(r) - 1
  }

  /** SUITS lists each of the 4 suits exactly once. */
  lemma SuitsAreDistinct()
    ensures |SUITS| == 4
    ensures forall i, j :: 0 <= i < j < |SUITS| ==> SUITS[i] != SUITS[j]
    ensures forall s: Suit :: SuitIndex(s) < |SUITS| && SUITS[SuitIndex(s)] == s
  {
  }

  /** RANKS lists the 13 ranks A..K exactly once, and RANK_VALUES maps them in order to 1..13. */
  lemma RanksAreDistinct()
    ensures |RANKS| == 13
    ensures forall i :: 0 <= i < |RANKS| ==> RankValue(RANKS[i]) == i + 1
    ensures forall i, j :: 0 <= i < j < |RANKS| ==> RANKS[i] != RANKS[j]
    ensures forall r: Rank :: RANKS[RankIndex(r)] == r
  {
    forall i | 0 <= i < |RANKS|
      ensures RankValue(RANKS[i]) == i + 1
    {
    }
  }

  /** RANK_VALUES is injective and strictly increasing along RANKS. */
  lemma RankValuesIncrease()
    ensures forall r1: Rank, r2: Rank :: RankValue(r1) == RankValue(r2) ==> r1 == r2
    ensures forall i, j :: 0 <= i < j < |RANKS| ==> RankValue(RANKS[i]) < RankValue(RANKS[j])
  {
    RanksAreDistinct();
  }

  /** Different suits have different names, and so do different ranks; no rank name contains '-'. */
  lemma NamesAreDistinct()
    ensures forall s1: Suit, s2: Suit :: SuitName(s1) == SuitName(s2) ==> s1 == s2
    ensures forall r1: Rank, r2: Rank :: RankName(r1) == RankName(r2) ==> r1 == r2
    ensures forall r: Rank :: '-' !in RankName(r)
  {
  }

  /** The round-time options, the tick length and the colour palette have the promised shapes. */
  lemma ConstantsAreWellFormed()
    ensures SUPPORTED_GAME_TIMES.Keys == {"1m", "3m", "5m"}
    ensures forall k :: k in SUPPORTED_GAME_TIMES ==> SUPPORTED_GAME_TIMES[k] > 0
    ensures SUPPORTED_GAME_TIMES["1m"] == 60000 && SUPPORTED_GAME_TIMES["3m"] == 180000 && SUPPORTED_GAME_TIMES["5m"] == 300000
    ensures TICK_MS > 0
    ensures |PLAYER_COLORS| == 6
  {
  }
}
