/** The deck service and the card-matching rule (src/helpers/game.helper.ts). */
module GameHelper {
  import opened Wrappers
  import opened Seqs
  import opened GameConstants

  // ---------------------------------------------------------------------------
  // Card ids and the standard deck
  // ---------------------------------------------------------------------------

  /** The id `${rank}-${suit}` of a standard card. */
  function CardId(r: Rank, s: Suit): string {
    RankName(r) + "-" + SuitName(s)
  }

  function MakeCard(s: Suit, r: Rank): Card {
    Card(CardId(r, s), s, r)
  }

  /** The card at position `k` of the deck: suit-major in SUITS order, rank-minor in RANKS order. */
  function DeckCard(k: nat): Card
    requires k < 52
  {
    MakeCard(SUITS[k / 13], RANKS[k % 13])
  }

  /** Closed-form reference for the deck `createDeck` builds. */
  function StandardDeck(): (d: seq<Card>)
    ensures |d| == 52
  {
    seq(52, k requires 0 <= k < 52 => DeckCard(k))
  }

  /** Splitting `x + "-" + y` at its first dash recovers `x` and `y` when `x` has no dash. */
  lemma {:induction false} SplitAtDash(x1: string, y1: string, x2: string, y2: string)
    requires '-' !in x1 && '-' !in x2
    requires x1 + "-" + y1 == x2 + "-" + y2
    ensures x1 == x2 && y1 == y2
  {
    var w1, w2 := x1 + "-" + y1, x2 + "-" + y2;
    if |x1| == 0 {
      assert w1[0] == '-';
      assert w2[0] == '-';
      assert |x2| == 0;
      assert y1 == w1[1..] && y2 == w2[1..];
    } else {
      assert w1[0] == x1[0] && x1[0] != '-';
      assert |x2| > 0;
      assert w2[0] == x2[0];
      assert w1[1..] == x1[1..] + "-" + y1;
      assert w2[1..] == x2[1..] + "-" + y2;
      SplitAtDash(x1[1..], y1, x2[1..], y2);
      assert x1 == [x1[0]] + x1[1..] && x2 == [x2[0]] + x2[1..];
    }
  }

  /** Card ids determine rank and suit. */
  lemma CardIdInjective(r1: Rank, s1: Suit, r2: Rank, s2: Suit)
    ensures CardId(r1, s1) == CardId(r2, s2) <==> r1 == r2 && s1 == s2
  {
    NamesAreDistinct();
    if CardId(r1, s1) == CardId(r2, s2) {
      SplitAtDash(RankName(r1), SuitName(s1), RankName(r2), SuitName(s2));
    }
  }

  lemma DeckPosition(si: nat, ri: nat)
    requires ri < 13
    ensures (13 * si + ri) / 13 == si && (13 * si + ri) % 13 == ri
  {
  }

  /** createDeck: the nested loops over SUITS and RANKS. */
  method CreateDeck() returns (deck: seq<Card>)
    ensures deck == StandardDeck()
    ensures |deck| == 52
    ensures DistinctIds(deck)
    ensures forall s: Suit, r: Rank :: deck[13 * SuitIndex(s) + RankIndex(r)] == MakeCard(s, r)
    ensures forall s: Suit, r: Rank :: multiset(deck)[MakeCard(s, r)] == 1
  {
    deck := [];
    var si := 0;
    while si < |SUITS|
      invariant 0 <= si <= |SUITS|
      invariant |deck| == 13 * si
      invariant deck == StandardDeck()[..|deck|]
    {
      var ri := 0;
      while ri < |RANKS|
        invariant 0 <= ri <= |RANKS|
        invariant |deck| == 13 * si + ri
        invariant deck == StandardDeck()[..|deck|]
      {
        DeckCardAt(si, ri);
        PrefixStep(StandardDeck(), |deck|);
        deck := deck + [MakeCard(SUITS[si], RANKS[ri])];
        ri := ri + 1;
      }
      si := si + 1;
    }
    StandardDeckDistinct();
    StandardDeckPositions();
    StandardDeckCounts();
  }

  /** Appending the element at position `n` extends the prefix of length `n` by one. */
  lemma PrefixStep<T>(d: seq<T>, n: nat)
    requires n < |d|
    ensures d[..n] + [d[n]] == d[..n + 1]
  {
  }

  /** The loops' card for suit index `si` and rank index `ri` is the reference card at 13 * si + ri. */
  lemma DeckCardAt(si: nat, ri: nat)
    requires si < 4 && ri < 13
    ensures DeckCard(13 * si + ri) == MakeCard(SUITS[si], RANKS[ri])
  {
    DeckPosition(si, ri);
  }

  /** The reference deck has pairwise distinct ids. */
  lemma StandardDeckDistinct()
    ensures DistinctIds(StandardDeck())
  {
    var d := StandardDeck();
    forall i, j | 0 <= i < j < |d|
      ensures d[i].id != d[j].id
    {
      DeckIndexInjective(i, j);
    }
  }

  lemma DeckIndexInjective(i: nat, j: nat)
    requires i < j < 52
    ensures DeckCard(i).id != DeckCard(j).id
  {
    SuitsAreDistinct();
    RanksAreDistinct();
    CardIdInjective(RANKS[i % 13], SUITS[i / 13], RANKS[j % 13], SUITS[j / 13]);
    assert i / 13 != j / 13 || i % 13 != j % 13;
  }

  /** The card (s, r) sits at position 13 * (index of s) + (index of r). */
  lemma StandardDeckPositions()
    ensures forall s: Suit, r: Rank :: StandardDeck()[13 * SuitIndex(s) + RankIndex(r)] == MakeCard(s, r)
  {
    forall s: Suit, r: Rank
      ensures StandardDeck()[13 * SuitIndex(s) + RankIndex(r)] == MakeCard(s, r)
    {
      DeckPosition(SuitIndex(s), RankIndex(r));
    }
  }

  /** Each (suit, rank) pair occurs exactly once in the reference deck. */
  lemma StandardDeckCounts()
    ensures forall s: Suit, r: Rank :: multiset(StandardDeck())[MakeCard(s, r)] == 1
  {
    var d := StandardDeck();
    StandardDeckDistinct();
    StandardDeckPositions();
    DistinctIdsCountAtMostOne(d);
    forall s: Suit, r: Rank
      ensures multiset(d)[MakeCard(s, r)] == 1
    {
      assert d[13 * SuitIndex(s) + RankIndex(r)] == MakeCard(s, r);
      assert MakeCard(s, r) in multiset(d);
    }
  }

  // ---------------------------------------------------------------------------
  // Shuffle and deal
  // ---------------------------------------------------------------------------

  /** The random draws of a Fisher-Yates pass over `n` elements: at step `i` the swap partner `swaps[i]` lies in [0, i]. */
  predicate ValidSwaps(swaps: seq<nat>, n: nat) {
    |swaps| == n && forall i :: 0 <= i < n ==> swaps[i] <= i
  }

  /** `[a[i], a[j]] = [a[j], a[i]]` on a copy. */
  function Swap<T>(a: seq<T>, i: nat, j: nat): (r: seq<T>)
    requires i < |a| && j < |a|
    ensures |r| == |a| && multiset(r) == multiset(a)
    ensures r[i] == a[j] && r[j] == a[i]
    ensures forall k {:trigger r[k]} :: 0 <= k < |a| && k != i && k != j ==> r[k] == a[k]
  {
    a[i := a[j]][j := a[i]]
  }

  /** shuffle: Fisher-Yates on a copy, with the random choices supplied as `swaps`. */
  function Shuffle<T>(a: seq<T>, swaps: seq<nat>): (r: seq<T>)
    requires ValidSwaps(swaps, |a|)
    ensures |r| == |a| && multiset(r) == multiset(a)
  {
    if |a| == 0 then a else ShuffleDown(a, swaps, |a| - 1)
  }

  /** The loop `for (i = n - 1; i > 0; i--)` of shuffle, from step `i` downwards. */
  function ShuffleDown<T>(a: seq<T>, swaps: seq<nat>, i: nat): (r: seq<T>)
    requires i < |a| && ValidSwaps(swaps, |a|)
    ensures |r| == |a| && multiset(r) == multiset(a)
    decreases i
  {
    if i == 0 then a else ShuffleDown(Swap(a, i, swaps[i]), swaps, i - 1)
  }

  /** When every draw picks the element itself, shuffle returns its input unchanged. */
  lemma {:induction false} ShuffleIdentity<T>(a: seq<T>, swaps: seq<nat>)
    requires ValidSwaps(swaps, |a|)
    requires forall i :: 0 <= i < |a| ==> swaps[i] == i
    ensures Shuffle(a, swaps) == a
  {
    if |a| > 0 {
      ShuffleDownIdentity(a, swaps, |a| - 1);
    }
  }

  lemma {:induction false} ShuffleDownIdentity<T>(a: seq<T>, swaps: seq<nat>, i: nat)
    requires i < |a| && ValidSwaps(swaps, |a|)
    requires forall k :: 0 <= k < |a| ==> swaps[k] == k
    ensures ShuffleDown(a, swaps, i) == a
    decreases i
  {
    if i > 0 {
      SwapSelf(a, i);
      ShuffleDownIdentity(a, swaps, i - 1);
    }
  }

  lemma SwapSelf<T>(a: seq<T>, i: nat)
    requires i < |a|
    ensures Swap(a, i, i) == a
  {
    assert a[i := a[i]] == a;
  }

  /** dealCards: `deck.splice(0, count)`; returns the dealt cards and what is left of the deck. */
  function DealCards(deck: seq<Card>, count: int): (r: (seq<Card>, seq<Card>))
    ensures r.0 + r.1 == deck
    ensures |r.0| == if count <= 0 then 0 else if count < |deck| then count else |deck|
  {
    var k := if count <= 0 then 0 else if count < |deck| then count else |deck|;
    (deck[..k], deck[k..])
  }

  // ---------------------------------------------------------------------------
  // Hand value
  // ---------------------------------------------------------------------------

  /** handValue: the sum of RANK_VALUES over the hand. */
  function HandValue(hand: seq<Card>): (v: nat)
    ensures |hand| <= v <= 13 * |hand|
  {
    if |hand| == 0 then 0 else RankValue(hand[0].rank) + HandValue(hand[1..])
  }

  lemma {:induction false} HandValueAppend(a: seq<Card>, b: seq<Card>)
    ensures HandValue(a + b) == HandValue(a) + HandValue(b)
  {
    if |a| == 0 {
      assert a + b == b;
    } else {
      assert (a + b)[0] == a[0];
      assert (a + b)[1..] == a[1..] + b;
      HandValueAppend(a[1..], b);
    }
  }

  /** Taking one card out of a hand lowers its value by that card's rank value. */
  lemma {:induction false} HandValueRemove(b: seq<Card>, j: nat)
    requires j < |b|
    ensures HandValue(b) == RankValue(b[j].rank) + HandValue(Remove(b, j))
  {
    assert b == b[..j] + ([b[j]] + b[j + 1..]);
    HandValueAppend(b[..j], [b[j]] + b[j + 1..]);
    HandValueAppend([b[j]], b[j + 1..]);
    HandValueAppend(b[..j], b[j + 1..]);
  }

  /** The hand value does not depend on the order of the cards. */
  lemma {:induction false} HandValuePermutation(a: seq<Card>, b: seq<Card>)
    requires multiset(a) == multiset(b)
    ensures HandValue(a) == HandValue(b)
    decreases |a|
  {
    if |a| == 0 {
      assert |multiset(b)| == 0;
    } else {
      var x := a[0];
      assert x in multiset(b);
      var j :| 0 <= j < |b| && b[j] == x;
      var b' := Remove(b, j);
      assert a == [x] + a[1..];
      assert multiset(a[1..]) == multiset(a) - multiset{x};
      assert multiset(b') == multiset(b) - multiset{x};
      HandValuePermutation(a[1..], b');
      HandValueRemove(b, j);
    }
  }

  // ---------------------------------------------------------------------------
  // The match rule and chains
  // ---------------------------------------------------------------------------

  /** canPlayCard: anything goes on an empty pile, otherwise same rank or same suit. */
  function CanPlayCard(card: Card, top: Option<Card>): (r: bool)
    ensures top.None? ==> r
    ensures top == Some(card) ==> r
    ensures top.Some? && !r ==> card.rank != top.value.rank && card.suit != top.value.suit
  {
    match top
    case None => true
    case Some(t) => card.rank == t.rank || card.suit == t.suit
  }

  /** The match rule is symmetric: a card matches another exactly when the other matches it. */
  lemma MatchIsSymmetric(a: Card, b: Card)
    ensures CanPlayCard(a, Some(b)) <==> CanPlayCard(b, Some(a))
  {
  }

  function PlayableOn(top: Option<Card>): Card -> bool {
    c => CanPlayCard(c, top)
  }

  /** getPlayableCards: the order-preserving filter of the hand by canPlayCard. */
  function GetPlayableCards(hand: seq<Card>, top: Option<Card>): (r: seq<Card>)
    ensures IsSubsequence(r, hand)
    ensures forall i :: 0 <= i < |r| ==> CanPlayCard(r[i], top)
    ensures forall i :: 0 <= i < |hand| && CanPlayCard(hand[i], top) ==> hand[i] in r
    ensures forall i :: 0 <= i < |r| ==> r[i] in hand
  {
    FilterIsSubsequence(hand, PlayableOn(top));
    FilterMembers(hand, PlayableOn(top));
    Filter(hand, PlayableOn(top))
  }

  /** A chain from `top`: the first card matches `top` and every later card matches its predecessor. */
  predicate IsChain(top: Option<Card>, s: seq<Card>)
    decreases |s|
  {
    |s| == 0 || (CanPlayCard(s[0], top) && IsChain(Some(s[0]), s[1..]))
  }

  /** The card a chain leaves on top of the pile. */
  function LastOf(top: Option<Card>, s: seq<Card>): Option<Card> {
    if |s| == 0 then top else Some(s[|s| - 1])
  }

  /** The recursive chain definition agrees with the pairwise one. */
  lemma {:induction false} IsChainPairwise(top: Option<Card>, s: seq<Card>)
    ensures IsChain(top, s) <==>
            (|s| > 0 ==> CanPlayCard(s[0], top)) &&
            (forall i :: 1 <= i < |s| ==> CanPlayCard(s[i], Some(s[i - 1])))
    decreases |s|
  {
    if |s| > 0 {
      IsChainPairwise(Some(s[0]), s[1..]);
      assert forall i :: 1 <= i < |s| - 1 ==> s[1..][i] == s[i + 1] && s[1..][i - 1] == s[i];
    }
  }

  /** A chain followed by a chain from its last card is a chain, and conversely. */
  lemma {:induction false} IsChainAppend(top: Option<Card>, a: seq<Card>, b: seq<Card>)
    ensures IsChain(top, a + b) <==> IsChain(top, a) && IsChain(LastOf(top, a), b)
    decreases |a|
  {
    if |a| == 0 {
      assert a + b == b;
    } else {
      assert (a + b)[0] == a[0];
      assert (a + b)[1..] == a[1..] + b;
      IsChainAppend(Some(a[0]), a[1..], b);
      assert LastOf(Some(a[0]), a[1..]) == LastOf(top, a);
    }
  }

  // ---------------------------------------------------------------------------
  // Card ids
  // ---------------------------------------------------------------------------

  function Ids(s: seq<Card>): set<string> {
    set c | c in s :: c.id
  }

  /** No two positions of `s` hold cards with the same id. */
  predicate DistinctIds(s: seq<Card>) {
    forall i, j :: 0 <= i < j < |s| ==> s[i].id != s[j].id
  }

  /** A sequence of distinct-id cards holds each card at most once. */
  lemma {:induction false} DistinctIdsCountAtMostOne(s: seq<Card>)
    requires DistinctIds(s)
    ensures forall c :: multiset(s)[c] <= 1
  {
    if |s| > 0 {
      var t := s[1..];
      assert DistinctIds(t) by {
        forall i, j | 0 <= i < j < |t|
          ensures t[i].id != t[j].id
        {
          assert t[i] == s[i + 1] && t[j] == s[j + 1];
        }
      }
      DistinctIdsCountAtMostOne(t);
      assert s == [s[0]] + t;
      forall k | 0 <= k < |t|
        ensures t[k] != s[0]
      {
        assert t[k] == s[k + 1];
      }
      assert s[0] !in t;
    }
  }

  /** A card at two positions occurs at least twice. */
  lemma TwoPositions(x: seq<Card>, i: nat, j: nat)
    requires i < j < |x|
    ensures x[i] == x[j] ==> multiset(x)[x[i]] >= 2
  {
    assert x == x[..j] + x[j..];
    assert x[i] in x[..j];
    assert x[j] in x[j..];
  }

  /** Any sub-multiset of a distinct-id sequence has distinct ids too. */
  lemma DistinctIdsSubMultiset(x: seq<Card>, cards: seq<Card>)
    requires DistinctIds(cards)
    requires multiset(x) <= multiset(cards)
    ensures DistinctIds(x)
  {
    DistinctIdsCountAtMostOne(cards);
    forall i, j | 0 <= i < j < |x|
      ensures x[i].id != x[j].id
    {
      TwoPositions(x, i, j);
      assert x[i] != x[j];
      assert x[i] in multiset(cards) && x[j] in multiset(cards);
      var p :| 0 <= p < |cards| && cards[p] == x[i];
      var q :| 0 <= q < |cards| && cards[q] == x[j];
      assert p != q;
      assert cards[p].id != cards[q].id;
    }
  }

  /** A distinct-id sequence drawn from `cards` that is as long as `cards` is a permutation of it. */
  lemma {:induction false} DistinctFillIsPermutation(r: seq<Card>, cards: seq<Card>)
    requires DistinctIds(r)
    requires forall i :: 0 <= i < |r| ==> r[i] in cards
    requires |r| == |cards|
    ensures multiset(r) == multiset(cards)
    decreases |r|
  {
    if |r| > 0 {
      var x := r[0];
      var j :| 0 <= j < |cards| && cards[j] == x;
      var rest := Remove(cards, j);
      var t := r[1..];
      forall i | 0 <= i < |t|
        ensures t[i] in rest
      {
        assert t[i] == r[i + 1];
        assert t[i].id != x.id;
        var m :| 0 <= m < |cards| && cards[m] == t[i];
      }
      assert DistinctIds(t) by {
        forall a, b | 0 <= a < b < |t|
          ensures t[a].id != t[b].id
        {
          assert t[a] == r[a + 1] && t[b] == r[b + 1];
        }
      }
      DistinctFillIsPermutation(t, rest);
      assert r == [x] + t;
    }
  }
}
