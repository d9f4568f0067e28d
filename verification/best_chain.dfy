/** buildBestChain: the exhaustive search for the longest chain a hand can play. */
module BestChain {
  import opened Wrappers
  import opened Seqs
  import opened GameConstants
  import opened GameHelper

  /** buildBestChain: empty when nothing is playable, otherwise the first longest chain the search meets. */
  function BuildBestChain(hand: seq<Card>, top: Option<Card>): (r: seq<Card>)
    ensures ChainFromHand(hand, top, r)
    ensures |r| <= |hand|
  {
    var playable := GetPlayableCards(hand, top);
    if |playable| == 0 then []
    else
      var empty: seq<Card> := [];
      assert multiset(empty) + multiset(hand) == multiset(hand);
      ExploreSound(hand, top, top, [], hand, []);
      SubMultisetLength(Explore(top, [], hand, []), hand);
      Explore(top, [], hand, [])
  }

  /**
   * The inner `dfs(current, chain, remaining)`: record `chain` if strictly longer than `best`,
   * then try every playable card of `remaining` in order. Returns the updated `best`.
   */
  function Explore(current: Option<Card>, chain: seq<Card>, remaining: seq<Card>, best: seq<Card>): seq<Card>
    decreases |remaining|, 1, 0
  {
    var best' := if |chain| > |best| then chain else best;
    ScanFrom(current, chain, remaining, 0, best')
  }

  /** The `for (let i = 0; i < remaining.length; i++)` loop of `dfs`, from position `i` on. */
  function ScanFrom(current: Option<Card>, chain: seq<Card>, remaining: seq<Card>, i: nat, best: seq<Card>): seq<Card>
    requires i <= |remaining|
    decreases |remaining|, 0, |remaining| - i
  {
    if i == |remaining| then best
    else if !CanPlayCard(remaining[i], current) then ScanFrom(current, chain, remaining, i + 1, best)
    else
      var card := remaining[i];
      var best' := Explore(Some(card), chain + [card], Remove(remaining, i), best);
      ScanFrom(current, chain, remaining, i + 1, best')
  }

  /** A chain from `top` that uses cards of `hand`, each hand position at most once. */
  ghost predicate ChainFromHand(hand: seq<Card>, top: Option<Card>, s: seq<Card>) {
    IsChain(top, s) && multiset(s) <= multiset(hand)
  }

  // ---------------------------------------------------------------------------
  // The best chain only grows
  // ---------------------------------------------------------------------------

  lemma {:induction false} ExploreGrows(current: Option<Card>, chain: seq<Card>, remaining: seq<Card>, best: seq<Card>)
    ensures |Explore(current, chain, remaining, best)| >= |best|
    ensures |Explore(current, chain, remaining, best)| >= |chain|
    decreases |remaining|, 1, 0
  {
    var best' := if |chain| > |best| then chain else best;
    ScanGrows(current, chain, remaining, 0, best');
  }

  lemma {:induction false} ScanGrows(current: Option<Card>, chain: seq<Card>, remaining: seq<Card>, i: nat, best: seq<Card>)
    requires i <= |remaining|
    ensures |ScanFrom(current, chain, remaining, i, best)| >= |best|
    decreases |remaining|, 0, |remaining| - i
  {
    if i < |remaining| {
      if !CanPlayCard(remaining[i], current) {
        ScanGrows(current, chain, remaining, i + 1, best);
      } else {
        var card := remaining[i];
        var best' := Explore(Some(card), chain + [card], Remove(remaining, i), best);
        ExploreGrows(Some(card), chain + [card], Remove(remaining, i), best);
        ScanGrows(current, chain, remaining, i + 1, best');
      }
    }
  }

  // ---------------------------------------------------------------------------
  // Soundness
  // ---------------------------------------------------------------------------

  /** Invariant of the search: `chain` is a chain from `top` ending in `current`, and `chain` plus `remaining` is the hand. */
  ghost predicate ExploreState(hand: seq<Card>, top: Option<Card>, current: Option<Card>, chain: seq<Card>, remaining: seq<Card>) {
    && IsChain(top, chain)
    && current == LastOf(top, chain)
    && multiset(chain) + multiset(remaining) == multiset(hand)
  }

  lemma {:induction false} ExploreSound(hand: seq<Card>, top: Option<Card>, current: Option<Card>, chain: seq<Card>, remaining: seq<Card>, best: seq<Card>)
    requires ExploreState(hand, top, current, chain, remaining)
    requires ChainFromHand(hand, top, best)
    ensures ChainFromHand(hand, top, Explore(current, chain, remaining, best))
    decreases |remaining|, 1, 0
  {
    var best' := if |chain| > |best| then chain else best;
    ScanSound(hand, top, current, chain, remaining, 0, best');
  }

  lemma {:induction false} ScanSound(hand: seq<Card>, top: Option<Card>, current: Option<Card>, chain: seq<Card>, remaining: seq<Card>, i: nat, best: seq<Card>)
    requires i <= |remaining|
    requires ExploreState(hand, top, current, chain, remaining)
    requires ChainFromHand(hand, top, best)
    ensures ChainFromHand(hand, top, ScanFrom(current, chain, remaining, i, best))
    decreases |remaining|, 0, |remaining| - i
  {
    if i < |remaining| {
      if !CanPlayCard(remaining[i], current) {
        ScanSound(hand, top, current, chain, remaining, i + 1, best);
      } else {
        var card := remaining[i];
        var next, rest := chain + [card], Remove(remaining, i);
        IsChainAppend(top, chain, [card]);
        assert multiset(next) + multiset(rest) == multiset(hand);
        ExploreSound(hand, top, Some(card), next, rest, best);
        ScanSound(hand, top, current, chain, remaining, i + 1, Explore(Some(card), next, rest, best));
      }
    }
  }

  // ---------------------------------------------------------------------------
  // Maximality
  // ---------------------------------------------------------------------------

  /** Every chain from `current` within `remaining` is matched in length by the search below `chain`. */
  lemma {:induction false} ExploreMaximal(current: Option<Card>, chain: seq<Card>, remaining: seq<Card>, best: seq<Card>, s: seq<Card>)
    requires IsChain(current, s) && multiset(s) <= multiset(remaining)
    ensures |chain| + |s| <= |Explore(current, chain, remaining, best)|
    decreases |remaining|, 1, 0
  {
    var best' := if |chain| > |best| then chain else best;
    if |s| == 0 {
      ExploreGrows(current, chain, remaining, best);
    } else {
      assert s[0] in multiset(remaining) by {
        assert s[0] in multiset(s);
      }
      var j :| 0 <= j < |remaining| && remaining[j] == s[0];
      ScanMaximal(current, chain, remaining, 0, best', s, j);
    }
  }

  lemma {:induction false} ScanMaximal(current: Option<Card>, chain: seq<Card>, remaining: seq<Card>, i: nat, best: seq<Card>, s: seq<Card>, j: nat)
    requires IsChain(current, s) && multiset(s) <= multiset(remaining)
    requires |s| > 0 && i <= j < |remaining| && remaining[j] == s[0]
    ensures |chain| + |s| <= |ScanFrom(current, chain, remaining, i, best)|
    decreases |remaining|, 0, |remaining| - i
  {
    var card := remaining[i];
    if i < j {
      if !CanPlayCard(card, current) {
        ScanMaximal(current, chain, remaining, i + 1, best, s, j);
      } else {
        var best' := Explore(Some(card), chain + [card], Remove(remaining, i), best);
        ScanMaximal(current, chain, remaining, i + 1, best', s, j);
      }
    } else {
      var rest := Remove(remaining, i);
      var best' := Explore(Some(card), chain + [card], rest, best);
      assert s == [s[0]] + s[1..];
      assert multiset(s[1..]) == multiset(s) - multiset{card};
      assert multiset(rest) == multiset(remaining) - multiset{card};
      ExploreMaximal(Some(card), chain + [card], rest, best, s[1..]);
      ScanGrows(current, chain, remaining, i + 1, best');
    }
  }

  // ---------------------------------------------------------------------------
  // buildBestChain
  // ---------------------------------------------------------------------------

  /** buildBestChain returns a chain from `top` made of hand cards, and no such chain is longer. */
  lemma BuildBestChainCorrect(hand: seq<Card>, top: Option<Card>)
    ensures ChainFromHand(hand, top, BuildBestChain(hand, top))
    ensures |BuildBestChain(hand, top)| <= |hand|
    ensures forall s :: ChainFromHand(hand, top, s) ==> |s| <= |BuildBestChain(hand, top)|
  {
    var r := BuildBestChain(hand, top);
    if |GetPlayableCards(hand, top)| > 0 {
      forall s | ChainFromHand(hand, top, s)
        ensures |s| <= |r|
      {
        ExploreMaximal(top, [], hand, [], s);
      }
    } else {
      forall s | ChainFromHand(hand, top, s)
        ensures |s| <= |r|
      {
        NoPlayableNoChain(hand, top, s);
      }
    }
  }

  /** Without a playable card the only chain from the hand is the empty one. */
  lemma NoPlayableNoChain(hand: seq<Card>, top: Option<Card>, s: seq<Card>)
    requires ChainFromHand(hand, top, s)
    ensures |s| > 0 ==> |GetPlayableCards(hand, top)| > 0
  {
    if |s| > 0 {
      assert s[0] in multiset(hand) by {
        assert s[0] in multiset(s);
      }
      var j :| 0 <= j < |hand| && hand[j] == s[0];
      assert hand[j] in GetPlayableCards(hand, top);
    }
  }

  /** buildBestChain is empty exactly when no card of the hand is playable on `top`. */
  lemma BuildBestChainEmpty(hand: seq<Card>, top: Option<Card>)
    ensures BuildBestChain(hand, top) == [] <==> GetPlayableCards(hand, top) == []
  {
    var playable := GetPlayableCards(hand, top);
    if |playable| > 0 {
      var c := playable[0];
      assert c in hand;
      var j :| 0 <= j < |hand| && hand[j] == c;
      assert IsChain(top, [c]);
      assert multiset([c]) <= multiset(hand);
      BuildBestChainCorrect(hand, top);
      assert ChainFromHand(hand, top, [c]);
    }
  }
}
