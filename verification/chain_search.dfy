/** orderChain and canAddToChain: the backtracking search for a legal order of a multi-card play. */
module ChainSearch {
  import opened Wrappers
  import opened Seqs
  import opened GameConstants
  import opened GameHelper

  /**
   * orderChain: some order of `cards` that forms a chain from `top`, or None.
   * Zero and one card are answered directly; otherwise the depth-first search runs.
   */
  function OrderChain(cards: seq<Card>, top: Option<Card>): (r: Option<seq<Card>>)
    ensures |cards| == 0 ==> r == Some([])
    ensures r.Some? ==> |r.value| == |cards|
  {
    if |cards| == 0 then Some([])
    else if |cards| == 1 then (if CanPlayCard(cards[0], top) then Some([cards[0]]) else None)
    else Search(cards, top, [])
  }

  /**
   * The inner `dfs(current)`: `chain` is the partial result, its ids are the `used` set,
   * and `current` is the card the next one must match.
   */
  function Search(cards: seq<Card>, current: Option<Card>, chain: seq<Card>): (r: Option<seq<Card>>)
    ensures r.Some? ==> |r.value| == |cards|
    decreases |Ids(cards) - Ids(chain)|, 1, 0
  {
    if |chain| == |cards| then Some(chain) else TryEach(cards, current, chain, 0)
  }

  /** The `for (const card of cards)` loop of `dfs`, from position `k` on. */
  function TryEach(cards: seq<Card>, current: Option<Card>, chain: seq<Card>, k: nat): (r: Option<seq<Card>>)
    requires k <= |cards|
    ensures r.Some? ==> |r.value| == |cards|
    decreases |Ids(cards) - Ids(chain)|, 0, |cards| - k
  {
    if k == |cards| then None
    else
      var card := cards[k];
      if card.id in Ids(chain) || !CanPlayCard(card, current) then TryEach(cards, current, chain, k + 1)
      else
        IdsShrink(cards, chain, k);
        match Search(cards, Some(card), chain + [card])
        case Some(r) => Some(r)
        case None => TryEach(cards, current, chain, k + 1)
  }

  /** Using a new card strictly shrinks the set of unused ids, so the search terminates. */
  lemma IdsShrink(cards: seq<Card>, chain: seq<Card>, k: nat)
    requires k < |cards| && cards[k].id !in Ids(chain)
    ensures |Ids(cards) - Ids(chain + [cards[k]])| < |Ids(cards) - Ids(chain)|
  {
    var x := cards[k].id;
    assert Ids(chain + [cards[k]]) == Ids(chain) + {x};
    assert x in Ids(cards);
    assert Ids(cards) - Ids(chain + [cards[k]]) == (Ids(cards) - Ids(chain)) - {x};
  }

  /** canAddToChain: the whole prospective selection, with `candidate` added, can still be ordered into a chain. */
  function CanAddToChain(selected: seq<Card>, candidate: Card, top: Option<Card>): (r: bool)
    ensures |selected| == 0 ==> (r <==> CanPlayCard(candidate, top))
  {
    OrderChain(selected + [candidate], top).Some?
  }

  // ---------------------------------------------------------------------------
  // Soundness
  // ---------------------------------------------------------------------------

  /** Invariant of the search: `chain` is a distinct-id chain from `top` drawn from `cards`, ending in `current`. */
  ghost predicate SearchState(cards: seq<Card>, top: Option<Card>, current: Option<Card>, chain: seq<Card>) {
    && IsChain(top, chain)
    && current == LastOf(top, chain)
    && DistinctIds(chain)
    && (forall i :: 0 <= i < |chain| ==> chain[i] in cards)
  }

  lemma {:induction false} SearchSound(cards: seq<Card>, top: Option<Card>, current: Option<Card>, chain: seq<Card>)
    requires SearchState(cards, top, current, chain)
    ensures Search(cards, current, chain).Some? ==>
              IsChain(top, Search(cards, current, chain).value) &&
              multiset(Search(cards, current, chain).value) == multiset(cards)
    decreases |Ids(cards) - Ids(chain)|, 1, 0
  {
    if |chain| == |cards| {
      DistinctFillIsPermutation(chain, cards);
    } else {
      TryEachSound(cards, top, current, chain, 0);
    }
  }

  lemma {:induction false} TryEachSound(cards: seq<Card>, top: Option<Card>, current: Option<Card>, chain: seq<Card>, k: nat)
    requires k <= |cards|
    requires SearchState(cards, top, current, chain)
    ensures TryEach(cards, current, chain, k).Some? ==>
              IsChain(top, TryEach(cards, current, chain, k).value) &&
              multiset(TryEach(cards, current, chain, k).value) == multiset(cards)
    decreases |Ids(cards) - Ids(chain)|, 0, |cards| - k
  {
    if k < |cards| {
      var card := cards[k];
      if card.id in Ids(chain) || !CanPlayCard(card, current) {
        TryEachSound(cards, top, current, chain, k + 1);
      } else {
        IdsShrink(cards, chain, k);
        SearchStateStep(cards, top, current, chain, k);
        SearchSound(cards, top, Some(card), chain + [card]);
        if Search(cards, Some(card), chain + [card]).None? {
          TryEachSound(cards, top, current, chain, k + 1);
        }
      }
    }
  }

  /** Extending the chain by an unused card that matches the current one keeps the search invariant. */
  lemma SearchStateStep(cards: seq<Card>, top: Option<Card>, current: Option<Card>, chain: seq<Card>, k: nat)
    requires k < |cards| && SearchState(cards, top, current, chain)
    requires cards[k].id !in Ids(chain) && CanPlayCard(cards[k], current)
    ensures SearchState(cards, top, Some(cards[k]), chain + [cards[k]])
  {
    var card := cards[k];
    var next := chain + [card];
    IsChainAppend(top, chain, [card]);
    assert DistinctIds(next) by {
      forall i | 0 <= i < |chain|
        ensures chain[i].id != card.id
      {
        assert chain[i] in chain;
      }
    }
  }

  /** Soundness of orderChain: an answer is a rearrangement of the cards that forms a chain from `top`. */
  lemma OrderChainSound(cards: seq<Card>, top: Option<Card>)
    ensures |cards| == 0 ==> OrderChain(cards, top) == Some([])
    ensures OrderChain(cards, top).Some? ==>
              IsChain(top, OrderChain(cards, top).value) &&
              multiset(OrderChain(cards, top).value) == multiset(cards)
  {
    if |cards| > 1 {
      SearchSound(cards, top, top, []);
    }
  }

  // ---------------------------------------------------------------------------
  // Completeness
  // ---------------------------------------------------------------------------

  /** If `chain` can be completed by some `rest` into an arrangement of all the cards that is a chain, the search finds one. */
  lemma {:induction false} SearchComplete(cards: seq<Card>, current: Option<Card>, chain: seq<Card>, rest: seq<Card>)
    requires DistinctIds(cards)
    requires multiset(chain + rest) == multiset(cards)
    requires IsChain(current, rest)
    ensures Search(cards, current, chain).Some?
    decreases |rest|, 1, 0
  {
    if |chain| != |cards| {
      assert |chain + rest| == |cards| by {
        assert |multiset(chain + rest)| == |multiset(cards)|;
      }
      var x := rest[0];
      assert x in multiset(chain + rest) by {
        assert (chain + rest)[|chain|] == x;
      }
      var j :| 0 <= j < |cards| && cards[j] == x;
      TryEachComplete(cards, current, chain, rest, 0, j);
    }
  }

  lemma {:induction false} TryEachComplete(cards: seq<Card>, current: Option<Card>, chain: seq<Card>, rest: seq<Card>, k: nat, j: nat)
    requires DistinctIds(cards)
    requires multiset(chain + rest) == multiset(cards)
    requires IsChain(current, rest)
    requires |rest| > 0 && k <= j < |cards| && cards[j] == rest[0]
    ensures TryEach(cards, current, chain, k).Some?
    decreases |rest|, 0, |cards| - k
  {
    var card := cards[k];
    if k < j {
      if card.id in Ids(chain) || !CanPlayCard(card, current) {
        TryEachComplete(cards, current, chain, rest, k + 1, j);
      } else if Search(cards, Some(card), chain + [card]).None? {
        TryEachComplete(cards, current, chain, rest, k + 1, j);
      }
    } else {
      FreshHead(cards, chain, rest);
      var next := chain + [card];
      assert next + rest[1..] == chain + rest;
      SearchComplete(cards, Some(card), next, rest[1..]);
    }
  }

  /** With distinct ids, the next card of a completion is not yet used. */
  lemma FreshHead(cards: seq<Card>, chain: seq<Card>, rest: seq<Card>)
    requires DistinctIds(cards)
    requires multiset(chain + rest) == multiset(cards)
    requires |rest| > 0
    ensures rest[0].id !in Ids(chain)
  {
    var w := chain + rest;
    DistinctIdsSubMultiset(w, cards);
    forall c | c in chain
      ensures c.id != rest[0].id
    {
      var i :| 0 <= i < |chain| && chain[i] == c;
      assert w[i] == c && w[|chain|] == rest[0];
    }
  }

  /** Completeness of orderChain: with distinct ids, it fails only when no arrangement of the cards is a chain from `top`. */
  lemma OrderChainComplete(cards: seq<Card>, top: Option<Card>, p: seq<Card>)
    requires DistinctIds(cards)
    requires multiset(p) == multiset(cards)
    requires IsChain(top, p)
    ensures OrderChain(cards, top).Some?
  {
    if |cards| == 1 {
      assert |p| == 1 by {
        assert |multiset(p)| == |multiset(cards)|;
      }
      assert p[0] in multiset(cards);
    } else if |cards| > 1 {
      assert [] + p == p;
      SearchComplete(cards, top, [], p);
    }
  }

  /** With distinct ids, orderChain succeeds exactly when some arrangement of the cards is a chain from `top`. */
  lemma OrderChainCorrect(cards: seq<Card>, top: Option<Card>)
    requires DistinctIds(cards)
    ensures OrderChain(cards, top).Some? <==>
            exists p :: multiset(p) == multiset(cards) && IsChain(top, p)
  {
    OrderChainSound(cards, top);
    if OrderChain(cards, top).Some? {
      var p := OrderChain(cards, top).value;
      assert multiset(p) == multiset(cards) && IsChain(top, p);
      assert exists q :: multiset(q) == multiset(cards) && IsChain(top, q);
    }
    if p :| multiset(p) == multiset(cards) && IsChain(top, p) {
      OrderChainComplete(cards, top, p);
    }
  }

  /** canAddToChain is true exactly when the selection plus the candidate can be arranged into a chain from `top`. */
  lemma CanAddToChainCorrect(selected: seq<Card>, candidate: Card, top: Option<Card>)
    requires DistinctIds(selected + [candidate])
    ensures CanAddToChain(selected, candidate, top) <==>
            exists p :: multiset(p) == multiset(selected + [candidate]) && IsChain(top, p)
  {
    OrderChainCorrect(selected + [candidate], top);
  }

  // ---------------------------------------------------------------------------
  // Consequences
  // ---------------------------------------------------------------------------

  /** Cards that all share the suit of the top card can always be ordered. */
  lemma SameSuitOrders(cards: seq<Card>, top: Card)
    requires DistinctIds(cards)
    requires forall i :: 0 <= i < |cards| ==> cards[i].suit == top.suit
    ensures OrderChain(cards, Some(top)).Some?
  {
    SameSuitIsChain(cards, Some(top));
    OrderChainComplete(cards, Some(top), cards);
  }

  lemma {:induction false} SameSuitIsChain(cards: seq<Card>, top: Option<Card>)
    requires top.Some?
    requires forall i :: 0 <= i < |cards| ==> cards[i].suit == top.value.suit
    ensures IsChain(top, cards)
    decreases |cards|
  {
    if |cards| > 0 {
      SameSuitIsChain(cards[1..], Some(cards[0]));
    }
  }

  /** Any two-card arrangement of 2 of hearts and 3 of spades fails on the 2 of clubs. */
  lemma {:induction false} TwoCardsNeverChain(p: seq<Card>)
    ensures multiset(p) == multiset([MakeCard(Hearts, Two), MakeCard(Spades, Three)]) ==>
            !IsChain(Some(MakeCard(Clubs, Two)), p)
  {
    var a, b := MakeCard(Hearts, Two), MakeCard(Spades, Three);
    if multiset(p) == multiset([a, b]) {
      assert |p| == 2 by {
        assert |multiset(p)| == |multiset([a, b])|;
      }
      assert p[0] in multiset([a, b]) && p[1] in multiset([a, b]);
      assert p[0] == a || p[0] == b;
      if p[0] == a {
        assert p[1] == b by {
          assert multiset(p) == multiset{p[0], p[1]} by {
            assert p == [p[0], p[1]];
          }
        }
      }
    }
  }

  /** Playing {2 of hearts, 3 of spades} on the 2 of clubs has no legal order. */
  lemma NoChainExample()
    ensures OrderChain([MakeCard(Hearts, Two), MakeCard(Spades, Three)], Some(MakeCard(Clubs, Two))).None?
  {
    var cards := [MakeCard(Hearts, Two), MakeCard(Spades, Three)];
    var top := Some(MakeCard(Clubs, Two));
    OrderChainSound(cards, top);
    TwoCardsNeverChain(OrderChain(cards, top).GetOr([]));
  }
}
