/**
 * The deal generator of server.js: createDeck builds one card per
 * (suit, rank) and shuffles it with Fisher-Yates, dealCards hands each seat
 * a contiguous 13-card slice, and checkValidDeal rejects a deal in which a
 * seat holds every ace or a seat holds no trump.
 *
 * Every Math.random draw is a parameter: the shuffle's swap indices and the
 * index of the trump suit, bundled per deal attempt in a Draw.
 */
module Deal {
  import opened Cards

  /** The cards of one suit in rank order, as createDeck's inner loop pushes them. */
  function SuitRun(s: Suit): seq<Card> {
    seq(13, i requires 0 <= i < 13 => Card(s, Ranks[i]))
  }

  /** The deck before shuffling: suit by suit, each suit in rank order. */
  function FreshDeck(suits: seq<Suit>): (deck: seq<Card>)
    ensures |deck| == 13 * |suits|
  {
    if suits == [] then [] else FreshDeck(suits[..|suits| - 1]) + SuitRun(suits[|suits| - 1])
  }

  lemma SuitRunFacts(s: Suit)
    ensures NoDup(SuitRun(s))
    ensures forall c :: c in SuitRun(s) <==> c.suit == s
  {
    var run := SuitRun(s);
    forall i, j | 0 <= i < j < |run| ensures run[i] != run[j] {
      RanksInOrder(i);
      RanksInOrder(j);
    }
    forall c: Card | c.suit == s ensures c in run {
      assert run[RankValue(c.rank) - 2] == c;
    }
  }

  /**
   * The unshuffled deck holds exactly the cards of the listed suits, and no
   * card twice when no suit is listed twice.
   */
  lemma {:induction false} FreshDeckFacts(suits: seq<Suit>)
    ensures forall c :: c in FreshDeck(suits) <==> c.suit in suits
    ensures NoDup(suits) ==> NoDup(FreshDeck(suits))
  {
    if suits != [] {
      var init, last := suits[..|suits| - 1], suits[|suits| - 1];
      assert suits == init + [last];
      FreshDeckFacts(init);
      SuitRunFacts(last);
      if NoDup(suits) {
        assert NoDup(init) by {
          forall i, j | 0 <= i < j < |init| ensures init[i] != init[j] {
            assert init[i] == suits[i] && init[j] == suits[j];
          }
        }
        assert last !in init by {
          forall i | 0 <= i < |init| ensures init[i] != last {
            assert suits[i] == init[i];
          }
        }
        NoDupConcat(FreshDeck(init), SuitRun(last));
      }
    }
  }

  /** Exchange the cards at positions i and j (the destructuring swap of createDeck). */
  function Swap(s: seq<Card>, i: nat, j: nat): (r: seq<Card>)
    requires i < |s| && j < |s|
    ensures |r| == |s|
  {
    s[i := s[j]][j := s[i]]
  }

  /**
   * The shuffle's draws: js[i] is the index Math.floor(Math.random() * (i + 1))
   * drawn at the step that fixes position i, so 0 <= js[i] <= i (js[0] is unused).
   */
  predicate SwapDraws(js: seq<nat>, n: nat) {
    |js| == n && forall k :: 0 < k < n ==> js[k] <= k
  }

  /** The Fisher-Yates steps i, i - 1, ..., 1. */
  function ShuffleDown(s: seq<Card>, js: seq<nat>, i: nat): (r: seq<Card>)
    requires i < |s| && SwapDraws(js, |s|)
    ensures |r| == |s|
    decreases i
  {
    if i == 0 then s else ShuffleDown(Swap(s, i, js[i]), js, i - 1)
  }

  /** The deck createDeck returns for the given draws. */
  function Shuffled(s: seq<Card>, js: seq<nat>): (r: seq<Card>)
    requires SwapDraws(js, |s|)
    ensures |r| == |s|
  {
    if |s| == 0 then s else ShuffleDown(s, js, |s| - 1)
  }

  lemma SwapKeeps(s: seq<Card>, i: nat, j: nat)
    requires i < |s| && j < |s|
    ensures multiset(Swap(s, i, j)) == multiset(s)
    ensures NoDup(s) ==> NoDup(Swap(s, i, j))
  {
  }

  lemma {:induction false} ShuffleDownKeeps(s: seq<Card>, js: seq<nat>, i: nat)
    requires i < |s| && SwapDraws(js, |s|)
    ensures multiset(ShuffleDown(s, js, i)) == multiset(s)
    ensures NoDup(s) ==> NoDup(ShuffleDown(s, js, i))
    decreases i
  {
    if i > 0 {
      SwapKeeps(s, i, js[i]);
      ShuffleDownKeeps(Swap(s, i, js[i]), js, i - 1);
    }
  }

  /** Shuffling only rearranges: the result is a permutation of its input. */
  lemma ShuffledIsPermutation(s: seq<Card>, js: seq<nat>)
    requires SwapDraws(js, |s|)
    ensures multiset(Shuffled(s, js)) == multiset(s)
    ensures NoDup(s) ==> NoDup(Shuffled(s, js))
  {
    if |s| > 0 {
      ShuffleDownKeeps(s, js, |s| - 1);
    }
  }

  /** Multisets with the same elements hold the same cards. */
  lemma SameMultisetSameCards(a: seq<Card>, b: seq<Card>)
    requires multiset(a) == multiset(b)
    ensures forall c :: c in a <==> c in b
  {
    forall c ensures c in a <==> c in b {
      assert c in a <==> c in multiset(a);
      assert c in b <==> c in multiset(b);
    }
  }

  /**
   * The Fisher-Yates loop of createDeck, in place: for i from the last
   * position down to 1, swap positions i and js[i].
   */
  method Shuffle(a: array<Card>, js: seq<nat>)
    requires SwapDraws(js, a.Length)
    modifies a
    ensures a[..] == Shuffled(old(a[..]), js)
  {
    if a.Length == 0 {
      return;
    }
    var i := a.Length - 1;
    while i > 0
      invariant 0 <= i < a.Length
      invariant ShuffleDown(a[..], js, i) == Shuffled(old(a[..]), js)
    {
      ghost var before := a[..];
      var j := js[i];
      a[i], a[j] := a[j], a[i];
      assert a[..] == Swap(before, i, j);
      i := i - 1;
    }
  }

  /**
   * createDeck: the nested loops push one card per (suit, rank) of the suits
   * in play, then the deck is shuffled in place. The result has 13 cards per
   * suit in play, no card twice, and is a permutation of the unshuffled deck.
   */
  method CreateDeck(numPlayers: int, js: seq<nat>) returns (deck: seq<Card>)
    requires SwapDraws(js, 13 * |SuitList(numPlayers)|)
    ensures deck == Shuffled(FreshDeck(SuitList(numPlayers)), js)
    ensures |deck| == 13 * |SuitList(numPlayers)|
    ensures multiset(deck) == multiset(FreshDeck(SuitList(numPlayers)))
    ensures NoDup(deck)
    ensures forall c :: c in deck <==> c.suit in SuitList(numPlayers)
  {
    var suits := SuitList(numPlayers);
    var unshuffled: seq<Card> := [];
    for si := 0 to |suits|
      invariant unshuffled == FreshDeck(suits[..si])
    {
      for ri := 0 to |Ranks|
        invariant unshuffled == FreshDeck(suits[..si]) + SuitRun(suits[si])[..ri]
      {
        unshuffled := unshuffled + [Card(suits[si], Ranks[ri])];
      }
      assert suits[..si + 1][..si] == suits[..si];
    }
    assert suits[..|suits|] == suits;
    var a := new Card[|unshuffled|](i requires 0 <= i < |unshuffled| => unshuffled[i]);
    assert a[..] == unshuffled;
    Shuffle(a, js);
    deck := a[..];
    FreshDeckFacts(suits);
    ShuffledIsPermutation(unshuffled, js);
    SameMultisetSameCards(deck, unshuffled);
  }

  /** The hands dealCards gives out: seat i receives deck[13i .. 13i + 13). */
  function DealtHands(deck: seq<Card>, seats: nat): (hands: seq<seq<Card>>)
    requires 13 * seats <= |deck|
    ensures |hands| == seats
  {
    seq(seats, i requires 0 <= i < seats => deck[13 * i .. 13 * i + 13])
  }

  /**
   * Dealing a deck with no card twice gives 13-card hands with no card twice,
   * no card in two hands, every card from the deck, and, when the seats use
   * the whole deck, every card of the deck in some hand.
   */
  lemma DealtHandsPartition(deck: seq<Card>, seats: nat)
    requires 13 * seats <= |deck| && NoDup(deck)
    ensures forall i :: 0 <= i < seats ==> |DealtHands(deck, seats)[i]| == 13
    ensures forall i :: 0 <= i < seats ==> NoDup(DealtHands(deck, seats)[i])
    ensures forall i, c :: 0 <= i < seats && c in DealtHands(deck, seats)[i] ==> c in deck
    ensures forall i, j, c :: 0 <= i < j < seats && c in DealtHands(deck, seats)[i]
              ==> c !in DealtHands(deck, seats)[j]
    ensures 13 * seats == |deck| ==>
              forall c :: c in deck ==> exists i :: 0 <= i < seats && c in DealtHands(deck, seats)[i]
  {
    var hands := DealtHands(deck, seats);
    forall i | 0 <= i < seats ensures NoDup(hands[i]) {
      forall a, b | 0 <= a < b < |hands[i]| ensures hands[i][a] != hands[i][b] {
        assert hands[i][a] == deck[13 * i + a] && hands[i][b] == deck[13 * i + b];
      }
    }
    forall i, c | 0 <= i < seats && c in hands[i] ensures c in deck {
      var a :| 0 <= a < |hands[i]| && hands[i][a] == c;
      assert deck[13 * i + a] == c;
    }
    forall i, j, c | 0 <= i < j < seats && c in hands[i] ensures c !in hands[j] {
      var a :| 0 <= a < |hands[i]| && hands[i][a] == c;
      assert hands[i][a] == deck[13 * i + a];
      forall b | 0 <= b < |hands[j]| ensures hands[j][b] != c {
        assert hands[j][b] == deck[13 * j + b];
        assert 13 * i + a < 13 * j + b;
      }
    }
    if 13 * seats == |deck| {
      forall c | c in deck ensures exists i :: 0 <= i < seats && c in hands[i] {
        var k :| 0 <= k < |deck| && deck[k] == c;
        var i := k / 13;
        assert hands[i][k - 13 * i] == c;
      }
    }
  }

  // ------------------------------------------------------------------
  // checkValidDeal
  // ------------------------------------------------------------------

  /** The ace count checkValidDeal compares with: 3 for a three-seat room, else 4. */
  function NumAces(maxPlayers: int): int {
    if maxPlayers == 3 then 3 else 4
  }

  /** The number of aces in a hand (server.js:422). */
  function AceCount(hand: seq<Card>): nat {
    if hand == [] then 0 else (if hand[0].rank == Ace then 1 else 0) + AceCount(hand[1..])
  }

  /** The number of cards of suit s in a hand (server.js:423). */
  function SuitCount(hand: seq<Card>, s: Suit): (n: nat)
    ensures n <= |hand|
    ensures n > 0 <==> exists i :: 0 <= i < |hand| && hand[i].suit == s
  {
    if hand == [] then 0
    else
      assert forall i :: 0 < i < |hand| ==> hand[i] == hand[1..][i - 1];
      (if hand[0].suit == s then 1 else 0) + SuitCount(hand[1..], s)
  }

  /**
   * checkValidDeal: walks the seats and refuses the deal as soon as one seat
   * holds as many aces as the ace count of the room, or no card of trump.
   */
  function CheckValidDeal(hands: seq<seq<Card>>, maxPlayers: int, trump: Suit): (valid: bool)
    ensures valid <==> forall i :: 0 <= i < |hands| ==>
      AceCount(hands[i]) != NumAces(maxPlayers) && SuitCount(hands[i], trump) > 0
  {
    if hands == [] then true
    else if AceCount(hands[0]) == NumAces(maxPlayers) then false
    else if SuitCount(hands[0], trump) == 0 then false
    else
      assert forall i :: 0 < i < |hands| ==> hands[i] == hands[1..][i - 1];
      CheckValidDeal(hands[1..], maxPlayers, trump)
  }

  /** The seat holds the ace of every listed suit. */
  ghost predicate HoldsEveryAce(hand: seq<Card>, suits: seq<Suit>) {
    forall s :: s in suits ==> Card(s, Ace) in hand
  }

  function Held(hand: seq<Card>, c: Card): nat {
    if c in hand then 1 else 0
  }

  lemma HeldSplit(hand: seq<Card>, x: Card)
    requires hand != [] && NoDup(hand)
    ensures Held(hand, x) == (if hand[0] == x then 1 else 0) + Held(hand[1..], x)
  {
  }

  /** In a hand with no card twice, the ace count is the number of suits whose ace it holds. */
  lemma {:induction false} AceCountBySuit(hand: seq<Card>)
    requires NoDup(hand)
    ensures AceCount(hand) == Held(hand, Card(Spade, Ace)) + Held(hand, Card(Heart, Ace))
                            + Held(hand, Card(Club, Ace)) + Held(hand, Card(Diamond, Ace))
  {
    if hand != [] {
      var tail := hand[1..];
      assert hand == [hand[0]] + tail;
      assert NoDup(tail) by {
        forall i, j | 0 <= i < j < |tail| ensures tail[i] != tail[j] {
          assert tail[i] == hand[i + 1] && tail[j] == hand[j + 1];
        }
      }
      assert hand[0] !in tail by {
        forall i | 0 <= i < |tail| ensures tail[i] != hand[0] {
          assert tail[i] == hand[i + 1];
        }
      }
      AceCountBySuit(tail);
      HeldSplit(hand, Card(Spade, Ace));
      HeldSplit(hand, Card(Heart, Ace));
      HeldSplit(hand, Card(Club, Ace));
      HeldSplit(hand, Card(Diamond, Ace));
      var h := hand[0];
      assert (if h == Card(Spade, Ace) then 1 else 0) + (if h == Card(Heart, Ace) then 1 else 0)
           + (if h == Card(Club, Ace) then 1 else 0) + (if h == Card(Diamond, Ace) then 1 else 0)
          == (if h.rank == Ace then 1 else 0) by {
        match h.suit
        case Spade =>
        case Heart =>
        case Club =>
        case Diamond =>
      }
      assert AceCount(hand) == (if hand[0].rank == Ace then 1 else 0) + AceCount(tail);
    }
  }

  /**
   * For a hand of cards of the suits in play with no card twice, reaching the
   * ace count of checkValidDeal means holding every ace of the deck.
   */
  lemma AceCountMeansEveryAce(hand: seq<Card>, maxPlayers: int)
    requires NoDup(hand)
    requires forall c :: c in hand ==> c.suit in SuitList(maxPlayers)
    ensures AceCount(hand) == NumAces(maxPlayers) <==> HoldsEveryAce(hand, SuitList(maxPlayers))
  {
    AceCountBySuit(hand);
    if maxPlayers == 3 {
      assert Card(Diamond, Ace) !in hand;
    }
  }

  /**
   * What checkValidDeal decides, for hands dealt from one deck: no seat holds
   * every ace in play, and every seat holds a card of the trump suit.
   */
  lemma CheckValidDealMeaning(hands: seq<seq<Card>>, maxPlayers: int, trump: Suit)
    requires forall i :: 0 <= i < |hands| ==> NoDup(hands[i])
    requires forall i, c :: 0 <= i < |hands| && c in hands[i] ==> c.suit in SuitList(maxPlayers)
    ensures CheckValidDeal(hands, maxPlayers, trump) <==>
      forall i :: 0 <= i < |hands| ==>
        !HoldsEveryAce(hands[i], SuitList(maxPlayers)) && exists c :: c in hands[i] && c.suit == trump
  {
    forall i | 0 <= i < |hands|
      ensures AceCount(hands[i]) == NumAces(maxPlayers) <==> HoldsEveryAce(hands[i], SuitList(maxPlayers))
      ensures SuitCount(hands[i], trump) > 0 <==> exists c :: c in hands[i] && c.suit == trump
    {
      AceCountMeansEveryAce(hands[i], maxPlayers);
    }
  }

  // ------------------------------------------------------------------
  // One attempt of the re-deal loop of startNewRound
  // ------------------------------------------------------------------

  /** The random draws of one deal attempt: the shuffle's swaps and the trump index. */
  datatype Draw = Draw(swaps: seq<nat>, trumpIndex: nat)

  /** The ranges Math.random keeps the draws in. */
  predicate DrawFits(d: Draw, maxPlayers: int) {
    SwapDraws(d.swaps, 13 * |SuitList(maxPlayers)|) && d.trumpIndex < |SuitList(maxPlayers)|
  }

  /** The most deal attempts startNewRound makes. */
  const MaxDealAttempts: nat := 100

  function DeckFor(d: Draw, maxPlayers: int): (deck: seq<Card>)
    requires DrawFits(d, maxPlayers)
    ensures |deck| == 13 * |SuitList(maxPlayers)|
  {
    Shuffled(FreshDeck(SuitList(maxPlayers)), d.swaps)
  }

  function TrumpFor(d: Draw, maxPlayers: int): Suit
    requires DrawFits(d, maxPlayers)
  {
    SuitList(maxPlayers)[d.trumpIndex]
  }

  function HandsFor(d: Draw, maxPlayers: int, seats: nat): seq<seq<Card>>
    requires DrawFits(d, maxPlayers) && seats <= |SuitList(maxPlayers)|
  {
    DealtHands(DeckFor(d, maxPlayers), seats)
  }

  predicate DrawAccepted(d: Draw, maxPlayers: int, seats: nat)
    requires DrawFits(d, maxPlayers) && seats <= |SuitList(maxPlayers)|
  {
    CheckValidDeal(HandsFor(d, maxPlayers, seats), maxPlayers, TrumpFor(d, maxPlayers))
  }

  /**
   * Any accepted deal: every seat holds at least one trump and no seat holds
   * every ace in play; the hands are disjoint, and in a full room they use up
   * the deck.
   */
  lemma AcceptedDealProperties(d: Draw, maxPlayers: int, seats: nat)
    requires DrawFits(d, maxPlayers) && seats <= |SuitList(maxPlayers)|
    requires DrawAccepted(d, maxPlayers, seats)
    ensures forall i :: 0 <= i < seats ==>
      !HoldsEveryAce(HandsFor(d, maxPlayers, seats)[i], SuitList(maxPlayers)) &&
      exists c :: c in HandsFor(d, maxPlayers, seats)[i] && c.suit == TrumpFor(d, maxPlayers)
  {
    DeckFacts(d, maxPlayers);
    var deck := DeckFor(d, maxPlayers);
    DealtHandsPartition(deck, seats);
    CheckValidDealMeaning(HandsFor(d, maxPlayers, seats), maxPlayers, TrumpFor(d, maxPlayers));
  }

  /** The deck of any attempt has no card twice and only cards of the suits in play. */
  lemma DeckFacts(d: Draw, maxPlayers: int)
    requires DrawFits(d, maxPlayers)
    ensures NoDup(DeckFor(d, maxPlayers))
    ensures forall c :: c in DeckFor(d, maxPlayers) <==> c.suit in SuitList(maxPlayers)
  {
    var unshuffled := FreshDeck(SuitList(maxPlayers));
    FreshDeckFacts(SuitList(maxPlayers));
    ShuffledIsPermutation(unshuffled, d.swaps);
    SameMultisetSameCards(DeckFor(d, maxPlayers), unshuffled);
  }
}
