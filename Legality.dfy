/**
 * The legality engine of server.js (isCardPlayable): a priority chain of
 * lead, follow suit with forced overtake, trump, then anything, together
 * with the card test that play-card applies before it accepts a play.
 */
module Legality {
  import opened Wrappers
  import opened Cards

  /** One entry of the current trick: the seat that played and its card. */
  datatype Play = Play(playerIndex: nat, card: Card)

  /** The cards of suit s in a hand, in order; a missing suit matches nothing. */
  function SuitCards(hand: seq<Card>, s: Option<Suit>): (r: seq<Card>)
    ensures forall c :: c in r <==> c in hand && Some(c.suit) == s
  {
    if hand == [] then []
    else if Some(hand[0].suit) == s then [hand[0]] + SuitCards(hand[1..], s)
    else SuitCards(hand[1..], s)
  }

  /**
   * The highest value among the lead-suit cards already in the trick
   * (Math.max over them), or -1 when the trick holds none.
   */
  function HighestPlayed(trick: seq<Play>, lead: Option<Suit>): (m: int)
    ensures forall k :: 0 <= k < |trick| && Some(trick[k].card.suit) == lead ==>
              trick[k].card.Value() <= m
    ensures m == -1 <==> forall k :: 0 <= k < |trick| ==> Some(trick[k].card.suit) != lead
    ensures m != -1 ==>
      exists k :: 0 <= k < |trick| && Some(trick[k].card.suit) == lead && trick[k].card.Value() == m
  {
    if trick == [] then -1
    else
      var rest := HighestPlayed(trick[1..], lead);
      assert forall k :: 0 < k < |trick| ==> trick[k] == trick[1..][k - 1];
      if Some(trick[0].card.suit) == lead && trick[0].card.Value() > rest then trick[0].card.Value()
      else rest
  }

  /**
   * isCardPlayable. Rule 1: the seat leads, anything goes. Otherwise, if the
   * seat holds the lead suit it must follow it, and must beat the highest
   * lead-suit card played so far whenever it can. Failing that, if it holds
   * trump it must play trump; otherwise anything goes.
   */
  predicate IsCardPlayable(card: Card, hand: seq<Card>, trick: seq<Play>,
                           lead: Option<Suit>, trump: Option<Suit>)
  {
    if |trick| == 0 then true
    else
      var myLeadCards := SuitCards(hand, lead);
      var myTrumpCards := SuitCards(hand, trump);
      if |myLeadCards| > 0 then
        if Some(card.suit) != lead then false
        else
          var highestPlayed := HighestPlayed(trick, lead);
          var hasHigher := exists c :: c in myLeadCards && c.Value() > highestPlayed;
          if hasHigher then card.Value() > highestPlayed else true
      else if |myTrumpCards| > 0 then Some(card.suit) == trump
      else true
  }

  /** The card is higher than every lead-suit card already in the trick. */
  ghost predicate Overtakes(card: Card, trick: seq<Play>, lead: Option<Suit>) {
    forall k :: 0 <= k < |trick| && Some(trick[k].card.suit) == lead ==>
      card.Value() > trick[k].card.Value()
  }

  /** The rules of the game stated over what the seat holds, without filters or sentinels. */
  ghost predicate LegalByRules(card: Card, hand: seq<Card>, trick: seq<Play>,
                               lead: Option<Suit>, trump: Option<Suit>)
  {
    if trick == [] then true
    else if exists c :: c in hand && Some(c.suit) == lead then
      Some(card.suit) == lead &&
      ((exists c :: c in hand && Some(c.suit) == lead && Overtakes(c, trick, lead)) ==>
         Overtakes(card, trick, lead))
    else if exists c :: c in hand && Some(c.suit) == trump then Some(card.suit) == trump
    else true
  }

  lemma AboveHighestIsOvertaking(card: Card, trick: seq<Play>, lead: Option<Suit>)
    ensures card.Value() > HighestPlayed(trick, lead) <==> Overtakes(card, trick, lead)
  {
  }

  /** isCardPlayable decides exactly the rules of the game. */
  lemma PlayableMeansLegal(card: Card, hand: seq<Card>, trick: seq<Play>,
                           lead: Option<Suit>, trump: Option<Suit>)
    ensures IsCardPlayable(card, hand, trick, lead, trump) <==> LegalByRules(card, hand, trick, lead, trump)
  {
    AboveHighestIsOvertaking(card, trick, lead);
    forall c: Card ensures c.Value() > HighestPlayed(trick, lead) <==> Overtakes(c, trick, lead) {
      AboveHighestIsOvertaking(c, trick, lead);
    }
    var myLeadCards := SuitCards(hand, lead);
    if |myLeadCards| > 0 {
      assert myLeadCards[0] in myLeadCards;
    }
    var myTrumpCards := SuitCards(hand, trump);
    if |myTrumpCards| > 0 {
      assert myTrumpCards[0] in myTrumpCards;
    }
  }

  /** The auto-play candidates: the cards of the hand that pass IsCardPlayable, in order (server.js:284). */
  function Playable(hand: seq<Card>, trick: seq<Play>, lead: Option<Suit>, trump: Option<Suit>)
    : (r: seq<Card>)
    ensures forall c :: c in r <==> c in hand && IsCardPlayable(c, hand, trick, lead, trump)
    ensures trick == [] ==> r == hand
  {
    PlayableFrom(hand, hand, trick, lead, trump)
  }

  function PlayableFrom(rest: seq<Card>, hand: seq<Card>, trick: seq<Play>,
                        lead: Option<Suit>, trump: Option<Suit>): (r: seq<Card>)
    ensures forall c :: c in r <==> c in rest && IsCardPlayable(c, hand, trick, lead, trump)
    ensures trick == [] ==> r == rest
  {
    if rest == [] then []
    else if IsCardPlayable(rest[0], hand, trick, lead, trump) then
      [rest[0]] + PlayableFrom(rest[1..], hand, trick, lead, trump)
    else PlayableFrom(rest[1..], hand, trick, lead, trump)
  }

  /**
   * A seat with cards always has a legal card, so the timeout auto-play
   * always has a candidate.
   */
  lemma SomeCardPlayable(hand: seq<Card>, trick: seq<Play>, lead: Option<Suit>, trump: Option<Suit>)
    requires hand != []
    ensures exists c :: c in hand && IsCardPlayable(c, hand, trick, lead, trump)
    ensures |Playable(hand, trick, lead, trump)| > 0
  {
    var choice := hand[0];
    if |trick| > 0 {
      var myLeadCards := SuitCards(hand, lead);
      var myTrumpCards := SuitCards(hand, trump);
      if |myLeadCards| > 0 {
        var highestPlayed := HighestPlayed(trick, lead);
        if exists c :: c in myLeadCards && c.Value() > highestPlayed {
          choice :| choice in myLeadCards && choice.Value() > highestPlayed;
        } else {
          choice := myLeadCards[0];
        }
      } else if |myTrumpCards| > 0 {
        choice := myTrumpCards[0];
      }
    }
    assert choice in hand && IsCardPlayable(choice, hand, trick, lead, trump);
    assert choice in Playable(hand, trick, lead, trump);
  }

  // ------------------------------------------------------------------
  // Removing the played card from the hand
  // ------------------------------------------------------------------

  /**
   * The hand without the played card (server.js:156):
   * every copy of the card leaves the hand, the other cards stay in order.
   */
  function RemoveCard(hand: seq<Card>, card: Card): (r: seq<Card>)
    ensures forall c :: c in r <==> c in hand && c != card
    ensures |r| <= |hand|
  {
    if hand == [] then []
    else if hand[0] == card then RemoveCard(hand[1..], card)
    else [hand[0]] + RemoveCard(hand[1..], card)
  }

  /**
   * In a hand with no card twice, removing a card keeps the hand free of
   * repeats, and removing a held card takes out exactly that one card.
   */
  lemma {:induction false} RemoveHeldCard(hand: seq<Card>, card: Card)
    requires NoDup(hand)
    ensures NoDup(RemoveCard(hand, card))
    ensures card in hand ==> multiset(RemoveCard(hand, card)) == multiset(hand) - multiset{card}
    ensures card !in hand ==> RemoveCard(hand, card) == hand
  {
    if hand != [] {
      var tail := hand[1..];
      assert hand == [hand[0]] + tail;
      assert NoDup(tail) by {
        forall i, j | 0 <= i < j < |tail| ensures tail[i] != tail[j] {
          assert tail[i] == hand[i + 1] && tail[j] == hand[j + 1];
        }
      }
      assert hand[0] !in tail by {
        forall i | 0 <= i < |tail| ensures tail[i] != hand[0] {
          assert tail[i] == hand[i + 1];
        }
      }
      RemoveHeldCard(tail, card);
      if hand[0] != card {
        NoDupConcat([hand[0]], RemoveCard(tail, card));
      }
    }
  }

  // ------------------------------------------------------------------
  // The card test of play-card
  // ------------------------------------------------------------------

  /**
   * The card test play-card applies as written: only the legality chain.
   * It asks neither that the card be in the hand nor that the trick still
   * have room for a card.
   */
  predicate PlayAllowedAsWritten(hand: seq<Card>, trick: seq<Play>,
                                 lead: Option<Suit>, trump: Option<Suit>, card: Card)
  {
    IsCardPlayable(card, hand, trick, lead, trump)
  }

  /**
   * The card test the rest of this model uses: the trick has room, the card
   * is in the hand, and the legality chain allows it.
   */
  predicate PlayAllowed(seats: nat, hand: seq<Card>, trick: seq<Play>,
                        lead: Option<Suit>, trump: Option<Suit>, card: Card)
  {
    |trick| < seats && card in hand && IsCardPlayable(card, hand, trick, lead, trump)
  }

  /**
   * An accepted play keeps every card: the card leaves the hand and joins the
   * trick, and the trick never grows past one card per seat.
   */
  lemma PlayAllowedKeepsCards(seats: nat, seat: nat, hand: seq<Card>, trick: seq<Play>,
                              lead: Option<Suit>, trump: Option<Suit>, card: Card)
    requires NoDup(hand)
    requires PlayAllowed(seats, hand, trick, lead, trump, card)
    ensures multiset(RemoveCard(hand, card)) + multiset{card} == multiset(hand)
    ensures |trick + [Play(seat, card)]| <= seats
  {
    RemoveHeldCard(hand, card);
  }

  /**
   * As written, a card the seat does not hold passes: the lead may play any
   * card at all, the hand keeps its size and the trick gains a card.
   */
  lemma AsWrittenAcceptsUnheldCard()
    ensures var hand := [Card(Spade, Two)];
            var card := Card(Heart, Ace);
            PlayAllowedAsWritten(hand, [], None, Some(Heart), card) &&
            !PlayAllowed(4, hand, [], None, Some(Heart), card) &&
            RemoveCard(hand, card) == hand
  {
  }

  /**
   * As written, a fourth card passes in a three-seat trick: after the third
   * card the trick waits two seconds for evaluateTrick while the last seat is
   * still the current one, and a second play from it is accepted.
   */
  lemma AsWrittenOverfillsTrick()
    ensures var trick := [Play(0, Card(Club, Five)), Play(1, Card(Club, Ten)), Play(2, Card(Club, Jack))];
            var hand := [Card(Club, Ace), Card(Heart, Two)];
            PlayAllowedAsWritten(hand, trick, Some(Club), Some(Spade), Card(Club, Ace)) &&
            !PlayAllowed(3, hand, trick, Some(Club), Some(Spade), Card(Club, Ace)) &&
            |trick + [Play(2, Card(Club, Ace))]| > 3
  {
  }
}
