/**
 * Trick resolution of server.js (evaluateTrick): if any trump was played the
 * highest trump wins, otherwise the highest card of the lead suit wins.
 */
module Tricks {
  import opened Wrappers
  import opened Cards
  import opened Legality

  /** Some card of the trick is a trump (server.js:326). */
  predicate TrumpPlayed(trick: seq<Play>, trump: Option<Suit>) {
    exists k :: 0 <= k < |trick| && Some(trick[k].card.suit) == trump
  }

  /** The suit that decides the trick: trump when any was played, else the lead suit. */
  function DecidingSuit(trick: seq<Play>, lead: Option<Suit>, trump: Option<Suit>): Option<Suit> {
    if TrumpPlayed(trick, trump) then trump else lead
  }

  /**
   * Position `at` of the trick holds the winning card: the first card of the
   * deciding suit with the highest value. When no card is of the deciding
   * suit, the first entry stands, as winnerIndex starts at currentTrick[0].
   */
  ghost predicate IsTrickWinner(trick: seq<Play>, lead: Option<Suit>, trump: Option<Suit>, at: nat) {
    var s := DecidingSuit(trick, lead, trump);
    at < |trick| &&
    if exists k :: 0 <= k < |trick| && Some(trick[k].card.suit) == s then
      Some(trick[at].card.suit) == s &&
      (forall k :: 0 <= k < |trick| && Some(trick[k].card.suit) == s ==>
         trick[k].card.Value() <= trick[at].card.Value()) &&
      (forall k :: 0 <= k < at && Some(trick[k].card.suit) == s ==>
         trick[k].card.Value() < trick[at].card.Value())
    else at == 0
  }

  /**
   * The scan of evaluateTrick: walk the trick, keeping the first card of the
   * deciding suit whose value beats every value seen so far.
   */
  method TrickWinner(trick: seq<Play>, lead: Option<Suit>, trump: Option<Suit>) returns (at: nat)
    requires trick != []
    ensures IsTrickWinner(trick, lead, trump, at)
  {
    var suit := if TrumpPlayed(trick, trump) then trump else lead;
    at := 0;
    var highestValue := -1;
    for k := 0 to |trick|
      invariant at < |trick|
      invariant highestValue == -1 <==> forall j :: 0 <= j < k ==> Some(trick[j].card.suit) != suit
      invariant highestValue == -1 ==> at == 0
      invariant highestValue != -1 ==>
        at < k && Some(trick[at].card.suit) == suit && trick[at].card.Value() == highestValue
      invariant forall j :: 0 <= j < k && Some(trick[j].card.suit) == suit ==>
        trick[j].card.Value() <= highestValue
      invariant forall j :: 0 <= j < at && Some(trick[j].card.suit) == suit ==>
        trick[j].card.Value() < highestValue
    {
      if Some(trick[k].card.suit) == suit && trick[k].card.Value() > highestValue {
        highestValue := trick[k].card.Value();
        at := k;
      }
    }
  }

  /** The winning position is determined: two winners of one trick coincide. */
  lemma WinnerIsUnique(trick: seq<Play>, lead: Option<Suit>, trump: Option<Suit>, a: nat, b: nat)
    requires IsTrickWinner(trick, lead, trump, a) && IsTrickWinner(trick, lead, trump, b)
    ensures a == b
  {
  }

  /**
   * Trump beats everything and off-suit discards never win: the winning card
   * is a trump whenever a trump was played, and of the lead suit otherwise
   * (the lead card itself is of the lead suit).
   */
  lemma WinnerSuit(trick: seq<Play>, lead: Option<Suit>, trump: Option<Suit>, at: nat)
    requires trick != [] && lead == Some(trick[0].card.suit)
    requires IsTrickWinner(trick, lead, trump, at)
    ensures TrumpPlayed(trick, trump) ==> Some(trick[at].card.suit) == trump
    ensures !TrumpPlayed(trick, trump) ==> Some(trick[at].card.suit) == lead
  {
  }

  /** The two worked tricks: a lone trump beats higher lead cards; a discard never wins. */
  lemma WorkedTricks(at: nat)
    ensures var t := [Play(0, Card(Club, Five)), Play(1, Card(Club, Ten)), Play(2, Card(Spade, Two))];
            IsTrickWinner(t, Some(Club), Some(Spade), at) <==> at == 2
    ensures var t := [Play(0, Card(Heart, Nine)), Play(1, Card(Heart, King)), Play(2, Card(Club, Ace))];
            IsTrickWinner(t, Some(Heart), Some(Spade), at) <==> at == 1
  {
    var t1 := [Play(0, Card(Club, Five)), Play(1, Card(Club, Ten)), Play(2, Card(Spade, Two))];
    assert TrumpPlayed(t1, Some(Spade)) by { assert Some(t1[2].card.suit) == Some(Spade); }
    assert IsTrickWinner(t1, Some(Club), Some(Spade), 2);
    if IsTrickWinner(t1, Some(Club), Some(Spade), at) {
      WinnerIsUnique(t1, Some(Club), Some(Spade), at, 2);
    }
    var t2 := [Play(0, Card(Heart, Nine)), Play(1, Card(Heart, King)), Play(2, Card(Club, Ace))];
    assert !TrumpPlayed(t2, Some(Spade));
    assert IsTrickWinner(t2, Some(Heart), Some(Spade), 1);
    if IsTrickWinner(t2, Some(Heart), Some(Spade), at) {
      WinnerIsUnique(t2, Some(Heart), Some(Spade), at, 1);
    }
  }
}
