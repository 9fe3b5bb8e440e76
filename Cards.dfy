/**
 * Cards of the power-suit game: four suits, thirteen ranks, and the
 * value 2..14 each rank carries in play (server.js, createDeck).
 */
module Cards {

  datatype Suit = Spade | Heart | Club | Diamond

  datatype Rank = Two | Three | Four | Five | Six | Seven | Eight | Nine | Ten
                | Jack | Queen | King | Ace

  /** The ranks in the order createDeck pushes them. */
  const Ranks: seq<Rank> :=
    [Two, Three, Four, Five, Six, Seven, Eight, Nine, Ten, Jack, Queen, King, Ace]

  /** The value table of createDeck: the rank's place in Ranks, counted from 2. */
  function RankValue(r: Rank): (v: int)
    ensures 2 <= v <= 14 && Ranks[v - 2] == r
  {
    match r
    case Two => 2
    case Three => 3
    case Four => 4
    case Five => 5
    case Six => 6
    case Seven => 7
    case Eight => 8
    case Nine => 9
    case Ten => 10
    case Jack => 11
    case Queen => 12
    case King => 13
    case Ace => 14
  }

  /**
   * A card is identified by its suit and rank, as the server's hand filters
   * compare them; its value follows from the rank.
   */
  datatype Card = Card(suit: Suit, rank: Rank) {
    function Value(): int { RankValue(rank) }
  }

  /** The suits in play: spade, heart and club for a three-seat room, all four otherwise. */
  function SuitList(numPlayers: int): (suits: seq<Suit>)
    ensures |suits| == (if numPlayers == 3 then 3 else 4)
    ensures Spade in suits && Heart in suits && Club in suits
    ensures Diamond in suits <==> numPlayers != 3
  {
    if numPlayers == 3 then [Spade, Heart, Club] else [Spade, Heart, Club, Diamond]
  }

  predicate NoDup<T(==)>(s: seq<T>) {
    forall i, j :: 0 <= i < j < |s| ==> s[i] != s[j]
  }

  /** Ranks lists every rank once, in increasing value. */
  lemma RanksInOrder(i: int)
    requires 0 <= i < |Ranks|
    ensures RankValue(Ranks[i]) == i + 2
  {
  }

  lemma NoDupConcat<T>(a: seq<T>, b: seq<T>)
    requires NoDup(a) && NoDup(b)
    requires forall x :: x in a ==> x !in b
    ensures NoDup(a + b)
  {
    forall i, j | 0 <= i < j < |a + b|
      ensures (a + b)[i] != (a + b)[j]
    {
      if j < |a| {
        assert (a + b)[i] == a[i] && (a + b)[j] == a[j];
      } else if i < |a| {
        assert (a + b)[i] == a[i] && (a + b)[j] == b[j - |a|];
        assert a[i] in a;
      } else {
        assert (a + b)[i] == b[i - |a|] && (a + b)[j] == b[j - |a|];
      }
    }
  }
}
