/**
 * The game-session engine of server.js: one Room seats 3 or 4 players and
 * carries a round through bidding, card play, trick resolution and scoring.
 *
 * The Room class holds the fields the server mutates in place: the players
 * list (player records are values here, replaced in the list when a field
 * of theirs changes) and the fields of gameState. Each socket handler and
 * each timer callback is a method; the random draws are parameters.
 */
module Rooms {
  import opened Wrappers
  import opened Cards
  import opened Deal
  import opened Legality
  import opened Tricks
  import opened Scores

  datatype Phase = Waiting | Bidding | Playing | Scoring

  /** A seated player; bid None is the "has not bid yet" marker (null), distinct from a bid of 0. */
  datatype Player = Player(socketId: string, name: string, hand: seq<Card>, bid: Option<int>,
                           tricksWon: int, score: int, totalScore: int, isReady: bool)

  /** An entry of trickHistory. */
  datatype TrickRecord = TrickRecord(trickNumber: int, cards: seq<Play>, winnerIndex: nat)

  /** What join-room answers: the three refusals of the handler, or a seat. */
  datatype JoinOutcome = Joined | InvalidHostPassword | RoomFull | NameUnavailable

  datatype BidOutcome = BidIgnored | BidRecorded | BiddingComplete

  /** What play-card does: nothing (wrong phase), one of its two refusals, or the play. */
  datatype PlayOutcome = PlayIgnored | NotYourTurn | CardRefused | Played(trickComplete: bool)

  /** The record addPlayer pushes. */
  function NewPlayer(socketId: string, name: string): Player {
    Player(socketId, name, [], None, 0, 0, 0, false)
  }

  /** getPlayer (players.find): the first seat with this socket. */
  function FindSeat(players: seq<Player>, socketId: string): (r: Option<nat>)
    ensures r.Some? ==>
      r.value < |players| && players[r.value].socketId == socketId &&
      forall i :: 0 <= i < r.value ==> players[i].socketId != socketId
    ensures r.None? <==> forall i :: 0 <= i < |players| ==> players[i].socketId != socketId
  {
    if players == [] then None
    else if players[0].socketId == socketId then Some(0)
    else
      assert forall i :: 0 < i < |players| ==> players[i] == players[1..][i - 1];
      match FindSeat(players[1..], socketId)
      case None => None
      case Some(i) => Some(i + 1)
  }

  /** removePlayer (server.js:51): every seat of this socket leaves, the others keep their order. */
  function WithoutSocket(players: seq<Player>, socketId: string): (r: seq<Player>)
    ensures forall p :: p in r <==> p in players && p.socketId != socketId
    ensures |r| <= |players|
  {
    if players == [] then []
    else if players[0].socketId == socketId then WithoutSocket(players[1..], socketId)
    else [players[0]] + WithoutSocket(players[1..], socketId)
  }

  /**
   * r lists the seats of players from seat `base` on at the strictly
   * increasing positions f: exactly the positions whose seat has another socket.
   */
  ghost predicate InOrderSelection(players: seq<Player>, base: nat, r: seq<Player>, f: seq<nat>,
                                   socketId: string) {
    SeatsAt(players, base, r, f) && Increasing(f) && KeepsOthers(players, base, f, socketId)
  }

  ghost predicate SeatsAt(players: seq<Player>, base: nat, r: seq<Player>, f: seq<nat>) {
    |f| == |r| && forall k :: 0 <= k < |f| ==> base <= f[k] < |players| && r[k] == players[f[k]]
  }

  ghost predicate Increasing(f: seq<nat>) {
    forall k, l :: 0 <= k < l < |f| ==> f[k] < f[l]
  }

  ghost predicate KeepsOthers(players: seq<Player>, base: nat, f: seq<nat>, socketId: string) {
    forall i :: base <= i < |players| ==> (i in f <==> players[i].socketId != socketId)
  }

  /** The positions, counted from seat `base` of players, that removePlayer keeps, in order. */
  ghost function KeptSeats(players: seq<Player>, base: nat, socketId: string): seq<nat>
    decreases |players| - base
  {
    if base >= |players| then []
    else if players[base].socketId == socketId then KeptSeats(players, base + 1, socketId)
    else [base] + KeptSeats(players, base + 1, socketId)
  }

  lemma SeatsAtCons(players: seq<Player>, base: nat, r: seq<Player>, f: seq<nat>)
    requires base < |players| && SeatsAt(players, base + 1, r, f)
    ensures SeatsAt(players, base, [players[base]] + r, [base] + f)
  {
    var f', r' := [base] + f, [players[base]] + r;
    forall k | 0 <= k < |f'| ensures base <= f'[k] < |players| && r'[k] == players[f'[k]] {
      if k > 0 {
        assert f'[k] == f[k - 1] && r'[k] == r[k - 1];
      }
    }
  }

  lemma IncreasingCons(base: nat, f: seq<nat>)
    requires Increasing(f) && forall k :: 0 <= k < |f| ==> base < f[k]
    ensures Increasing([base] + f)
  {
    var f' := [base] + f;
    forall k, l | 0 <= k < l < |f'| ensures f'[k] < f'[l] {
      assert f'[l] == f[l - 1];
      if k > 0 {
        assert f'[k] == f[k - 1];
      }
    }
  }

  lemma KeepsOthersCons(players: seq<Player>, base: nat, f: seq<nat>, socketId: string)
    requires base < |players| && KeepsOthers(players, base + 1, f, socketId)
    requires forall k :: 0 <= k < |f| ==> base < f[k]
    ensures players[base].socketId == socketId ==> KeepsOthers(players, base, f, socketId)
    ensures players[base].socketId != socketId ==> KeepsOthers(players, base, [base] + f, socketId)
  {
    assert base !in f;
    forall i | base < i < |players| ensures i in [base] + f <==> i in f {
    }
  }

  /** Seat `base` joins the front of a selection of the later seats unless it has the socket. */
  lemma SelectionCons(players: seq<Player>, base: nat, r: seq<Player>, f: seq<nat>, socketId: string)
    requires base < |players| && InOrderSelection(players, base + 1, r, f, socketId)
    ensures players[base].socketId == socketId ==> InOrderSelection(players, base, r, f, socketId)
    ensures players[base].socketId != socketId ==>
      InOrderSelection(players, base, [players[base]] + r, [base] + f, socketId)
  {
    assert forall k :: 0 <= k < |f| ==> base < f[k];
    KeepsOthersCons(players, base, f, socketId);
    if players[base].socketId != socketId {
      SeatsAtCons(players, base, r, f);
      IncreasingCons(base, f);
    }
  }

  /** removePlayer keeps the other seats in their order: turn order and the host seat follow from it. */
  lemma {:induction false} WithoutSocketInOrder(players: seq<Player>, base: nat, socketId: string)
    requires base <= |players|
    ensures InOrderSelection(players, base, WithoutSocket(players[base..], socketId),
                             KeptSeats(players, base, socketId), socketId)
    decreases |players| - base
  {
    if base < |players| {
      WithoutSocketInOrder(players, base + 1, socketId);
      assert players[base..][1..] == players[base + 1..];
      SelectionCons(players, base, WithoutSocket(players[base + 1..], socketId),
                    KeptSeats(players, base + 1, socketId), socketId);
    }
  }

  predicate NameTaken(players: seq<Player>, name: string) {
    exists i :: 0 <= i < |players| && players[i].name == name
  }

  predicate DistinctNames(players: seq<Player>) {
    forall i, j :: 0 <= i < j < |players| ==> players[i].name != players[j].name
  }

  predicate HandsNoDup(players: seq<Player>) {
    forall i :: 0 <= i < |players| ==> NoDup(players[i].hand)
  }

  /** Every seat has bid (server.js:130). */
  predicate EveryBidIn(players: seq<Player>) {
    forall i :: 0 <= i < |players| ==> players[i].bid.Some?
  }

  function Hands(players: seq<Player>): (hands: seq<seq<Card>>)
    ensures |hands| == |players|
  {
    seq(|players|, i requires 0 <= i < |players| => players[i].hand)
  }

  /** All cards in the players' hands. */
  ghost function HeldCards(players: seq<Player>): multiset<Card> {
    if players == [] then multiset{} else multiset(players[0].hand) + HeldCards(players[1..])
  }

  /** All cards in a trick. */
  ghost function TrickCards(trick: seq<Play>): multiset<Card> {
    if trick == [] then multiset{} else multiset{trick[0].card} + TrickCards(trick[1..])
  }

  /** The tricks won so far this round, summed over the seats. */
  function TricksTotal(players: seq<Player>): int {
    if players == [] then 0 else players[0].tricksWon + TricksTotal(players[1..])
  }

  /** Replacing one seat's hand changes the held cards by exactly that hand. */
  lemma {:induction false} HeldCardsUpdate(players: seq<Player>, i: nat, hand: seq<Card>)
    requires i < |players|
    ensures HeldCards(players[i := players[i].(hand := hand)]) + multiset(players[i].hand)
         == HeldCards(players) + multiset(hand)
  {
    var updated := players[i := players[i].(hand := hand)];
    if i == 0 {
      assert updated[1..] == players[1..];
    } else {
      assert updated[1..] == players[1..][i - 1 := players[i].(hand := hand)];
      HeldCardsUpdate(players[1..], i - 1, hand);
      assert players[1..][i - 1] == players[i];
      assert updated[0] == players[0];
      calc {
        HeldCards(updated) + multiset(players[i].hand);
        multiset(players[0].hand) + (HeldCards(updated[1..]) + multiset(players[i].hand));
        multiset(players[0].hand) + (HeldCards(players[1..]) + multiset(hand));
        HeldCards(players) + multiset(hand);
      }
    }
  }

  lemma {:induction false} TrickCardsAppend(trick: seq<Play>, p: Play)
    ensures TrickCards(trick + [p]) == TrickCards(trick) + multiset{p.card}
  {
    if trick != [] {
      assert (trick + [p])[1..] == trick[1..] + [p];
      TrickCardsAppend(trick[1..], p);
    }
  }

  /** One more trick for one seat is one more trick in the total. */
  lemma {:induction false} TricksTotalIncrement(players: seq<Player>, w: nat)
    requires w < |players|
    ensures TricksTotal(players[w := players[w].(tricksWon := players[w].tricksWon + 1)])
         == TricksTotal(players) + 1
  {
    var updated := players[w := players[w].(tricksWon := players[w].tricksWon + 1)];
    if w == 0 {
      assert updated[1..] == players[1..];
    } else {
      assert updated[1..] == players[1..][w - 1 := players[w].(tricksWon := players[w].tricksWon + 1)];
      TricksTotalIncrement(players[1..], w - 1);
    }
  }

  lemma TailKeeps(players: seq<Player>)
    requires players != [] && DistinctNames(players) && HandsNoDup(players)
    ensures DistinctNames(players[1..]) && HandsNoDup(players[1..])
  {
  }

  lemma ConsKeeps(p: Player, rest: seq<Player>)
    requires DistinctNames(rest) && HandsNoDup(rest) && NoDup(p.hand)
    requires forall q :: q in rest ==> q.name != p.name
    ensures DistinctNames([p] + rest) && HandsNoDup([p] + rest)
  {
  }

  /** removePlayer keeps names distinct and hands free of repeated cards. */
  lemma {:induction false} WithoutSocketKeeps(players: seq<Player>, socketId: string)
    requires DistinctNames(players) && HandsNoDup(players)
    ensures DistinctNames(WithoutSocket(players, socketId))
    ensures HandsNoDup(WithoutSocket(players, socketId))
  {
    if players != [] {
      var tail := players[1..];
      TailKeeps(players);
      WithoutSocketKeeps(tail, socketId);
      var rest := WithoutSocket(tail, socketId);
      if players[0].socketId != socketId {
        forall q | q in rest ensures q.name != players[0].name {
          var k :| 0 <= k < |tail| && tail[k] == q;
          assert tail[k] == players[k + 1];
        }
        ConsKeeps(players[0], rest);
      }
    }
  }

  /** Changing seats' fields other than name and hand keeps the room invariant's player part. */
  lemma SameNamesAndHands(before: seq<Player>, after: seq<Player>)
    requires DistinctNames(before) && HandsNoDup(before) && |after| == |before|
    requires forall k :: 0 <= k < |after| ==> after[k].name == before[k].name && after[k].hand == before[k].hand
    ensures DistinctNames(after) && HandsNoDup(after)
  {
  }

  /** The seats are the same apart from their hands. */
  predicate SameButHands(before: seq<Player>, after: seq<Player>) {
    |after| == |before| &&
    forall k :: 0 <= k < |after| ==> after[k] == before[k].(hand := after[k].hand)
  }

  /** The first n draws give deals checkValidDeal rejects. */
  predicate AllRejected(draws: seq<Draw>, n: nat, maxPlayers: int, seats: nat) {
    seats <= |SuitList(maxPlayers)| && n <= |draws| &&
    forall k :: 0 <= k < n ==>
      DrawFits(draws[k], maxPlayers) && !DrawAccepted(draws[k], maxPlayers, seats)
  }

  lemma AllRejectedExtend(draws: seq<Draw>, n: nat, maxPlayers: int, seats: nat)
    requires AllRejected(draws, n, maxPlayers, seats) && n < |draws|
    requires DrawFits(draws[n], maxPlayers) && !DrawAccepted(draws[n], maxPlayers, seats)
    ensures AllRejected(draws, n + 1, maxPlayers, seats)
  {
  }

  lemma SameButHandsTrans(a: seq<Player>, b: seq<Player>, c: seq<Player>)
    requires SameButHands(a, b) && SameButHands(b, c)
    ensures SameButHands(a, c)
  {
  }

  /** Moving one card from the hands to the trick keeps the cards on the table. */
  lemma MoveCardToTrick(heldAfter: multiset<Card>, heldBefore: multiset<Card>, hand: multiset<Card>,
                        rest: multiset<Card>, trickBefore: multiset<Card>, trickAfter: multiset<Card>, card: Card)
    requires heldAfter + hand == heldBefore + rest
    requires rest + multiset{card} == hand
    requires trickAfter == trickBefore + multiset{card}
    ensures heldAfter + trickAfter == heldBefore + trickBefore
  {
    forall x: Card ensures (heldAfter + trickAfter)[x] == (heldBefore + trickBefore)[x] {
      assert (heldAfter + hand)[x] == (heldBefore + rest)[x];
      assert (rest + multiset{card})[x] == hand[x];
    }
  }

  /**
   * Playing a held card moves exactly that card from the holder's hand to the
   * trick: the room invariant's player part holds afterwards, and the cards
   * on the table are the same.
   */
  lemma PlayKeepsTable(players: seq<Player>, holder: nat, trick: seq<Play>, play: Play)
    requires holder < |players| && DistinctNames(players) && HandsNoDup(players)
    requires play.card in players[holder].hand
    ensures var seated := players[holder := players[holder].(hand := RemoveCard(players[holder].hand, play.card))];
      DistinctNames(seated) && HandsNoDup(seated) &&
      multiset(seated[holder].hand) + multiset{play.card} == multiset(players[holder].hand) &&
      HeldCards(seated) + TrickCards(trick + [play]) == HeldCards(players) + TrickCards(trick)
  {
    var hand := players[holder].hand;
    var rest := RemoveCard(hand, play.card);
    RemoveHeldCard(hand, play.card);
    assert multiset(rest) + multiset{play.card} == multiset(hand);
    HeldCardsUpdate(players, holder, rest);
    TrickCardsAppend(trick, play);
    ReplaceHandKeeps(players, holder, rest);
    var seated := players[holder := players[holder].(hand := rest)];
    MoveCardToTrick(HeldCards(seated), HeldCards(players), multiset(hand), multiset(rest),
                    TrickCards(trick), TrickCards(trick + [play]), play.card);
  }

  /** Giving one seat a hand without repeated cards keeps the room invariant's player part. */
  lemma ReplaceHandKeeps(players: seq<Player>, i: nat, hand: seq<Card>)
    requires i < |players| && DistinctNames(players) && HandsNoDup(players) && NoDup(hand)
    ensures DistinctNames(players[i := players[i].(hand := hand)])
    ensures HandsNoDup(players[i := players[i].(hand := hand)])
  {
  }

  class Room {
    const roomId: string
    const hostPassword: string
    const maxPlayers: int
    var players: seq<Player>
    // the fields of gameState (its timer handles are not modelled)
    var phase: Phase
    var trumpSuit: Option<Suit>
    var currentPlayerIndex: nat
    var currentTrick: seq<Play>
    var trickNumber: int
    var roundNumber: int
    var leadSuit: Option<Suit>
    var trickHistory: seq<TrickRecord>

    /** The room never seats more than its capacity, two players with one name, or a card twice in a hand. */
    ghost predicate Valid()
      reads this
    {
      (maxPlayers == 3 || maxPlayers == 4) &&
      |players| <= maxPlayers &&
      DistinctNames(players) &&
      HandsNoDup(players)
    }

    /** new Room(roomId, hostPassword, numPlayers), after create-room accepted 3 or 4 players. */
    constructor (roomId: string, hostPassword: string, numPlayers: int)
      requires numPlayers == 3 || numPlayers == 4
      ensures Valid()
      ensures this.roomId == roomId && this.hostPassword == hostPassword && maxPlayers == numPlayers
      ensures players == [] && phase == Waiting && trumpSuit == None && currentPlayerIndex == 0
      ensures currentTrick == [] && trickNumber == 1 && roundNumber == 1 && leadSuit == None
      ensures trickHistory == []
    {
      this.roomId := roomId;
      this.hostPassword := hostPassword;
      maxPlayers := numPlayers;
      players := [];
      phase := Waiting;
      trumpSuit := None;
      currentPlayerIndex := 0;
      currentTrick := [];
      trickNumber := 1;
      roundNumber := 1;
      leadSuit := None;
      trickHistory := [];
    }

    /** The host is seat 0, the seat getPlayer finds first for that socket. */
    predicate IsHost(socketId: string)
      reads this
      ensures IsHost(socketId) ==> FindSeat(players, socketId) == Some(0)
    {
      |players| > 0 && players[0].socketId == socketId
    }

    predicate IsFull()
      reads this
    {
      |players| == maxPlayers
    }

    /**
     * Everyone is ready only in a full room of 3 or 4 seats, so a round start is
     * only scheduled from a full room; a seat may still leave before the round starts.
     */
    predicate AllReady()
      reads this
      ensures Valid() && AllReady() ==> 3 <= |players| <= 4
    {
      |players| == maxPlayers && forall i :: 0 <= i < |players| ==> players[i].isReady
    }

    /**
     * addPlayer: refuses a full room or a name already seated and then leaves
     * the players untouched; otherwise seats exactly one fresh player at the end.
     */
    method AddPlayer(socketId: string, name: string) returns (added: bool)
      requires Valid()
      modifies this`players
      ensures Valid()
      ensures added <==> old(|players|) < maxPlayers && !NameTaken(old(players), name)
      ensures players == if added then old(players) + [NewPlayer(socketId, name)] else old(players)
    {
      if |players| >= maxPlayers {
        return false;
      }
      if NameTaken(players, name) {
        return false;
      }
      players := players + [NewPlayer(socketId, name)];
      return true;
    }

    /** removePlayer */
    method RemovePlayer(socketId: string)
      requires Valid()
      modifies this`players
      ensures Valid()
      ensures players == WithoutSocket(old(players), socketId)
      ensures forall i :: 0 <= i < |players| ==> players[i].socketId != socketId
      ensures InOrderSelection(old(players), 0, players, KeptSeats(old(players), 0, socketId), socketId)
    {
      WithoutSocketKeeps(players, socketId);
      WithoutSocketInOrder(players, 0, socketId);
      assert players[0..] == players;
      players := WithoutSocket(players, socketId);
      forall i | 0 <= i < |players| ensures players[i].socketId != socketId {
        assert players[i] in players;
      }
    }

    /** The join-room handler once the room is found: host PIN, then capacity, then addPlayer. */
    method Join(socketId: string, name: string, pin: string) returns (r: JoinOutcome)
      requires Valid()
      modifies this`players
      ensures Valid()
      ensures r == (if old(|players|) == 0 && pin != hostPassword then InvalidHostPassword
                    else if old(IsFull()) then RoomFull
                    else if NameTaken(old(players), name) then NameUnavailable
                    else Joined)
      ensures players == if r == Joined then old(players) + [NewPlayer(socketId, name)] else old(players)
      ensures r == Joined && old(players) == [] ==> IsHost(socketId)
    {
      if |players| == 0 && pin != hostPassword {
        return InvalidHostPassword;
      }
      if IsFull() {
        return RoomFull;
      }
      var added := AddPlayer(socketId, name);
      if !added {
        return NameUnavailable;
      }
      return Joined;
    }

    /** The player-ready handler: marks the sender ready; answers whether a round start gets scheduled. */
    method SetReady(socketId: string) returns (startRound: bool)
      requires Valid()
      modifies this`players
      ensures Valid()
      ensures FindSeat(old(players), socketId).None? ==> players == old(players) && !startRound
      ensures FindSeat(old(players), socketId).Some? ==>
        var i := FindSeat(old(players), socketId).value;
        players == old(players)[i := old(players)[i].(isReady := true)] && (startRound <==> AllReady())
    {
      var seat := FindSeat(players, socketId);
      if seat.None? {
        return false;
      }
      var i := seat.value;
      players := players[i := players[i].(isReady := true)];
      startRound := AllReady();
    }

    /** dealCards: seat i receives deck[13i .. 13i + 13), nothing else changes. */
    method DealCards(deck: seq<Card>)
      requires Valid() && 13 * |players| <= |deck| && NoDup(deck)
      modifies this`players
      ensures Valid()
      ensures |players| == old(|players|)
      ensures forall i :: 0 <= i < |players| ==>
        players[i] == old(players[i]).(hand := DealtHands(deck, |players|)[i])
      ensures Hands(players) == DealtHands(deck, |players|)
    {
      DealtHandsPartition(deck, |players|);
      var idx := 0;
      var i := 0;
      while i < |players|
        invariant 0 <= i <= |players| == old(|players|)
        invariant idx == 13 * i
        invariant forall k :: 0 <= k < i ==>
          players[k] == old(players[k]).(hand := DealtHands(deck, |players|)[k])
        invariant forall k :: i <= k < |players| ==> players[k] == old(players[k])
      {
        players := players[i := players[i].(hand := deck[idx .. idx + 13])];
        idx := idx + 13;
        i := i + 1;
      }
      assert Hands(players) == DealtHands(deck, |players|);
      assert forall k :: 0 <= k < |players| ==> players[k].name == old(players[k]).name;
    }

    /** The reset at the head of startNewRound: bid unset, no tricks, no round score, per seat. */
    method ResetRoundStats()
      requires Valid()
      modifies this`players
      ensures Valid()
      ensures |players| == old(|players|)
      ensures forall i :: 0 <= i < |players| ==>
        players[i] == old(players[i]).(bid := None, tricksWon := 0, score := 0)
    {
      var i := 0;
      while i < |players|
        invariant 0 <= i <= |players| == old(|players|)
        invariant forall k :: 0 <= k < i ==>
          players[k] == old(players[k]).(bid := None, tricksWon := 0, score := 0)
        invariant forall k :: i <= k < |players| ==> players[k] == old(players[k])
      {
        players := players[i := players[i].(bid := None, tricksWon := 0, score := 0)];
        i := i + 1;
      }
      SameNamesAndHands(old(players), players);
    }

    /** The hands and the trump are those of draw d, and valid is checkValidDeal's verdict on them. */
    predicate DealtFrom(d: Draw, valid: bool)
      reads this
    {
      (maxPlayers == 3 || maxPlayers == 4) && |players| <= maxPlayers && DrawFits(d, maxPlayers) &&
      Hands(players) == HandsFor(d, maxPlayers, |players|) &&
      trumpSuit == Some(TrumpFor(d, maxPlayers)) &&
      valid == DrawAccepted(d, maxPlayers, |players|)
    }

    /**
     * One pass of the re-deal loop: a fresh shuffled deck, dealt 13 cards a
     * seat, a drawn trump suit, and checkValidDeal's verdict on the deal.
     */
    method DealAttempt(d: Draw) returns (valid: bool)
      requires Valid() && DrawFits(d, maxPlayers)
      modifies this`players, this`trumpSuit
      ensures Valid()
      ensures |players| == old(|players|)
      ensures SameButHands(old(players), players)
      ensures DealtFrom(d, valid)
    {
      var deck := CreateDeck(maxPlayers, d.swaps);
      DealCards(deck);
      var suitList := SuitList(maxPlayers);
      trumpSuit := Some(suitList[d.trumpIndex]);
      valid := CheckValidDeal(Hands(players), maxPlayers, suitList[d.trumpIndex]);
    }

    /**
     * The re-deal loop of startNewRound (a do-while): deals until a deal
     * passes checkValidDeal or 100 attempts are used; the last deal is kept
     * either way.
     */
    method DealUntilValid(draws: seq<Draw>) returns (attempts: nat, valid: bool)
      requires Valid()
      requires |draws| == MaxDealAttempts
      requires forall k :: 0 <= k < |draws| ==> DrawFits(draws[k], maxPlayers)
      modifies this`players, this`trumpSuit
      ensures Valid()
      ensures 1 <= attempts <= MaxDealAttempts
      ensures SameButHands(old(players), players)
      ensures DealtFrom(draws[attempts - 1], valid)
      ensures valid || attempts == MaxDealAttempts
      ensures AllRejected(draws, attempts - 1, maxPlayers, |players|)
    {
      ghost var seats := |players|;
      valid := DealAttempt(draws[0]);
      attempts := 1;
      while !valid && attempts < MaxDealAttempts
        invariant 1 <= attempts <= MaxDealAttempts
        invariant Valid()
        invariant |players| == seats
        invariant SameButHands(old(players), players)
        invariant DealtFrom(draws[attempts - 1], valid)
        invariant AllRejected(draws, attempts - 1, maxPlayers, seats)
      {
        ghost var prior := players;
        AllRejectedExtend(draws, attempts - 1, maxPlayers, seats);
        valid := DealAttempt(draws[attempts]);
        SameButHandsTrans(old(players), prior, players);
        attempts := attempts + 1;
      }
    }

    /**
     * startNewRound: resets every bid to unset and tricks and round score to
     * 0, then deals until a deal passes checkValidDeal or 100 attempts are
     * used (the last deal is kept either way), and opens the bidding.
     */
    method StartNewRound(draws: seq<Draw>) returns (attempts: nat, accepted: bool)
      requires Valid()
      requires |draws| == MaxDealAttempts
      requires forall k :: 0 <= k < |draws| ==> DrawFits(draws[k], maxPlayers)
      modifies this`players, this`trumpSuit, this`phase, this`trickNumber, this`currentTrick
      modifies this`trickHistory, this`leadSuit
      ensures Valid()
      ensures 1 <= attempts <= MaxDealAttempts
      ensures |players| == old(|players|)
      ensures forall i :: 0 <= i < |players| ==>
        players[i] == old(players[i]).(hand := players[i].hand, bid := None, tricksWon := 0, score := 0)
      ensures DealtFrom(draws[attempts - 1], accepted)
      ensures accepted || attempts == MaxDealAttempts
      ensures AllRejected(draws, attempts - 1, maxPlayers, |players|)
      ensures phase == Bidding && trickNumber == 1 && currentTrick == [] && trickHistory == []
      ensures leadSuit == None
    {
      ResetRoundStats();
      ghost var reset := players;
      attempts, accepted := DealUntilValid(draws);
      assert SameButHands(reset, players);
      phase := Bidding;
      trickNumber := 1;
      currentTrick := [];
      trickHistory := [];
      leadSuit := None;
    }

    /** startPlayingPhase: play opens with the drawn starting seat. */
    method StartPlayingPhase(start: nat)
      requires start < |players| || start == 0
      modifies this`phase, this`currentPlayerIndex
      ensures phase == Playing && currentPlayerIndex == start
    {
      phase := Playing;
      currentPlayerIndex := start;
    }

    /**
     * The submit-bid handler: ignored unless the room is bidding, the sender
     * is seated and the bid is in 0..13; otherwise only the sender's bid is
     * overwritten (0 included), and play starts once no bid is unset.
     */
    method SubmitBid(socketId: string, bid: int, start: nat) returns (r: BidOutcome)
      requires Valid()
      requires start < |players| || start == 0
      modifies this`players, this`phase, this`currentPlayerIndex
      ensures Valid()
      ensures r == BidIgnored <==>
        old(phase) != Bidding || FindSeat(old(players), socketId).None? || bid < 0 || bid > 13
      ensures r == BidIgnored ==>
        players == old(players) && phase == old(phase) && currentPlayerIndex == old(currentPlayerIndex)
      ensures r != BidIgnored ==>
        var i := FindSeat(old(players), socketId).value;
        players == old(players)[i := old(players)[i].(bid := Some(bid))] &&
        (r == BiddingComplete <==> EveryBidIn(players))
      ensures r == BiddingComplete ==> phase == Playing && currentPlayerIndex == start
      ensures r == BidRecorded ==> phase == old(phase) && currentPlayerIndex == old(currentPlayerIndex)
    {
      if phase != Bidding {
        return BidIgnored;
      }
      var seat := FindSeat(players, socketId);
      if seat.None? {
        return BidIgnored;
      }
      if bid < 0 || bid > 13 {
        return BidIgnored;
      }
      var i := seat.value;
      players := players[i := players[i].(bid := Some(bid))];
      SameNamesAndHands(old(players), players);
      if EveryBidIn(players) {
        StartPlayingPhase(start);
        return BiddingComplete;
      }
      return BidRecorded;
    }

    /**
     * The bidding timer: every seat still unset gets its drawn bid in 1..7,
     * explicit bids stay, and play starts unconditionally.
     */
    method OnBidTimeout(autoBids: seq<int>, start: nat)
      requires Valid()
      requires |autoBids| == |players|
      requires forall i :: 0 <= i < |autoBids| ==> 1 <= autoBids[i] <= 7
      requires start < |players| || start == 0
      modifies this`players, this`phase, this`currentPlayerIndex
      ensures Valid()
      ensures |players| == old(|players|)
      ensures forall i :: 0 <= i < |players| ==>
        players[i] == if old(players[i]).bid.None? then old(players[i]).(bid := Some(autoBids[i]))
                      else old(players[i])
      ensures EveryBidIn(players)
      ensures phase == Playing && currentPlayerIndex == start
    {
      var i := 0;
      while i < |players|
        invariant 0 <= i <= |players| == old(|players|)
        invariant forall k :: 0 <= k < i ==>
          players[k] == if old(players[k]).bid.None? then old(players[k]).(bid := Some(autoBids[k]))
                        else old(players[k])
        invariant forall k :: i <= k < |players| ==> players[k] == old(players[k])
      {
        if players[i].bid.None? {
          players := players[i := players[i].(bid := Some(autoBids[i]))];
        }
        i := i + 1;
      }
      SameNamesAndHands(old(players), players);
      StartPlayingPhase(start);
    }

    // ----------------------------------------------------------------
    // Card play
    // ----------------------------------------------------------------

    /**
     * The test a play must pass, for a card from the hand of seat `holder`
     * placed at the current turn: a current seat exists and the corrected
     * card test holds (room in the trick, card held, legality chain).
     */
    predicate CanPlay(holder: nat, card: Card)
      reads this
    {
      holder < |players| && currentPlayerIndex < |players| &&
      PlayAllowed(|players|, players[holder].hand, currentTrick, leadSuit, trumpSuit, card)
    }

    /** Every card on the table: the hands and the current trick. */
    ghost function TableCards(): multiset<Card>
      reads this
    {
      HeldCards(players) + TrickCards(currentTrick)
    }

    /** A seat is current and the holder holds the card: what the shared play step needs. */
    predicate CanStep(holder: nat, card: Card)
      reads this
    {
      holder < |players| && currentPlayerIndex < |players| && card in players[holder].hand
    }

    /**
     * The step shared by a manual and an auto play: the card leaves the
     * holder's hand, the lead suit is set on the first card, the play joins
     * the trick, and the turn passes on unless the trick is complete.
     */
    twostate predicate PlayApplied(holder: nat, card: Card, trickComplete: bool)
      reads this
    {
      holder < |old(players)| &&
      players == old(players)[holder := old(players)[holder].(hand := RemoveCard(old(players)[holder].hand, card))] &&
      leadSuit == (if old(currentTrick) == [] then Some(card.suit) else old(leadSuit)) &&
      currentTrick == old(currentTrick) + [Play(old(currentPlayerIndex), card)] &&
      (trickComplete <==> |currentTrick| == |players|) &&
      currentPlayerIndex == if trickComplete then old(currentPlayerIndex)
                            else (old(currentPlayerIndex) + 1) % |players|
    }

    method ApplyPlay(holder: nat, card: Card) returns (trickComplete: bool)
      requires Valid() && CanStep(holder, card)
      modifies this`players, this`currentTrick, this`leadSuit, this`currentPlayerIndex
      ensures Valid()
      ensures PlayApplied(holder, card, trickComplete)
      ensures multiset(players[holder].hand) + multiset{card} == old(multiset(players[holder].hand))
      ensures TableCards() == old(TableCards())
    {
      var play := Play(currentPlayerIndex, card);
      PlayKeepsTable(players, holder, currentTrick, play);
      var seated := players[holder := players[holder].(hand := RemoveCard(players[holder].hand, card))];
      var lead := if currentTrick == [] then Some(card.suit) else leadSuit;
      var trick := currentTrick + [play];
      trickComplete := |trick| == |players|;
      var next := if trickComplete then currentPlayerIndex else (currentPlayerIndex + 1) % |players|;
      players, leadSuit, currentTrick, currentPlayerIndex := seated, lead, trick, next;
    }

    /** The sender is seated and holds the current seat (socket ids compared as the handler does). */
    predicate IsTurnOf(socketId: string)
      reads this
    {
      FindSeat(players, socketId).Some? && currentPlayerIndex < |players| &&
      players[FindSeat(players, socketId).value].socketId == players[currentPlayerIndex].socketId
    }

    /**
     * The play-card handler: ignored outside the playing phase, refused when
     * it is not the sender's turn or the card fails the card test, and
     * otherwise the shared play step, keeping every card on the table.
     */
    method PlayCard(socketId: string, card: Card) returns (r: PlayOutcome)
      requires Valid()
      modifies this`players, this`currentTrick, this`leadSuit, this`currentPlayerIndex
      ensures Valid()
      ensures old(phase) != Playing ==> r == PlayIgnored
      ensures old(phase) == Playing && !old(IsTurnOf(socketId)) ==> r == NotYourTurn
      ensures old(phase) == Playing && old(IsTurnOf(socketId)) ==>
        (r.Played? <==> old(CanPlay(FindSeat(players, socketId).value, card))) &&
        (!r.Played? ==> r == CardRefused)
      ensures !r.Played? ==>
        players == old(players) && currentTrick == old(currentTrick) &&
        leadSuit == old(leadSuit) && currentPlayerIndex == old(currentPlayerIndex)
      ensures r.Played? ==>
        old(FindSeat(players, socketId)).Some? &&
        PlayApplied(old(FindSeat(players, socketId)).value, card, r.trickComplete) &&
        TableCards() == old(TableCards()) &&
        |currentTrick| <= |players|
    {
      if phase != Playing {
        return PlayIgnored;
      }
      var seat := FindSeat(players, socketId);
      if seat.None? || currentPlayerIndex >= |players| ||
         players[seat.value].socketId != players[currentPlayerIndex].socketId {
        return NotYourTurn;
      }
      if !CanPlay(seat.value, card) {
        return CardRefused;
      }
      var trickComplete := ApplyPlay(seat.value, card);
      return Played(trickComplete);
    }

    /** A seat is current and it still holds cards. */
    predicate CurrentHoldsCards()
      reads this
    {
      currentPlayerIndex < |players| && players[currentPlayerIndex].hand != []
    }

    /**
     * The auto-play candidates: the current seat's cards that pass
     * isCardPlayable, none without a current seat. Unlike a manual play there
     * is no check that the trick has room.
     */
    function AutoCandidates(): (cands: seq<Card>)
      reads this
      ensures forall c :: c in cands ==>
        CanStep(currentPlayerIndex, c) &&
        IsCardPlayable(c, players[currentPlayerIndex].hand, currentTrick, leadSuit, trumpSuit)
    {
      if currentPlayerIndex < |players| then
        Playable(players[currentPlayerIndex].hand, currentTrick, leadSuit, trumpSuit)
      else []
    }

    /**
     * The turn timer: nothing when no seat is current or its hand is empty;
     * otherwise the drawn card among the playable ones goes through the same
     * play step as a manual play. A seat with cards always plays.
     */
    method OnTurnTimeout(pick: nat) returns (played: Option<Card>, trickComplete: bool)
      requires Valid()
      requires pick < |AutoCandidates()| || AutoCandidates() == []
      modifies this`players, this`currentTrick, this`leadSuit, this`currentPlayerIndex
      ensures Valid()
      ensures old(AutoCandidates()) == [] ==>
        played == None && players == old(players) && currentTrick == old(currentTrick) &&
        leadSuit == old(leadSuit) && currentPlayerIndex == old(currentPlayerIndex)
      ensures old(AutoCandidates()) != [] ==>
        played == Some(old(AutoCandidates())[pick]) &&
        PlayApplied(old(currentPlayerIndex), played.value, trickComplete) &&
        TableCards() == old(TableCards())
      ensures old(CurrentHoldsCards()) ==> played.Some?
    {
      played, trickComplete := None, false;
      if currentPlayerIndex >= |players| || |players[currentPlayerIndex].hand| == 0 {
        return;
      }
      var cur := currentPlayerIndex;
      var playable := Playable(players[cur].hand, currentTrick, leadSuit, trumpSuit);
      SomeCardPlayable(players[cur].hand, currentTrick, leadSuit, trumpSuit);
      var autoCard := playable[pick];
      assert autoCard in playable;
      trickComplete := ApplyPlay(cur, autoCard);
      played := Some(autoCard);
    }

    // ----------------------------------------------------------------
    // Trick resolution and scoring
    // ----------------------------------------------------------------

    /**
     * The second half of evaluateTrick, once the winning seat w is known:
     * one more trick for w, the trick in the history, and the next trick
     * opened with w to lead unless this was trick 13.
     */
    method RecordTrick(w: nat)
      requires Valid() && w < |players|
      modifies this`players, this`trickHistory, this`trickNumber, this`currentTrick
      modifies this`leadSuit, this`currentPlayerIndex
      ensures Valid()
      ensures players == old(players)[w := old(players)[w].(tricksWon := old(players)[w].tricksWon + 1)]
      ensures TricksTotal(players) == old(TricksTotal(players)) + 1
      ensures trickHistory == old(trickHistory) + [TrickRecord(old(trickNumber), old(currentTrick), w)]
      ensures old(trickNumber) >= 13 ==>
        trickNumber == old(trickNumber) && currentTrick == old(currentTrick) &&
        leadSuit == old(leadSuit) && currentPlayerIndex == old(currentPlayerIndex)
      ensures old(trickNumber) < 13 ==>
        trickNumber == old(trickNumber) + 1 && currentTrick == [] && leadSuit == None &&
        currentPlayerIndex == w
    {
      var credited := players[w := players[w].(tricksWon := players[w].tricksWon + 1)];
      TricksTotalIncrement(players, w);
      SameNamesAndHands(players, credited);
      players := credited;
      trickHistory := trickHistory + [TrickRecord(trickNumber, currentTrick, w)];
      if trickNumber < 13 {
        trickNumber, currentTrick, leadSuit, currentPlayerIndex := trickNumber + 1, [], None, w;
      }
    }

    /**
     * evaluateTrick: the winner's tricksWon goes up by one and no other seat
     * changes, the trick is recorded in the history, and unless this was
     * trick 13 the next trick opens with the winner to lead. Where the source
     * would throw (empty trick, winning seat no longer seated) nothing changes.
     */
    method EvaluateTrick() returns (winner: Option<nat>)
      requires Valid()
      modifies this`players, this`trickHistory, this`trickNumber, this`currentTrick
      modifies this`leadSuit, this`currentPlayerIndex
      ensures Valid()
      ensures winner.None? ==>
        players == old(players) && trickHistory == old(trickHistory) &&
        trickNumber == old(trickNumber) && currentTrick == old(currentTrick) &&
        leadSuit == old(leadSuit) && currentPlayerIndex == old(currentPlayerIndex)
      ensures winner.None? ==>
        old(currentTrick) == [] ||
        exists at: nat :: IsTrickWinner(old(currentTrick), old(leadSuit), old(trumpSuit), at) &&
                     old(currentTrick)[at].playerIndex >= |players|
      ensures winner.Some? ==>
        exists at: nat :: IsTrickWinner(old(currentTrick), old(leadSuit), old(trumpSuit), at) &&
                     old(currentTrick)[at].playerIndex == winner.value
      ensures winner.Some? ==>
        var w := winner.value;
        w < |old(players)| &&
        players == old(players)[w := old(players)[w].(tricksWon := old(players)[w].tricksWon + 1)] &&
        TricksTotal(players) == old(TricksTotal(players)) + 1 &&
        trickHistory == old(trickHistory) + [TrickRecord(old(trickNumber), old(currentTrick), w)]
      ensures winner.Some? && old(trickNumber) >= 13 ==>
        trickNumber == old(trickNumber) && currentTrick == old(currentTrick) &&
        leadSuit == old(leadSuit) && currentPlayerIndex == old(currentPlayerIndex)
      ensures winner.Some? && old(trickNumber) < 13 ==>
        trickNumber == old(trickNumber) + 1 && currentTrick == [] && leadSuit == None &&
        currentPlayerIndex == winner.value
    {
      if currentTrick == [] {
        return None;
      }
      var at := TrickWinner(currentTrick, leadSuit, trumpSuit);
      var w := currentTrick[at].playerIndex;
      if w >= |players| {
        return None;
      }
      RecordTrick(w);
      return Some(w);
    }

    /**
     * endRound: every player's round score follows the three-way formula on
     * (bid, tricks won), is added to the running total, and the phase
     * becomes scoring.
     */
    method EndRound()
      requires Valid()
      modifies this`players, this`phase
      ensures Valid()
      ensures phase == Scoring
      ensures |players| == old(|players|)
      ensures forall i :: 0 <= i < |players| ==>
        var p := old(players[i]);
        var s := RoundScore(BidValue(p.bid), p.tricksWon);
        players[i] == p.(score := s, totalScore := p.totalScore + s)
    {
      var i := 0;
      while i < |players|
        invariant 0 <= i <= |players| == old(|players|)
        invariant forall k :: 0 <= k < i ==>
          var p := old(players[k]);
          var s := RoundScore(BidValue(p.bid), p.tricksWon);
          players[k] == p.(score := s, totalScore := p.totalScore + s)
        invariant forall k :: i <= k < |players| ==> players[k] == old(players[k])
      {
        var p := players[i];
        var s := RoundScore(BidValue(p.bid), p.tricksWon);
        players := players[i := p.(score := s, totalScore := p.totalScore + s)];
        i := i + 1;
      }
      SameNamesAndHands(old(players), players);
      phase := Scoring;
    }
  }
}
