/** Round scoring of server.js (endRound). */
module Scores {
  import opened Wrappers

  /**
   * The score of one player for a round: a failed bid (won < bid) and a
   * doubled-or-more overtrick (won >= 2 * bid) both cost 10 per bid trick;
   * otherwise the bid earns 10 per trick, or 20 per trick for bids of 7 or more.
   */
  function RoundScore(bid: int, won: int): (score: int)
    ensures 0 <= bid ==> (score > 0 <==> bid <= won < 2 * bid)
    ensures 0 <= bid ==> (score == 0 <==> bid == 0)
    ensures score == -10 * bid || score == 10 * bid || score == 20 * bid
    ensures 0 < bid ==> (score == 20 * bid <==> 7 <= bid <= won < 2 * bid)
    ensures 0 < bid ==> (score == 10 * bid <==> bid < 7 && bid <= won < 2 * bid)
    ensures 0 < bid ==> (score == -10 * bid <==> won < bid || 2 * bid <= won)
  {
    if won < bid then -10 * bid
    else if won >= bid && won < 2 * bid then (if bid >= 7 then 20 * bid else 10 * bid)
    else -10 * bid
  }

  /**
   * The bid endRound scores: an unset bid (null) compares and multiplies as 0
   * in the source's arithmetic.
   */
  function BidValue(bid: Option<int>): int {
    if bid.Some? then bid.value else 0
  }

  lemma WorkedScores()
    ensures RoundScore(5, 5) == 50
    ensures RoundScore(8, 9) == 160
    ensures RoundScore(3, 1) == -30
    ensures RoundScore(4, 9) == -40
    ensures forall won :: RoundScore(0, won) == 0
  {
  }
}
