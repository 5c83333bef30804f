/**
 * Concrete rounds of the dice-elimination game, worked through the rules of
 * `Game.evaluate` and `Game.getWinners` (dg/dg.go).
 */
module Scenarios {
  import opened Rules
  import opened RuleLemmas
  import opened Winners

  /** The first two passes for a roster of two players with IDs 1 and 2, player by player. */
  lemma TwoPlayers(a: Player, b: Player)
    requires a.id == 1 && b.id == 2
    ensures AfterTransfers([a, b]) == [Receive(Resolved(a), Count(b.dice, 1)), Receive(Resolved(b), Count(a.dice, 1))]
  {
    IncomingFromPrevious([a, b], 0);
    IncomingFromPrevious([a, b], 1);
  }

  /** Resolving a hand of one die. */
  lemma SingleDie(s: seq<int>)
    requires |s| == 1
    ensures Kept(s) == if Stays(s[0]) then s else []
    ensures Count(s, 1) == (if s[0] == 1 then 1 else 0) && Count(s, 6) == (if s[0] == 6 then 1 else 0)
  {
    assert s[..0] == [];
  }

  /**
   * Two players with one die each both roll a 6: both score six, both hands
   * empty, both are eliminated in the same round (nobody remains), and both
   * are winners.
   */
  lemma TwoSixesTie(a: Player, b: Player)
    requires a.id == 1 && a.score == 0 && !a.eliminated && |a.dice| == 1 && a.dice[0] == 6
    requires b.id == 2 && b.score == 0 && !b.eliminated && |b.dice| == 1 && b.dice[0] == 6
    ensures |Evaluated([a, b])| == 2
    ensures forall t :: 0 <= t < 2 ==>
      Evaluated([a, b])[t].score == 6 && Evaluated([a, b])[t].eliminated && Evaluated([a, b])[t].dice == []
    ensures Dropped([a, b]) == 2
    ensures Top(Evaluated([a, b])) == Evaluated([a, b])
  {
    SingleDie(a.dice);
    SingleDie(b.dice);
    TwoPlayers(a, b);
    ReceiveNone(Resolved(a));
    ReceiveNone(Resolved(b));
    var qs := AfterTransfers([a, b]);
    assert qs[0].dice == [] && qs[1].dice == [];
    assert qs[..1][..0] == [];
    assert NewlyOut(qs[..1]) == 1;
    TopAllTied(Evaluated([a, b]));
  }

  /**
   * The first of two players rolls a single 1 and the second a 3: the 1 leaves
   * the first hand, which is then empty and eliminated, and the second player
   * receives one new die showing 1 behind its 3.
   */
  lemma OnePassedOn(a: Player, b: Player)
    requires a.id == 1 && a.score == 0 && !a.eliminated && |a.dice| == 1 && a.dice[0] == 1
    requires b.id == 2 && b.score == 0 && !b.eliminated && |b.dice| == 1 && b.dice[0] == 3
    ensures Evaluated([a, b]) == [Player(1, 0, true, []), Player(2, 0, false, [3, 1])]
    ensures Dropped([a, b]) == 1
  {
    var qs := AfterTransfers([a, b]);
    OnePassedOnTransfers(a, b);
    assert qs[..1][..0] == [];
    assert NewlyOut(qs[..1]) == 1;
  }

  /** The first two passes of `OnePassedOn`'s round. */
  lemma OnePassedOnTransfers(a: Player, b: Player)
    requires a.id == 1 && a.score == 0 && !a.eliminated && |a.dice| == 1 && a.dice[0] == 1
    requires b.id == 2 && b.score == 0 && !b.eliminated && |b.dice| == 1 && b.dice[0] == 3
    ensures AfterTransfers([a, b]) == [Player(1, 0, false, []), Player(2, 0, false, [3, 1])]
  {
    SingleDie(a.dice);
    SingleDie(b.dice);
    TwoPlayers(a, b);
    ReceiveNone(Resolved(a));
    assert b.dice + OnesHand(1) == [3, 1];
  }
}
