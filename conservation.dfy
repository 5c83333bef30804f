/**
 * Dice are neither created nor destroyed by a round except as the rules say:
 * every 1 taken out of a hand is either handed to its recipient or withheld
 * because the recipient was already eliminated, and every 6 is scored.
 */
module Conservation {
  import opened Rules

  /** Sum of a sequence of integers. */
  function Sum(s: seq<int>): int {
    if s == [] then 0 else Sum(s[..|s| - 1]) + s[|s| - 1]
  }

  /** Hand sizes, position by position. */
  function HandSizes(ps: seq<Player>): seq<int> {
    seq(|ps|, i requires 0 <= i < |ps| => |ps[i].dice|)
  }

  /** Number of 1s each player holds (the per-player counter of the first pass). */
  function OnesOf(ps: seq<Player>): seq<int> {
    seq(|ps|, i requires 0 <= i < |ps| => Count(ps[i].dice, 1))
  }

  /** Number of 6s each player holds. */
  function SixesOf(ps: seq<Player>): seq<int> {
    seq(|ps|, i requires 0 <= i < |ps| => Count(ps[i].dice, 6))
  }

  /** Number of 1s addressed to each position by the first `k` players. */
  function IncomingUpTo(ps: seq<Player>, k: nat): seq<int>
    requires k <= |ps|
  {
    seq(|ps|, t requires 0 <= t < |ps| => Incoming(ps, t, k))
  }

  /** Number of new dice each player actually receives. */
  function ReceivedOf(ps: seq<Player>): seq<int> {
    seq(|ps|, t requires 0 <= t < |ps| => if ps[t].eliminated then 0 else Incoming(ps, t, |ps|))
  }

  /** Number of dice addressed to each player that are dropped because it was already eliminated. */
  function WithheldOf(ps: seq<Player>): seq<int> {
    seq(|ps|, t requires 0 <= t < |ps| => if ps[t].eliminated then Incoming(ps, t, |ps|) else 0)
  }

  /** Every player holding 1s passes them to a position inside the roster. */
  predicate TargetsInRoster(ps: seq<Player>) {
    forall s :: 0 <= s < |ps| && Count(ps[s].dice, 1) > 0 ==> 0 <= Target(ps[s].id, |ps|) < |ps|
  }

  lemma {:induction false} SumAdd(a: seq<int>, b: seq<int>, c: seq<int>)
    requires |a| == |b| == |c|
    requires forall i :: 0 <= i < |c| ==> c[i] == a[i] + b[i]
    ensures Sum(c) == Sum(a) + Sum(b)
  {
    if c != [] {
      SumAdd(a[..|a| - 1], b[..|b| - 1], c[..|c| - 1]);
    }
  }

  /** A sequence that is zero except at position `j` sums to its entry there. */
  lemma {:induction false} SumSingle(a: seq<int>, j: int)
    requires 0 <= j < |a|
    requires forall i :: 0 <= i < |a| && i != j ==> a[i] == 0
    ensures Sum(a) == a[j]
  {
    if j < |a| - 1 {
      SumSingle(a[..|a| - 1], j);
    } else {
      SumZero(a[..|a| - 1]);
    }
  }

  lemma {:induction false} SumZero(a: seq<int>)
    requires forall i :: 0 <= i < |a| ==> a[i] == 0
    ensures Sum(a) == 0
  {
    if a != [] {
      SumZero(a[..|a| - 1]);
    }
  }

  lemma SumPrefix(a: seq<int>, k: nat)
    requires k < |a|
    ensures Sum(a[..k + 1]) == Sum(a[..k]) + a[k]
  {
    assert a[..k + 1][..k] == a[..k];
  }

  /** The 1s addressed by the first `k` players add up to the 1s those players held. */
  lemma {:induction false} IncomingTotal(ps: seq<Player>, k: nat)
    requires k <= |ps| && TargetsInRoster(ps)
    ensures Sum(IncomingUpTo(ps, k)) == Sum(OnesOf(ps)[..k])
  {
    if k == 0 {
      SumZero(IncomingUpTo(ps, 0));
    } else {
      IncomingTotal(ps, k - 1);
      var c := Count(ps[k - 1].dice, 1);
      var tgt := Target(ps[k - 1].id, |ps|);
      var step := seq(|ps|, t requires 0 <= t < |ps| => if tgt == t then c else 0);
      SumAdd(IncomingUpTo(ps, k - 1), step, IncomingUpTo(ps, k));
      if c > 0 {
        SumSingle(step, tgt);
      } else {
        SumZero(step);
      }
      SumPrefix(OnesOf(ps), k - 1);
    }
  }

  /**
   * Redistribution closure: the 1s taken out of all hands equal the dice
   * handed out plus the dice withheld from players already eliminated.
   */
  lemma OnesClosure(ps: seq<Player>)
    requires TargetsInRoster(ps)
    ensures Sum(ReceivedOf(ps)) + Sum(WithheldOf(ps)) == Sum(OnesOf(ps))
  {
    IncomingTotal(ps, |ps|);
    assert OnesOf(ps)[..|ps|] == OnesOf(ps);
    SumAdd(ReceivedOf(ps), WithheldOf(ps), IncomingUpTo(ps, |ps|));
  }

  /** A roster `evaluate` accepts passes every 1 to a position inside the roster. */
  lemma EvaluableTargets(ps: seq<Player>)
    requires Evaluable(ps)
    ensures TargetsInRoster(ps)
  {
  }

  /**
   * Dice conservation over one round: the dice in all hands afterwards, plus
   * the 6s scored, plus the 1s withheld from eliminated recipients, are the
   * dice in all hands before.
   */
  lemma DiceConservation(ps: seq<Player>)
    requires TargetsInRoster(ps)
    ensures Sum(HandSizes(Evaluated(ps))) + Sum(SixesOf(ps)) + Sum(WithheldOf(ps)) == Sum(HandSizes(ps))
  {
    var after := HandSizes(Evaluated(ps));
    var sixes := SixesOf(ps);
    var withheld := WithheldOf(ps);
    var received := ReceivedOf(ps);
    var ones := OnesOf(ps);
    var before := HandSizes(ps);
    // Per player: what it ends with is what it kept plus what it received.
    var kept := seq(|ps|, t requires 0 <= t < |ps| => |Kept(ps[t].dice)|);
    SumAdd(kept, received, after);
    // What it kept, its 1s and its 6s make up its hand before.
    var spent := seq(|ps|, t requires 0 <= t < |ps| => ones[t] + sixes[t]);
    SumAdd(ones, sixes, spent);
    SumAdd(kept, spent, before);
    OnesClosure(ps);
  }
}
