/**
 * Properties of one evaluation round (`Game.evaluate`, dg/dg.go): what each
 * pass does to a player, where the 1s go, and the bookkeeping invariants the
 * round preserves.
 */
module RuleLemmas {
  import opened Rules

  /** `removeDie` loses exactly the removed die: the other dice are all still there. */
  lemma RemoveDieMultiset(p: Player, i: int)
    requires 0 <= i < |p.dice|
    ensures multiset(p.RemoveDie(i).dice) + multiset{p.dice[i]} == multiset(p.dice)
  {
    assert p.dice == p.dice[..i] + [p.dice[i]] + p.dice[i + 1..];
  }

  /** `Count` is the multiplicity of the face in the hand. */
  lemma {:induction false} CountIsMultiplicity(s: seq<int>, v: int)
    ensures Count(s, v) == multiset(s)[v]
  {
    if s != [] {
      CountIsMultiplicity(s[..|s| - 1], v);
      assert s == s[..|s| - 1] + [s[|s| - 1]];
    }
  }

  /** A face keeps all its copies through resolution if it stays, and loses them all otherwise. */
  lemma {:induction false} KeptMultiplicity(s: seq<int>, x: int)
    ensures multiset(Kept(s))[x] == if Stays(x) then multiset(s)[x] else 0
  {
    if s != [] {
      KeptMultiplicity(s[..|s| - 1], x);
      assert s == s[..|s| - 1] + [s[|s| - 1]];
    }
  }

  /** With IDs `1..n`, the 1s that reach position `t` from the first `k` players. */
  lemma {:induction false} IncomingFromPrefix(ps: seq<Player>, t: int, k: nat)
    requires RosterIds(ps) && 0 <= t < |ps| && k <= |ps|
    ensures Incoming(ps, t, k) == if Prev(t, |ps|) < k then Count(ps[Prev(t, |ps|)].dice, 1) else 0
  {
    if k > 0 {
      IncomingFromPrefix(ps, t, k - 1);
      assert Target(ps[k - 1].id, |ps|) == t <==> k - 1 == Prev(t, |ps|);
    }
  }

  /** With IDs `1..n`, position `t` receives the 1s of the player just before it, the first player those of the last. */
  lemma IncomingFromPrevious(ps: seq<Player>, t: int)
    requires RosterIds(ps) && 0 <= t < |ps|
    ensures Incoming(ps, t, |ps|) == Count(ps[Prev(t, |ps|)].dice, 1)
  {
    IncomingFromPrefix(ps, t, |ps|);
  }

  /** A one-player roster gives its 1s back to itself. */
  lemma SinglePlayerKeepsOnes(ps: seq<Player>)
    requires RosterIds(ps) && |ps| == 1
    ensures Incoming(ps, 0, 1) == Count(ps[0].dice, 1)
  {
    IncomingFromPrevious(ps, 0);
  }

  /**
   * One round, player by player, for a roster with IDs `1..n`: the score rises
   * by six per 6, the hand keeps its dice other than 1 and 6 in order and, unless
   * the player was already eliminated, gains one die showing 1 per 1 the previous
   * player held; the player is eliminated if it was or if that hand is empty.
   */
  lemma EvaluatedAt(ps: seq<Player>, t: int)
    requires RosterIds(ps) && 0 <= t < |ps|
    ensures |Evaluated(ps)| == |ps|
    ensures Evaluated(ps)[t].id == ps[t].id
    ensures Evaluated(ps)[t].score == ps[t].score + 6 * Count(ps[t].dice, 6)
    ensures Evaluated(ps)[t].dice ==
      Kept(ps[t].dice) + (if ps[t].eliminated then [] else OnesHand(Count(ps[Prev(t, |ps|)].dice, 1)))
    ensures Evaluated(ps)[t].eliminated <==> ps[t].eliminated || |Evaluated(ps)[t].dice| == 0
  {
    IncomingFromPrevious(ps, t);
  }

  /**
   * Whatever the IDs: the roster keeps its size, order and IDs, no score falls,
   * no flag goes back to false, and the players flagged are exactly those whose
   * hand is empty after the first two passes.
   */
  lemma EvaluatedShape(ps: seq<Player>)
    ensures |Evaluated(ps)| == |ps|
    ensures forall t :: 0 <= t < |ps| ==>
      Evaluated(ps)[t].id == ps[t].id &&
      Evaluated(ps)[t].score >= ps[t].score &&
      (ps[t].eliminated ==> Evaluated(ps)[t].eliminated)
    ensures forall t :: 0 <= t < |ps| ==>
      (Evaluated(ps)[t].eliminated <==> ps[t].eliminated || |AfterTransfers(ps)[t].dice| == 0)
  {
  }

  /** Players with the same flags, position by position, have the same count of the living. */
  lemma {:induction false} SameFlagsSameCount(a: seq<Player>, b: seq<Player>)
    requires |a| == |b|
    requires forall i :: 0 <= i < |a| ==> a[i].eliminated == b[i].eliminated
    ensures CountActive(a) == CountActive(b)
  {
    if a != [] {
      SameFlagsSameCount(a[..|a| - 1], b[..|b| - 1]);
    }
  }

  /** The third pass removes from the living exactly the players it flags. */
  lemma {:induction false} MarkAllCount(qs: seq<Player>)
    ensures CountActive(MarkAll(qs)) + NewlyOut(qs) == CountActive(qs)
  {
    if qs != [] {
      var init := qs[..|qs| - 1];
      MarkAllCount(init);
      assert MarkAll(qs)[..|qs| - 1] == MarkAll(init);
    }
  }

  /** The counted players are the living: no more can be counted than there are players. */
  lemma {:induction false} NewlyOutAtMostActive(qs: seq<Player>)
    ensures NewlyOut(qs) <= CountActive(qs)
  {
    if qs != [] {
      NewlyOutAtMostActive(qs[..|qs| - 1]);
    }
  }

  /**
   * `evaluate` keeps the game's bookkeeping: if the remaining count was the
   * number of living players and the eliminated held no dice, the same holds
   * after the round with the count lowered by `Dropped`; moreover every living
   * player then holds at least one die.
   */
  lemma EvaluatePreservesConsistency(ps: seq<Player>, remaining: int)
    requires Consistent(ps, remaining)
    ensures Dropped(ps) <= remaining
    ensures Consistent(Evaluated(ps), remaining - Dropped(ps))
    ensures forall t :: 0 <= t < |ps| && !Evaluated(ps)[t].eliminated ==> |Evaluated(ps)[t].dice| > 0
  {
    var qs := AfterTransfers(ps);
    SameFlagsSameCount(qs, ps);
    MarkAllCount(qs);
    NewlyOutAtMostActive(qs);
    forall i | 0 <= i < |ps| && Evaluated(ps)[i].eliminated
      ensures |Evaluated(ps)[i].dice| == 0
    {
      if ps[i].eliminated {
        assert Kept(ps[i].dice) == [];
      }
    }
  }

  /** After a round that follows a roll of faces 1..6, every die in any hand shows 1..5. */
  lemma RoundLeavesNoSix(ps: seq<Player>, rolls: seq<seq<int>>)
    requires Consistent(ps, CountActive(ps)) && RollsFit(ps, rolls)
    ensures forall t, k :: 0 <= t < |ps| && 0 <= k < |Evaluated(Rolled(ps, rolls))[t].dice| ==>
      1 <= Evaluated(Rolled(ps, rolls))[t].dice[k] <= 5
  {
    var rs := Rolled(ps, rolls);
    forall t, k | 0 <= t < |ps| && 0 <= k < |Evaluated(rs)[t].dice|
      ensures 1 <= Evaluated(rs)[t].dice[k] <= 5
    {
      var kept := Kept(rs[t].dice);
      assert Evaluated(rs)[t].dice[..|kept|] == kept;
      if k < |kept| {
        var d := kept[k];
        assert Stays(d);
        KeptMultiplicity(rs[t].dice, d);
        assert d in multiset(kept);
        assert d in rs[t].dice;
      }
    }
  }

  /** A roster in which nobody is eliminated counts every player as living. */
  lemma {:induction false} AllActiveCount(ps: seq<Player>)
    requires forall i :: 0 <= i < |ps| ==> !ps[i].eliminated
    ensures CountActive(ps) == |ps|
  {
    if ps != [] {
      AllActiveCount(ps[..|ps| - 1]);
    }
  }

  /** Examining one more die of a hand: how the surviving dice and the counts of 1s and 6s grow. */
  lemma ScanStep(s: seq<int>, m: nat)
    requires m < |s|
    ensures Kept(s[..m + 1]) == Kept(s[..m]) + (if Stays(s[m]) then [s[m]] else [])
    ensures Count(s[..m + 1], 1) == Count(s[..m], 1) + (if s[m] == 1 then 1 else 0)
    ensures Count(s[..m + 1], 6) == Count(s[..m], 6) + (if s[m] == 6 then 1 else 0)
  {
    assert s[..m + 1][..m] == s[..m];
  }

  /**
   * One step of the left-to-right scan of a hand `d` at position `j`, with `m`
   * dice of the original hand `s` examined: `d` holds the survivors so far up
   * to `j` and the unexamined dice from there. Stepping over a face that stays,
   * or removing a 1 or a 6 at `j`, gives the same picture with `m + 1` examined.
   */
  lemma ScanHand(s: seq<int>, m: nat, d: seq<int>, j: nat)
    requires m < |s| && j <= |d| && d[..j] == Kept(s[..m]) && d[j..] == s[m..]
    ensures j < |d| && d[j] == s[m]
    ensures Stays(s[m]) ==> d[..j + 1] == Kept(s[..m + 1]) && d[j + 1..] == s[m + 1..]
    ensures !Stays(s[m]) ==>
      (d[..j] + d[j + 1..])[..j] == Kept(s[..m + 1]) && (d[..j] + d[j + 1..])[j..] == s[m + 1..]
  {
    ScanStep(s, m);
    assert d[j..][0] == s[m..][0];
    if Stays(s[m]) {
      assert d[..j + 1] == d[..j] + [d[j]];
      assert d[j + 1..] == d[j..][1..];
    } else {
      var e := d[..j] + d[j + 1..];
      assert e[..j] == d[..j];
      assert e[j..] == d[j + 1..] == d[j..][1..];
    }
  }

  /** Receiving no dice changes nothing. */
  lemma ReceiveNone(r: Player)
    ensures Receive(r, 0) == r
  {
    assert r.dice + OnesHand(0) == r.dice;
  }

  /** Before any 1s are handed over the roster is the first pass's result. */
  lemma HandedNone(ps: seq<Player>, ps1: seq<Player>)
    requires |ps| == |ps1|
    ensures Handed(ps, ps1, 0) == ps1
  {
    forall t | 0 <= t < |ps1| ensures Handed(ps, ps1, 0)[t] == ps1[t] {
      ReceiveNone(ps1[t]);
    }
  }

  /** Handing over the 1s of player `k`: only its target position changes, by `Receive`. */
  lemma HandedStep(ps: seq<Player>, ps1: seq<Player>, k: nat)
    requires k < |ps| == |ps1|
    requires Count(ps[k].dice, 1) > 0 ==> 0 <= Target(ps[k].id, |ps|) < |ps|
    ensures Count(ps[k].dice, 1) == 0 ==> Handed(ps, ps1, k + 1) == Handed(ps, ps1, k)
    ensures Count(ps[k].dice, 1) > 0 ==>
      var t := Target(ps[k].id, |ps|);
      Handed(ps, ps1, k + 1) == Handed(ps, ps1, k)[t := Receive(Handed(ps, ps1, k)[t], Count(ps[k].dice, 1))]
  {
    var c := Count(ps[k].dice, 1);
    if c > 0 {
      var t := Target(ps[k].id, |ps|);
      ReceiveTwice(ps1[t], Incoming(ps, t, k), c);
    }
  }

  /** Rolling changes only faces: size, order, IDs, scores and flags stay, and the eliminated hold no dice. */
  lemma RolledShape(ps: seq<Player>, rolls: seq<seq<int>>)
    requires Consistent(ps, CountActive(ps)) && RollsFit(ps, rolls)
    ensures |Rolled(ps, rolls)| == |ps|
    ensures forall t :: 0 <= t < |ps| ==>
      Rolled(ps, rolls)[t].id == ps[t].id && Rolled(ps, rolls)[t].score == ps[t].score &&
      Rolled(ps, rolls)[t].eliminated == ps[t].eliminated &&
      |Rolled(ps, rolls)[t].dice| == |ps[t].dice|
    ensures Consistent(Rolled(ps, rolls), CountActive(ps))
  {
    SameFlagsSameCount(Rolled(ps, rolls), ps);
  }

  /**
   * One round (roll, then evaluate) on a consistent roster with sound IDs:
   * the rolled roster can be evaluated, and afterwards the bookkeeping is still
   * consistent, the IDs are still sound, and size, IDs, scores and flags only
   * move the way the rules allow.
   */
  lemma RoundKeepsBookkeeping(ps: seq<Player>, rolls: seq<seq<int>>, remaining: int)
    requires Consistent(ps, remaining) && SoundIds(ps) && RollsFit(ps, rolls)
    ensures Evaluable(Rolled(ps, rolls))
    ensures Dropped(Rolled(ps, rolls)) <= remaining
    ensures Consistent(Evaluated(Rolled(ps, rolls)), remaining - Dropped(Rolled(ps, rolls)))
    ensures SoundIds(Evaluated(Rolled(ps, rolls)))
    ensures |Evaluated(Rolled(ps, rolls))| == |ps|
    ensures forall t :: 0 <= t < |ps| ==>
      Evaluated(Rolled(ps, rolls))[t].id == ps[t].id &&
      Evaluated(Rolled(ps, rolls))[t].score >= ps[t].score &&
      (ps[t].eliminated ==> Evaluated(Rolled(ps, rolls))[t].eliminated)
  {
    var rs := Rolled(ps, rolls);
    RolledShape(ps, rolls);
    EvaluatePreservesConsistency(rs, remaining);
    EvaluatedShape(rs);
  }

  /** Receiving `a` dice and then `b` more is receiving `a + b`. */
  lemma ReceiveTwice(r: Player, a: nat, b: nat)
    ensures Receive(Receive(r, a), b) == Receive(r, a + b)
  {
    assert OnesHand(a) + OnesHand(b) == OnesHand(a + b);
  }
}
