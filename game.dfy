/**
 * The game engine of dg/dg.go: the players' dice operations, the `Game`
 * object whose roster and counters `evaluate`, `getWinners` and one round of
 * `Play` update in place, and the two constructors with their error returns.
 */
module DiceGame {
  import opened Wrappers
  import opened Rules
  import opened RuleLemmas
  import opened Winners

  /** `rollDice` with the random faces injected: die `k` now shows `faces[k]`. */
  method RollDice(p: Player, faces: seq<int>) returns (q: Player)
    requires |faces| == |p.dice|
    requires forall k :: 0 <= k < |faces| ==> 1 <= faces[k] <= 6
    ensures q.id == p.id && q.score == p.score && q.eliminated == p.eliminated
    ensures |q.dice| == |p.dice|
    ensures forall k :: 0 <= k < |q.dice| ==> q.dice[k] == faces[k] && 1 <= q.dice[k] <= 6
  {
    q := p;
    var i := 0;
    while i < |q.dice|
      invariant 0 <= i <= |q.dice| == |p.dice|
      invariant q.id == p.id && q.score == p.score && q.eliminated == p.eliminated
      invariant forall k :: 0 <= k < i ==> q.dice[k] == faces[k]
    {
      q := q.(dice := q.dice[i := faces[i]]);
      i := i + 1;
    }
  }

  /**
   * The first pass of `evaluate` on one player: scan the hand left to right,
   * staying at the same position after a removal; a 1 is counted and removed,
   * a 6 scores six and is removed, any other face stays.
   */
  method ResolveHand(p: Player) returns (q: Player, ones: nat)
    ensures q == Resolved(p)
    ensures ones == Count(p.dice, 1)
  {
    q := p;
    ones := 0;
    var j := 0;
    ghost var m := 0;  // dice of `p` examined so far
    assert p.dice[..0] == [];
    while j < |q.dice|
      invariant Scanned(p, q, j, ones, m)
      decreases |p.dice| - m
    {
      if q.dice[j] == 1 {
        ScanRemoved(p, q, j, ones, m);
        ones := ones + 1;
        q := q.RemoveDie(j);
      } else if q.dice[j] == 6 {
        ScanRemoved(p, q, j, ones, m);
        q := q.(score := q.score + 6);
        q := q.RemoveDie(j);
      } else {
        ScanKept(p, q, j, ones, m);
        j := j + 1;
      }
      m := m + 1;
    }
    assert p.dice[..m] == p.dice;
  }

  /** `m` dice of `p` examined: `q` holds the survivors so far up to `j`, then the dice not yet examined. */
  ghost predicate Scanned(p: Player, q: Player, j: int, ones: int, m: int) {
    0 <= m <= |p.dice| &&
    0 <= j <= |q.dice| &&
    q.dice[..j] == Kept(p.dice[..m]) &&
    q.dice[j..] == p.dice[m..] &&
    ones == Count(p.dice[..m], 1) &&
    q.score == p.score + 6 * Count(p.dice[..m], 6) &&
    q.id == p.id && q.eliminated == p.eliminated
  }

  /** The scan invariant survives removing a 1 (counted) or a 6 (scored) at position `j`. */
  lemma ScanRemoved(p: Player, q: Player, j: int, ones: int, m: int)
    requires Scanned(p, q, j, ones, m) && j < |q.dice| && !Stays(q.dice[j])
    ensures m < |p.dice|
    ensures q.dice[j] == 1 ==> Scanned(p, q.RemoveDie(j), j, ones + 1, m + 1)
    ensures q.dice[j] == 6 ==> Scanned(p, q.(score := q.score + 6).RemoveDie(j), j, ones, m + 1)
  {
    assert |q.dice[j..]| == |p.dice[m..]|;
    ScanHand(p.dice, m, q.dice, j);
    ScanStep(p.dice, m);
  }

  /** The scan invariant survives stepping over a die that stays. */
  lemma ScanKept(p: Player, q: Player, j: int, ones: int, m: int)
    requires Scanned(p, q, j, ones, m) && j < |q.dice| && Stays(q.dice[j])
    ensures m < |p.dice| && Scanned(p, q, j + 1, ones, m + 1)
  {
    assert |q.dice[j..]| == |p.dice[m..]|;
    ScanHand(p.dice, m, q.dice, j);
    ScanStep(p.dice, m);
  }

  class Game {
    // Setting
    var totalPlayers: int
    var totalDice: int
    // Game
    var remaining: int
    var players: seq<Player>
    var winners: seq<Player>

    /** The state of a running or finished game. */
    ghost predicate Valid()
      reads this
    {
      |players| > 0 && totalPlayers == |players| &&
      SoundIds(players) && Consistent(players, remaining)
    }

    /**
     * Before the winners are computed: the list holds only the copy of the first
     * player taken at creation, whose score can only have risen since.
     */
    ghost predicate Running()
      reads this
    {
      |players| > 0 && |winners| == 1 &&
      winners[0].id == players[0].id && winners[0].score <= players[0].score
    }

    constructor (ps: seq<Player>)
      requires |ps| > 0
      ensures totalPlayers == |ps| && totalDice == |ps[0].dice|
      ensures remaining == |ps| && players == ps && winners == [ps[0]]
    {
      totalPlayers := |ps|;
      totalDice := |ps[0].dice|;
      remaining := |ps|;
      players := ps;
      winners := [ps[0]];
    }

    /**
     * `evaluate`: the three passes in order. The roster becomes `Evaluated` of the
     * old roster and the remaining count drops by one per newly eliminated player.
     */
    method Evaluate()
      requires Evaluable(players)
      modifies this
      ensures players == Evaluated(old(players))
      ensures remaining == old(remaining) - Dropped(old(players))
      ensures totalPlayers == old(totalPlayers) && totalDice == old(totalDice) && winners == old(winners)
    {
      ghost var ps0 := players;
      var ones := ResolveDice();
      PassOnes(ps0, ones);
      assert players == AfterTransfers(ps0);
      EliminateEmpty();
    }

    /** First pass of `evaluate`: resolve every hand, counting each player's 1s by roster position. */
    method ResolveDice() returns (ones: seq<nat>)
      modifies this`players
      ensures |players| == |old(players)| == |ones|
      ensures forall k :: 0 <= k < |players| ==>
        players[k] == Resolved(old(players)[k]) && ones[k] == Count(old(players)[k].dice, 1)
    {
      ghost var ps0 := players;
      ones := [];
      var i := 0;
      while i < |players|
        invariant 0 <= i <= |players| == |ps0|
        invariant |ones| == i
        invariant forall k :: 0 <= k < i ==> players[k] == Resolved(ps0[k]) && ones[k] == Count(ps0[k].dice, 1)
        invariant forall k :: i <= k < |players| ==> players[k] == ps0[k]
      {
        var p, c := ResolveHand(players[i]);
        players := players[i := p];
        ones := ones + [c];
        i := i + 1;
      }
    }

    /**
     * Second pass of `evaluate`: the player with ID `id` hands its 1s to position
     * `id`, or to position 0 when `id` is not below the roster size; each becomes
     * a new die showing 1, added only if the recipient is not eliminated.
     */
    method PassOnes(ghost ps0: seq<Player>, ones: seq<nat>)
      requires Evaluable(ps0) && |ps0| == |players| == |ones|
      requires forall k :: 0 <= k < |ps0| ==> players[k].id == ps0[k].id && ones[k] == Count(ps0[k].dice, 1)
      modifies this`players
      ensures players == Handed(ps0, old(players), |ps0|)
    {
      ghost var ps1 := players;
      var n := |players|;
      var s := 0;
      HandedNone(ps0, ps1);
      while s < n
        invariant 0 <= s <= n == |players|
        invariant players == Handed(ps0, ps1, s)
      {
        HandedStep(ps0, ps1, s);
        var v := ones[s];
        if v > 0 {
          var id := players[s].id;
          var t := if id < n then id else 0;
          HandOver(t, v);
        }
        s := s + 1;
      }
    }

    /** The inner loop of the second pass: `v` dice showing 1 go to position `t`, unless that player is eliminated. */
    method HandOver(t: int, v: nat)
      requires 0 <= t < |players|
      modifies this`players
      ensures players == old(players)[t := Receive(old(players)[t], v)]
    {
      ghost var r := players[t];
      assert r.dice + OnesHand(0) == r.dice;
      var j := 0;
      while j < v
        invariant 0 <= j <= v
        invariant players == old(players)[t := Receive(r, j)]
      {
        if !players[t].eliminated {
          assert (r.dice + OnesHand(j)) + [1] == r.dice + OnesHand(j + 1);
          players := players[t := players[t].(dice := players[t].dice + [1])];
        }
        j := j + 1;
      }
    }

    /** Third pass of `evaluate`: flag every player left without dice, once, lowering the remaining count. */
    method EliminateEmpty()
      modifies this`players, this`remaining
      ensures players == MarkAll(old(players))
      ensures remaining == old(remaining) - NewlyOut(old(players))
    {
      ghost var qs := players;
      var i := 0;
      while i < |players|
        invariant 0 <= i <= |players| == |qs|
        invariant forall k :: 0 <= k < i ==> players[k] == Marked(qs[k])
        invariant forall k :: i <= k < |players| ==> players[k] == qs[k]
        invariant remaining == old(remaining) - NewlyOut(qs[..i])
      {
        assert qs[..i + 1][..i] == qs[..i];
        var p := players[i];
        if |p.dice| == 0 && !p.eliminated {
          players := players[i := p.(eliminated := true)];
          remaining := remaining - 1;
        }
        i := i + 1;
      }
      assert qs[..i] == qs;
    }

    /**
     * `getWinners`: scan the roster; a higher score restarts the list with that
     * player, an equal score by a player other than the first appends it. The
     * list then names, in roster order, every player holding the top score; only
     * its head may still be the creation-time copy of the first player.
     */
    method GetWinners()
      requires Running()
      requires forall i :: 0 < i < |players| ==> players[i].id != players[0].id
      modifies this`winners
      ensures |winners| > 0
      ensures Tags(winners) == Tags(Top(players))
      ensures winners[1..] == Top(players)[1..]
      ensures winners[0] == Top(players)[0] || winners[0] == old(winners[0])
    {
      ghost var w0 := winners[0];
      var k := 0;
      while k < |players|
        invariant 0 <= k <= |players|
        invariant ScanInvariant(players, k, winners, w0)
      {
        var p := players[k];
        WinnersScanStep(players, k, winners, w0);
        if p.score > winners[0].score {
          winners := [p];
        } else if p.score == winners[0].score && p.id != players[0].id {
          winners := winners + [p];
        }
        k := k + 1;
      }
      assert players[..k] == players;
    }

    /** The rolling step of a round: every player with dice who is not eliminated rolls its injected faces. */
    method RollAll(rolls: seq<seq<int>>)
      requires RollsFit(players, rolls)
      modifies this`players
      ensures players == Rolled(old(players), rolls)
    {
      ghost var ps0 := players;
      var i := 0;
      while i < |players|
        invariant 0 <= i <= |players| == |ps0|
        invariant forall k :: 0 <= k < i ==> players[k] == Rolled(ps0, rolls)[k]
        invariant forall k :: i <= k < |players| ==> players[k] == ps0[k]
      {
        if |players[i].dice| > 0 && !players[i].eliminated {
          var q := RollDice(players[i], rolls[i]);
          players := players[i := q];
        }
        i := i + 1;
      }
    }

    /**
     * One round of `Play`: every player with dice who is not eliminated rolls
     * (faces injected by `rolls`), the round is evaluated, and the game ends
     * when at most one player remains, at which point the winners are computed.
     */
    method PlayRound(rolls: seq<seq<int>>) returns (ended: bool)
      requires Valid() && Running() && RollsFit(players, rolls)
      modifies this
      ensures Valid()
      ensures players == Evaluated(Rolled(old(players), rolls))
      ensures remaining == old(remaining) - Dropped(Rolled(old(players), rolls)) && remaining <= old(remaining)
      ensures forall t :: 0 <= t < |players| ==>
        players[t].score >= old(players)[t].score && (old(players)[t].eliminated ==> players[t].eliminated)
      ensures ended <==> remaining <= 1
      ensures ended ==> Tags(winners) == Tags(Top(players))
      ensures !ended ==> winners == old(winners) && Running()
      ensures totalPlayers == old(totalPlayers) && totalDice == old(totalDice)
    {
      ghost var ps0 := players;
      RollAll(rolls);
      RoundKeepsBookkeeping(ps0, rolls, remaining);
      Evaluate();
      ended := remaining <= 1;
      if ended {
        GetWinners();
      }
    }
  }

  /** A player as `CreatePlayers` makes it: ID `id`, no score, not eliminated, `totalDice` dice showing 0. */
  predicate IsNewPlayer(p: Player, id: int, totalDice: int) {
    p.id == id && p.score == 0 && !p.eliminated &&
    |p.dice| == totalDice && forall k :: 0 <= k < |p.dice| ==> p.dice[k] == 0
  }

  /**
   * `CreatePlayers`: an error for a negative count, otherwise `totalPlayers`
   * new players with IDs 1..totalPlayers in order. A negative dice count with
   * at least one player makes the source panic, so it is excluded.
   */
  method CreatePlayers(totalPlayers: int, totalDice: int) returns (r: Result<seq<Player>>)
    requires totalPlayers <= 0 || totalDice >= 0
    ensures r.Err? <==> totalPlayers < 0
    ensures r.Ok? ==> |r.value| == totalPlayers
    ensures r.Ok? ==> forall i :: 0 <= i < |r.value| ==> IsNewPlayer(r.value[i], i + 1, totalDice)
  {
    if totalPlayers < 0 {
      return Err("totalPlayers cannot be negative");
    }
    var players := new Player[totalPlayers];
    var i := 0;
    while i < totalPlayers
      invariant 0 <= i <= totalPlayers
      invariant forall k :: 0 <= k < i ==> IsNewPlayer(players[k], k + 1, totalDice)
    {
      players[i] := Player(i + 1, 0, false, seq(totalDice, _ => 0));
      i := i + 1;
    }
    return Ok(players[..]);
  }

  /** A roster of new players is ready to play: IDs 1..n, all counted as living, no eliminated hands. */
  lemma NewPlayersReady(ps: seq<Player>, totalDice: int)
    requires forall i :: 0 <= i < |ps| ==> IsNewPlayer(ps[i], i + 1, totalDice)
    ensures RosterIds(ps) && SoundIds(ps) && Consistent(ps, |ps|)
  {
    AllActiveCount(ps);
  }

  /**
   * `CreateGame`: an error for a nil roster; otherwise a game over that roster,
   * everybody counted as remaining, and the first player as the only winner so
   * far. A non-nil empty roster makes the source panic, so it is excluded.
   */
  method CreateGame(ps: Option<seq<Player>>) returns (r: Result<Game>)
    requires ps.Some? ==> |ps.value| > 0
    ensures r.Err? <==> ps.None?
    ensures r.Ok? ==> fresh(r.value)
    ensures r.Ok? ==>
      r.value.totalPlayers == |ps.value| && r.value.totalDice == |ps.value[0].dice| &&
      r.value.remaining == |ps.value| && r.value.players == ps.value && r.value.winners == [ps.value[0]]
    ensures r.Ok? && SoundIds(ps.value) && (forall i :: 0 <= i < |ps.value| ==> !ps.value[i].eliminated) ==>
      r.value.Valid() && r.value.Running()
  {
    if ps.None? {
      return Err("players cannot be nil");
    }
    var g := new Game(ps.value);
    if SoundIds(ps.value) && (forall i :: 0 <= i < |ps.value| ==> !ps.value[i].eliminated) {
      AllActiveCount(ps.value);
    }
    return Ok(g);
  }
}
