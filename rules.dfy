/**
 * The rules of one evaluation round of the dice-elimination game, stated as
 * functions on values. Each function describes what one pass of
 * `Game.evaluate` (dg/dg.go) leaves behind; the imperative methods of the
 * `Game` class are proved to produce exactly these values.
 */
module Rules {

  /** A player: identity, score, elimination flag and the dice in hand, in order. */
  datatype Player = Player(id: int, score: int, eliminated: bool, dice: seq<int>)
  {
    /** `removeDie`: the die at position `i` leaves the hand; the dice after it close the gap. */
    function RemoveDie(i: int): (q: Player)
      requires 0 <= i < |dice|
      ensures q.id == id && q.score == score && q.eliminated == eliminated
      ensures |q.dice| == |dice| - 1
      ensures forall k :: 0 <= k < |q.dice| ==> q.dice[k] == if k < i then dice[k] else dice[k + 1]
    {
      this.(dice := dice[..i] + dice[i + 1..])
    }
  }

  /** Number of occurrences of the face `v` in `s`. */
  function Count(s: seq<int>, v: int): (c: nat)
    ensures c <= |s|
  {
    if s == [] then 0 else Count(s[..|s| - 1], v) + (if s[|s| - 1] == v then 1 else 0)
  }

  /** A die that survives resolution: neither a 1 (passed on) nor a 6 (scored). */
  predicate Stays(d: int) {
    d != 1 && d != 6
  }

  /** The dice of a hand that survive resolution, in their original order. */
  function Kept(s: seq<int>): (r: seq<int>)
    ensures |r| + Count(s, 1) + Count(s, 6) == |s|
    ensures forall k :: 0 <= k < |r| ==> Stays(r[k])
  {
    if s == [] then [] else Kept(s[..|s| - 1]) + (if Stays(s[|s| - 1]) then [s[|s| - 1]] else [])
  }

  /** A player after the first pass: 1s and 6s leave the hand, each 6 is worth six points. */
  function Resolved(p: Player): Player {
    p.(dice := Kept(p.dice), score := p.score + 6 * Count(p.dice, 6))
  }

  /** Roster index that receives the 1s of the player with ID `id` in a roster of `n`. */
  function Target(id: int, n: int): int {
    if id < n then id else 0
  }

  /** Number of 1s that players `0 .. k-1` of the roster pass on to position `t`. */
  function Incoming(ps: seq<Player>, t: int, k: nat): nat
    requires k <= |ps|
  {
    if k == 0 then 0
    else Incoming(ps, t, k - 1) + (if Target(ps[k - 1].id, |ps|) == t then Count(ps[k - 1].dice, 1) else 0)
  }

  /** `c` new dice, each holding the literal 1 the second pass appends. */
  function OnesHand(c: nat): seq<int> {
    seq(c, _ => 1)
  }

  /**
   * Player `t` after the first two passes, once the 1s of players `0 .. k-1`
   * have been handed over. A player already eliminated receives nothing.
   */
  function Transferred(ps: seq<Player>, t: int, k: nat): Player
    requires 0 <= t < |ps| && k <= |ps|
  {
    Receive(Resolved(ps[t]), Incoming(ps, t, k))
  }

  /** A player handed `c` dice showing 1: they join the hand unless the player is eliminated. */
  function Receive(r: Player, c: nat): Player {
    if r.eliminated then r else r.(dice := r.dice + OnesHand(c))
  }

  /**
   * The roster `ps1` (the first pass's result for `ps`) once the 1s of players
   * `0 .. k-1` of `ps` have been handed over.
   */
  function Handed(ps: seq<Player>, ps1: seq<Player>, k: nat): seq<Player>
    requires k <= |ps| == |ps1|
  {
    seq(|ps1|, t requires 0 <= t < |ps1| => Receive(ps1[t], Incoming(ps, t, k)))
  }

  /** The whole roster after the first two passes. */
  function AfterTransfers(ps: seq<Player>): seq<Player> {
    seq(|ps|, t requires 0 <= t < |ps| => Transferred(ps, t, |ps|))
  }

  /** The third pass on one player: an empty hand eliminates a player not yet eliminated. */
  function Marked(p: Player): Player {
    if |p.dice| == 0 && !p.eliminated then p.(eliminated := true) else p
  }

  /** The third pass on a roster. */
  function MarkAll(qs: seq<Player>): seq<Player> {
    seq(|qs|, i requires 0 <= i < |qs| => Marked(qs[i]))
  }

  /** The roster after one full `evaluate`. */
  function Evaluated(ps: seq<Player>): seq<Player> {
    MarkAll(AfterTransfers(ps))
  }

  /** Number of players the third pass eliminates: empty hand and not yet eliminated. */
  function NewlyOut(qs: seq<Player>): nat {
    if qs == [] then 0
    else NewlyOut(qs[..|qs| - 1]) + (if |qs[|qs| - 1].dice| == 0 && !qs[|qs| - 1].eliminated then 1 else 0)
  }

  /** How far `evaluate` lowers the remaining-player count. */
  function Dropped(ps: seq<Player>): nat {
    NewlyOut(AfterTransfers(ps))
  }

  /** Number of players not eliminated. */
  function CountActive(ps: seq<Player>): nat {
    if ps == [] then 0
    else CountActive(ps[..|ps| - 1]) + (if ps[|ps| - 1].eliminated then 0 else 1)
  }

  /** No two players share an ID. */
  predicate DistinctIds(ps: seq<Player>) {
    forall i, j :: 0 <= i < j < |ps| ==> ps[i].id != ps[j].id
  }

  /**
   * What `evaluate` needs of a roster: distinct IDs (its counter map is keyed
   * by ID and its size is taken as the roster size) and no negative ID on a
   * player holding 1s (that ID would be used as a slice index).
   */
  predicate Evaluable(ps: seq<Player>) {
    DistinctIds(ps) && forall k :: 0 <= k < |ps| && ps[k].id < 0 ==> Count(ps[k].dice, 1) == 0
  }

  /** IDs a game can evaluate after any roll: distinct and non-negative. */
  predicate SoundIds(ps: seq<Player>) {
    DistinctIds(ps) && forall k :: 0 <= k < |ps| ==> ps[k].id >= 0
  }

  /** IDs as `CreatePlayers` assigns them: position plus one. */
  predicate RosterIds(ps: seq<Player>) {
    forall k :: 0 <= k < |ps| ==> ps[k].id == k + 1
  }

  /** The position before `t` in a roster of `n`, wrapping from the first to the last. */
  function Prev(t: int, n: int): int {
    if t == 0 then n - 1 else t - 1
  }

  /** The game's bookkeeping agrees with the roster: the count of the living, empty hands of the eliminated. */
  predicate Consistent(ps: seq<Player>, remaining: int) {
    remaining == CountActive(ps) &&
    forall i :: 0 <= i < |ps| && ps[i].eliminated ==> |ps[i].dice| == 0
  }

  /** A player who rolls in a round: dice in hand and not eliminated. */
  predicate Eligible(p: Player) {
    |p.dice| > 0 && !p.eliminated
  }

  /** Injected rolls: one face in 1..6 per die of every eligible player. */
  predicate RollsFit(ps: seq<Player>, rolls: seq<seq<int>>) {
    |rolls| == |ps| &&
    forall i :: 0 <= i < |ps| && Eligible(ps[i]) ==>
      |rolls[i]| == |ps[i].dice| && forall k :: 0 <= k < |rolls[i]| ==> 1 <= rolls[i][k] <= 6
  }

  /** The roster once every eligible player has rolled. */
  function Rolled(ps: seq<Player>, rolls: seq<seq<int>>): seq<Player>
    requires |rolls| == |ps|
  {
    seq(|ps|, i requires 0 <= i < |ps| => if Eligible(ps[i]) then ps[i].(dice := rolls[i]) else ps[i])
  }
}
