/**
 * Who wins (`Game.getWinners`, dg/dg.go): every player holding the highest
 * score, in roster order.
 */
module Winners {
  import opened Rules

  /** The highest score on a non-empty roster. */
  function MaxScore(ps: seq<Player>): (m: int)
    requires |ps| > 0
    ensures forall i :: 0 <= i < |ps| ==> ps[i].score <= m
    ensures exists i :: 0 <= i < |ps| && ps[i].score == m
  {
    if |ps| == 1 then ps[0].score
    else
      var m0 := MaxScore(ps[..|ps| - 1]);
      if ps[|ps| - 1].score > m0 then ps[|ps| - 1].score else m0
  }

  /** The players with score `v`, in roster order. */
  function AtScore(ps: seq<Player>, v: int): seq<Player> {
    if ps == [] then []
    else AtScore(ps[..|ps| - 1], v) + (if ps[|ps| - 1].score == v then [ps[|ps| - 1]] else [])
  }

  /** The winners: the players holding the highest score, in roster order. */
  function Top(ps: seq<Player>): seq<Player>
    requires |ps| > 0
  {
    AtScore(ps, MaxScore(ps))
  }

  /** What an announcement reads of a winner: its ID and its score. */
  function Tag(p: Player): (int, int) {
    (p.id, p.score)
  }

  function Tags(ws: seq<Player>): seq<(int, int)> {
    seq(|ws|, i requires 0 <= i < |ws| => Tag(ws[i]))
  }

  /** The players with score `v` are exactly the roster's players with that score. */
  lemma {:induction false} AtScoreMembers(ps: seq<Player>, v: int)
    ensures forall p :: p in AtScore(ps, v) <==> p in ps && p.score == v
  {
    if ps != [] {
      AtScoreMembers(ps[..|ps| - 1], v);
      assert ps == ps[..|ps| - 1] + [ps[|ps| - 1]];
    }
  }

  /** No player has a score above every player's: then nobody is selected. */
  lemma {:induction false} AtScoreNone(ps: seq<Player>, v: int)
    requires forall i :: 0 <= i < |ps| ==> ps[i].score < v
    ensures AtScore(ps, v) == []
  {
    if ps != [] {
      AtScoreNone(ps[..|ps| - 1], v);
    }
  }

  /** Selecting keeps each selected player's ID, so distinct IDs stay distinct: nobody appears twice. */
  lemma {:induction false} AtScoreDistinct(ps: seq<Player>, v: int)
    requires DistinctIds(ps)
    ensures DistinctIds(AtScore(ps, v))
  {
    if ps != [] {
      var init := ps[..|ps| - 1];
      AtScoreDistinct(init, v);
      AtScoreMembers(init, v);
      var last := ps[|ps| - 1];
      if last.score == v {
        var a := AtScore(init, v);
        forall i | 0 <= i < |a| ensures a[i].id != last.id {
          assert a[i] in a;
          var j :| 0 <= j < |init| && init[j] == a[i];
        }
      }
    }
  }

  /**
   * The winner list is well formed: non-empty, every entry holds the highest
   * score, every player holding it is listed, nobody outside the list scores
   * as much, and with distinct IDs nobody is listed twice.
   */
  lemma TopWellFormed(ps: seq<Player>)
    requires |ps| > 0
    ensures |Top(ps)| > 0
    ensures forall w :: w in Top(ps) ==> w in ps && w.score == MaxScore(ps)
    ensures forall p :: p in ps && p !in Top(ps) ==> p.score < MaxScore(ps)
    ensures DistinctIds(ps) ==> DistinctIds(Top(ps))
  {
    AtScoreMembers(ps, MaxScore(ps));
    var i :| 0 <= i < |ps| && ps[i].score == MaxScore(ps);
    assert ps[i] in Top(ps);
    if DistinctIds(ps) {
      AtScoreDistinct(ps, MaxScore(ps));
    }
  }

  /** Scanning one more player: it resets the list when it beats the best so far. */
  lemma TopBeaten(ps: seq<Player>, p: Player)
    requires |ps| > 0 && p.score > MaxScore(ps)
    ensures MaxScore(ps + [p]) == p.score && Top(ps + [p]) == [p]
  {
    assert (ps + [p])[..|ps|] == ps;
    AtScoreNone(ps, p.score);
  }

  /** Scanning one more player: it joins the list when it ties the best so far. */
  lemma TopTied(ps: seq<Player>, p: Player)
    requires |ps| > 0 && p.score == MaxScore(ps)
    ensures MaxScore(ps + [p]) == p.score && Top(ps + [p]) == Top(ps) + [p]
  {
    assert (ps + [p])[..|ps|] == ps;
  }

  /** Scanning one more player: it leaves the list alone when it scores less. */
  lemma TopBelow(ps: seq<Player>, p: Player)
    requires |ps| > 0 && p.score < MaxScore(ps)
    ensures MaxScore(ps + [p]) == MaxScore(ps) && Top(ps + [p]) == Top(ps)
  {
    assert (ps + [p])[..|ps|] == ps;
  }

  /** The first player scanned is the whole list. */
  lemma TopSingle(p: Player)
    ensures MaxScore([p]) == p.score && Top([p]) == [p]
  {
    assert [p][..0] == [];
    assert AtScore([p], p.score) == AtScore([], p.score) + [p];
  }

  /** When every player has score `v`, every player is selected. */
  lemma {:induction false} AtScoreAll(ps: seq<Player>, v: int)
    requires forall i :: 0 <= i < |ps| ==> ps[i].score == v
    ensures AtScore(ps, v) == ps
  {
    if ps != [] {
      AtScoreAll(ps[..|ps| - 1], v);
      assert ps == ps[..|ps| - 1] + [ps[|ps| - 1]];
    }
  }

  /** When all players tie, all of them win, in roster order. */
  lemma TopAllTied(ps: seq<Player>)
    requires |ps| > 0 && forall i :: 0 <= i < |ps| ==> ps[i].score == ps[0].score
    ensures MaxScore(ps) == ps[0].score && Top(ps) == ps
  {
    AtScoreAll(ps, ps[0].score);
  }

  /** Appending a player appends its tag. */
  lemma TagsAppend(ws: seq<Player>, p: Player)
    ensures Tags(ws + [p]) == Tags(ws) + [Tag(p)]
  {
  }

  /**
   * What the winner scan knows after `k` players: before any, only the
   * creation-time copy `w0`; after some, the head holds the best score so far
   * and the list agrees with `Top` of the scanned players (in full after the
   * head, which may still be `w0`).
   */
  ghost predicate ScanInvariant(ps: seq<Player>, k: int, ws: seq<Player>, w0: Player)
    requires 0 <= k <= |ps|
  {
    if k == 0 then ws == [w0]
    else
      |ws| > 0 && ws[0].score == MaxScore(ps[..k]) &&
      Tags(ws) == Tags(Top(ps[..k])) && ws[1..] == Top(ps[..k])[1..] &&
      (ws[0] == Top(ps[..k])[0] || ws[0] == w0)
  }

  /** One iteration of the `getWinners` loop on player `p`, the roster's first ID being `first`. */
  function ScanOne(ws: seq<Player>, p: Player, first: int): seq<Player>
    requires |ws| > 0
  {
    if p.score > ws[0].score then [p]
    else if p.score == ws[0].score && p.id != first then ws + [p]
    else ws
  }

  /**
   * The scan invariant survives one more player, provided the scan started from
   * a copy of the first player whose score has not grown since, and no other
   * player shares the first player's ID.
   */
  lemma WinnersScanStep(ps: seq<Player>, k: int, ws: seq<Player>, w0: Player)
    requires 0 <= k < |ps| && ScanInvariant(ps, k, ws, w0)
    requires w0.id == ps[0].id && w0.score <= ps[0].score
    requires forall i :: 0 < i < |ps| ==> ps[i].id != ps[0].id
    ensures |ws| > 0 && ScanInvariant(ps, k + 1, ScanOne(ws, ps[k], ps[0].id), w0)
  {
    if k == 0 {
      ScanFirst(ps, ws, w0);
    } else {
      var p := ps[k];
      assert ps[..k + 1] == ps[..k] + [p];
      if p.score > MaxScore(ps[..k]) {
        ScanBeaten(ps[..k], ws, p, w0);
      } else if p.score == MaxScore(ps[..k]) {
        ScanTied(ps[..k], ws, p, w0);
      } else {
        TopBelow(ps[..k], p);
      }
    }
  }

  /** The first player scanned: the list is that player, or still the copy `w0` of it. */
  lemma ScanFirst(ps: seq<Player>, ws: seq<Player>, w0: Player)
    requires 0 < |ps| && ws == [w0] && w0.id == ps[0].id && w0.score <= ps[0].score
    ensures ScanInvariant(ps, 1, ScanOne(ws, ps[0], ps[0].id), w0)
  {
    assert ps[..1] == [ps[0]];
    TopSingle(ps[0]);
  }

  /** A player beating the best score so far restarts the list with itself. */
  lemma ScanBeaten(ps: seq<Player>, ws: seq<Player>, p: Player, w0: Player)
    requires 0 < |ps| && |ws| > 0 && ws[0].score == MaxScore(ps) && p.score > MaxScore(ps)
    ensures ScanOne(ws, p, w0.id) == [p]
    ensures MaxScore(ps + [p]) == p.score && Top(ps + [p]) == [p]
  {
    TopBeaten(ps, p);
  }

  /**
   * A player tying the best score so far is appended, and so is it to `Top`,
   * provided it is not the first player, whose ID nobody else holds.
   */
  lemma {:induction false} ScanTied(ps: seq<Player>, ws: seq<Player>, p: Player, w0: Player)
    requires 0 < |ps| && |ws| > 0 && ws[0].score == MaxScore(ps) && p.score == MaxScore(ps)
    requires p.id != w0.id
    requires Tags(ws) == Tags(Top(ps)) && ws[1..] == Top(ps)[1..]
    ensures ScanOne(ws, p, w0.id) == ws + [p]
    ensures MaxScore(ps + [p]) == p.score
    ensures Tags(ws + [p]) == Tags(Top(ps + [p])) && (ws + [p])[1..] == Top(ps + [p])[1..]
    ensures (ws + [p])[0] == ws[0] && Top(ps + [p])[0] == Top(ps)[0]
  {
    TopTied(ps, p);
    var top := Top(ps);
    TagsAppend(top, p);
    TagsAppend(ws, p);
    assert (ws + [p])[1..] == ws[1..] + [p];
    assert (top + [p])[1..] == top[1..] + [p];
  }
}
