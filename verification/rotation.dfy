/**
 Turn selection of the spin handler: everyone on the roster is picked once
 before anyone is picked again, and the bottle angle that points at the pick.
 The random draw is a parameter `pick`, an index into the candidates.
 */
module Rotation {
  import opened Domain

  /** Roster entries whose player has not had the bottle yet. */
  function NotYetSelected(players: seq<Player>, had: set<string>): (r: seq<Player>)
    ensures forall p :: p in r <==> p in players && p.userId !in had
    ensures r == [] <==> Ids(players) <= had
  {
    ExcludingEmpty(players, had);
    Excluding(players, had)
  }

  /**
   The candidates are counted right: each roster entry of a waiting player is a
   candidate exactly as often as the roster holds it, so the draw's range is the
   number of such entries. This restates `ExcludingCounts` for the candidate list.
   */
  lemma {:induction false} CandidatesCounted(players: seq<Player>, had: set<string>)
    ensures forall p :: multiset(NotYetSelected(players, had))[p] == if p.userId in had then 0 else multiset(players)[p]
  {
    ExcludingCounts(players, had);
  }

  /**
   How many candidates the random draw ranges over: the players not yet
   selected, or the whole roster once everyone has had the bottle.
   */
  function PickBound(players: seq<Player>, had: set<string>): (n: nat)
    ensures n == if Ids(players) <= had then |players| else |NotYetSelected(players, had)|
    ensures n <= |players|
    ensures n == 0 <==> players == []
  {
    var waiting := NotYetSelected(players, had);
    if |waiting| > 0 then |waiting| else |players|
  }

  /**
   The roster index of the target: the first entry bearing the id of the
   `pick`-th not-yet-selected player, or the `pick`-th player once everyone
   has been selected.
   */
  function ChooseTarget(players: seq<Player>, had: set<string>, pick: nat): (k: nat)
    requires pick < PickBound(players, had)
    ensures k < |players|
    ensures !(Ids(players) <= had) ==> players[k].userId !in had
    ensures !(Ids(players) <= had) ==> players[k].userId == NotYetSelected(players, had)[pick].userId
    ensures Ids(players) <= had ==> k == pick
  {
    var waiting := NotYetSelected(players, had);
    if |waiting| > 0 then
      assert waiting[pick] in waiting;
      FirstIndexOfMember(players, waiting[pick].userId);
      FirstIndexOf(players, waiting[pick].userId)
    else pick
  }

  /** One player's share of a full turn, `360 / playerCount` degrees. */
  function Segment(playerCount: nat): (s: real)
    requires playerCount > 0
    ensures s > 0.0 && playerCount as real * s == 360.0
  {
    360.0 / playerCount as real
  }

  /**
   The angle the bottle turns to: four full turns, then `targetIndex` segments,
   then a quarter turn so that index 0 sits at the top.
   */
  function SpinAngle(targetIndex: nat, playerCount: nat): (angle: real)
    requires targetIndex < playerCount
    ensures 1530.0 <= angle < 1890.0
  {
    var s := Segment(playerCount);
    IndexWithinTurn(targetIndex as real, playerCount as real, s);
    1440.0 + targetIndex as real * s + 90.0
  }

  /** `k` whole segments of a turn split `n` ways stay within one turn while `k < n`. */
  lemma IndexWithinTurn(k: real, n: real, s: real)
    requires 0.0 <= k && k + 1.0 <= n && s > 0.0 && n * s == 360.0
    ensures 0.0 <= k * s < 360.0
  {
    var t, u, v := k * s, (k + 1.0) * s, n * s;
    ScaleMonotone(k + 1.0, n, s);
    assert u <= v;
    ScaleDistributes(k, s);
    assert u == t + s;
    ScaleMonotone(0.0, k, s);
    assert t >= 0.0;
  }

  lemma ScaleMonotone(a: real, b: real, s: real)
    requires a <= b && s > 0.0
    ensures a * s <= b * s
  {
  }

  lemma ScaleDistributes(k: real, s: real)
    ensures (k + 1.0) * s == k * s + s
  {
  }

  /** The angle determines the target: its offset past 1530 degrees, in segments, is the index. */
  lemma AngleIdentifiesTarget(k: nat, n: nat)
    requires k < n
    ensures (SpinAngle(k, n) - 1530.0) * n as real / 360.0 == k as real
  {
    var s := Segment(n);
    var t := k as real * s;
    assert SpinAngle(k, n) - 1530.0 == t;
    ScaleAssociates(k as real, s, n as real);
    assert t * n as real == k as real * (s * n as real);
    assert s * n as real == 360.0;
  }

  lemma ScaleAssociates(a: real, b: real, c: real)
    ensures (a * b) * c == a * (b * c)
  {
  }

  /** The id a spin targets: that of the roster entry `ChooseTarget` picks. */
  ghost function TargetId(players: seq<Player>, had: set<string>, pick: nat): (id: string)
    requires pick < PickBound(players, had)
    ensures id in Ids(players)
    ensures !(Ids(players) <= had) ==> id !in had
  {
    var k := ChooseTarget(players, had, pick);
    assert players[k] in players;
    players[k].userId
  }

  /** Whether each draw of a sequence of consecutive spins lies in its range. */
  ghost predicate PicksFit(players: seq<Player>, had: set<string>, picks: seq<nat>)
    decreases |picks|
  {
    picks == [] ||
    (picks[0] < PickBound(players, had) &&
     PicksFit(players, had + {TargetId(players, had, picks[0])}, picks[1..]))
  }

  /** The ids targeted by consecutive spins over one roster, starting from `had`. */
  ghost function Spins(players: seq<Player>, had: set<string>, picks: seq<nat>): (ids: seq<string>)
    requires PicksFit(players, had, picks)
    ensures |ids| == |picks|
    decreases |picks|
  {
    if picks == [] then []
    else
      var id := TargetId(players, had, picks[0]);
      [id] + Spins(players, had + {id}, picks[1..])
  }

  /** The first spin of a sequence, while someone is still waiting, targets a waiting player. */
  lemma FirstSpinTargetsWaiting(players: seq<Player>, had: set<string>, picks: seq<nat>)
    requires PicksFit(players, had, picks) && picks != []
    requires |Ids(players) - had| > 0
    ensures var ids := Spins(players, had, picks);
      ids[0] in Ids(players) - had &&
      ids[1..] == Spins(players, had + {ids[0]}, picks[1..]) &&
      |Ids(players) - (had + {ids[0]})| == |Ids(players) - had| - 1
  {
    var id := TargetId(players, had, picks[0]);
    assert !(Ids(players) <= had) by {
      var x :| x in Ids(players) - had;
    }
    assert Ids(players) - (had + {id}) == (Ids(players) - had) - {id};
  }
  /**
   As long as no more spins happen than there are players still waiting for the
   bottle, every spin targets a player who was waiting at the start.
   */
  lemma {:induction false} RotationTargetsWaiting(players: seq<Player>, had: set<string>, picks: seq<nat>)
    requires PicksFit(players, had, picks)
    requires |picks| <= |Ids(players) - had|
    ensures forall id :: id in Spins(players, had, picks) ==> id in Ids(players) && id !in had
    decreases |picks|
  {
    if picks != [] {
      var ids := Spins(players, had, picks);
      FirstSpinTargetsWaiting(players, had, picks);
      RotationTargetsWaiting(players, had + {ids[0]}, picks[1..]);
      forall id | id in ids ensures id in Ids(players) && id !in had {
        if id != ids[0] {
          assert id in ids[1..];
        }
      }
    }
  }

  /**
   Fair rotation: as long as no more spins happen than there are players still
   waiting for the bottle, every spin targets a different waiting player.
   */
  lemma {:induction false} RotationNeverRepeats(players: seq<Player>, had: set<string>, picks: seq<nat>)
    requires PicksFit(players, had, picks)
    requires |picks| <= |Ids(players) - had|
    ensures var ids := Spins(players, had, picks);
      (forall i :: 0 <= i < |ids| ==> ids[i] in Ids(players) && ids[i] !in had) &&
      (forall i, j :: 0 <= i < j < |ids| ==> ids[i] != ids[j])
    decreases |picks|
  {
    var ids := Spins(players, had, picks);
    RotationTargetsWaiting(players, had, picks);
    assert forall i :: 0 <= i < |ids| ==> ids[i] in ids;
    if picks != [] {
      FirstSpinTargetsWaiting(players, had, picks);
      var rest := ids[1..];
      RotationNeverRepeats(players, had + {ids[0]}, picks[1..]);
      forall i, j | 0 <= i < j < |ids| ensures ids[i] != ids[j] {
        assert ids[j] == rest[j - 1];
        if i > 0 {
          assert ids[i] == rest[i - 1];
        }
      }
    }
  }

  /**
   Fair rotation, completed: as many spins as there are players waiting for the
   bottle target every one of them.
   */
  lemma {:induction false} RotationCoversEveryone(players: seq<Player>, had: set<string>, picks: seq<nat>)
    requires PicksFit(players, had, picks)
    requires |picks| == |Ids(players) - had|
    ensures forall x :: x in Ids(players) && x !in had ==> x in Spins(players, had, picks)
    decreases |picks|
  {
    var ids := Spins(players, had, picks);
    if picks == [] {
      assert Ids(players) - had == {};
      forall x | x in Ids(players) ensures x in had {
        assert x !in Ids(players) - had;
      }
    } else {
      FirstSpinTargetsWaiting(players, had, picks);
      RotationCoversEveryone(players, had + {ids[0]}, picks[1..]);
      forall x | x in Ids(players) && x !in had ensures x in ids {
        if x == ids[0] {
          assert ids[0] in ids;
        } else {
          assert x in ids[1..];
        }
      }
    }
  }
}
