/**
 The vote handler's decision rule and scoring. Votes come from every player but
 the target, so `required` is the roster size minus one; an early majority ends
 the vote before everyone has voted, and an exact tie at the end is settled by a
 coin (`true` meaning "complete").
 */
module Tally {
  import opened Domain

  /** The running count broadcast after every vote. */
  datatype VoteCount = VoteCount(completed: nat, incomplete: nat, total: nat, required: int)

  /** The rounded-up half of the required vote count (`Math.ceil(required / 2)`). */
  function Majority(required: int): (m: int)
    ensures 2 * m - 1 <= required <= 2 * m
  {
    (required + 1) / 2
  }

  /**
   The outcome after a vote: an early majority for either side, else, once all
   required votes are in, the larger side or the coin on a tie; otherwise none yet.
   */
  function Resolve(completed: nat, incomplete: nat, required: int, coin: bool): (r: Option<Vote>)
    ensures completed > Majority(required) ==> r == Some(Complete)
    ensures completed <= Majority(required) < incomplete ==> r == Some(Incomplete)
    ensures completed + incomplete >= required ==> r.Some?
    ensures completed == incomplete && required <= completed + incomplete <= required + 1 ==>
      r == Some(if coin then Complete else Incomplete)
  {
    var majority := Majority(required);
    if completed > majority then Some(Complete)
    else if incomplete > majority then Some(Incomplete)
    else if completed + incomplete >= required then
      if completed > incomplete then Some(Complete)
      else if incomplete > completed then Some(Incomplete)
      else if coin then Some(Complete)
      else Some(Incomplete)
    else None
  }

  /** No result exactly while neither side has passed the majority and votes are missing. */
  lemma ResolvePending(completed: nat, incomplete: nat, required: int, coin: bool)
    ensures Resolve(completed, incomplete, required, coin) == None <==>
      2 * completed <= required + 1 && 2 * incomplete <= required + 1 && completed + incomplete < required
  {
  }

  /**
   The rule never goes against the count: with at most one vote per roster
   member (the target included), the side that wins has at least as many votes
   as the other, strictly more unless the coin broke a tie. The handlers do not
   keep to that bound: a departed player's vote stays in its set and voter ids
   are not checked against the roster, so the sets can outnumber a shrunken
   roster, and then the early-majority order of `Resolve` decides.
   */
  lemma ResolveFavoursLarger(completed: nat, incomplete: nat, required: int, coin: bool)
    requires completed + incomplete <= required + 1
    ensures Resolve(completed, incomplete, required, coin) == Some(Complete) ==>
      completed > incomplete || (completed == incomplete && coin)
    ensures Resolve(completed, incomplete, required, coin) == Some(Incomplete) ==>
      incomplete > completed || (completed == incomplete && !coin)
  {
  }

  /**
   Votes outnumbering the roster: with 2 complete and 3 incomplete votes and
   only 2 required, complete's early majority is checked first and wins
   against the larger side.
   */
  lemma CompleteMajorityCheckedFirst(coin: bool)
    ensures Resolve(2, 3, 2, coin) == Some(Complete)
  {
  }

  /**
   An early exit is an unbeatable lead: even if every vote still missing went
   to the other side, that side would stay behind.
   */
  lemma EarlyExitIsUnbeatable(completed: nat, incomplete: nat, required: int, coin: bool)
    requires completed + incomplete < required
    requires Resolve(completed, incomplete, required, coin).Some?
    ensures Resolve(completed, incomplete, required, coin) == Some(Complete) ==>
      incomplete + (required - completed - incomplete) < completed
    ensures Resolve(completed, incomplete, required, coin) == Some(Incomplete) ==>
      completed + (required - completed - incomplete) < incomplete
  {
  }

  /** The score of an id, or 0 for an id without an entry (`get(id) || 0`). */
  function ScoreOf(scores: map<string, nat>, id: string): nat
  {
    if id in scores then scores[id] else 0
  }

  /**
   The score table after a completed task: the target gains exactly one point
   (from 0 when it had no entry), every other entry stays as it was.
   */
  function Award(scores: map<string, nat>, target: string): (s: map<string, nat>)
    ensures s.Keys == scores.Keys + {target}
    ensures s[target] == ScoreOf(scores, target) + 1
    ensures forall id :: id in scores && id != target ==> s[id] == scores[id]
    ensures forall id :: id in scores ==> s[id] >= scores[id]
  {
    scores[target := ScoreOf(scores, target) + 1]
  }
}
