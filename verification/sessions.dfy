/**
 The in-memory game-session coordinator: a store mapping room codes to session
 records, and one method per socket event that changes the record in place.
 The stored room (roster and host) is an input, `None` when the lookup finds
 no room; random draws are parameters; what the handlers broadcast is returned.
 */
module Sessions {
  import opened Domain
  import opened Roster
  import opened Rotation
  import opened Tally

  /** What `spin_result` carries. */
  datatype SpinResult = SpinResult(angle: real, targetPlayerId: string, targetPlayerName: string)

  /** What `questions_updated` reports besides the list itself. */
  datatype Progress = Progress(current: nat, total: int)

  /** What `question_selected` carries. */
  datatype Selection = Selection(question: string, askedBy: string)

  /** What the vote handler broadcasts: the running count, the result, the new score table. */
  datatype VoteOutcome = VoteOutcome(count: VoteCount, result: Option<Vote>, scores: Option<map<string, ScoreRow>>)

  /** The score table of a new session: 0 for every id on the roster, nothing else. */
  method ZeroScores(players: seq<Player>) returns (scores: map<string, nat>)
    ensures scores.Keys == Ids(players)
    ensures forall id :: id in scores ==> scores[id] == 0
  {
    scores := map[];
    for i := 0 to |players|
      invariant scores.Keys == Ids(players[..i])
      invariant forall id :: id in scores ==> scores[id] == 0
    {
      assert Ids(players[..i + 1]) == Ids(players[..i]) + {players[i].userId} by {
        assert players[..i + 1] == players[..i] + [players[i]];
      }
      scores := scores[players[i].userId := 0];
    }
    assert players[..|players|] == players;
  }

  /** One room's transient game state. */
  class Session {
    var targetPlayerId: string
    var targetPlayerName: string
    var questions: seq<Question>
    var selectedQuestion: Option<string>
    var completedVotes: set<string>
    var incompleteVotes: set<string>
    var taskType: TaskType
    var playersWhoHadBottle: set<string>
    var playerScores: map<string, nat>

    /**
     Nobody is counted on both sides of the vote, and a selected question is the
     text of one of the questions submitted this turn.
     */
    ghost predicate Valid()
      reads this
    {
      completedVotes !! incompleteVotes &&
      (selectedQuestion.Some? ==> exists q :: q in questions && q.question == selectedQuestion.value)
    }

    /** The per-turn fields are all cleared. */
    ghost predicate TurnCleared()
      reads this
    {
      questions == [] && selectedQuestion == None && completedVotes == {} && incompleteVotes == {}
    }

    /** The state of a session created for `players`: no turn yet, everyone at 0. */
    ghost predicate Initial(players: seq<Player>)
      reads this
    {
      TurnCleared() && targetPlayerId == "" && targetPlayerName == "" && taskType == Truth &&
      playersWhoHadBottle == {} &&
      playerScores.Keys == Ids(players) && forall id :: id in playerScores ==> playerScores[id] == 0
    }

    constructor (players: seq<Player>)
      ensures Valid() && Initial(players)
    {
      var scores := ZeroScores(players);
      targetPlayerId, targetPlayerName := "", "";
      questions, selectedQuestion := [], None;
      completedVotes, incompleteVotes := {}, {};
      taskType := Truth;
      playersWhoHadBottle := {};
      playerScores := scores;
    }

    /**
     Turn selection: the target is a player who has not had the bottle yet while
     there is one, and any roster entry after that; it joins the players who had
     the bottle and becomes the session's target.
     */
    method Spin(players: seq<Player>, pick: nat) returns (result: SpinResult)
      requires Valid()
      requires pick < PickBound(players, playersWhoHadBottle)
      modifies this`playersWhoHadBottle, this`targetPlayerId, this`targetPlayerName
      ensures Valid()
      ensures var k := ChooseTarget(players, old(playersWhoHadBottle), pick);
        playersWhoHadBottle == old(playersWhoHadBottle) + {players[k].userId} &&
        targetPlayerId == players[k].userId && targetPlayerName == players[k].name &&
        result == SpinResult(SpinAngle(k, |players|), targetPlayerId, targetPlayerName)
      ensures old(playersWhoHadBottle) <= playersWhoHadBottle && targetPlayerId in playersWhoHadBottle
      ensures !(Ids(players) <= old(playersWhoHadBottle)) ==> targetPlayerId !in old(playersWhoHadBottle)
      ensures 1530.0 <= result.angle < 1890.0
    {
      var k := ChooseTarget(players, playersWhoHadBottle, pick);
      var target := players[k];
      playersWhoHadBottle := playersWhoHadBottle + {target.userId};
      targetPlayerId := target.userId;
      targetPlayerName := target.name;
      result := SpinResult(SpinAngle(k, |players|), target.userId, target.name);
    }

    /** A new task type starts a fresh turn: questions, selection and votes are cleared. */
    method BeginTask(t: TaskType)
      modifies this`taskType, this`questions, this`selectedQuestion, this`completedVotes, this`incompleteVotes
      ensures Valid() && TurnCleared() && taskType == t
    {
      taskType := t;
      questions := [];
      selectedQuestion := None;
      completedVotes := {};
      incompleteVotes := {};
    }

    /**
     Question collection: the question is appended; once there are at least as
     many questions as players minus one, the `pick`-th one is selected. This
     happens on every submission past that point, not only the first.
     */
    method SubmitQuestion(q: Question, playerCount: nat, pick: nat)
      returns (progress: Progress, selected: Option<Selection>)
      requires Valid()
      requires pick <= |questions|
      modifies this`questions, this`selectedQuestion
      ensures Valid()
      ensures questions == old(questions) + [q]
      ensures progress == Progress(|questions|, playerCount - 1)
      ensures |questions| >= playerCount - 1 ==>
        selectedQuestion == Some(questions[pick].question) &&
        selected == Some(Selection(questions[pick].question, questions[pick].userName))
      ensures |questions| < playerCount - 1 ==> selectedQuestion == old(selectedQuestion) && selected == None
    {
      questions := questions + [q];
      progress := Progress(|questions|, playerCount - 1);
      if |questions| >= playerCount - 1 {
        selectedQuestion := Some(questions[pick].question);
        selected := Some(Selection(questions[pick].question, questions[pick].userName));
        assert questions[pick] in questions;
      } else {
        selected := None;
        if selectedQuestion.Some? {
          ghost var w :| w in old(questions) && w.question == selectedQuestion.value;
          assert w in questions;
        }
      }
    }

    /**
     Recording a vote: the voter ends up on the side they voted for and off the
     other; nobody else moves.
     */
    method RecordVote(voter: string, vote: Vote)
      requires Valid()
      modifies this`completedVotes, this`incompleteVotes
      ensures Valid()
      ensures vote == Complete ==> voter in completedVotes && voter !in incompleteVotes
      ensures vote == Incomplete ==> voter in incompleteVotes && voter !in completedVotes
      ensures completedVotes - {voter} == old(completedVotes) - {voter}
      ensures incompleteVotes - {voter} == old(incompleteVotes) - {voter}
    {
      if vote == Complete {
        completedVotes := completedVotes + {voter};
        incompleteVotes := incompleteVotes - {voter};
      } else {
        incompleteVotes := incompleteVotes + {voter};
        completedVotes := completedVotes - {voter};
      }
    }

    /**
     Vote tally: the vote is recorded, the outcome follows `Resolve` with
     `playerCount - 1` votes required, and a completed task gives the target, if
     there is one, exactly one point.
     */
    method CastVote(voter: string, vote: Vote, playerCount: nat, coin: bool)
      returns (count: VoteCount, result: Option<Vote>)
      requires Valid()
      modifies this`completedVotes, this`incompleteVotes, this`playerScores
      ensures Valid()
      ensures vote == Complete ==> voter in completedVotes && voter !in incompleteVotes
      ensures vote == Incomplete ==> voter in incompleteVotes && voter !in completedVotes
      ensures completedVotes - {voter} == old(completedVotes) - {voter}
      ensures incompleteVotes - {voter} == old(incompleteVotes) - {voter}
      ensures count == VoteCount(|completedVotes|, |incompleteVotes|, |completedVotes| + |incompleteVotes|, playerCount - 1)
      ensures result == Resolve(|completedVotes|, |incompleteVotes|, playerCount - 1, coin)
      ensures playerScores ==
        if result == Some(Complete) && targetPlayerId != "" then Award(old(playerScores), targetPlayerId)
        else old(playerScores)
    {
      RecordVote(voter, vote);
      var required := playerCount - 1;
      count := VoteCount(|completedVotes|, |incompleteVotes|, |completedVotes| + |incompleteVotes|, required);
      result := Resolve(|completedVotes|, |incompleteVotes|, required, coin);
      if result == Some(Complete) && targetPlayerId != "" {
        playerScores := Award(playerScores, targetPlayerId);
      }
    }

    /**
     The deferred reset after a result: the per-turn fields are cleared. It acts
     on this session object whether or not the store still holds it.
     */
    method ResetTurn()
      modifies this`questions, this`selectedQuestion, this`completedVotes, this`incompleteVotes
      ensures Valid() && TurnCleared()
    {
      questions := [];
      selectedQuestion := None;
      completedVotes := {};
      incompleteVotes := {};
    }

    /**
     The fallback initializer: the target fields are filled only where empty, and
     the per-turn fields are cleared. The task type is never empty, so it is
     never taken from the caller.
     */
    method InitTask(targetId: string, targetName: string)
      modifies this`targetPlayerId, this`targetPlayerName, this`questions, this`selectedQuestion,
        this`completedVotes, this`incompleteVotes
      ensures Valid() && TurnCleared()
      ensures targetPlayerId == if old(targetPlayerId) == "" then targetId else old(targetPlayerId)
      ensures targetPlayerName == if old(targetPlayerName) == "" then targetName else old(targetPlayerName)
    {
      if targetPlayerId == "" {
        targetPlayerId := targetId;
      }
      if targetPlayerName == "" {
        targetPlayerName := targetName;
      }
      questions := [];
      selectedQuestion := None;
      completedVotes := {};
      incompleteVotes := {};
    }
  }

  /** The module-level map from room code to session, with one method per socket event. */
  class SessionStore {
    var sessions: map<string, Session>

    /** Every session is valid, and each room has a session object of its own. */
    ghost predicate Valid()
      reads this, sessions.Values
    {
      (forall code :: code in sessions ==> sessions[code].Valid()) &&
      (forall c, d :: c in sessions && d in sessions && c != d ==> sessions[c] != sessions[d])
    }

    constructor ()
      ensures Valid() && sessions == map[]
    {
      sessions := map[];
    }

    /** The session object of a room, as a frame: empty when there is none. */
    function At(code: string): set<Session>
      reads this
    {
      if code in sessions then {sessions[code]} else {}
    }

    /** Stores a valid session object no room holds yet under a new room code. */
    method Insert(code: string, s: Session)
      requires Valid() && s.Valid() && code !in sessions
      requires forall c :: c in sessions ==> sessions[c] != s
      modifies this`sessions
      ensures Valid() && sessions == old(sessions)[code := s]
    {
      sessions := sessions[code := s];
    }

    /**
     `join_room`: the user is upserted into the found room's roster; a session is
     created, seeded with 0 for every id on that roster, only when the room has
     none, and an existing one is neither replaced nor changed.
     */
    method JoinRoom(code: string, found: Option<Room>, user: User, socketId: string)
      returns (update: RoomUpdate, scores: Option<map<string, ScoreRow>>)
      requires Valid()
      modifies this
      ensures Valid()
      ensures found.None? ==> update == NotFound && scores == None && sessions == old(sessions)
      ensures found.Some? ==>
        update == Saved(found.value.(players := UpsertPlayer(found.value.players, user, socketId)))
      ensures found.Some? && code in old(sessions) ==> sessions == old(sessions)
      ensures found.Some? && code !in old(sessions) ==>
        code in sessions && fresh(sessions[code]) && sessions == old(sessions)[code := sessions[code]] &&
        sessions[code].Initial(update.room.players)
      ensures found.Some? ==> scores == Some(ScoreTable(sessions[code].playerScores, update.room.players))
    {
      if found.None? {
        return NotFound, None;
      }
      var room := found.value.(players := UpsertPlayer(found.value.players, user, socketId));
      update := Saved(room);
      if code !in sessions {
        var s := new Session(room.players);
        Insert(code, s);
      }
      scores := Some(ScoreTable(sessions[code].playerScores, room.players));
    }

    /**
     `spin_request`: with a found, non-empty room and a session, the session
     picks a target; otherwise nothing changes.
     */
    method SpinRequest(code: string, found: Option<Room>, pick: nat) returns (result: Option<SpinResult>)
      requires Valid()
      requires found.Some? && found.value.players != [] && code in sessions ==>
        pick < PickBound(found.value.players, sessions[code].playersWhoHadBottle)
      modifies At(code)
      ensures Valid()
      ensures result.Some? <==> found.Some? && found.value.players != [] && code in sessions
      ensures result.None? ==> unchanged(At(code))
      ensures result.Some? ==>
        var s, players := sessions[code], found.value.players;
        var k := ChooseTarget(players, old(s.playersWhoHadBottle), pick);
        s.playersWhoHadBottle == old(s.playersWhoHadBottle) + {players[k].userId} &&
        s.targetPlayerId == players[k].userId && s.targetPlayerName == players[k].name &&
        result.value == SpinResult(SpinAngle(k, |players|), s.targetPlayerId, s.targetPlayerName) &&
        s.targetPlayerId in Ids(players) &&
        (!(Ids(players) <= old(s.playersWhoHadBottle)) ==> s.targetPlayerId !in old(s.playersWhoHadBottle))
      ensures result.Some? ==>
        var s: Session := sessions[code];
        unchanged(s`questions, s`selectedQuestion, s`taskType, s`completedVotes, s`incompleteVotes, s`playerScores)
    {
      if found.None? || found.value.players == [] || code !in sessions {
        return None;
      }
      var s := sessions[code];
      var r := s.Spin(found.value.players, pick);
      ghost var k := ChooseTarget(found.value.players, old(s.playersWhoHadBottle), pick);
      assert found.value.players[k] in found.value.players;
      result := Some(r);
    }

    /**
     `coin_flip_request`: heads means TRUTH, tails DARE; a session, if any, takes
     the type and starts a fresh turn, keeping rotation, scores and target.
     */
    method CoinFlipRequest(code: string, side: CoinSide) returns (taskType: TaskType)
      requires Valid()
      modifies At(code)
      ensures Valid()
      ensures taskType == Truth <==> side == Heads
      ensures code in sessions ==>
        var s := sessions[code];
        s.taskType == taskType && s.TurnCleared() &&
        s.playersWhoHadBottle == old(s.playersWhoHadBottle) && s.playerScores == old(s.playerScores) &&
        s.targetPlayerId == old(s.targetPlayerId) && s.targetPlayerName == old(s.targetPlayerName)
    {
      taskType := if side == Heads then Truth else Dare;
      if code in sessions {
        sessions[code].BeginTask(taskType);
      }
    }

    /**
     `submit_question`: with a found room and a session, the question is
     appended and progress reported against the roster size minus one.
     */
    method SubmitQuestion(code: string, found: Option<Room>, q: Question, pick: nat)
      returns (progress: Option<Progress>, selected: Option<Selection>)
      requires Valid()
      requires found.Some? && code in sessions ==> pick <= |sessions[code].questions|
      modifies At(code)
      ensures Valid()
      ensures progress.Some? <==> found.Some? && code in sessions
      ensures progress.None? ==> selected.None? && unchanged(At(code))
      ensures progress.Some? ==>
        var s := sessions[code];
        s.questions == old(s.questions) + [q] &&
        progress.value == Progress(|s.questions|, |found.value.players| - 1) &&
        (selected.Some? <==> |s.questions| >= |found.value.players| - 1) &&
        (selected.Some? ==>
          selected.value == Selection(s.questions[pick].question, s.questions[pick].userName) &&
          s.selectedQuestion == Some(selected.value.question)) &&
        (selected.None? ==> s.selectedQuestion == old(s.selectedQuestion))
      ensures progress.Some? ==>
        var s: Session := sessions[code];
        unchanged(s`targetPlayerId, s`targetPlayerName, s`taskType, s`completedVotes, s`incompleteVotes,
          s`playersWhoHadBottle, s`playerScores)
    {
      if found.None? || code !in sessions {
        return None, None;
      }
      var s := sessions[code];
      var p;
      p, selected := s.SubmitQuestion(q, |found.value.players|, pick);
      progress := Some(p);
    }

    /**
     `vote_task`: with a found room and a session, the vote is recorded and the
     result decided; a result sends the score table and hands back the session
     whose turn the deferred reset will clear.
     */
    method VoteTask(code: string, found: Option<Room>, voter: string, vote: Vote, coin: bool)
      returns (outcome: Option<VoteOutcome>, pendingReset: Option<Session>)
      requires Valid()
      modifies At(code)
      ensures Valid()
      ensures outcome.Some? <==> found.Some? && code in sessions
      ensures outcome.None? ==> pendingReset.None? && unchanged(At(code))
      ensures outcome.Some? ==>
        var s := sessions[code];
        (vote == Complete ==> voter in s.completedVotes && voter !in s.incompleteVotes) &&
        (vote == Incomplete ==> voter in s.incompleteVotes && voter !in s.completedVotes) &&
        s.completedVotes - {voter} == old(s.completedVotes) - {voter} &&
        s.incompleteVotes - {voter} == old(s.incompleteVotes) - {voter}
      ensures outcome.Some? ==>
        var s := sessions[code];
        var c, i, required := |s.completedVotes|, |s.incompleteVotes|, |found.value.players| - 1;
        outcome.value.count == VoteCount(c, i, c + i, required) &&
        outcome.value.result == Resolve(c, i, required, coin) &&
        s.playerScores ==
          (if outcome.value.result == Some(Complete) && s.targetPlayerId != "" then Award(old(s.playerScores), s.targetPlayerId)
           else old(s.playerScores)) &&
        (outcome.value.scores.Some? <==> outcome.value.result.Some?) &&
        (outcome.value.scores.Some? ==> outcome.value.scores.value == ScoreTable(s.playerScores, found.value.players))
      ensures outcome.Some? ==>
        var s: Session := sessions[code];
        unchanged(s`questions, s`selectedQuestion, s`taskType, s`targetPlayerId, s`targetPlayerName,
          s`playersWhoHadBottle)
      ensures pendingReset.Some? <==> outcome.Some? && outcome.value.result.Some?
      ensures pendingReset.Some? ==> code in sessions && pendingReset.value == sessions[code]
    {
      if found.None? || code !in sessions {
        return None, None;
      }
      var s := sessions[code];
      var count, result := s.CastVote(voter, vote, |found.value.players|, coin);
      if result.Some? {
        outcome := Some(VoteOutcome(count, result, Some(ScoreTable(s.playerScores, found.value.players))));
        pendingReset := Some(s);
      } else {
        outcome := Some(VoteOutcome(count, result, None));
        pendingReset := None;
      }
    }

    /**
     `init_task_session`: a session, if any, gets the fallback target where its
     own is empty and a fresh turn; the requested task type is echoed back.
     */
    method InitTaskSession(code: string, targetId: string, targetName: string, taskType: TaskType)
      returns (ready: TaskType)
      requires Valid()
      modifies At(code)
      ensures Valid()
      ensures ready == taskType
      ensures code in sessions ==>
        var s := sessions[code];
        s.TurnCleared() && s.taskType == old(s.taskType) &&
        s.targetPlayerId == (if old(s.targetPlayerId) == "" then targetId else old(s.targetPlayerId)) &&
        s.targetPlayerName == (if old(s.targetPlayerName) == "" then targetName else old(s.targetPlayerName))
      ensures code in sessions ==>
        var s: Session := sessions[code];
        unchanged(s`playersWhoHadBottle, s`playerScores)
    {
      if code in sessions {
        sessions[code].InitTask(targetId, targetName);
      }
      ready := taskType;
    }

    /**
     `leave_room`: the player is filtered out of the found room; an emptied room
     is deleted together with its session; otherwise the session is kept as is.
     */
    method LeaveRoom(code: string, found: Option<Room>, userId: string) returns (update: RoomUpdate)
      requires Valid()
      modifies this
      ensures Valid()
      ensures found.None? ==> update == NotFound && sessions == old(sessions)
      ensures found.Some? ==> update == RemovePlayer(found.value, userId)
      ensures update == Deleted ==> sessions == old(sessions) - {code}
      ensures update.Saved? ==> sessions == old(sessions)
    {
      if found.None? {
        return NotFound;
      }
      update := RemovePlayer(found.value, userId);
      if update == Deleted {
        sessions := sessions - {code};
      }
    }
  }
}
