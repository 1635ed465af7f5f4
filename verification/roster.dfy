/**
 Room membership as the join and leave handlers change it, and the score table
 they and the vote handler broadcast. The room itself lives in an external store;
 here it is a value passed in and returned.
 */
module Roster {
  import opened Domain

  /** Two entries describe the same member with the same name and avatar. */
  predicate SameMember(a: Player, b: Player)
  {
    a.userId == b.userId && a.name == b.name && a.avatar == b.avatar
  }

  /**
   `join_room`'s roster update: a user already on the roster only gets their
   connection handle refreshed (on the first entry with their id); anyone else
   is appended with the new handle.
   */
  function UpsertPlayer(players: seq<Player>, user: User, socketId: string): (r: seq<Player>)
    ensures Ids(r) == Ids(players) + {user.id}
    ensures |r| == if user.id in Ids(players) then |players| else |players| + 1
    ensures forall j :: 0 <= j < |players| ==> SameMember(r[j], players[j])
    ensures forall j :: 0 <= j < |players| && j != FirstIndexOf(players, user.id) ==> r[j] == players[j]
    ensures FirstIndexOf(r, user.id) >= 0 && r[FirstIndexOf(r, user.id)].socketId == socketId
    ensures user.id !in Ids(players) ==> r[|players|] == Player(user.id, socketId, user.username, user.avatar)
  {
    FirstIndexOfMember(players, user.id);
    var k := FirstIndexOf(players, user.id);
    if k >= 0 then
      RefreshKeepsIds(players, k, socketId);
      players[k := players[k].(socketId := socketId)]
    else
      AppendAddsId(players, Player(user.id, socketId, user.username, user.avatar));
      players + [Player(user.id, socketId, user.username, user.avatar)]
  }

  lemma RefreshKeepsIds(players: seq<Player>, k: nat, socketId: string)
    requires k < |players| && FirstIndexOf(players, players[k].userId) == k
    ensures var r := players[k := players[k].(socketId := socketId)];
      Ids(r) == Ids(players) && FirstIndexOf(r, players[k].userId) == k
  {
    var r := players[k := players[k].(socketId := socketId)];
    forall id | id in Ids(players) ensures id in Ids(r) {
      var p :| p in players && p.userId == id;
      var j :| 0 <= j < |players| && players[j] == p;
      assert r[j] in r;
    }
    assert r[k] in r;
    FirstIndexOfMember(r, players[k].userId);
  }

  lemma AppendAddsId(players: seq<Player>, p: Player)
    requires p.userId !in Ids(players)
    ensures var r := players + [p];
      Ids(r) == Ids(players) + {p.userId} && FirstIndexOf(r, p.userId) == |players|
  {
    var r := players + [p];
    assert r[|players|] in r;
    FirstIndexOfMember(r, p.userId);
    assert forall j :: 0 <= j < |players| ==> r[j] == players[j] && players[j] in players;
  }

  /**
   `leave_room`'s roster update: every entry with the leaving id is removed; an
   emptied room is deleted; otherwise, when the host left, the first remaining
   member becomes host.
   */
  function RemovePlayer(room: Room, userId: string): (u: RoomUpdate)
    ensures u != NotFound
    ensures u == Deleted <==> Ids(room.players) <= {userId}
    ensures u.Saved? ==> u.room.players == Excluding(room.players, {userId})
    ensures u.Saved? ==> userId !in Ids(u.room.players) && Ids(u.room.players) == Ids(room.players) - {userId}
    ensures u.Saved? ==> u.room.hostId == if room.hostId == userId then u.room.players[0].userId else room.hostId
    ensures u.Saved? ==> u.room.hostId != userId || room.hostId != userId
    ensures u.Saved? && room.hostId == userId ==>
      exists j :: 0 <= j < |room.players| && u.room.hostId == room.players[j].userId != userId &&
        forall i :: 0 <= i < j ==> room.players[i].userId == userId
  {
    var rest := Excluding(room.players, {userId});
    ExcludingEmpty(room.players, {userId});
    ExcludingFirst(room.players, {userId});
    if |rest| == 0 then Deleted
    else
      assert rest[0] in rest;
      assert Ids(rest) == Ids(room.players) - {userId} by {
        forall id | id in Ids(room.players) - {userId} ensures id in Ids(rest) {
          var p :| p in room.players && p.userId == id;
          assert p in rest;
        }
      }
      Saved(Room(if room.hostId == userId then rest[0].userId else room.hostId, rest))
  }

  /** One row of the broadcast score table. */
  datatype ScoreRow = ScoreRow(userName: string, score: nat)

  /**
   The name shown for a scored id: the name on its first roster entry, or
   "Unknown" when it has left the roster or its name is empty.
   */
  function DisplayName(players: seq<Player>, id: string): (name: string)
    ensures id !in Ids(players) ==> name == "Unknown"
    ensures name != "Unknown" ==> exists p :: p in players && p.userId == id && p.name == name
    ensures forall j :: IsFirstEntry(players, id, j) ==>
      name == if players[j].name != "" then players[j].name else "Unknown"
  {
    FirstIndexOfMember(players, id);
    var k := FirstIndexOf(players, id);
    if k >= 0 && players[k].name != "" then
      assert players[k] in players;
      players[k].name
    else "Unknown"
  }

  /**
   The score table broadcast after a join and after a resolved vote: one row per
   scored id, including zero scores and ids no longer on the roster.
   */
  function ScoreTable(scores: map<string, nat>, players: seq<Player>): (t: map<string, ScoreRow>)
    ensures t.Keys == scores.Keys
    ensures forall id :: id in t ==> t[id].score == scores[id]
    ensures forall id :: id in t && id !in Ids(players) ==> t[id].userName == "Unknown"
    ensures forall id, j :: id in t && IsFirstEntry(players, id, j) ==>
      t[id].userName == if players[j].name != "" then players[j].name else "Unknown"
  {
    map id | id in scores :: ScoreRow(DisplayName(players, id), scores[id])
  }
}
