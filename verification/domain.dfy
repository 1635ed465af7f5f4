/**
 The values the game-session coordinator works with: roster entries of a stored
 room, submitted questions, votes, coin sides, and the small helpers over rosters
 that several handlers share (membership by user id, first entry with an id,
 filtering ids out).
 */
module Domain {

  datatype Option<T> = None | Some(value: T)

  /** One roster entry of a stored room. Ids are compared as strings throughout. */
  datatype Player = Player(userId: string, socketId: string, name: string, avatar: string)

  /** The part of a stored room the coordinator reads and writes: host and roster. */
  datatype Room = Room(hostId: string, players: seq<Player>)

  /** The joining user, as the client sends it with `join_room`. */
  datatype User = User(id: string, username: string, avatar: string)

  /** What the room store did for one handler: no such room, deleted, or saved. */
  datatype RoomUpdate = NotFound | Deleted | Saved(room: Room)

  datatype TaskType = Truth | Dare

  datatype CoinSide = Heads | Tails

  datatype Vote = Complete | Incomplete

  /** One submitted candidate question, with its author. */
  datatype Question = Question(userId: string, userName: string, question: string)

  /** The set of user ids on a roster. */
  function Ids(players: seq<Player>): (ids: set<string>)
    ensures forall p :: p in players ==> p.userId in ids
    ensures forall id :: id in ids ==> exists p :: p in players && p.userId == id
  {
    set p | p in players :: p.userId
  }

  /**
   The index of the first roster entry whose id is `id`, or -1 when there is
   none (the roster's `find`/`findIndex` by user id).
   */
  function FirstIndexOf(players: seq<Player>, id: string): (k: int)
    ensures -1 <= k < |players|
    ensures k >= 0 ==> IsFirstEntry(players, id, k)
    ensures k == -1 ==> forall j :: 0 <= j < |players| ==> players[j].userId != id
  {
    if |players| == 0 then -1
    else if players[0].userId == id then 0
    else
      var k := FirstIndexOf(players[1..], id);
      if k == -1 then -1 else k + 1
  }

  /** Whether `j` is the index of the first roster entry whose id is `id`. */
  predicate IsFirstEntry(players: seq<Player>, id: string, j: int)
  {
    0 <= j < |players| && players[j].userId == id &&
    forall i :: 0 <= i < j ==> players[i].userId != id
  }

  /** Every entry of a member is found; a non-member is not. */
  lemma FirstIndexOfMember(players: seq<Player>, id: string)
    ensures FirstIndexOf(players, id) >= 0 <==> id in Ids(players)
  {
    var k := FirstIndexOf(players, id);
    if id in Ids(players) {
      var p :| p in players && p.userId == id;
      var j :| 0 <= j < |players| && players[j] == p;
    }
  }

  /**
   The roster with every entry whose id lies in `ids` taken out, keeping the
   order of the rest (the roster `filter` of the spin and leave handlers).
   */
  function Excluding(players: seq<Player>, ids: set<string>): (r: seq<Player>)
    ensures |r| <= |players|
    ensures forall p :: p in r ==> p in players && p.userId !in ids
    ensures forall p :: p in players && p.userId !in ids ==> p in r
    ensures (forall p :: p in players ==> p.userId !in ids) ==> r == players
  {
    if players == [] then []
    else if players[0].userId in ids then Excluding(players[1..], ids)
    else [players[0]] + Excluding(players[1..], ids)
  }

  /**
   The filter keeps every entry whose id is not excluded exactly as often as the
   roster holds it, and no other entry.
   */
  lemma {:induction false} ExcludingCounts(players: seq<Player>, ids: set<string>)
    ensures forall p :: multiset(Excluding(players, ids))[p] == if p.userId in ids then 0 else multiset(players)[p]
  {
    if players != [] {
      ExcludingCounts(players[1..], ids);
      assert players == [players[0]] + players[1..];
    }
  }

  /**
   The filter keeps order at the front: its first entry is the first roster
   entry whose id is not excluded, every entry before it being excluded.
   */
  lemma {:induction false} ExcludingFirst(players: seq<Player>, ids: set<string>)
    ensures var r := Excluding(players, ids);
      r != [] ==>
        exists j :: 0 <= j < |players| && players[j] == r[0] && players[j].userId !in ids &&
          forall i :: 0 <= i < j ==> players[i].userId in ids
  {
    var r := Excluding(players, ids);
    if players != [] && players[0].userId in ids && r != [] {
      var tail := players[1..];
      ExcludingFirst(tail, ids);
      var j :| 0 <= j < |tail| && tail[j] == r[0] && tail[j].userId !in ids &&
        forall i :: 0 <= i < j ==> tail[i].userId in ids;
      assert players[j + 1] == r[0];
      forall i | 0 <= i < j + 1 ensures players[i].userId in ids {
        if i > 0 {
          assert players[i] == tail[i - 1];
        }
      }
    } else if r != [] {
      assert players[0] == r[0];
    }
  }

  /** The filtered roster is empty exactly when every id on the roster is excluded. */
  lemma ExcludingEmpty(players: seq<Player>, ids: set<string>)
    ensures Excluding(players, ids) == [] <==> Ids(players) <= ids
  {
    var r := Excluding(players, ids);
    if r != [] {
      assert r[0] in r;
    }
    if !(Ids(players) <= ids) {
      var id :| id in Ids(players) && id !in ids;
      var p :| p in players && p.userId == id;
      assert p in r;
    }
  }
}
