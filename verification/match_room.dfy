/**
 * The `Room` class of the `/match` endpoint: its id, the ordered player list, the room's
 * `GameState`, and a card pool per player keyed by openId. Also the player-list lookups the
 * coordinator performs with `stream().filter(...).findFirst()`.
 */
module MatchRoom {
  import opened Options
  import opened GameUtil
  import opened GameStateModel
  import opened Transport

  /**
   * A `PlayerVO` as the room keeps it: the cleaned openId, the side it was given, the nickname it
   * joined with, the session it (re)joined on, and the user code handed out at that join.
   */
  datatype Player = Player(openId: string, role: Role, nickName: string, session: Session, userCode: int)

  /** A `Room`. */
  datatype Room = Room(id: int, players: seq<Player>, game: GameState, decks: map<string, seq<int>>)

  /** `new Room(id)`: no players, a fresh game state, no card pools. */
  function NewRoom(id: int): (r: Room)
    ensures r.id == id && r.players == [] && r.decks == map[]
    ensures r.game == Fresh()
  {
    Room(id, [], Fresh(), map[])
  }

  /** Whether some player of the list has this openId. */
  predicate HasMember(players: seq<Player>, openId: string) {
    exists i :: 0 <= i < |players| && players[i].openId == openId
  }

  /** `addPlayer(p)`: appends, with no check for duplicates or for size. */
  function AddPlayer(room: Room, p: Player): (r: Room)
    ensures r.players == room.players + [p]
    ensures |r.players| == |room.players| + 1
    ensures r.id == room.id && r.game == room.game && r.decks == room.decks
    ensures HasMember(r.players, p.openId)
  {
    assert (room.players + [p])[|room.players|] == p;
    room.(players := room.players + [p])
  }

  /** `IntStream.rangeClosed(1, TEN)`: the cards 1 to 10 in order. */
  function FullDeck(): (d: seq<int>)
    ensures |d| == TEN
    ensures forall i :: 0 <= i < |d| ==> d[i] == i + 1
  {
    seq(TEN, i => i + 1)
  }

  /** Every card from 1 to `TEN` is in the full deck, and nothing else is. */
  lemma FullDeckContents(card: int)
    ensures card in FullDeck() <==> 1 <= card <= TEN
  {
    if 1 <= card <= TEN {
      assert FullDeck()[card - 1] == card;
    }
  }

  /** Each card occurs at most once in the full deck. */
  lemma FullDeckDistinct(card: int)
    ensures multiset(FullDeck())[card] <= 1
  {
    var d := FullDeck();
    if 1 <= card <= TEN {
      var k := card - 1;
      assert d == d[..k] + [card] + d[k + 1..];
      assert card !in d[..k] by {
        forall i | 0 <= i < k ensures d[..k][i] != card { }
      }
      var tail := d[k + 1..];
      assert card !in tail by {
        forall i | 0 <= i < |tail| ensures tail[i] != card {
          assert tail[i] == d[k + 1 + i];
        }
      }
      assert multiset(d) == multiset(d[..k]) + multiset{card} + multiset(d[k + 1..]);
    } else {
      FullDeckContents(card);
    }
  }

  /**
   * `resetPlayerDecks()`: every current player gets a fresh 1..TEN pool; pools of openIds that
   * are no longer players are left in place. The players and the game state are untouched.
   */
  function ResetPlayerDecks(room: Room): (r: Room)
    ensures r.id == room.id && r.players == room.players && r.game == room.game
    ensures forall i :: 0 <= i < |room.players| ==>
              room.players[i].openId in r.decks && r.decks[room.players[i].openId] == FullDeck()
    ensures forall k :: k in room.decks && !HasMember(room.players, k) ==> k in r.decks && r.decks[k] == room.decks[k]
    ensures forall k :: k in r.decks <==> k in room.decks || HasMember(room.players, k)
  {
    room.(decks := ResetDecks(room.players, room.decks))
  }

  /** The loop of `resetPlayerDecks` over a list of players. */
  function ResetDecks(players: seq<Player>, decks: map<string, seq<int>>): (r: map<string, seq<int>>)
    ensures forall i :: 0 <= i < |players| ==> players[i].openId in r && r[players[i].openId] == FullDeck()
    ensures forall k :: k in decks && !HasMember(players, k) ==> k in r && r[k] == decks[k]
    ensures forall k :: k in r <==> k in decks || HasMember(players, k)
  {
    if |players| == 0 then decks
    else
      var rest := ResetDecks(players[1..], decks[players[0].openId := FullDeck()]);
      assert forall i :: 1 <= i < |players| ==> players[i] == players[1..][i - 1];
      assert forall k :: HasMember(players[1..], k) ==> HasMember(players, k) by {
        forall k | HasMember(players[1..], k) ensures HasMember(players, k) {
          var j :| 0 <= j < |players[1..]| && players[1..][j].openId == k;
          assert players[j + 1].openId == k;
        }
      }
      assert forall k :: HasMember(players, k) && k != players[0].openId ==> HasMember(players[1..], k) by {
        forall k | HasMember(players, k) && k != players[0].openId ensures HasMember(players[1..], k) {
          var j :| 0 <= j < |players| && players[j].openId == k;
          assert j > 0 && players[1..][j - 1].openId == k;
        }
      }
      rest
  }

  /**
   * `validateCard(openId, card)`: the player has a pool and it contains the card. A player with
   * no pool may play nothing.
   */
  function ValidateCard(room: Room, openId: string, card: int): (valid: bool)
    ensures openId !in room.decks ==> !valid
    ensures valid <==> openId in room.decks && exists i :: 0 <= i < |room.decks[openId]| && room.decks[openId][i] == card
  {
    openId in room.decks && card in room.decks[openId]
  }

  /** `List.remove(Object)`: drops the first occurrence, if any. */
  function RemoveFirst(s: seq<int>, x: int): (r: seq<int>)
    ensures multiset(r) == multiset(s) - multiset{x}
    ensures x in s ==> |r| == |s| - 1
    ensures x !in s ==> r == s
  {
    if |s| == 0 then s
    else
      assert s == [s[0]] + s[1..];
      if s[0] == x then s[1..]
      else [s[0]] + RemoveFirst(s[1..], x)
  }

  /** `removeCard(openId, card)`: one occurrence leaves that player's pool; without a pool, nothing happens. */
  function RemoveCard(room: Room, openId: string, card: int): (r: Room)
    ensures openId !in room.decks ==> r == room
    ensures openId in room.decks ==>
              && openId in r.decks
              && r == room.(decks := room.decks[openId := r.decks[openId]])
              && multiset(r.decks[openId]) == multiset(room.decks[openId]) - multiset{card}
  {
    if openId in room.decks then room.(decks := room.decks[openId := RemoveFirst(room.decks[openId], card)])
    else room
  }

  /** Right after a reset, a player may play exactly the cards 1 to `TEN`. */
  lemma ValidAfterReset(room: Room, i: nat, card: int)
    requires i < |room.players|
    ensures ValidateCard(ResetPlayerDecks(room), room.players[i].openId, card) <==> 1 <= card <= TEN
  {
    FullDeckContents(card);
  }

  /** Removing a card the pool held once makes it unplayable for that player. */
  lemma RemoveCardUsesItUp(room: Room, openId: string, card: int)
    requires openId in room.decks && multiset(room.decks[openId])[card] <= 1
    ensures !ValidateCard(RemoveCard(room, openId, card), openId, card)
  {
    var r := RemoveCard(room, openId, card);
    assert multiset(r.decks[openId])[card] == 0;
  }

  /** Removing a card from one player's pool changes what every other player may play in no way. */
  lemma RemoveCardOthersUnchanged(room: Room, openId: string, card: int, other: string, c: int)
    requires other != openId
    ensures ValidateCard(RemoveCard(room, openId, card), other, c) <==> ValidateCard(room, other, c)
  {
  }

  /** After a reset, playing a card once uses it up: a second attempt with the same card is invalid. */
  lemma CardUsedUpAfterReset(room: Room, i: nat, card: int)
    requires i < |room.players|
    ensures !ValidateCard(RemoveCard(ResetPlayerDecks(room), room.players[i].openId, card), room.players[i].openId, card)
  {
    FullDeckDistinct(card);
    RemoveCardUsesItUp(ResetPlayerDecks(room), room.players[i].openId, card);
  }

  // ---------------------------------------------------------------------------
  // Player-list lookups

  /** `players.stream().filter(p -> p.getOpenId().equals(openId)).findFirst()`. */
  function FindMember(players: seq<Player>, openId: string): (r: Option<Player>)
    ensures r.Some? <==> HasMember(players, openId)
    ensures r.Some? ==> r.value in players && r.value.openId == openId
    ensures forall k :: 0 <= k < |players| && players[k].openId == openId && (forall i :: 0 <= i < k ==> players[i].openId != openId) ==>
              r == Some(players[k])
  {
    if |players| == 0 then None
    else if players[0].openId == openId then Some(players[0])
    else
      var r := FindMember(players[1..], openId);
      assert forall k :: 1 <= k < |players| ==> players[k] == players[1..][k - 1];
      assert HasMember(players, openId) ==> HasMember(players[1..], openId) by {
        if HasMember(players, openId) {
          var j :| 0 <= j < |players| && players[j].openId == openId;
          assert players[1..][j - 1].openId == openId;
        }
      }
      r
  }

  /** The index of the first member with this openId. */
  function IndexOfMember(players: seq<Player>, openId: string): (k: nat)
    requires HasMember(players, openId)
    ensures k < |players| && players[k].openId == openId
    ensures forall i :: 0 <= i < k ==> players[i].openId != openId
  {
    if players[0].openId == openId then 0
    else
      var j :| 0 <= j < |players| && players[j].openId == openId;
      assert players[1..][j - 1].openId == openId;
      1 + IndexOfMember(players[1..], openId)
  }

  /** `players.stream().filter(p -> !p.getOpenId().equals(openId)).findFirst()`: the first other player. */
  function FirstOther(players: seq<Player>, openId: string): (r: Option<Player>)
    ensures r.Some? <==> exists i :: 0 <= i < |players| && players[i].openId != openId
    ensures r.Some? ==> r.value in players && r.value.openId != openId
    ensures forall k :: 0 <= k < |players| && players[k].openId != openId && (forall i :: 0 <= i < k ==> players[i].openId == openId) ==>
              r == Some(players[k])
  {
    if |players| == 0 then None
    else if players[0].openId != openId then Some(players[0])
    else
      var r := FirstOther(players[1..], openId);
      assert forall k :: 1 <= k < |players| ==> players[k] == players[1..][k - 1];
      assert (exists i :: 0 <= i < |players| && players[i].openId != openId) ==>
               (exists i :: 0 <= i < |players[1..]| && players[1..][i].openId != openId) by {
        if exists i :: 0 <= i < |players| && players[i].openId != openId {
          var j :| 0 <= j < |players| && players[j].openId != openId;
          assert players[1..][j - 1].openId != openId;
        }
      }
      r
  }

  /** The first player on the given side. */
  function FirstWithRole(players: seq<Player>, role: Role): (r: Option<Player>)
    ensures r.Some? <==> exists i :: 0 <= i < |players| && players[i].role == role
    ensures r.Some? ==> r.value in players && r.value.role == role
    ensures forall k :: 0 <= k < |players| && players[k].role == role && (forall i :: 0 <= i < k ==> players[i].role != role) ==>
              r == Some(players[k])
  {
    if |players| == 0 then None
    else if players[0].role == role then Some(players[0])
    else
      var r := FirstWithRole(players[1..], role);
      assert forall k :: 1 <= k < |players| ==> players[k] == players[1..][k - 1];
      assert (exists i :: 0 <= i < |players| && players[i].role == role) ==>
               (exists i :: 0 <= i < |players[1..]| && players[1..][i].role == role) by {
        if exists i :: 0 <= i < |players| && players[i].role == role {
          var j :| 0 <= j < |players| && players[j].role == role;
          assert players[1..][j - 1].role == role;
        }
      }
      r
  }

  /** `players.removeIf(p -> p.getOpenId().equals(openId))`: keeps everyone else, in order. */
  function RemoveMember(players: seq<Player>, openId: string): (r: seq<Player>)
    ensures |r| <= |players|
    ensures !HasMember(r, openId)
    ensures forall i :: 0 <= i < |r| ==> r[i] in players
    ensures forall i :: 0 <= i < |players| && players[i].openId != openId ==> players[i] in r
    ensures !HasMember(players, openId) ==> r == players
  {
    if |players| == 0 then []
    else
      var rest := RemoveMember(players[1..], openId);
      assert players == [players[0]] + players[1..];
      HasMemberCons(players[0], players[1..], openId);
      assert forall i :: 1 <= i < |players| ==> players[i] == players[1..][i - 1];
      if players[0].openId == openId then rest
      else
        HasMemberCons(players[0], rest, openId);
        [players[0]] + rest
  }

  /**
   * `removeIf` keeps the order and the multiplicity of the players it keeps: it distributes over
   * concatenation, and on one player it keeps that player exactly when the id differs.
   * Together these determine the result for every list.
   */
  lemma {:induction false} RemoveMemberAppend(a: seq<Player>, b: seq<Player>, openId: string)
    ensures RemoveMember(a + b, openId) == RemoveMember(a, openId) + RemoveMember(b, openId)
    ensures |a| == 1 ==> RemoveMember(a, openId) == (if a[0].openId == openId then [] else a)
  {
    if |a| > 0 {
      assert (a + b)[1..] == a[1..] + b;
      RemoveMemberAppend(a[1..], b, openId);
    } else {
      assert a + b == b;
    }
  }

  /** A list with a player in front has a member with the id exactly when that player or the rest does. */
  lemma HasMemberCons(p: Player, s: seq<Player>, openId: string)
    ensures HasMember([p] + s, openId) <==> p.openId == openId || HasMember(s, openId)
  {
    var t := [p] + s;
    if HasMember(t, openId) && p.openId != openId {
      var j :| 0 <= j < |t| && t[j].openId == openId;
      assert s[j - 1] == t[j];
    }
    if p.openId == openId {
      assert t[0] == p;
    }
    if HasMember(s, openId) {
      var j :| 0 <= j < |s| && s[j].openId == openId;
      assert t[j + 1] == s[j];
    }
  }

  /** Replaces the session of every member with this openId (the reconnect branch of a join). */
  function Rebind(players: seq<Player>, openId: string, session: Session): (r: seq<Player>)
    ensures |r| == |players|
    ensures forall i :: 0 <= i < |players| ==>
              r[i] == if players[i].openId == openId then players[i].(session := session) else players[i]
  {
    seq(|players|, i requires 0 <= i < |players| =>
          if players[i].openId == openId then players[i].(session := session) else players[i])
  }

  /**
   * The seating step of a join: a returning member (same openId) only has its session replaced;
   * anyone else is appended.
   */
  function Seat(room: Room, p: Player): (r: Room)
    ensures r.id == room.id && r.game == room.game && r.decks == room.decks
    ensures HasMember(room.players, p.openId) ==> r.players == Rebind(room.players, p.openId, p.session)
    ensures !HasMember(room.players, p.openId) ==> r.players == room.players + [p]
  {
    if HasMember(room.players, p.openId) then room.(players := Rebind(room.players, p.openId, p.session))
    else AddPlayer(room, p)
  }
}
