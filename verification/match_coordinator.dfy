/**
 * The `/match` endpoint (`WebSocket4Match`) as a state machine. The coordinator's static maps
 * become the fields of `Coordinator`; every callback is a function from a state to a `Step`:
 * the state afterwards and the messages handed to `GameUtil.sendMessage` that reach an open
 * session, in order. Closing a session is removing it from `live`; the container's later
 * `onClose` for it is a separate event.
 */
module MatchCoordinator {
  import opened Options
  import opened JavaText
  import opened Transport
  import opened GameUtil
  import opened GameStateModel
  import opened MatchRoom
  import opened OpenIdCleaning
  import opened JoinNickname
  import opened WinStreak
  import opened ShareTiers

  /**
   * The coordinator's state: `openId2SessionMap`, `rooms`, `openId2RoomIdMap`,
   * `roomCode2RoomIdMap`, `playerGameRecords`, the bean balances kept by the user store,
   * the open sessions, and the two `GameUtil` counters.
   */
  datatype Coordinator = Coordinator(
    sessions: map<string, Session>,
    rooms: map<int, Room>,
    roomOf: map<string, int>,
    codes: map<string, int>,
    history: History,
    beans: map<string, int>,
    live: set<Session>,
    counters: Counters)

  /** The coordinator as the server starts it. */
  const Initial: Coordinator := Coordinator(map[], map[], map[], map[], map[], map[], {}, InitialCounters)

  /** The outbound message kinds of `/match`. */
  datatype Msg =
    | RoomState(players: seq<Player>)
    | GameReady(players: seq<Player>, roomId: int)
    | RoundComplete(round: int, myCard: int, oppCard: int)
    | GameResult(result: RoundResult)
    | PleaseTakeCard
    | OpponentLeave(message: string)
    | RematchRequestFrom(from: string)
    | RematchRejected
    | ShareMsg(share: Share)
    | BeanNotEnough(message: string)
    | RoomFull
    | NicknameError(message: string)

  datatype Send = Send(to: Session, msg: Msg)

  /** The state after a callback and what it sent. */
  datatype Step = Step(st: Coordinator, out: seq<Send>)

  const MsgOpponentLeft: string := "对方离开了房间"
  const MsgPlayerLeft: string := "玩家离开了房间"
  const MsgBeansShortStart: string := "有玩家豆子不足，无法开始游戏"
  const MsgBeansShortRematch: string := "有玩家豆子不足，无法开始连战"
  const DefaultWinnerName: string := "玩家"
  const DefaultLoserName: string := "对手"

  // ---------------------------------------------------------------------------
  // Sending

  /** `GameUtil.sendMessage(session, msg)`: delivered only to an open session. */
  function SendTo(live: set<Session>, s: Session, msg: Msg): (out: seq<Send>)
    ensures s in live ==> out == [Send(s, msg)]
    ensures s !in live ==> out == []
  {
    if s in live then [Send(s, msg)] else []
  }

  /**
   * `broadcastToRoom(room, msg)`: the players' open sessions get the message, in list order
   * (`BroadcastReaches` and `BroadcastOnlyListed` state who receives it).
   */
  function Broadcast(live: set<Session>, players: seq<Player>, msg: Msg): (out: seq<Send>)
    ensures |out| <= |players|
    ensures forall i :: 0 <= i < |out| ==> out[i].msg == msg && out[i].to in live
  {
    if |players| == 0 then []
    else SendTo(live, players[0].session, msg) + Broadcast(live, players[1..], msg)
  }

  /** Every player whose session is open gets the broadcast. */
  lemma {:induction false} BroadcastReaches(live: set<Session>, players: seq<Player>, msg: Msg)
    ensures forall j :: 0 <= j < |players| && players[j].session in live ==> Send(players[j].session, msg) in Broadcast(live, players, msg)
  {
    if |players| > 0 {
      BroadcastReaches(live, players[1..], msg);
      assert forall j :: 1 <= j < |players| ==> players[j] == players[1..][j - 1];
    }
  }

  /** Nobody but a listed player gets the broadcast. */
  lemma {:induction false} BroadcastOnlyListed(live: set<Session>, players: seq<Player>, msg: Msg)
    ensures forall i :: 0 <= i < |Broadcast(live, players, msg)| ==>
              exists j :: 0 <= j < |players| && Broadcast(live, players, msg)[i].to == players[j].session
  {
    if |players| > 0 {
      var first := SendTo(live, players[0].session, msg);
      var rest := Broadcast(live, players[1..], msg);
      BroadcastOnlyListed(live, players[1..], msg);
      var out := first + rest;
      assert Broadcast(live, players, msg) == out;
      forall i | 0 <= i < |out| ensures exists j :: 0 <= j < |players| && out[i].to == players[j].session {
        if i < |first| {
          assert out[i].to == players[0].session;
        } else {
          assert out[i] == rest[i - |first|];
          var j :| 0 <= j < |players[1..]| && rest[i - |first|].to == players[1..][j].session;
          assert players[1..][j] == players[j + 1];
        }
      }
    } else {
      assert |Broadcast(live, players, msg)| == 0;
    }
  }

  /** The broadcast goes through the list in order: it distributes over concatenation. */
  lemma {:induction false} BroadcastAppend(live: set<Session>, a: seq<Player>, b: seq<Player>, msg: Msg)
    ensures Broadcast(live, a + b, msg) == Broadcast(live, a, msg) + Broadcast(live, b, msg)
  {
    if |a| > 0 {
      var first := SendTo(live, a[0].session, msg);
      assert (a + b)[0] == a[0] && (a + b)[1..] == a[1..] + b;
      BroadcastAppend(live, a[1..], b, msg);
      calc {
        Broadcast(live, a + b, msg);
        first + Broadcast(live, a[1..] + b, msg);
        first + (Broadcast(live, a[1..], msg) + Broadcast(live, b, msg));
        (first + Broadcast(live, a[1..], msg)) + Broadcast(live, b, msg);
      }
    } else {
      assert a + b == b;
    }
  }

  /** One player receives the broadcast exactly when its session is open. */
  lemma BroadcastOne(live: set<Session>, p: Player, msg: Msg)
    ensures Broadcast(live, [p], msg) == (if p.session in live then [Send(p.session, msg)] else [])
  {
  }

  // ---------------------------------------------------------------------------
  // Lookups

  /** The value stored under a key, as Java's `Map.get` returns it. */
  function Get<K, V>(m: map<K, V>, k: K): (r: Option<V>)
    ensures r.Some? <==> k in m
    ensures r.Some? ==> r.value == m[k]
  {
    if k in m then Some(m[k]) else None
  }

  /** The bean balance of an account; an account with no balance reads as 0. */
  function Beans(st: Coordinator, openId: string): int {
    if openId in st.beans then st.beans[openId] else 0
  }

  /** Neither counter has moved back: ids drawn after `st` are never ones drawn before it. */
  predicate CountersAtLeast(st': Coordinator, st: Coordinator) {
    st'.counters.roomId >= st.counters.roomId && st'.counters.userCode >= st.counters.userCode
  }

  /** The counters, the game histories and the bean balances are as they were. */
  predicate AccountsKept(st': Coordinator, st: Coordinator) {
    st'.counters == st.counters && st'.history == st.history && st'.beans == st.beans
  }

  /**
   * `findOpenIdBySession(session)`. Every entry is stored under the cleaned parameter of its own
   * session (see `SessionsKeyed`), so the scan of the map can only succeed at that one key.
   */
  function FindOpenIdBySession(st: Coordinator, session: Session): (r: Option<string>)
    ensures r.Some? ==> r.value in st.sessions && st.sessions[r.value] == session
  {
    if session.param.Some? && Clean(session.param.value) in st.sessions
       && st.sessions[Clean(session.param.value)] == session
    then Some(Clean(session.param.value))
    else None
  }

  /** Every session entry sits under the cleaned parameter its session was opened with. */
  ghost predicate SessionsKeyed(sessions: map<string, Session>) {
    forall k :: k in sessions ==> sessions[k].param.Some? && k == Clean(sessions[k].param.value)
  }

  /** Under `SessionsKeyed` the lookup finds a key exactly when the map scan would. */
  lemma FindOpenIdBySessionIsScan(st: Coordinator, session: Session)
    requires SessionsKeyed(st.sessions)
    ensures FindOpenIdBySession(st, session).Some? <==>
              exists k :: k in st.sessions && st.sessions[k] == session
    ensures forall k :: k in st.sessions && st.sessions[k] == session ==> FindOpenIdBySession(st, session) == Some(k)
  {
  }

  // ---------------------------------------------------------------------------
  // Room teardown and departure

  /** Some remaining player still has a session entry (`hasOtherPlayers`). */
  predicate AnyOnline(players: seq<Player>, sessions: map<string, Session>) {
    exists i :: 0 <= i < |players| && players[i].openId in sessions
  }

  /** The code map without the codes of room `rid`. */
  function CodesWithout(codes: map<string, int>, rid: int): (r: map<string, int>)
    ensures forall c :: c in r <==> c in codes && codes[c] != rid
    ensures forall c :: c in r ==> r[c] == codes[c]
  {
    map c | c in codes && codes[c] != rid :: codes[c]
  }

  /**
   * The room and its code are dropped. The source removes the first code it finds for the room;
   * codes are never shared between rooms (`CodesInjective`), so that is all of them. Entries of
   * `openId2RoomIdMap` pointing at the room are left as they are.
   */
  function Teardown(st: Coordinator, rid: int): (r: Coordinator)
    ensures rid !in r.rooms && r.rooms == st.rooms - {rid}
    ensures r.codes == CodesWithout(st.codes, rid)
    ensures r == st.(rooms := r.rooms, codes := r.codes)
  {
    st.(rooms := st.rooms - {rid}, codes := CodesWithout(st.codes, rid))
  }

  /**
   * The common tail of `handleLeaveRoom` and `cleanupPlayerData`: the player leaves the room's
   * list, and the room is torn down when no remaining player has a session entry.
   */
  function DepartRoom(st: Coordinator, rid: int, openId: string): (r: Coordinator)
    requires rid in st.rooms
    ensures var rest := RemoveMember(st.rooms[rid].players, openId);
            if AnyOnline(rest, st.sessions) then
              r == st.(rooms := st.rooms[rid := st.rooms[rid].(players := rest)])
            else
              r == Teardown(st, rid)
  {
    var rest := RemoveMember(st.rooms[rid].players, openId);
    if AnyOnline(rest, st.sessions) then st.(rooms := st.rooms[rid := st.rooms[rid].(players := rest)])
    else Teardown(st, rid)
  }

  // ---------------------------------------------------------------------------
  // Connection callbacks

  /**
   * `onOpen(session)`. Without the `openId` parameter the session is closed and nothing else
   * happens. Otherwise the session is stored under the cleaned id, and a different session
   * stored there before is closed.
   */
  function OnOpen(st: Coordinator, session: Session): (r: Step)
    ensures r.out == []
    ensures session.param.None? ==> r.st == st.(live := st.live - {session})
    ensures session.param.Some? ==>
              var key := Clean(session.param.value);
              && r.st.sessions == st.sessions[key := session]
              && r.st.live == (if key in st.sessions && st.sessions[key] != session
                               then (st.live + {session}) - {st.sessions[key]}
                               else st.live + {session})
              && r.st == st.(sessions := r.st.sessions, live := r.st.live)
  {
    match session.param
    case None => Step(st.(live := st.live - {session}), [])
    case Some(raw) =>
      var key := Clean(raw);
      var live := st.live + {session};
      var live' := if key in st.sessions && st.sessions[key] != session then live - {st.sessions[key]} else live;
      Step(st.(sessions := st.sessions[key := session], live := live'), [])
  }

  /**
   * `cleanupPlayerData(openId)`: the player's room entry goes; if that room still exists the
   * player leaves it and it is torn down when nobody left in it has a session.
   */
  function Cleanup(st: Coordinator, openId: string): (r: Coordinator)
    ensures openId !in r.roomOf && r.roomOf == st.roomOf - {openId}
    ensures r.sessions == st.sessions && r.live == st.live && r.history == st.history
    ensures r.beans == st.beans && r.counters == st.counters
    ensures openId !in st.roomOf || st.roomOf[openId] !in st.rooms ==> r.rooms == st.rooms && r.codes == st.codes
    ensures openId in st.roomOf && st.roomOf[openId] in st.rooms ==>
              var rid := st.roomOf[openId];
              var rest := RemoveMember(st.rooms[rid].players, openId);
              && (rid in r.rooms <==> AnyOnline(rest, st.sessions))
              && (rid in r.rooms ==> r.rooms[rid] == st.rooms[rid].(players := rest) && r.codes == st.codes)
              && (rid !in r.rooms ==> r.codes == CodesWithout(st.codes, rid))
              && (forall k :: k in st.rooms && k != rid ==> k in r.rooms && r.rooms[k] == st.rooms[k])
  {
    var st1 := st.(roomOf := st.roomOf - {openId});
    match Get(st.roomOf, openId)
    case None => st1
    case Some(rid) => if rid in st1.rooms then DepartRoom(st1, rid, openId) else st1
  }

  /**
   * `handlePlayerDisconnect(openId)`: the first other player, if its session is open, is told the
   * opponent left; then `cleanupPlayerData`. Without a room entry or a room, nothing happens.
   */
  function Disconnect(st: Coordinator, openId: string): (r: Step)
    ensures openId !in st.roomOf || st.roomOf[openId] !in st.rooms ==> r == Step(st, [])
    ensures openId in st.roomOf && st.roomOf[openId] in st.rooms ==>
              var opp := FirstOther(st.rooms[st.roomOf[openId]].players, openId);
              && r.st == Cleanup(st, openId)
              && (opp.None? ==> r.out == [])
              && (opp.Some? ==> r.out == SendTo(st.live, opp.value.session, OpponentLeave(MsgOpponentLeft)))
  {
    match Get(st.roomOf, openId)
    case None => Step(st, [])
    case Some(rid) =>
      if rid !in st.rooms then Step(st, [])
      else
        var notice := match FirstOther(st.rooms[rid].players, openId)
                      case None => []
                      case Some(opp) => SendTo(st.live, opp.session, OpponentLeave(MsgOpponentLeft));
        Step(Cleanup(st, openId), notice)
  }

  /**
   * `onClose(session)`. The closing session is no longer open. Unless it is the session
   * registered for its openId, that is all. Otherwise the entry is removed and, for a player
   * with a room entry, the room is left: through `handlePlayerDisconnect` when the room holds two
   * players, through `cleanupPlayerData` when it holds fewer or no longer exists.
   */
  function OnClose(st: Coordinator, session: Session): (r: Step)
    ensures FindOpenIdBySession(st, session).None? ==> r == Step(st.(live := st.live - {session}), [])
    ensures FindOpenIdBySession(st, session).Some? ==>
              var openId := FindOpenIdBySession(st, session).value;
              var st1 := st.(live := st.live - {session}, sessions := st.sessions - {openId});
              if openId in st.roomOf && st.roomOf[openId] in st.rooms && |st.rooms[st.roomOf[openId]].players| == 2
              then r == Disconnect(st1, openId)
              else r == Step(Cleanup(st1, openId), [])
    ensures AccountsKept(r.st, st)
  {
    var st0 := st.(live := st.live - {session});
    match FindOpenIdBySession(st, session)
    case None => Step(st0, [])
    case Some(openId) =>
      var st1 := st0.(sessions := st0.sessions - {openId});
      match Get(st1.roomOf, openId)
      case None => Step(st1, [])
      case Some(rid) =>
        if rid in st1.rooms && |st1.rooms[rid].players| == 2 then Disconnect(st1, openId)
        else Step(Cleanup(st1, openId), [])
  }

  /**
   * `handleLeaveRoom(openId)`. With no room entry, or an entry whose room is gone, nothing
   * happens (the dangling entry stays). Otherwise the first other player is notified if its
   * session is open, the leaver's own open session is closed, its session and room entries are
   * removed, and it leaves the room, which is torn down when nobody left has a session entry.
   */
  function Leave(st: Coordinator, openId: string): (r: Step)
    ensures openId !in st.roomOf || st.roomOf[openId] !in st.rooms ==> r == Step(st, [])
    ensures AccountsKept(r.st, st)
  {
    match Get(st.roomOf, openId)
    case None => Step(st, [])
    case Some(rid) =>
      if rid !in st.rooms then Step(st, [])
      else
        var room := st.rooms[rid];
        var notice := match FirstOther(room.players, openId)
                      case None => []
                      case Some(opp) => SendTo(st.live, opp.session, OpponentLeave(MsgOpponentLeft));
        var live := if openId in st.sessions then st.live - {st.sessions[openId]} else st.live;
        var st1 := st.(live := live, sessions := st.sessions - {openId}, roomOf := st.roomOf - {openId});
        Step(DepartRoom(st1, rid, openId), notice)
  }

  /** `onError(session)`: the session entry is removed and the player leaves its room. */
  function OnError(st: Coordinator, session: Session): (r: Step)
    ensures FindOpenIdBySession(st, session).None? ==> r == Step(st, [])
    ensures AccountsKept(r.st, st)
  {
    match FindOpenIdBySession(st, session)
    case None => Step(st, [])
    case Some(openId) => Leave(st.(sessions := st.sessions - {openId}), openId)
  }

  // ---------------------------------------------------------------------------
  // join_room

  /**
   * The part of `handleJoinRoom` after the nickname screen, for an id already cleaned: a user code
   * is drawn first; then an unknown room code opens a new room, and a known one seats the joiner
   * unless its room is gone or already holds two players (a returning member included).
   */
  function JoinRoom(st: Coordinator, rules: RoundRules, session: Session, openId: string,
                    roomCode: string, nickname: string): (r: Step)
    ensures r.st.counters.userCode == st.counters.userCode + 1
    ensures r.st.counters.roomId == st.counters.roomId + (if roomCode in st.codes then 0 else 1)
    ensures r.st.history == st.history && r.st.beans == st.beans
  {
    var code := NextUserCode(st.counters);
    var st1 := st.(counters := code.next);
    if roomCode in st1.codes then
      var rid := st1.codes[roomCode];
      if rid !in st1.rooms || |st1.rooms[rid].players| >= 2 then
        Step(st1, SendTo(st1.live, session, RoomFull))
      else
        JoinExisting(st1, rules, session, openId, rid, nickname, code.value)
    else
      JoinNew(st1, session, openId, roomCode, nickname, code.value)
  }

  /**
   * A known code whose room has a free seat: a newcomer is appended on the red side, a returning
   * member only has its session rebound; either way its room entry points at the room. A room that
   * reaches two players starts when both hold at least the bet (the game state gets the room id
   * and the pools are reset); otherwise `bean_not_enough` is broadcast and the seating stays.
   */
  function JoinExisting(st: Coordinator, rules: RoundRules, session: Session, openId: string,
                        rid: int, nickname: string, userCode: int): (r: Step)
    requires rid in st.rooms
    ensures rid in r.st.rooms
    ensures r.st == st.(rooms := st.rooms[rid := r.st.rooms[rid]], roomOf := st.roomOf[openId := rid])
    ensures var seated := Seat(st.rooms[rid], Player(openId, RedSide, nickname, session, userCode));
            r.st.rooms[rid].id == seated.id && r.st.rooms[rid].players == seated.players
    ensures var seated := Seat(st.rooms[rid], Player(openId, RedSide, nickname, session, userCode));
            |seated.players| != 2 ==>
              r.st.rooms[rid] == seated && r.out == Broadcast(st.live, seated.players, RoomState(seated.players))
    ensures var seated := Seat(st.rooms[rid], Player(openId, RedSide, nickname, session, userCode));
            |seated.players| == 2 ==>
              var bet := rules.bet(seated.game);
              if Beans(st, seated.players[0].openId) >= bet && Beans(st, seated.players[1].openId) >= bet then
                && r.st.rooms[rid] == ResetPlayerDecks(seated.(game := rules.setRoomId(seated.game, seated.id)))
                && r.out == Broadcast(st.live, seated.players, GameReady(seated.players, seated.id))
              else
                r.st.rooms[rid] == seated && r.out == Broadcast(st.live, seated.players, BeanNotEnough(MsgBeansShortStart))
  {
    var seated := Seat(st.rooms[rid], Player(openId, RedSide, nickname, session, userCode));
    var st2 := st.(rooms := st.rooms[rid := seated], roomOf := st.roomOf[openId := rid]);
    if |seated.players| == 2 then
      var bet := rules.bet(seated.game);
      if Beans(st2, seated.players[0].openId) < bet || Beans(st2, seated.players[1].openId) < bet then
        Step(st2, Broadcast(st2.live, seated.players, BeanNotEnough(MsgBeansShortStart)))
      else
        var ready := ResetPlayerDecks(seated.(game := rules.setRoomId(seated.game, seated.id)));
        Step(st.(rooms := st.rooms[rid := ready], roomOf := st2.roomOf),
             Broadcast(st2.live, ready.players, GameReady(ready.players, ready.id)))
    else
      Step(st2, Broadcast(st2.live, seated.players, RoomState(seated.players)))
  }

  /**
   * An unknown code: the next room id names a new room whose only player is the joiner on the
   * blue side; the code and the joiner's room entry point at it.
   */
  function JoinNew(st: Coordinator, session: Session, openId: string, roomCode: string,
                   nickname: string, userCode: int): (r: Step)
    ensures var rid := st.counters.roomId;
            && rid in r.st.rooms
            && r.st == st.(counters := NextRoomId(st.counters).next,
                           rooms := st.rooms[rid := r.st.rooms[rid]],
                           codes := st.codes[roomCode := rid],
                           roomOf := st.roomOf[openId := rid])
            && r.st.rooms[rid] == AddPlayer(NewRoom(rid), Player(openId, BlueSide, nickname, session, userCode))
  {
    var issued := NextRoomId(st.counters);
    var rid := issued.value;
    var room := AddPlayer(NewRoom(rid), Player(openId, BlueSide, nickname, session, userCode));
    var st2 := st.(counters := issued.next, rooms := st.rooms[rid := room],
                   codes := st.codes[roomCode := rid], roomOf := st.roomOf[openId := rid]);
    Step(st2, Broadcast(st2.live, room.players, RoomState(room.players)))
  }

  /**
   * `join_room` as `onMessage` dispatches it: a message without openId or roomCode is dropped;
   * the id is cleaned; a refused nickname is answered on the joining session and nothing else
   * happens.
   */
  function Join(st: Coordinator, rules: RoundRules, session: Session, openId: Option<string>,
                roomCode: Option<string>, nickname: Option<string>): (r: Step)
    ensures openId.None? || roomCode.None? ==> r == Step(st, [])
    ensures openId.Some? && roomCode.Some? && JoinNicknameError(nickname).Some? ==>
              r == Step(st, SendTo(st.live, session, NicknameError(JoinNicknameError(nickname).value)))
    ensures CountersAtLeast(r.st, st) && r.st.history == st.history && r.st.beans == st.beans
  {
    if openId.None? || roomCode.None? then Step(st, [])
    else
      match JoinNicknameError(nickname)
      case Some(message) => Step(st, SendTo(st.live, session, NicknameError(message)))
      case None => JoinRoom(st, rules, session, Clean(openId.value), roomCode.value, nickname.value)
  }

  // ---------------------------------------------------------------------------
  // play_card and the game record

  /**
   * `st'` differs from `st` at most in room `rid`'s game state, the bean balances and the
   * histories: every map of the registry, every room's players and pools, the open sessions and
   * the counters are as they were.
   */
  predicate GameOnly(st: Coordinator, st': Coordinator, rid: int) {
    && rid in st.rooms && rid in st'.rooms
    && st' == st.(rooms := st.rooms[rid := st.rooms[rid].(game := st'.rooms[rid].game)],
                  beans := st'.beans, history := st'.history)
  }

  /** The `round_complete` message for one player: the round, its own card, then the other side's. */
  function RoundView(p: Player, rules: RoundRules, g: GameState): Msg {
    if p.role == RedSide then RoundComplete(rules.roundNumber(g), rules.redCard(g), rules.blueCard(g))
    else RoundComplete(rules.roundNumber(g), rules.blueCard(g), rules.redCard(g))
  }

  /**
   * The `round_complete` messages of a finished round: every player with an open session gets
   * its own view, and nothing goes to anyone else.
   */
  function RoundSends(live: set<Session>, players: seq<Player>, rules: RoundRules, g: GameState): (out: seq<Send>)
    ensures |out| <= |players|
    ensures forall j :: 0 <= j < |players| && players[j].session in live ==>
              Send(players[j].session, RoundView(players[j], rules, g)) in out
    ensures forall i :: 0 <= i < |out| ==>
              out[i].to in live && exists j :: 0 <= j < |players| && out[i] == Send(players[j].session, RoundView(players[j], rules, g))
  {
    if |players| == 0 then []
    else
      var p := players[0];
      var first := SendTo(live, p.session, RoundView(p, rules, g));
      var rest := RoundSends(live, players[1..], rules, g);
      assert forall i :: 1 <= i < |players| ==> players[i] == players[1..][i - 1];
      assert forall i :: 0 <= i < |rest| ==> exists j :: 0 <= j < |players| && rest[i] == Send(players[j].session, RoundView(players[j], rules, g)) by {
        forall i | 0 <= i < |rest| ensures exists j :: 0 <= j < |players| && rest[i] == Send(players[j].session, RoundView(players[j], rules, g)) {
          var j :| 0 <= j < |players[1..]| && rest[i] == Send(players[1..][j].session, RoundView(players[1..][j], rules, g));
          assert players[1..][j] == players[j + 1];
        }
      }
      first + rest
  }

  /** The nickname of the first member with this openId, or the given fallback. */
  function NameOr(players: seq<Player>, openId: string, fallback: string): string {
    match FindMember(players, openId)
    case Some(p) => p.nickName
    case None => fallback
  }

  /**
   * `recordGame(roomId, winner, loser)`: the winner is credited and the loser debited the bet;
   * the game state records the result; the same record is appended to both histories; the
   * winner's streak is scanned (sorting its list in place); a streak of three or more sends the
   * winner a share if its session is registered and open.
   */
  function RecordGame(st: Coordinator, rules: RoundRules, rid: int, winner: string, loser: string): (r: Step)
    ensures rid !in st.rooms ==> r == Step(st, [])
    ensures rid in st.rooms ==> GameOnly(st, r.st, rid)
  {
    if rid !in st.rooms then Step(st, [])
    else
      var room := st.rooms[rid];
      var bet := rules.bet(room.game);
      var beans1 := st.beans[winner := Beans(st, winner) + bet];
      var beans2 := beans1[loser := (if loser in beans1 then beans1[loser] else 0) - bet];
      var game := rules.recordResult(room.game, winner, loser);
      var rec := rules.createRecord(game);
      var history := Append(Append(st.history, winner, rec), loser, rec);
      var scan := MatchStreak(history, winner, rid);
      var st1 := st.(beans := beans2, rooms := st.rooms[rid := room.(game := game)], history := scan.history);
      if scan.streak >= MinShareStreak then
        var share := MatchShare(scan.streak, NameOr(room.players, winner, DefaultWinnerName),
                                NameOr(room.players, loser, DefaultLoserName));
        var out := if winner in st.sessions then SendTo(st.live, st.sessions[winner], ShareMsg(share)) else [];
        Step(st1, out)
      else Step(st1, [])
  }

  /**
   * `handlePlayCard(openId, card)` for a cleaned id. Dropped without a room entry, without a room,
   * for a completed game, or for an id that is not a member. The card goes to the game state
   * under the member's side, without any check against its pool. When the round is complete,
   * each player gets the round's cards; a `continue` result advances the round; any other
   * result (with both sides present) records a red or blue win and is broadcast. Otherwise the
   * first other player is asked for a card.
   */
  function PlayCard(st: Coordinator, rules: RoundRules, openId: string, card: int): (r: Step)
    ensures r.st == st || (openId in st.roomOf && GameOnly(st, r.st, st.roomOf[openId]))
  {
    match Get(st.roomOf, openId)
    case None => Step(st, [])
    case Some(rid) =>
      if rid !in st.rooms || rules.completed(st.rooms[rid].game) then Step(st, [])
      else
        match FindMember(st.rooms[rid].players, openId)
        case None => Step(st, [])
        case Some(me) => Played(st, rules, rid, me, card)
  }

  /** A member's card reaches the game state of its room; the round is then settled or the opponent asked. */
  function Played(st: Coordinator, rules: RoundRules, rid: int, me: Player, card: int): (r: Step)
    requires rid in st.rooms
    ensures GameOnly(st, r.st, rid)
  {
    var room := st.rooms[rid];
    var g := rules.addCard(room.game, Some(RoleName(me.role)), card);
    var st1 := st.(rooms := st.rooms[rid := room.(game := g)]);
    if rules.roundComplete(g) then
      var settled := Settle(st1, rules, rid);
      GameOnlyTrans(st, st1, settled.st, rid);
      settled
    else
      var ask := match FirstOther(room.players, me.openId)
                 case None => []
                 case Some(opp) => SendTo(st.live, opp.session, PleaseTakeCard);
      Step(st1, ask)
  }

  /** Changes confined to one room's game, beans and histories compose. */
  lemma GameOnlyTrans(st: Coordinator, st1: Coordinator, st2: Coordinator, rid: int)
    requires GameOnly(st, st1, rid) && GameOnly(st1, st2, rid)
    ensures GameOnly(st, st2, rid)
  {
  }

  /**
   * A completed round: every player is shown the round's cards, and then the result is settled
   * (`SettleResult`).
   */
  function Settle(st: Coordinator, rules: RoundRules, rid: int): (r: Step)
    requires rid in st.rooms
    ensures GameOnly(st, r.st, rid)
  {
    var room := st.rooms[rid];
    var rounds := RoundSends(st.live, room.players, rules, room.game);
    var settled := SettleResult(st, rules, rid);
    Step(settled.st, rounds + settled.out)
  }

  /** The winner's and the loser's ids for a decided result: red over blue unless blue won. */
  function WinnerFirst(result: RoundResult, red: Player, blue: Player): (string, string)
  {
    if result == BlueWin then (blue.openId, red.openId) else (red.openId, blue.openId)
  }

  /**
   * What follows the round's cards: `continue` advances the round, and any other result, with
   * both sides seated, records a red or blue win and is broadcast.
   */
  function SettleResult(st: Coordinator, rules: RoundRules, rid: int): (r: Step)
    requires rid in st.rooms
    ensures GameOnly(st, r.st, rid)
  {
    var room := st.rooms[rid];
    var g := room.game;
    var result := rules.roundResult(g);
    if result == Continue then
      Step(st.(rooms := st.rooms[rid := room.(game := rules.nextRound(g))]), [])
    else
      match (FirstWithRole(room.players, RedSide), FirstWithRole(room.players, BlueSide))
      case (Some(red), Some(blue)) =>
        var recorded :=
          if result == RedWin || result == BlueWin then
            var (winner, loser) := WinnerFirst(result, red, blue);
            RecordGame(st, rules, rid, winner, loser)
          else Step(st, []);
        Step(recorded.st, recorded.out + Broadcast(st.live, room.players, GameResult(result)))
      case _ => Step(st, [])
  }

  // ---------------------------------------------------------------------------
  // Rematch

  /**
   * `handleRematchRequest(requester)`. A room that is gone or not exactly two players, or a
   * missing requester or opponent, sends the requester through `handleLeaveRoom`. An opponent
   * whose session is closed makes the requester hear that the player left and leave too.
   * Otherwise the opponent receives the request.
   */
  function RematchRequest(st: Coordinator, requester: string): (r: Step)
    ensures requester !in st.roomOf ==> r == Step(st, [])
    ensures AccountsKept(r.st, st)
  {
    match Get(st.roomOf, requester)
    case None => Step(st, [])
    case Some(rid) =>
      if rid !in st.rooms || |st.rooms[rid].players| != 2 then Leave(st, requester)
      else
        var players := st.rooms[rid].players;
        match (FindMember(players, requester), FirstOther(players, requester))
        case (Some(me), Some(opp)) =>
          if opp.session !in st.live then
            var left := Leave(st, requester);
            Step(left.st, SendTo(st.live, me.session, OpponentLeave(MsgPlayerLeft)) + left.out)
          else
            Step(st, [Send(opp.session, RematchRequestFrom(requester))])
        case _ => Leave(st, requester)
  }

  /**
   * `handleRematchAccept(openId)`: for a two-player room, either both hold the bet and the game
   * state and pools are reset and `game_ready` is broadcast, or `bean_not_enough` is broadcast
   * and nothing changes.
   */
  function RematchAccept(st: Coordinator, rules: RoundRules, openId: string): (r: Step)
    ensures openId !in st.roomOf || st.roomOf[openId] !in st.rooms || |st.rooms[st.roomOf[openId]].players| != 2 ==>
              r == Step(st, [])
    ensures r.st == st.(rooms := r.st.rooms) && r.st.rooms.Keys == st.rooms.Keys
    ensures forall k :: k in st.rooms && (openId !in st.roomOf || k != st.roomOf[openId]) ==> r.st.rooms[k] == st.rooms[k]
    ensures forall k :: k in r.st.rooms ==> r.st.rooms[k].players == st.rooms[k].players
  {
    match Get(st.roomOf, openId)
    case None => Step(st, [])
    case Some(rid) =>
      if rid !in st.rooms || |st.rooms[rid].players| != 2 then Step(st, [])
      else
        var room := st.rooms[rid];
        var bet := rules.bet(room.game);
        if Beans(st, room.players[0].openId) < bet || Beans(st, room.players[1].openId) < bet then
          Step(st, Broadcast(st.live, room.players, BeanNotEnough(MsgBeansShortRematch)))
        else
          var ready := ResetPlayerDecks(room.(game := Reset(room.game)));
          Step(st.(rooms := st.rooms[rid := ready]), Broadcast(st.live, ready.players, GameReady(ready.players, ready.id)))
  }

  /**
   * `handleRematchReject(openId)`: in a two-player room with both parties present, the requester
   * is told of the refusal if its session is open. No map is ever changed.
   */
  function RematchReject(st: Coordinator, openId: string): (r: Step)
    ensures r.st == st
    ensures r.out != [] <==>
              && openId in st.roomOf && st.roomOf[openId] in st.rooms
              && |st.rooms[st.roomOf[openId]].players| == 2
              && HasMember(st.rooms[st.roomOf[openId]].players, openId)
              && FirstOther(st.rooms[st.roomOf[openId]].players, openId).Some?
              && FirstOther(st.rooms[st.roomOf[openId]].players, openId).value.session in st.live
    ensures r.out != [] ==>
              && openId in st.roomOf && st.roomOf[openId] in st.rooms
              && FirstOther(st.rooms[st.roomOf[openId]].players, openId).Some?
              && r.out == [Send(FirstOther(st.rooms[st.roomOf[openId]].players, openId).value.session, RematchRejected)]
  {
    match Get(st.roomOf, openId)
    case None => Step(st, [])
    case Some(rid) =>
      if rid !in st.rooms || |st.rooms[rid].players| != 2 then Step(st, [])
      else
        var players := st.rooms[rid].players;
        match (FindMember(players, openId), FirstOther(players, openId))
        case (Some(_), Some(requester)) => Step(st, SendTo(st.live, requester.session, RematchRejected))
        case _ => Step(st, [])
  }

  // ---------------------------------------------------------------------------
  // Dispatch

  /** A parsed inbound message; anything without a recognised `type` is `Unrecognised`. */
  datatype Inbound =
    | JoinRoomMsg(openId: Option<string>, roomCode: Option<string>, nickName: Option<string>)
    | PlayCardMsg(openId: Option<string>, card: Option<int>)
    | LeaveRoomMsg
    | RematchRequestMsg
    | RematchAcceptMsg
    | RematchRejectMsg
    | Unrecognised

  /**
   * `onMessage(message, session)`: a session with no registered openId is ignored. `join_room`
   * and `play_card` use the openId inside the message, the other types the session's.
   */
  function OnMessage(st: Coordinator, rules: RoundRules, session: Session, msg: Inbound): (r: Step)
    ensures FindOpenIdBySession(st, session).None? ==> r == Step(st, [])
    ensures CountersAtLeast(r.st, st)
  {
    match FindOpenIdBySession(st, session)
    case None => Step(st, [])
    case Some(me) =>
      match msg
      case JoinRoomMsg(id, roomCode, nick) => Join(st, rules, session, id, roomCode, nick)
      case PlayCardMsg(id, card) =>
        if id.None? || card.None? then Step(st, []) else PlayCard(st, rules, Clean(id.value), card.value)
      case LeaveRoomMsg => Leave(st, me)
      case RematchRequestMsg => RematchRequest(st, me)
      case RematchAcceptMsg => RematchAccept(st, rules, me)
      case RematchRejectMsg => RematchReject(st, me)
      case Unrecognised => Step(st, [])
  }

  /** The container's callbacks. */
  datatype Event = Opened(session: Session) | Closed(session: Session) | Errored(session: Session)
                 | Received(session: Session, msg: Inbound)

  /**
   * One callback of the endpoint. Only `join_room` draws from the counters; the connection
   * callbacks leave them, the histories and the beans as they were.
   */
  function Handle(st: Coordinator, rules: RoundRules, ev: Event): (r: Step)
    ensures CountersAtLeast(r.st, st)
    ensures !ev.Received? ==> AccountsKept(r.st, st)
  {
    match ev
    case Opened(s) => OnOpen(st, s)
    case Closed(s) => OnClose(st, s)
    case Errored(s) => OnError(st, s)
    case Received(s, m) => OnMessage(st, rules, s, m)
  }
}
