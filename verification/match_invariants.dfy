/**
 * Invariants of the `/match` coordinator that every callback preserves: rooms are stored under
 * their own id and never hold more than two players, session entries sit under their own
 * session's cleaned id, room ids (as rooms and as code targets) are below the room counter, no
 * two codes name the same room, and every code names an existing room.
 */
module MatchInvariants {
  import opened Options
  import opened Transport
  import opened GameUtil
  import opened GameStateModel
  import opened MatchRoom
  import opened OpenIdCleaning
  import opened JoinNickname
  import opened MatchCoordinator

  ghost predicate RoomsKeyed(st: Coordinator) {
    forall rid :: rid in st.rooms ==> st.rooms[rid].id == rid
  }

  ghost predicate RoomsBounded(st: Coordinator) {
    forall rid :: rid in st.rooms ==> |st.rooms[rid].players| <= 2
  }

  ghost predicate IdsBelowCounter(st: Coordinator) {
    && (forall rid :: rid in st.rooms ==> rid < st.counters.roomId)
    && (forall c :: c in st.codes ==> st.codes[c] < st.counters.roomId)
  }

  ghost predicate CodesInjective(codes: map<string, int>) {
    forall c1, c2 :: c1 in codes && c2 in codes && codes[c1] == codes[c2] ==> c1 == c2
  }

  ghost predicate CodesResolve(st: Coordinator) {
    forall c :: c in st.codes ==> st.codes[c] in st.rooms
  }

  ghost predicate Valid(st: Coordinator) {
    && RoomsKeyed(st)
    && RoomsBounded(st)
    && SessionsKeyed(st.sessions)
    && IdsBelowCounter(st)
    && CodesInjective(st.codes)
    && CodesResolve(st)
  }

  /** The starting state satisfies the invariants. */
  lemma InitialValid()
    ensures Valid(Initial)
  {
  }

  /** Changing only the open sessions, the history, the beans or the user-code counter keeps them. */
  lemma FrameValid(st: Coordinator, st': Coordinator)
    requires Valid(st)
    requires st'.sessions == st.sessions && st'.rooms == st.rooms && st'.codes == st.codes
    requires st'.counters.roomId == st.counters.roomId
    ensures Valid(st')
  {
  }

  /** Removing session entries keeps the keying of the rest. */
  lemma SessionsRemoveKeyed(sessions: map<string, Session>, k: string)
    requires SessionsKeyed(sessions)
    ensures SessionsKeyed(sessions - {k})
  {
  }

  /** Tearing a room down keeps the invariants. */
  lemma TeardownValid(st: Coordinator, rid: int)
    requires Valid(st)
    ensures Valid(Teardown(st, rid))
  {
  }

  /** A departure from a room keeps the invariants: the room only shrinks or goes. */
  lemma DepartRoomValid(st: Coordinator, rid: int, openId: string)
    requires Valid(st) && rid in st.rooms
    ensures Valid(DepartRoom(st, rid, openId))
  {
    var rest := RemoveMember(st.rooms[rid].players, openId);
    if !AnyOnline(rest, st.sessions) {
      TeardownValid(st, rid);
    }
  }

  lemma OnOpenValid(st: Coordinator, session: Session)
    requires Valid(st)
    ensures Valid(OnOpen(st, session).st)
  {
  }

  lemma CleanupValid(st: Coordinator, openId: string)
    requires Valid(st)
    ensures Valid(Cleanup(st, openId))
  {
    var st1 := st.(roomOf := st.roomOf - {openId});
    if openId in st.roomOf && st.roomOf[openId] in st1.rooms {
      DepartRoomValid(st1, st.roomOf[openId], openId);
    }
  }

  lemma DisconnectValid(st: Coordinator, openId: string)
    requires Valid(st)
    ensures Valid(Disconnect(st, openId).st)
  {
    CleanupValid(st, openId);
  }

  lemma OnCloseValid(st: Coordinator, session: Session)
    requires Valid(st)
    ensures Valid(OnClose(st, session).st)
  {
    var st0 := st.(live := st.live - {session});
    if FindOpenIdBySession(st, session).Some? {
      var openId := FindOpenIdBySession(st, session).value;
      var st1 := st0.(sessions := st0.sessions - {openId});
      SessionsRemoveKeyed(st0.sessions, openId);
      assert Valid(st1);
      CleanupValid(st1, openId);
      DisconnectValid(st1, openId);
    }
  }

  lemma LeaveValid(st: Coordinator, openId: string)
    requires Valid(st)
    ensures Valid(Leave(st, openId).st)
  {
    if openId in st.roomOf && st.roomOf[openId] in st.rooms {
      var rid := st.roomOf[openId];
      var live := if openId in st.sessions then st.live - {st.sessions[openId]} else st.live;
      var st1 := st.(live := live, sessions := st.sessions - {openId}, roomOf := st.roomOf - {openId});
      SessionsRemoveKeyed(st.sessions, openId);
      assert Valid(st1);
      DepartRoomValid(st1, rid, openId);
    }
  }

  lemma OnErrorValid(st: Coordinator, session: Session)
    requires Valid(st)
    ensures Valid(OnError(st, session).st)
  {
    if FindOpenIdBySession(st, session).Some? {
      var openId := FindOpenIdBySession(st, session).value;
      SessionsRemoveKeyed(st.sessions, openId);
      LeaveValid(st.(sessions := st.sessions - {openId}), openId);
    }
  }

  /** Seating a player in an existing room with a free seat keeps the room within two. */
  lemma JoinExistingValid(st: Coordinator, rules: RoundRules, session: Session, openId: string,
                          rid: int, nickname: string, userCode: int)
    requires Valid(st) && rid in st.rooms && |st.rooms[rid].players| < 2
    ensures Valid(JoinExisting(st, rules, session, openId, rid, nickname, userCode).st)
  {
  }

  /** A new room takes a fresh id, so its code cannot collide with another room's. */
  lemma JoinNewValid(st: Coordinator, session: Session, openId: string, roomCode: string,
                     nickname: string, userCode: int)
    requires Valid(st) && roomCode !in st.codes
    ensures Valid(JoinNew(st, session, openId, roomCode, nickname, userCode).st)
  {
    var rid := st.counters.roomId;
    assert forall c :: c in st.codes ==> st.codes[c] != rid;
  }

  lemma JoinRoomValid(st: Coordinator, rules: RoundRules, session: Session, openId: string,
                      roomCode: string, nickname: string)
    requires Valid(st)
    ensures Valid(JoinRoom(st, rules, session, openId, roomCode, nickname).st)
  {
    var code := NextUserCode(st.counters);
    var st1 := st.(counters := code.next);
    assert Valid(st1);
    if roomCode in st1.codes {
      var rid := st1.codes[roomCode];
      if rid in st1.rooms && |st1.rooms[rid].players| < 2 {
        JoinExistingValid(st1, rules, session, openId, rid, nickname, code.value);
      }
    } else {
      JoinNewValid(st1, session, openId, roomCode, nickname, code.value);
    }
  }

  lemma JoinValid(st: Coordinator, rules: RoundRules, session: Session, openId: Option<string>,
                  roomCode: Option<string>, nickname: Option<string>)
    requires Valid(st)
    ensures Valid(Join(st, rules, session, openId, roomCode, nickname).st)
  {
    if openId.Some? && roomCode.Some? && JoinNicknameError(nickname).None? {
      JoinRoomValid(st, rules, session, Clean(openId.value), roomCode.value, nickname.value);
    }
  }

  /** A step that changes only one game, the beans and the histories keeps the invariants. */
  lemma GameOnlyValid(st: Coordinator, st': Coordinator, rid: int)
    requires Valid(st) && GameOnly(st, st', rid)
    ensures Valid(st')
  {
  }

  lemma PlayCardValid(st: Coordinator, rules: RoundRules, openId: string, card: int)
    requires Valid(st)
    ensures Valid(PlayCard(st, rules, openId, card).st)
  {
    var r := PlayCard(st, rules, openId, card).st;
    if r != st {
      GameOnlyValid(st, r, st.roomOf[openId]);
    }
  }

  lemma RematchRequestValid(st: Coordinator, requester: string)
    requires Valid(st)
    ensures Valid(RematchRequest(st, requester).st)
  {
    LeaveValid(st, requester);
  }

  lemma RematchAcceptValid(st: Coordinator, rules: RoundRules, openId: string)
    requires Valid(st)
    ensures Valid(RematchAccept(st, rules, openId).st)
  {
  }

  lemma OnMessageValid(st: Coordinator, rules: RoundRules, session: Session, msg: Inbound)
    requires Valid(st)
    ensures Valid(OnMessage(st, rules, session, msg).st)
  {
    if FindOpenIdBySession(st, session).Some? {
      var me := FindOpenIdBySession(st, session).value;
      match msg
      case JoinRoomMsg(id, roomCode, nick) => JoinValid(st, rules, session, id, roomCode, nick);
      case PlayCardMsg(id, card) =>
        if id.Some? && card.Some? {
          PlayCardValid(st, rules, Clean(id.value), card.value);
        }
      case LeaveRoomMsg => LeaveValid(st, me);
      case RematchRequestMsg => RematchRequestValid(st, me);
      case RematchAcceptMsg => RematchAcceptValid(st, rules, me);
      case RematchRejectMsg =>
      case Unrecognised =>
    }
  }

  /** Every callback of the endpoint preserves the invariants; in particular no room ever holds more than two players. */
  lemma HandleValid(st: Coordinator, rules: RoundRules, ev: Event)
    requires Valid(st)
    ensures Valid(Handle(st, rules, ev).st)
    ensures forall rid :: rid in Handle(st, rules, ev).st.rooms ==> |Handle(st, rules, ev).st.rooms[rid].players| <= 2
  {
    match ev
    case Opened(s) => OnOpenValid(st, s);
    case Closed(s) => OnCloseValid(st, s);
    case Errored(s) => OnErrorValid(st, s);
    case Received(s, m) => OnMessageValid(st, rules, s, m);
  }

  /**
   * Any run of callbacks from the starting state. The counters never move back, so no room id or
   * user code is drawn twice; a run without messages leaves the counters, the histories and the
   * beans alone.
   */
  function Run(st: Coordinator, rules: RoundRules, events: seq<Event>): (r: Coordinator)
    ensures CountersAtLeast(r, st)
    ensures (forall i :: 0 <= i < |events| ==> !events[i].Received?) ==> AccountsKept(r, st)
    decreases |events|
  {
    if |events| == 0 then st
    else
      assert forall i :: 1 <= i < |events| ==> events[1..][i - 1] == events[i];
      Run(Handle(st, rules, events[0]).st, rules, events[1..])
  }

  /** Running two sequences of callbacks one after the other is running their concatenation. */
  lemma {:induction false} RunAppend(st: Coordinator, rules: RoundRules, a: seq<Event>, b: seq<Event>)
    ensures Run(st, rules, a + b) == Run(Run(st, rules, a), rules, b)
    decreases |a|
  {
    if |a| == 0 {
      assert a + b == b;
    } else {
      assert (a + b)[0] == a[0] && (a + b)[1..] == a[1..] + b;
      RunAppend(Handle(st, rules, a[0]).st, rules, a[1..], b);
    }
  }

  /** Along any run from a valid state, and so from the start, the invariants hold. */
  lemma {:induction false} RunValid(st: Coordinator, rules: RoundRules, events: seq<Event>)
    requires Valid(st)
    ensures Valid(Run(st, rules, events))
    decreases |events|
  {
    if |events| > 0 {
      HandleValid(st, rules, events[0]);
      RunValid(Handle(st, rules, events[0]).st, rules, events[1..]);
    }
  }
}
