/**
 * What the `/match` callbacks promise their clients: the three outcomes of a join by room code,
 * the effects of leaving, why a stale close cannot evict a reconnected player, the settlement a
 * finished game performs, and that a played card is never checked against its pool.
 */
module MatchProperties {
  import opened Options
  import opened Transport
  import opened GameUtil
  import opened GameStateModel
  import opened MatchRoom
  import opened OpenIdCleaning
  import opened WinStreak
  import opened ShareTiers
  import opened MatchCoordinator
  import opened MatchInvariants

  // ---------------------------------------------------------------------------
  // join_room

  /**
   * An unknown code opens a room under a fresh id (no existing room had it), whose only player is
   * the joiner on the blue side, and points the code and the joiner's entry at it. Every existing
   * room is untouched.
   */
  lemma JoinUnknownCode(st: Coordinator, rules: RoundRules, session: Session, openId: string,
                        roomCode: string, nickname: string)
    requires Valid(st) && roomCode !in st.codes
    ensures var r := JoinRoom(st, rules, session, openId, roomCode, nickname).st;
            var rid := st.counters.roomId;
            && rid !in st.rooms
            && rid in r.rooms
            && r.rooms[rid].id == rid
            && r.rooms[rid].players == [Player(openId, BlueSide, nickname, session, st.counters.userCode)]
            && r.codes == st.codes[roomCode := rid]
            && r.roomOf == st.roomOf[openId := rid]
            && r.counters == Counters(rid + 1, st.counters.userCode + 1)
            && forall k :: k in st.rooms ==> k in r.rooms && r.rooms[k] == st.rooms[k]
  {
    var rid := st.counters.roomId;
    assert rid !in st.rooms;
  }

  /**
   * A known code whose room is gone or already seats two answers `room_full` to the joiner and
   * changes nothing but the user-code counter, even when the joiner is one of the two.
   */
  lemma JoinFullRoom(st: Coordinator, rules: RoundRules, session: Session, openId: string,
                     roomCode: string, nickname: string)
    requires roomCode in st.codes
    requires st.codes[roomCode] !in st.rooms || |st.rooms[st.codes[roomCode]].players| >= 2
    ensures JoinRoom(st, rules, session, openId, roomCode, nickname)
              == Step(st.(counters := NextUserCode(st.counters).next), SendTo(st.live, session, RoomFull))
  {
  }

  /**
   * A known code whose room has a free seat: a newcomer is appended on the red side; a returning
   * member keeps its place, side and openId (only its session is replaced), so nobody is seated
   * twice; the room stays within two players, and the joiner's entry points at it.
   */
  lemma JoinSeats(st: Coordinator, rules: RoundRules, session: Session, openId: string,
                  roomCode: string, nickname: string)
    requires roomCode in st.codes && st.codes[roomCode] in st.rooms
    requires |st.rooms[st.codes[roomCode]].players| < 2
    ensures var rid := st.codes[roomCode];
            var before := st.rooms[rid].players;
            var r := JoinRoom(st, rules, session, openId, roomCode, nickname).st;
            && rid in r.rooms
            && r.roomOf == st.roomOf[openId := rid]
            && r.codes == st.codes
            && |r.rooms[rid].players| <= 2
            && (!HasMember(before, openId) ==>
                  r.rooms[rid].players == before + [Player(openId, RedSide, nickname, session, st.counters.userCode)])
            && (HasMember(before, openId) ==>
                  && |r.rooms[rid].players| == |before|
                  && forall i :: 0 <= i < |before| ==>
                       && r.rooms[rid].players[i].openId == before[i].openId
                       && r.rooms[rid].players[i].role == before[i].role)
  {
  }

  /**
   * The seat that fills a room starts the game only when both players hold the bet: the game state
   * takes the room's id, both players get the full pool, and every open session in the room hears
   * `game_ready`. If either is short, every open session hears `bean_not_enough` and the room keeps
   * its two players and their old pools. A room still holding one player announces its state.
   */
  lemma JoinStartsGame(st: Coordinator, rules: RoundRules, session: Session, openId: string,
                       roomCode: string, nickname: string)
    requires roomCode in st.codes && st.codes[roomCode] in st.rooms
    requires |st.rooms[st.codes[roomCode]].players| < 2
    ensures var rid := st.codes[roomCode];
            var seated := Seat(st.rooms[rid], Player(openId, RedSide, nickname, session, st.counters.userCode));
            var r := JoinRoom(st, rules, session, openId, roomCode, nickname);
            && rid in r.st.rooms
            && (|seated.players| < 2 ==>
                  r.st.rooms[rid] == seated && r.out == Broadcast(st.live, seated.players, RoomState(seated.players)))
            && (|seated.players| == 2 ==>
                  var bet := rules.bet(seated.game);
                  var enough := Beans(st, seated.players[0].openId) >= bet && Beans(st, seated.players[1].openId) >= bet;
                  && (enough ==>
                        && r.st.rooms[rid].players == seated.players
                        && r.st.rooms[rid].game == rules.setRoomId(seated.game, seated.id)
                        && (forall i :: 0 <= i < 2 ==> r.st.rooms[rid].decks[seated.players[i].openId] == FullDeck())
                        && r.out == Broadcast(st.live, seated.players, GameReady(seated.players, seated.id)))
                  && (!enough ==>
                        r.st.rooms[rid] == seated
                        && r.out == Broadcast(st.live, seated.players, BeanNotEnough(MsgBeansShortStart))))
  {
  }

  /**
   * Sides are not balanced: when the blue player of a two-player room leaves while the red one
   * keeps its session entry, the next newcomer with the room's code is seated on the red side
   * too, and the room holds two red players.
   */
  lemma TwoRedSides(st: Coordinator, rules: RoundRules, rid: int, roomCode: string,
                    session: Session, joiner: string, nickname: string)
    requires rid in st.rooms && |st.rooms[rid].players| == 2
    requires st.rooms[rid].players[0].role == BlueSide && st.rooms[rid].players[1].role == RedSide
    requires st.rooms[rid].players[0].openId != st.rooms[rid].players[1].openId
    requires st.rooms[rid].players[0].openId in st.roomOf && st.roomOf[st.rooms[rid].players[0].openId] == rid
    requires st.rooms[rid].players[1].openId in st.sessions
    requires roomCode in st.codes && st.codes[roomCode] == rid
    requires joiner != st.rooms[rid].players[1].openId
    ensures var left := Leave(st, st.rooms[rid].players[0].openId).st;
            var joined := JoinRoom(left, rules, session, joiner, roomCode, nickname).st;
            && rid in joined.rooms
            && |joined.rooms[rid].players| == 2
            && joined.rooms[rid].players[0].role == RedSide
            && joined.rooms[rid].players[1].role == RedSide
  {
    var blue := st.rooms[rid].players[0];
    var red := st.rooms[rid].players[1];
    var rest := RemoveMember(st.rooms[rid].players, blue.openId);
    assert rest == [red] by {
      assert red in rest;
      assert !HasMember(rest, blue.openId);
      forall i | 0 <= i < |rest| ensures rest[i] == red {
        assert rest[i] in st.rooms[rid].players;
      }
    }
    assert AnyOnline(rest, st.sessions - {blue.openId}) by {
      assert rest[0].openId in st.sessions - {blue.openId};
    }
    var left := Leave(st, blue.openId).st;
    assert left.rooms[rid].players == [red];
    assert !HasMember([red], joiner);
  }

  // ---------------------------------------------------------------------------
  // leave_room

  /**
   * `handleLeaveRoom` for a player with a room: its session and room entries are gone, its open
   * session is closed, and it is no longer in the room's list. The room and its code survive
   * exactly when some remaining player still has a session entry. The entries of the other
   * players are not touched, even when their room was just torn down.
   */
  lemma LeaveEffects(st: Coordinator, openId: string)
    requires openId in st.roomOf && st.roomOf[openId] in st.rooms
    ensures var rid := st.roomOf[openId];
            var rest := RemoveMember(st.rooms[rid].players, openId);
            var r := Leave(st, openId).st;
            && openId !in r.sessions && openId !in r.roomOf
            && (openId in st.sessions ==> st.sessions[openId] !in r.live)
            && (rid in r.rooms <==> AnyOnline(rest, st.sessions - {openId}))
            && (rid in r.rooms ==> r.rooms[rid].players == rest && !HasMember(r.rooms[rid].players, openId))
            && (rid in r.rooms ==> r.codes == st.codes)
            && (rid !in r.rooms ==> r.codes == CodesWithout(st.codes, rid))
            && (forall k :: k in st.roomOf && k != openId ==> k in r.roomOf && r.roomOf[k] == st.roomOf[k])
    ensures var opp := FirstOther(st.rooms[st.roomOf[openId]].players, openId);
            var out := Leave(st, openId).out;
            && (opp.None? ==> out == [])
            && (opp.Some? ==> (out != [] <==> opp.value.session in st.live))
            && (out != [] ==> out == [Send(opp.value.session, OpponentLeave(MsgOpponentLeft))])
  {
  }

  /** A player without a room entry, or whose room is gone, can leave without anything happening. */
  lemma LeaveWithoutRoom(st: Coordinator, openId: string)
    requires openId in st.roomOf && st.roomOf[openId] !in st.rooms
    ensures Leave(st, openId) == Step(st, [])
    ensures openId in Leave(st, openId).st.roomOf
  {
  }

  // ---------------------------------------------------------------------------
  // Closing sessions

  /**
   * A close for a session that is not registered under any openId only marks it closed: no
   * entry, room or code changes and nobody is told anything.
   */
  lemma StaleCloseIgnored(st: Coordinator, session: Session)
    requires SessionsKeyed(st.sessions)
    requires forall k :: k in st.sessions ==> st.sessions[k] != session
    ensures OnClose(st, session) == Step(st.(live := st.live - {session}), [])
  {
    FindOpenIdBySessionIsScan(st, session);
  }

  /**
   * A close for the registered session removes the player's session and room entries.
   */
  lemma CurrentCloseRemoves(st: Coordinator, session: Session, openId: string)
    requires SessionsKeyed(st.sessions)
    requires openId in st.sessions && st.sessions[openId] == session
    ensures openId !in OnClose(st, session).st.sessions
    ensures openId !in OnClose(st, session).st.roomOf
    ensures session !in OnClose(st, session).st.live
  {
    FindOpenIdBySessionIsScan(st, session);
  }

  /**
   * `handlePlayerDisconnect` for a player with a room: the first other player is told the
   * opponent left exactly when its session is open; the player's room entry goes and it leaves
   * the room's list; the room and its code survive exactly when some remaining player has a
   * session entry. Sessions and every other room are untouched.
   */
  lemma DisconnectEffects(st: Coordinator, openId: string)
    requires openId in st.roomOf && st.roomOf[openId] in st.rooms
    ensures var rid := st.roomOf[openId];
            var rest := RemoveMember(st.rooms[rid].players, openId);
            var opp := FirstOther(st.rooms[rid].players, openId);
            var r := Disconnect(st, openId);
            && openId !in r.st.roomOf && r.st.sessions == st.sessions && r.st.live == st.live
            && (rid in r.st.rooms <==> AnyOnline(rest, st.sessions))
            && (rid in r.st.rooms ==> r.st.rooms[rid].players == rest && r.st.codes == st.codes)
            && (rid !in r.st.rooms ==> r.st.codes == CodesWithout(st.codes, rid))
            && (forall k :: k in st.rooms && k != rid ==> k in r.st.rooms && r.st.rooms[k] == st.rooms[k])
            && (opp.None? ==> r.out == [])
            && (opp.Some? ==> (r.out != [] <==> opp.value.session in st.live))
            && (r.out != [] ==> r.out == [Send(opp.value.session, OpponentLeave(MsgOpponentLeft))])
  {
  }

  /**
   * A close of the registered session of a player with a room: the session is closed, its
   * session and room entries go, and the player leaves the room, which survives exactly when a
   * remaining player still has a session entry. In a room of two the first other player is told
   * the opponent left when its session is open; in any other room nobody is told anything.
   */
  lemma CloseEffects(st: Coordinator, session: Session, openId: string)
    requires SessionsKeyed(st.sessions)
    requires openId in st.sessions && st.sessions[openId] == session
    requires openId in st.roomOf && st.roomOf[openId] in st.rooms
    ensures var rid := st.roomOf[openId];
            var room := st.rooms[rid];
            var rest := RemoveMember(room.players, openId);
            var opp := FirstOther(room.players, openId);
            var r := OnClose(st, session);
            && openId !in r.st.sessions && openId !in r.st.roomOf && session !in r.st.live
            && (rid in r.st.rooms <==> AnyOnline(rest, st.sessions - {openId}))
            && (rid in r.st.rooms ==> r.st.rooms[rid].players == rest && r.st.codes == st.codes)
            && (rid !in r.st.rooms ==> r.st.codes == CodesWithout(st.codes, rid))
            && (|room.players| != 2 || opp.None? ==> r.out == [])
            && (|room.players| == 2 && opp.Some? ==> (r.out != [] <==> opp.value.session in st.live - {session}))
            && (r.out != [] ==> r.out == [Send(opp.value.session, OpponentLeave(MsgOpponentLeft))])
  {
    FindOpenIdBySessionIsScan(st, session);
    var st1 := st.(live := st.live - {session}, sessions := st.sessions - {openId});
    if |st.rooms[st.roomOf[openId]].players| == 2 {
      DisconnectEffects(st1, openId);
    }
  }

  /**
   * An error on the registered session of a player with a room: the session entry goes first,
   * so the leave that follows finds no session to close and the erroring session stays open;
   * otherwise it is a leave: the room entry and seat go, the room survives exactly when a
   * remaining player has a session entry, and the first other player is told when its session
   * is open.
   */
  lemma ErrorEffects(st: Coordinator, session: Session, openId: string)
    requires SessionsKeyed(st.sessions)
    requires openId in st.sessions && st.sessions[openId] == session
    requires openId in st.roomOf && st.roomOf[openId] in st.rooms
    ensures var rid := st.roomOf[openId];
            var rest := RemoveMember(st.rooms[rid].players, openId);
            var opp := FirstOther(st.rooms[rid].players, openId);
            var r := OnError(st, session);
            && openId !in r.st.sessions && openId !in r.st.roomOf && r.st.live == st.live
            && (rid in r.st.rooms <==> AnyOnline(rest, st.sessions - {openId}))
            && (rid in r.st.rooms ==> r.st.rooms[rid].players == rest && r.st.codes == st.codes)
            && (rid !in r.st.rooms ==> r.st.codes == CodesWithout(st.codes, rid))
            && (opp.None? ==> r.out == [])
            && (opp.Some? ==> (r.out != [] <==> opp.value.session in st.live))
            && (r.out != [] ==> r.out == [Send(opp.value.session, OpponentLeave(MsgOpponentLeft))])
  {
    FindOpenIdBySessionIsScan(st, session);
    LeaveEffects(st.(sessions := st.sessions - {openId}), openId);
  }

  /**
   * A player who reconnects on a new session and whose old session then closes keeps the new
   * one: the late close of the old session finds nothing to remove and no room changes.
   */
  lemma ReconnectSurvivesStaleClose(st: Coordinator, oldSession: Session, newSession: Session)
    requires oldSession.param.Some? && newSession.param == oldSession.param
    requires newSession != oldSession
    ensures var key := Clean(newSession.param.value);
            var reopened := OnOpen(st, newSession).st;
            var closed := OnClose(reopened, oldSession);
            && key in closed.st.sessions && closed.st.sessions[key] == newSession
            && newSession in closed.st.live && oldSession !in closed.st.live
            && closed.st.rooms == st.rooms && closed.st.roomOf == st.roomOf && closed.st.codes == st.codes
            && closed.out == []
  {
  }

  // ---------------------------------------------------------------------------
  // The game record

  /**
   * The settlement of a finished game moves the bet from the loser to the winner: the two
   * balances change by +bet and -bet, their sum is kept, and no one else's balance moves.
   */
  lemma RecordGameBeans(st: Coordinator, rules: RoundRules, rid: int, winner: string, loser: string)
    requires rid in st.rooms && winner != loser
    ensures var r := RecordGame(st, rules, rid, winner, loser).st;
            var bet := rules.bet(st.rooms[rid].game);
            && Beans(r, winner) == Beans(st, winner) + bet
            && Beans(r, loser) == Beans(st, loser) - bet
            && Beans(r, winner) + Beans(r, loser) == Beans(st, winner) + Beans(st, loser)
            && forall k :: k != winner && k != loser ==> Beans(r, k) == Beans(st, k)
  {
  }

  /** The record of the game as the room's game state produces it after the result is recorded. */
  function RecordOf(st: Coordinator, rules: RoundRules, rid: int, winner: string, loser: string): GameRecord
    requires rid in st.rooms
  {
    rules.createRecord(rules.recordResult(st.rooms[rid].game, winner, loser))
  }

  /**
   * One record reaches both histories: the loser's list gains it at the end; the winner's list
   * gains it too and is left sorted by end time, latest first; every other history is as it was.
   */
  lemma RecordGameHistories(st: Coordinator, rules: RoundRules, rid: int, winner: string, loser: string)
    requires rid in st.rooms && winner != loser
    ensures var r := RecordGame(st, rules, rid, winner, loser).st;
            var rec := RecordOf(st, rules, rid, winner, loser);
            && r.rooms[rid].game == rules.recordResult(st.rooms[rid].game, winner, loser)
            && r.history.Keys == st.history.Keys + {winner, loser}
            && r.history[loser] == Prior(st.history, loser) + [rec]
            && multiset(r.history[winner]) == multiset(Prior(st.history, winner) + [rec])
            && SortedDesc(r.history[winner])
            && forall k :: k in st.history && k != winner && k != loser ==> r.history[k] == st.history[k]
  {
    var rec := RecordOf(st, rules, rid, winner, loser);
    var h1 := Append(st.history, winner, rec);
    var h := Append(h1, loser, rec);
    assert h[winner] == Prior(st.history, winner) + [rec];
    assert h[loser] == Prior(st.history, loser) + [rec];
    var scan := MatchStreak(h, winner, rid);
    assert scan.history == h[winner := SortByEndDesc(h[winner])];
    assert RecordGame(st, rules, rid, winner, loser).st.history == scan.history;
  }

  /**
   * The share notification: none below a streak of three; from three on, exactly one message to
   * the winner's registered session when that session is open, carrying `"WIN"` and the streak
   * as its code and a title only for streaks 3 to 5.
   */
  lemma RecordGameShare(st: Coordinator, rules: RoundRules, rid: int, winner: string, loser: string)
    requires rid in st.rooms
    ensures var rec := RecordOf(st, rules, rid, winner, loser);
            var streak := MatchStreak(Append(Append(st.history, winner, rec), loser, rec), winner, rid).streak;
            var out := RecordGame(st, rules, rid, winner, loser).out;
            && (streak < MinShareStreak ==> out == [])
            && (streak >= MinShareStreak ==> (out != [] <==> winner in st.sessions && st.sessions[winner] in st.live))
            && (out != [] ==>
                  && |out| == 1 && winner in st.sessions && out[0].to == st.sessions[winner]
                  && out[0].msg.ShareMsg?
                  && out[0].msg.share.code == MatchShareCode(streak)
                  && (out[0].msg.share.title.Some? <==> streak <= 5))
  {
  }

  // ---------------------------------------------------------------------------
  // play_card

  /**
   * A card is dropped, with no state change and no message, when the player has no room entry,
   * the room is gone, its game is already complete, or the player is not in its list.
   */
  lemma PlayCardDropped(st: Coordinator, rules: RoundRules, openId: string, card: int)
    requires || openId !in st.roomOf
             || st.roomOf[openId] !in st.rooms
             || rules.completed(st.rooms[st.roomOf[openId]].game)
             || !HasMember(st.rooms[st.roomOf[openId]].players, openId)
    ensures PlayCard(st, rules, openId, card) == Step(st, [])
  {
  }

  /**
   * The card is never checked against the player's pool and the pools never change: in the
   * middle of a round the game state simply takes the card under the player's side, whether or
   * not the pool holds it.
   */
  lemma PlayCardUnchecked(st: Coordinator, rules: RoundRules, openId: string, card: int)
    requires openId in st.roomOf && st.roomOf[openId] in st.rooms
    requires !rules.completed(st.rooms[st.roomOf[openId]].game)
    requires HasMember(st.rooms[st.roomOf[openId]].players, openId)
    requires var room := st.rooms[st.roomOf[openId]];
             !rules.roundComplete(rules.addCard(room.game, Some(RoleName(FindMember(room.players, openId).value.role)), card))
    ensures var rid := st.roomOf[openId];
            var room := st.rooms[rid];
            var r := PlayCard(st, rules, openId, card).st;
            && rid in r.rooms
            && r.rooms[rid].game == rules.addCard(room.game, Some(RoleName(FindMember(room.players, openId).value.role)), card)
            && r.rooms[rid].decks == room.decks
            && r.beans == st.beans && r.history == st.history
  {
  }

  /** No play ever changes a card pool, a player list, or any registry map. */
  lemma PlayCardKeepsPools(st: Coordinator, rules: RoundRules, openId: string, card: int)
    ensures var r := PlayCard(st, rules, openId, card).st;
            && r.rooms.Keys == st.rooms.Keys
            && (forall rid :: rid in st.rooms ==>
                  r.rooms[rid].decks == st.rooms[rid].decks && r.rooms[rid].players == st.rooms[rid].players)
            && r.sessions == st.sessions && r.roomOf == st.roomOf && r.codes == st.codes
  {
  }

  /** The state once a member's card has reached the game of its room, and nothing else. */
  function WithCard(st: Coordinator, rules: RoundRules, rid: int, me: Player, card: int): Coordinator
    requires rid in st.rooms
  {
    var room := st.rooms[rid];
    st.(rooms := st.rooms[rid := room.(game := rules.addCard(room.game, Some(RoleName(me.role)), card))])
  }

  /** A card from a listed player in an unfinished game is played under that player's first entry. */
  lemma PlayCardPlays(st: Coordinator, rules: RoundRules, openId: string, card: int)
    requires openId in st.roomOf && st.roomOf[openId] in st.rooms
    requires !rules.completed(st.rooms[st.roomOf[openId]].game)
    requires HasMember(st.rooms[st.roomOf[openId]].players, openId)
    ensures var rid := st.roomOf[openId];
            PlayCard(st, rules, openId, card) == Played(st, rules, rid, FindMember(st.rooms[rid].players, openId).value, card)
  {
  }

  /**
   * A card that leaves the round incomplete is kept, and the first other player is asked for its
   * card, exactly when its session is open; nobody else hears anything.
   */
  lemma PlayedAsksOpponent(st: Coordinator, rules: RoundRules, rid: int, me: Player, card: int)
    requires rid in st.rooms
    requires !rules.roundComplete(WithCard(st, rules, rid, me, card).rooms[rid].game)
    ensures var r := Played(st, rules, rid, me, card);
            var opp := FirstOther(st.rooms[rid].players, me.openId);
            && r.st == WithCard(st, rules, rid, me, card)
            && (opp.None? ==> r.out == [])
            && (opp.Some? ==> (r.out != [] <==> opp.value.session in st.live))
            && (r.out != [] ==> opp.Some? && r.out == [Send(opp.value.session, PleaseTakeCard)])
  {
  }

  /** A card that completes the round hands the room, card included, to the settlement. */
  lemma PlayedSettles(st: Coordinator, rules: RoundRules, rid: int, me: Player, card: int)
    requires rid in st.rooms
    requires rules.roundComplete(WithCard(st, rules, rid, me, card).rooms[rid].game)
    ensures Played(st, rules, rid, me, card) == Settle(WithCard(st, rules, rid, me, card), rules, rid)
  {
  }

  /** `continue`: every player is shown the round's cards, and the game moves to the next round. */
  lemma SettleContinue(st: Coordinator, rules: RoundRules, rid: int)
    requires rid in st.rooms && rules.roundResult(st.rooms[rid].game) == Continue
    ensures var room := st.rooms[rid];
            Settle(st, rules, rid)
              == Step(st.(rooms := st.rooms[rid := room.(game := rules.nextRound(room.game))]),
                      RoundSends(st.live, room.players, rules, room.game))
  {
    var room := st.rooms[rid];
    assert RoundSends(st.live, room.players, rules, room.game) + [] == RoundSends(st.live, room.players, rules, room.game);
  }

  /**
   * A red win with both sides seated: the first red player is recorded as the winner over the
   * first blue player; the round's cards go out first, then whatever recording sends, then the
   * result to the whole room.
   */
  lemma SettleRedWin(st: Coordinator, rules: RoundRules, rid: int)
    requires rid in st.rooms && rules.roundResult(st.rooms[rid].game) == RedWin
    requires FirstWithRole(st.rooms[rid].players, RedSide).Some? && FirstWithRole(st.rooms[rid].players, BlueSide).Some?
    ensures var room := st.rooms[rid];
            var red := FirstWithRole(room.players, RedSide).value;
            var blue := FirstWithRole(room.players, BlueSide).value;
            var recorded := RecordGame(st, rules, rid, red.openId, blue.openId);
            Settle(st, rules, rid)
              == Step(recorded.st, RoundSends(st.live, room.players, rules, room.game)
                                   + (recorded.out + Broadcast(st.live, room.players, GameResult(RedWin))))
  {
    var room := st.rooms[rid];
    var red := FirstWithRole(room.players, RedSide).value;
    var blue := FirstWithRole(room.players, BlueSide).value;
    var recorded := RecordGame(st, rules, rid, red.openId, blue.openId);
    assert (FirstWithRole(room.players, RedSide), FirstWithRole(room.players, BlueSide)) == (Some(red), Some(blue));
    assert WinnerFirst(RedWin, red, blue) == (red.openId, blue.openId);
    assert SettleResult(st, rules, rid) == Step(recorded.st, recorded.out + Broadcast(st.live, room.players, GameResult(RedWin)));
  }

  /** A blue win with both sides seated: the first blue player is recorded as the winner over the first red player. */
  lemma SettleBlueWin(st: Coordinator, rules: RoundRules, rid: int)
    requires rid in st.rooms && rules.roundResult(st.rooms[rid].game) == BlueWin
    requires FirstWithRole(st.rooms[rid].players, RedSide).Some? && FirstWithRole(st.rooms[rid].players, BlueSide).Some?
    ensures var room := st.rooms[rid];
            var red := FirstWithRole(room.players, RedSide).value;
            var blue := FirstWithRole(room.players, BlueSide).value;
            var recorded := RecordGame(st, rules, rid, blue.openId, red.openId);
            Settle(st, rules, rid)
              == Step(recorded.st, RoundSends(st.live, room.players, rules, room.game)
                                   + (recorded.out + Broadcast(st.live, room.players, GameResult(BlueWin))))
  {
    var room := st.rooms[rid];
    var red := FirstWithRole(room.players, RedSide).value;
    var blue := FirstWithRole(room.players, BlueSide).value;
    var recorded := RecordGame(st, rules, rid, blue.openId, red.openId);
    assert (FirstWithRole(room.players, RedSide), FirstWithRole(room.players, BlueSide)) == (Some(red), Some(blue));
    assert WinnerFirst(BlueWin, red, blue) == (blue.openId, red.openId);
    assert SettleResult(st, rules, rid) == Step(recorded.st, recorded.out + Broadcast(st.live, room.players, GameResult(BlueWin)));
  }

  /** Any other final result with both sides seated records nothing and is broadcast after the cards. */
  lemma SettleOtherResult(st: Coordinator, rules: RoundRules, rid: int)
    requires rid in st.rooms && rules.roundResult(st.rooms[rid].game) !in {Continue, RedWin, BlueWin}
    requires FirstWithRole(st.rooms[rid].players, RedSide).Some? && FirstWithRole(st.rooms[rid].players, BlueSide).Some?
    ensures var room := st.rooms[rid];
            Settle(st, rules, rid)
              == Step(st, RoundSends(st.live, room.players, rules, room.game)
                          + Broadcast(st.live, room.players, GameResult(rules.roundResult(room.game))))
  {
    var room := st.rooms[rid];
    var b := Broadcast(st.live, room.players, GameResult(rules.roundResult(room.game)));
    var red := FirstWithRole(room.players, RedSide).value;
    var blue := FirstWithRole(room.players, BlueSide).value;
    assert (FirstWithRole(room.players, RedSide), FirstWithRole(room.players, BlueSide)) == (Some(red), Some(blue));
    assert SettleResult(st, rules, rid) == Step(st, [] + b);
    assert [] + b == b;
  }

  /** A final result with a side missing from the room records nothing and broadcasts nothing after the cards. */
  lemma SettleSideMissing(st: Coordinator, rules: RoundRules, rid: int)
    requires rid in st.rooms && rules.roundResult(st.rooms[rid].game) != Continue
    requires FirstWithRole(st.rooms[rid].players, RedSide).None? || FirstWithRole(st.rooms[rid].players, BlueSide).None?
    ensures var room := st.rooms[rid];
            Settle(st, rules, rid) == Step(st, RoundSends(st.live, room.players, rules, room.game))
  {
    var room := st.rooms[rid];
    assert RoundSends(st.live, room.players, rules, room.game) + [] == RoundSends(st.live, room.players, rules, room.game);
  }

  /**
   * The bet follows the round's winner: after a red win the first red player is credited and the
   * first blue player debited, and after a blue win the reverse.
   */
  lemma SettlePaysWinner(st: Coordinator, rules: RoundRules, rid: int)
    requires rid in st.rooms && rules.roundResult(st.rooms[rid].game) in {RedWin, BlueWin}
    requires FirstWithRole(st.rooms[rid].players, RedSide).Some? && FirstWithRole(st.rooms[rid].players, BlueSide).Some?
    requires FirstWithRole(st.rooms[rid].players, RedSide).value.openId != FirstWithRole(st.rooms[rid].players, BlueSide).value.openId
    ensures var room := st.rooms[rid];
            var red := FirstWithRole(room.players, RedSide).value.openId;
            var blue := FirstWithRole(room.players, BlueSide).value.openId;
            var bet := rules.bet(room.game);
            var r := Settle(st, rules, rid).st;
            && (rules.roundResult(room.game) == RedWin ==>
                  Beans(r, red) == Beans(st, red) + bet && Beans(r, blue) == Beans(st, blue) - bet)
            && (rules.roundResult(room.game) == BlueWin ==>
                  Beans(r, blue) == Beans(st, blue) + bet && Beans(r, red) == Beans(st, red) - bet)
  {
    var room := st.rooms[rid];
    var red := FirstWithRole(room.players, RedSide).value.openId;
    var blue := FirstWithRole(room.players, BlueSide).value.openId;
    if rules.roundResult(room.game) == RedWin {
      SettleRedWin(st, rules, rid);
      RecordGameBeans(st, rules, rid, red, blue);
    } else {
      SettleBlueWin(st, rules, rid);
      RecordGameBeans(st, rules, rid, blue, red);
    }
  }

  // ---------------------------------------------------------------------------
  // Rematch

  /**
   * A rematch request in a room that is gone or does not hold exactly two players makes the
   * requester leave. In a two-player room with an open opponent session, the opponent alone is
   * asked and nothing changes. With the opponent's session closed, the requester is told the player
   * left and then leaves.
   */
  lemma RematchRequestEffect(st: Coordinator, requester: string)
    requires requester in st.roomOf
    ensures var rid := st.roomOf[requester];
            rid !in st.rooms || |st.rooms[rid].players| != 2 ==>
              RematchRequest(st, requester) == Leave(st, requester)
    ensures var rid := st.roomOf[requester];
            rid in st.rooms && |st.rooms[rid].players| == 2 && HasMember(st.rooms[rid].players, requester)
            && FirstOther(st.rooms[rid].players, requester).Some? ==>
              var opp := FirstOther(st.rooms[rid].players, requester).value;
              var me := FindMember(st.rooms[rid].players, requester).value;
              && (opp.session in st.live ==>
                    RematchRequest(st, requester) == Step(st, [Send(opp.session, RematchRequestFrom(requester))]))
              && (opp.session !in st.live ==>
                    RematchRequest(st, requester)
                      == Step(Leave(st, requester).st,
                              SendTo(st.live, me.session, OpponentLeave(MsgPlayerLeft)) + Leave(st, requester).out))
  {
  }

  /**
   * Accepting a rematch in a two-player room where both hold the bet resets the game state and
   * gives both players the full pool, and every open session in the room hears `game_ready`; if
   * either is short, nothing changes and every open session hears `bean_not_enough`.
   */
  lemma RematchAcceptEffect(st: Coordinator, rules: RoundRules, openId: string)
    requires openId in st.roomOf && st.roomOf[openId] in st.rooms
    requires |st.rooms[st.roomOf[openId]].players| == 2
    ensures var rid := st.roomOf[openId];
            var room := st.rooms[rid];
            var bet := rules.bet(room.game);
            var r := RematchAccept(st, rules, openId).st;
            && (Beans(st, room.players[0].openId) < bet || Beans(st, room.players[1].openId) < bet ==> r == st)
            && (Beans(st, room.players[0].openId) >= bet && Beans(st, room.players[1].openId) >= bet ==>
                  && rid in r.rooms
                  && r.rooms[rid].game == Fresh()
                  && r.rooms[rid].players == room.players
                  && (forall i :: 0 <= i < 2 ==> r.rooms[rid].decks[room.players[i].openId] == FullDeck()))
    ensures var rid := st.roomOf[openId];
            var room := st.rooms[rid];
            var bet := rules.bet(room.game);
            var out := RematchAccept(st, rules, openId).out;
            && (Beans(st, room.players[0].openId) < bet || Beans(st, room.players[1].openId) < bet ==>
                  out == Broadcast(st.live, room.players, BeanNotEnough(MsgBeansShortRematch)))
            && (Beans(st, room.players[0].openId) >= bet && Beans(st, room.players[1].openId) >= bet ==>
                  out == Broadcast(st.live, room.players, GameReady(room.players, room.id)))
  {
  }
}
