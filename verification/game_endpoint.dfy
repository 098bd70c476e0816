/**
 * The older `/game` endpoint (`WebSocket4Game`): a device registry, one game state per room,
 * and the per-player result history. The lobby it reads (device to room, room to player list)
 * belongs to another component whose code is not part of this model, so it is an input. A Java
 * exception thrown inside `onMessage` is caught there: whatever was already changed stays
 * changed and nothing more is sent.
 */
module GameEndpoint {
  import opened Options
  import opened Transport
  import opened GameStateModel
  import opened WinStreak
  import opened ShareTiers
  import MC = MatchCoordinator

  /** A `UserVO` of the lobby's player list: device id, side name and nickname (both may be `null`). */
  datatype GameUser = GameUser(deviceId: string, role: Option<string>, nickName: Option<string>)

  /** The lobby maps `deviceId2RoomIdMap` and `roomId2UserListMap`, read but never written here. */
  datatype Lobby = Lobby(roomOf: map<string, int>, players: map<int, seq<GameUser>>)

  /** `roomStataMap`, `deviceId2SessionMap_Game`, `playerGameRecords`, and the open sessions. */
  datatype GameServer = GameServer(
    states: map<int, GameState>,
    sessions: map<string, Session>,
    history: History,
    live: set<Session>)

  const InitialServer: GameServer := GameServer(map[], map[], map[], {})

  /** The state after a callback and what it sent. */
  datatype GameStep = GameStep(st: GameServer, out: seq<MC.Send>)

  const RedSideName: string := "redSide"
  const BlueSideName: string := "blueSide"

  // ---------------------------------------------------------------------------
  // Connection callbacks

  /**
   * `onOpen(session)`. A connection without the `deviceId` parameter fails before touching
   * anything. Otherwise the session is stored under the raw device id and a different session
   * stored there before is closed.
   */
  function OnOpen(st: GameServer, session: Session): (r: GameStep)
    ensures r.out == []
    ensures session.param.None? ==> r.st == st
    ensures session.param.Some? ==>
              var id := session.param.value;
              && r.st.sessions == st.sessions[id := session]
              && session in r.st.live
              && (id in st.sessions && st.sessions[id] != session ==> st.sessions[id] !in r.st.live)
              && r.st.states == st.states && r.st.history == st.history
  {
    match session.param
    case None => GameStep(st, [])
    case Some(id) =>
      var live := st.live + {session};
      var live' := if id in st.sessions && st.sessions[id] != session then live - {st.sessions[id]} else live;
      GameStep(st.(sessions := st.sessions[id := session], live := live'), [])
  }

  /** Every entry sits under its own session's device id. */
  ghost predicate DevicesKeyed(sessions: map<string, Session>) {
    forall k :: k in sessions ==> sessions[k].param == Some(k)
  }

  /**
   * `findDeviceIdBySession(session)`: the key whose stored session is this one. Entries are
   * keyed by their own session's parameter, so only that key can match.
   */
  function FindDeviceBySession(st: GameServer, session: Session): (r: Option<string>)
    ensures r.Some? ==> r.value in st.sessions && st.sessions[r.value] == session
  {
    if session.param.Some? && session.param.value in st.sessions && st.sessions[session.param.value] == session
    then Some(session.param.value)
    else None
  }

  /** Under `DevicesKeyed` the lookup agrees with a scan of the whole map. */
  lemma FindDeviceBySessionIsScan(st: GameServer, session: Session)
    requires DevicesKeyed(st.sessions)
    ensures FindDeviceBySession(st, session).Some? <==> exists k :: k in st.sessions && st.sessions[k] == session
  {
  }

  /**
   * `onClose(session)`: the session is no longer open; its entry is removed only when it is the
   * session currently stored for its device.
   */
  function OnClose(st: GameServer, session: Session): (r: GameStep)
    ensures r.out == [] && session !in r.st.live
    ensures r.st.states == st.states && r.st.history == st.history
    ensures forall k :: k in r.st.sessions ==> k in st.sessions && r.st.sessions[k] == st.sessions[k]
    ensures DevicesKeyed(st.sessions) ==>
              forall k :: k in st.sessions ==> (k in r.st.sessions <==> st.sessions[k] != session)
  {
    var st0 := st.(live := st.live - {session});
    match FindDeviceBySession(st, session)
    case None => GameStep(st0, [])
    case Some(id) => GameStep(st0.(sessions := st0.sessions - {id}), [])
  }

  /** Opening and closing keep every entry under its own device id. */
  lemma CallbacksKeepKeying(st: GameServer, session: Session)
    requires DevicesKeyed(st.sessions)
    ensures DevicesKeyed(OnOpen(st, session).st.sessions)
    ensures DevicesKeyed(OnClose(st, session).st.sessions)
  {
  }

  // ---------------------------------------------------------------------------
  // Sending

  /** The registered session of a device gets the message if it is open. */
  function SendToDevice(st: GameServer, deviceId: string, msg: MC.Msg): (out: seq<MC.Send>)
    ensures |out| <= 1
    ensures out != [] <==> deviceId in st.sessions && st.sessions[deviceId] in st.live
    ensures out != [] ==> out[0] == MC.Send(st.sessions[deviceId], msg)
  {
    if deviceId in st.sessions then MC.SendTo(st.live, st.sessions[deviceId], msg) else []
  }

  /** A device has a registered session and that session is open. */
  predicate Reachable(st: GameServer, deviceId: string) {
    deviceId in st.sessions && st.sessions[deviceId] in st.live
  }

  /** `s` is the open registered session of a device. */
  predicate OpenSessionOf(st: GameServer, deviceId: string, s: Session) {
    Reachable(st, deviceId) && st.sessions[deviceId] == s
  }

  /**
   * `broadcastToRoom`: the listed players' open registered sessions get the message, in list
   * order (`BroadcastReaches` and `BroadcastOnlyListed` state who receives it).
   */
  function Broadcast(st: GameServer, players: seq<GameUser>, msg: MC.Msg): (out: seq<MC.Send>)
    ensures |out| <= |players|
    ensures forall i :: 0 <= i < |out| ==> out[i].msg == msg && out[i].to in st.live
  {
    if |players| == 0 then []
    else SendToDevice(st, players[0].deviceId, msg) + Broadcast(st, players[1..], msg)
  }

  /** Every listed player whose device is reachable gets the broadcast. */
  lemma {:induction false} BroadcastReaches(st: GameServer, players: seq<GameUser>, msg: MC.Msg)
    ensures forall j :: 0 <= j < |players| && Reachable(st, players[j].deviceId) ==>
              MC.Send(st.sessions[players[j].deviceId], msg) in Broadcast(st, players, msg)
  {
    if |players| > 0 {
      BroadcastReaches(st, players[1..], msg);
      assert forall j :: 1 <= j < |players| ==> players[j] == players[1..][j - 1];
    }
  }

  /** Nobody but a listed player with a reachable device gets the broadcast. */
  lemma {:induction false} BroadcastOnlyListed(st: GameServer, players: seq<GameUser>, msg: MC.Msg)
    ensures forall i :: 0 <= i < |Broadcast(st, players, msg)| ==>
              exists j :: 0 <= j < |players| && OpenSessionOf(st, players[j].deviceId, Broadcast(st, players, msg)[i].to)
  {
    if |players| > 0 {
      var first := SendToDevice(st, players[0].deviceId, msg);
      var rest := Broadcast(st, players[1..], msg);
      BroadcastOnlyListed(st, players[1..], msg);
      forall i | 0 <= i < |rest| ensures exists j :: 0 <= j < |players| && OpenSessionOf(st, players[j].deviceId, rest[i].to) {
        var j :| 0 <= j < |players[1..]| && OpenSessionOf(st, players[1..][j].deviceId, rest[i].to);
        assert players[1..][j] == players[j + 1];
      }
      var out := first + rest;
      assert Broadcast(st, players, msg) == out;
      forall i | 0 <= i < |out| ensures exists j :: 0 <= j < |players| && OpenSessionOf(st, players[j].deviceId, out[i].to) {
        if i < |first| {
          assert OpenSessionOf(st, players[0].deviceId, out[i].to);
        } else {
          assert out[i] == rest[i - |first|];
        }
      }
    } else {
      assert |Broadcast(st, players, msg)| == 0;
    }
  }

  /** The broadcast goes through the list in order: it distributes over concatenation. */
  lemma {:induction false} BroadcastAppend(st: GameServer, a: seq<GameUser>, b: seq<GameUser>, msg: MC.Msg)
    ensures Broadcast(st, a + b, msg) == Broadcast(st, a, msg) + Broadcast(st, b, msg)
  {
    if |a| > 0 {
      var first := SendToDevice(st, a[0].deviceId, msg);
      assert (a + b)[0] == a[0] && (a + b)[1..] == a[1..] + b;
      BroadcastAppend(st, a[1..], b, msg);
      calc {
        Broadcast(st, a + b, msg);
        first + Broadcast(st, a[1..] + b, msg);
        first + (Broadcast(st, a[1..], msg) + Broadcast(st, b, msg));
        (first + Broadcast(st, a[1..], msg)) + Broadcast(st, b, msg);
      }
    } else {
      assert a + b == b;
    }
  }

  /** One listed player receives the broadcast exactly when its device is reachable. */
  lemma BroadcastOne(st: GameServer, p: GameUser, msg: MC.Msg)
    ensures Broadcast(st, [p], msg) == (if Reachable(st, p.deviceId) then [MC.Send(st.sessions[p.deviceId], msg)] else [])
  {
  }

  /** The `round_complete` message a player sees: its own card first (a side other than red counts as blue). */
  function RoundView(p: GameUser, rules: RoundRules, g: GameState): MC.Msg {
    if p.role == Some(RedSideName) then MC.RoundComplete(rules.roundNumber(g), rules.redCard(g), rules.blueCard(g))
    else MC.RoundComplete(rules.roundNumber(g), rules.blueCard(g), rules.redCard(g))
  }

  /**
   * The `round_complete` messages of a finished round, in list order: each listed player's open
   * registered session gets that player's view (`RoundSendsReach` and `RoundSendsOnlyListed`
   * state who receives what).
   */
  function RoundSends(st: GameServer, players: seq<GameUser>, rules: RoundRules, g: GameState): (out: seq<MC.Send>)
    ensures |out| <= |players|
    ensures forall i :: 0 <= i < |out| ==> out[i].msg.RoundComplete? && out[i].to in st.live
  {
    if |players| == 0 then []
    else SendToDevice(st, players[0].deviceId, RoundView(players[0], rules, g)) + RoundSends(st, players[1..], rules, g)
  }

  /** Each `round_complete` message goes to a listed player's reachable device and carries that player's view. */
  lemma {:induction false} RoundSendsOnlyListed(st: GameServer, players: seq<GameUser>, rules: RoundRules, g: GameState)
    ensures forall i :: 0 <= i < |RoundSends(st, players, rules, g)| ==>
              exists j :: 0 <= j < |players| && OpenSessionOf(st, players[j].deviceId, RoundSends(st, players, rules, g)[i].to) &&
                RoundSends(st, players, rules, g)[i].msg == RoundView(players[j], rules, g)
  {
    if |players| > 0 {
      var first := SendToDevice(st, players[0].deviceId, RoundView(players[0], rules, g));
      var rest := RoundSends(st, players[1..], rules, g);
      RoundSendsOnlyListed(st, players[1..], rules, g);
      forall i | 0 <= i < |rest|
        ensures exists j :: 0 <= j < |players| && OpenSessionOf(st, players[j].deviceId, rest[i].to) && rest[i].msg == RoundView(players[j], rules, g)
      {
        var j :| 0 <= j < |players[1..]| && OpenSessionOf(st, players[1..][j].deviceId, rest[i].to) && rest[i].msg == RoundView(players[1..][j], rules, g);
        assert players[1..][j] == players[j + 1];
      }
      var out := first + rest;
      assert RoundSends(st, players, rules, g) == out;
      forall i | 0 <= i < |out|
        ensures exists j :: 0 <= j < |players| && OpenSessionOf(st, players[j].deviceId, out[i].to) && out[i].msg == RoundView(players[j], rules, g)
      {
        if i < |first| {
          assert OpenSessionOf(st, players[0].deviceId, out[i].to) && out[i].msg == RoundView(players[0], rules, g);
        } else {
          assert out[i] == rest[i - |first|];
        }
      }
    } else {
      assert |RoundSends(st, players, rules, g)| == 0;
    }
  }

  /** Every listed player whose device is reachable gets its own view of the round. */
  lemma {:induction false} RoundSendsReach(st: GameServer, players: seq<GameUser>, rules: RoundRules, g: GameState)
    ensures forall j :: 0 <= j < |players| && Reachable(st, players[j].deviceId) ==>
              MC.Send(st.sessions[players[j].deviceId], RoundView(players[j], rules, g)) in RoundSends(st, players, rules, g)
  {
    if |players| > 0 {
      RoundSendsReach(st, players[1..], rules, g);
      assert forall j :: 1 <= j < |players| ==> players[j] == players[1..][j - 1];
    }
  }

  // ---------------------------------------------------------------------------
  // Player-list lookups

  /** The first listed player with this side name. */
  function FirstOnSide(players: seq<GameUser>, side: string): (r: Option<GameUser>)
    ensures r.Some? <==> exists i :: 0 <= i < |players| && players[i].role == Some(side)
    ensures r.Some? ==> r.value in players && r.value.role == Some(side)
    ensures forall k :: 0 <= k < |players| && players[k].role == Some(side) && (forall i :: 0 <= i < k ==> players[i].role != Some(side)) ==>
              r == Some(players[k])
  {
    if |players| == 0 then None
    else if players[0].role == Some(side) then Some(players[0])
    else
      var r := FirstOnSide(players[1..], side);
      assert forall k :: 1 <= k < |players| ==> players[k] == players[1..][k - 1];
      assert (exists i :: 0 <= i < |players| && players[i].role == Some(side)) ==>
               (exists i :: 0 <= i < |players[1..]| && players[1..][i].role == Some(side)) by {
        if exists i :: 0 <= i < |players| && players[i].role == Some(side) {
          var j :| 0 <= j < |players| && players[j].role == Some(side);
          assert players[1..][j - 1].role == Some(side);
        }
      }
      r
  }

  /** The first listed player whose device is another one. */
  function FirstOtherDevice(players: seq<GameUser>, deviceId: string): (r: Option<GameUser>)
    ensures r.Some? <==> exists i :: 0 <= i < |players| && players[i].deviceId != deviceId
    ensures r.Some? ==> r.value in players && r.value.deviceId != deviceId
    ensures forall k :: 0 <= k < |players| && players[k].deviceId != deviceId && (forall i :: 0 <= i < k ==> players[i].deviceId == deviceId) ==>
              r == Some(players[k])
  {
    if |players| == 0 then None
    else if players[0].deviceId != deviceId then Some(players[0])
    else
      var r := FirstOtherDevice(players[1..], deviceId);
      assert forall k :: 1 <= k < |players| ==> players[k] == players[1..][k - 1];
      assert (exists i :: 0 <= i < |players| && players[i].deviceId != deviceId) ==>
               (exists i :: 0 <= i < |players[1..]| && players[1..][i].deviceId != deviceId) by {
        if exists i :: 0 <= i < |players| && players[i].deviceId != deviceId {
          var j :| 0 <= j < |players| && players[j].deviceId != deviceId;
          assert players[1..][j - 1].deviceId != deviceId;
        }
      }
      r
  }

  /** The outcome of `filter(deviceId).map(nickName).findFirst().orElse(fallback)`. */
  datatype NameLookup = Named(name: string) | NullNickname

  /**
   * The nickname of the first listed player with this device, or the fallback when there is
   * none. A `null` nickname makes `findFirst` throw, which is `NullNickname`.
   */
  function NickOf(players: seq<GameUser>, deviceId: string, fallback: string): (r: NameLookup)
    ensures (forall i :: 0 <= i < |players| ==> players[i].deviceId != deviceId) ==> r == Named(fallback)
    ensures forall k :: 0 <= k < |players| && players[k].deviceId == deviceId
                        && (forall i :: 0 <= i < k ==> players[i].deviceId != deviceId) ==>
              r == (if players[k].nickName.Some? then Named(players[k].nickName.value) else NullNickname)
  {
    if |players| == 0 then Named(fallback)
    else if players[0].deviceId == deviceId then
      (if players[0].nickName.Some? then Named(players[0].nickName.value) else NullNickname)
    else
      var r := NickOf(players[1..], deviceId, fallback);
      assert forall k :: 1 <= k < |players| ==> players[k] == players[1..][k - 1];
      r
  }

  // ---------------------------------------------------------------------------
  // The game record

  /** What `recordGame` leaves behind, and whether it ended by throwing. */
  datatype Recorded = Recorded(st: GameServer, out: seq<MC.Send>, thrown: bool)

  /**
   * `recordGame(roomId, winner, loser)`: the room's game state records the result and its room id;
   * its record is appended to the winner's and then the loser's history, which are not reordered.
   * A streak of three or more (counted over a sorted copy) sends the winner a share with code
   * `WIN5` from five on and `WIN3` below, if its session is registered and open. Looking up a
   * nickname that is `null` throws before anything is sent.
   */
  function RecordGame(st: GameServer, lobby: Lobby, rules: RoundRules, rid: int,
                      winner: string, loser: string): (r: Recorded)
    requires rid in st.states
    ensures var g := rules.setRoomId(rules.recordResult(st.states[rid], winner, loser), rid);
            var rec := rules.createRecord(g);
            r.st == st.(states := st.states[rid := g],
                        history := Append(Append(st.history, winner, rec), loser, rec))
    ensures GameStreak(r.st.history, winner, rid) < MinShareStreak ==> r.out == [] && !r.thrown
    ensures r.thrown ==> r.out == []
    ensures |r.out| <= 1
    ensures r.out != [] ==>
              var streak := GameStreak(r.st.history, winner, rid);
              && streak >= MinShareStreak
              && winner in st.sessions && r.out[0].to == st.sessions[winner]
              && r.out[0].msg.ShareMsg?
              && r.out[0].msg.share.code == GameShareCode(streak)
    ensures GameStreak(r.st.history, winner, rid) >= MinShareStreak ==>
              (r.thrown <==> rid !in lobby.players
                             || NickOf(lobby.players[rid], winner, MC.DefaultWinnerName).NullNickname?
                             || NickOf(lobby.players[rid], loser, MC.DefaultLoserName).NullNickname?)
    ensures GameStreak(r.st.history, winner, rid) >= MinShareStreak && !r.thrown && rid in lobby.players ==>
              var streak := GameStreak(r.st.history, winner, rid);
              var winnerName := NickOf(lobby.players[rid], winner, MC.DefaultWinnerName);
              var loserName := NickOf(lobby.players[rid], loser, MC.DefaultLoserName);
              && winnerName.Named? && loserName.Named?
              && (r.out != [] <==> Reachable(st, winner))
              && (r.out != [] ==>
                    r.out == [MC.Send(st.sessions[winner], MC.ShareMsg(GameShare(streak, winnerName.name, loserName.name)))])
  {
    var g := rules.setRoomId(rules.recordResult(st.states[rid], winner, loser), rid);
    var rec := rules.createRecord(g);
    var history := Append(Append(st.history, winner, rec), loser, rec);
    var st1 := st.(states := st.states[rid := g], history := history);
    var streak := GameStreak(history, winner, rid);
    if streak < MinShareStreak then Recorded(st1, [], false)
    else if rid !in lobby.players then Recorded(st1, [], true)
    else
      var players := lobby.players[rid];
      match (NickOf(players, winner, MC.DefaultWinnerName), NickOf(players, loser, MC.DefaultLoserName))
      case (Named(winnerName), Named(loserName)) =>
        Recorded(st1, SendToDevice(st1, winner, MC.ShareMsg(GameShare(streak, winnerName, loserName))), false)
      case _ => Recorded(st1, [], true)
  }

  // ---------------------------------------------------------------------------
  // play

  /** A parsed `/game` message: a `UserVO` with device id, card and side name, or unparsable text. */
  datatype GameInbound = Play(deviceId: Option<string>, card: Option<int>, role: Option<string>) | Unparsable

  /**
   * `onMessage(message, session)`. Dropped when unparsable, without device id or card, or when
   * the lobby has no room for the device. The room's game state is created if missing and kept;
   * a completed game takes no card. Otherwise the card goes to the game state under the side
   * named in the message, and the round is settled, or the first other listed player is asked
   * for a card. A room the lobby lists no players for stops there.
   */
  function OnMessage(st: GameServer, lobby: Lobby, rules: RoundRules, msg: GameInbound): (r: GameStep)
    ensures msg.Unparsable? || msg.deviceId.None? || msg.card.None? ==> r == GameStep(st, [])
    ensures msg.Play? && msg.deviceId.Some? && msg.deviceId.value !in lobby.roomOf ==> r == GameStep(st, [])
  {
    match msg
    case Unparsable => GameStep(st, [])
    case Play(deviceId, card, role) =>
      if deviceId.None? || card.None? || deviceId.value !in lobby.roomOf then GameStep(st, [])
      else
        var rid := lobby.roomOf[deviceId.value];
        var g0 := if rid in st.states then st.states[rid] else Fresh();
        var st0 := st.(states := st.states[rid := g0]);
        if rules.completed(g0) then GameStep(st0, [])
        else
          var g := rules.addCard(g0, role, card.value);
          var st1 := st0.(states := st0.states[rid := g]);
          if rid !in lobby.players then GameStep(st1, [])
          else
            var players := lobby.players[rid];
            if rules.roundComplete(g) then Settle(st1, lobby, rules, rid, players)
            else
              var ask := match FirstOtherDevice(players, deviceId.value)
                         case None => []
                         case Some(opp) => SendToDevice(st1, opp.deviceId, MC.PleaseTakeCard);
              GameStep(st1, ask)
  }

  /**
   * The recording step of a completed round: a red or a blue win with both sides listed is
   * recorded for the winning side's first player against the other side's; any other result
   * records nothing.
   */
  function RecordWin(st: GameServer, lobby: Lobby, rules: RoundRules, rid: int, players: seq<GameUser>,
                     result: RoundResult): (r: Recorded)
    requires rid in st.states
    ensures result !in {RedWin, BlueWin} ==> r == Recorded(st, [], false)
    ensures FirstOnSide(players, RedSideName).None? || FirstOnSide(players, BlueSideName).None? ==>
              r == Recorded(st, [], false)
    ensures FirstOnSide(players, RedSideName).Some? && FirstOnSide(players, BlueSideName).Some? ==>
              var red := FirstOnSide(players, RedSideName).value.deviceId;
              var blue := FirstOnSide(players, BlueSideName).value.deviceId;
              && (result == RedWin ==> r == RecordGame(st, lobby, rules, rid, red, blue))
              && (result == BlueWin ==> r == RecordGame(st, lobby, rules, rid, blue, red))
    ensures r.st.sessions == st.sessions && r.st.live == st.live && r.st.states.Keys == st.states.Keys
  {
    var red := FirstOnSide(players, RedSideName);
    var blue := FirstOnSide(players, BlueSideName);
    if result == RedWin && red.Some? && blue.Some? then RecordGame(st, lobby, rules, rid, red.value.deviceId, blue.value.deviceId)
    else if result == BlueWin && red.Some? && blue.Some? then RecordGame(st, lobby, rules, rid, blue.value.deviceId, red.value.deviceId)
    else Recorded(st, [], false)
  }

  /**
   * A completed round: the round's cards go to every listed player; `continue` advances the
   * round; a red or blue win with both sides listed is recorded; then, unless recording threw,
   * the result is broadcast. Any other result records nothing.
   */
  function Settle(st: GameServer, lobby: Lobby, rules: RoundRules, rid: int, players: seq<GameUser>): (r: GameStep)
    requires rid in st.states
    ensures rules.roundResult(st.states[rid]) !in {RedWin, BlueWin} ==> r.st.history == st.history
    ensures r.st.sessions == st.sessions && r.st.live == st.live && r.st.states.Keys == st.states.Keys
  {
    var g := st.states[rid];
    var rounds := RoundSends(st, players, rules, g);
    var result := rules.roundResult(g);
    if result == Continue then
      GameStep(st.(states := st.states[rid := rules.nextRound(g)]), rounds)
    else
      var recorded := RecordWin(st, lobby, rules, rid, players, result);
      if recorded.thrown then GameStep(recorded.st, rounds)
      else GameStep(recorded.st, rounds + recorded.out + Broadcast(recorded.st, players, MC.GameResult(result)))
  }

  /** `resetGameState(roomId)`: an existing game state is reset; an unknown room gets none. */
  function ResetGameState(st: GameServer, rid: int): (r: GameServer)
    ensures rid !in st.states ==> r == st
    ensures rid in st.states ==> rid in r.states && r.states[rid] == Fresh()
    ensures r.states.Keys == st.states.Keys
    ensures forall k :: k in st.states && k != rid ==> r.states[k] == st.states[k]
    ensures r.sessions == st.sessions && r.history == st.history && r.live == st.live
  {
    if rid in st.states then st.(states := st.states[rid := Reset(st.states[rid])]) else st
  }
}
