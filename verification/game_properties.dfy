/**
 * What the `/game` callbacks promise: a stale close never evicts a newer session, malformed or
 * unroutable messages change nothing, a completed game takes no card, only a red or blue win
 * reaches the histories, and a `null` nickname on the winning side silences the result.
 */
module GameProperties {
  import opened Options
  import opened Transport
  import opened GameStateModel
  import opened WinStreak
  import opened GameEndpoint
  import MC = MatchCoordinator

  /** A close for a session that no entry holds only marks it closed. */
  lemma StaleCloseIgnored(st: GameServer, session: Session)
    requires DevicesKeyed(st.sessions)
    requires forall k :: k in st.sessions ==> st.sessions[k] != session
    ensures OnClose(st, session) == GameStep(st.(live := st.live - {session}), [])
  {
    FindDeviceBySessionIsScan(st, session);
  }

  /**
   * A device that reconnects on a new session keeps it when the old session closes afterwards,
   * and the old session ends up closed.
   */
  lemma ReconnectSurvivesStaleClose(st: GameServer, oldSession: Session, newSession: Session)
    requires oldSession.param.Some? && newSession.param == oldSession.param
    requires newSession != oldSession
    ensures var id := newSession.param.value;
            var closed := OnClose(OnOpen(st, newSession).st, oldSession).st;
            && id in closed.sessions && closed.sessions[id] == newSession
            && newSession in closed.live && oldSession !in closed.live
            && closed.states == st.states && closed.history == st.history
  {
  }

  /**
   * A card for a game that is already complete is refused: nothing is sent and the history, the
   * registry and every existing game state are as they were (only a missing state is created).
   */
  lemma CompletedGameTakesNoCard(st: GameServer, lobby: Lobby, rules: RoundRules, deviceId: string,
                                 card: int, role: Option<string>)
    requires deviceId in lobby.roomOf
    requires var rid := lobby.roomOf[deviceId];
             rules.completed(if rid in st.states then st.states[rid] else Fresh())
    ensures var rid := lobby.roomOf[deviceId];
            var r := OnMessage(st, lobby, rules, Play(Some(deviceId), Some(card), role));
            && r.out == []
            && r.st.history == st.history && r.st.sessions == st.sessions
            && (rid in st.states ==> r.st == st)
            && (rid !in st.states ==> r.st.states == st.states[rid := Fresh()])
  {
  }

  /**
   * Only a completed round whose result is a red or a blue win can change the histories: a draw,
   * a `continue`, an incomplete round or a dropped message appends no record.
   */
  lemma OnlyWinsRecord(st: GameServer, lobby: Lobby, rules: RoundRules, msg: GameInbound)
    ensures OnMessage(st, lobby, rules, msg).st.history != st.history ==>
              && msg.Play? && msg.deviceId.Some? && msg.card.Some? && msg.deviceId.value in lobby.roomOf
              && var rid := lobby.roomOf[msg.deviceId.value];
                 var g := rules.addCard(if rid in st.states then st.states[rid] else Fresh(), msg.role, msg.card.value);
                 && rules.roundComplete(g)
                 && rules.roundResult(g) in {RedWin, BlueWin}
  {
  }

  /**
   * A red win with both sides listed appends one record to the red player's history and then
   * to the blue player's; the stored lists keep their order.
   */
  lemma RedWinRecorded(st: GameServer, lobby: Lobby, rules: RoundRules, rid: int, players: seq<GameUser>)
    requires rid in st.states
    requires rules.roundResult(st.states[rid]) == RedWin
    requires FirstOnSide(players, RedSideName).Some? && FirstOnSide(players, BlueSideName).Some?
    requires FirstOnSide(players, RedSideName).value.deviceId != FirstOnSide(players, BlueSideName).value.deviceId
    ensures var red := FirstOnSide(players, RedSideName).value.deviceId;
            var blue := FirstOnSide(players, BlueSideName).value.deviceId;
            var rec := rules.createRecord(rules.setRoomId(rules.recordResult(st.states[rid], red, blue), rid));
            var h := Settle(st, lobby, rules, rid, players).st.history;
            && h[red] == Prior(st.history, red) + [rec]
            && h[blue] == Prior(st.history, blue) + [rec]
  {
  }

  /**
   * A blue win with both sides listed appends one record to the blue player's history and then
   * to the red player's, the blue player named as the winner.
   */
  lemma BlueWinRecorded(st: GameServer, lobby: Lobby, rules: RoundRules, rid: int, players: seq<GameUser>)
    requires rid in st.states
    requires rules.roundResult(st.states[rid]) == BlueWin
    requires FirstOnSide(players, RedSideName).Some? && FirstOnSide(players, BlueSideName).Some?
    requires FirstOnSide(players, RedSideName).value.deviceId != FirstOnSide(players, BlueSideName).value.deviceId
    ensures var red := FirstOnSide(players, RedSideName).value.deviceId;
            var blue := FirstOnSide(players, BlueSideName).value.deviceId;
            var rec := rules.createRecord(rules.setRoomId(rules.recordResult(st.states[rid], blue, red), rid));
            var h := Settle(st, lobby, rules, rid, players).st.history;
            && h[blue] == Prior(st.history, blue) + [rec]
            && h[red] == Prior(st.history, red) + [rec]
  {
  }

  /**
   * A card that leaves the round incomplete is kept in the room's state, and the first listed
   * player on another device is asked for a card when its session is open; nobody else is told.
   */
  lemma AskOpponent(st: GameServer, lobby: Lobby, rules: RoundRules, deviceId: string, card: int, role: Option<string>)
    requires deviceId in lobby.roomOf && lobby.roomOf[deviceId] in lobby.players
    requires var rid := lobby.roomOf[deviceId];
             var g0 := if rid in st.states then st.states[rid] else Fresh();
             !rules.completed(g0) && !rules.roundComplete(rules.addCard(g0, role, card))
    ensures var rid := lobby.roomOf[deviceId];
            var g0 := if rid in st.states then st.states[rid] else Fresh();
            var opp := FirstOtherDevice(lobby.players[rid], deviceId);
            var r := OnMessage(st, lobby, rules, Play(Some(deviceId), Some(card), role));
            && r.st == st.(states := st.states[rid := rules.addCard(g0, role, card)])
            && (opp.None? ==> r.out == [])
            && (opp.Some? ==> (r.out != [] <==> Reachable(st, opp.value.deviceId)))
            && (r.out != [] ==> r.out == [MC.Send(st.sessions[opp.value.deviceId], MC.PleaseTakeCard)])
  {
  }

  /** A card that completes the round hands the room, with the card taken, to the settlement. */
  lemma CompleteRoundSettles(st: GameServer, lobby: Lobby, rules: RoundRules, deviceId: string, card: int, role: Option<string>)
    requires deviceId in lobby.roomOf && lobby.roomOf[deviceId] in lobby.players
    requires var rid := lobby.roomOf[deviceId];
             var g0 := if rid in st.states then st.states[rid] else Fresh();
             !rules.completed(g0) && rules.roundComplete(rules.addCard(g0, role, card))
    ensures var rid := lobby.roomOf[deviceId];
            var g0 := if rid in st.states then st.states[rid] else Fresh();
            var st1 := st.(states := st.states[rid := rules.addCard(g0, role, card)]);
            OnMessage(st, lobby, rules, Play(Some(deviceId), Some(card), role)) == Settle(st1, lobby, rules, rid, lobby.players[rid])
  {
    var rid := lobby.roomOf[deviceId];
    var g0 := if rid in st.states then st.states[rid] else Fresh();
    var st0 := st.(states := st.states[rid := g0]);
    assert st0.(states := st0.states[rid := rules.addCard(g0, role, card)]) == st.(states := st.states[rid := rules.addCard(g0, role, card)]);
  }

  /**
   * A completed round whose result is `continue` advances the room's game to the next round and
   * sends only the round's cards; no history changes.
   */
  lemma ContinueAdvances(st: GameServer, lobby: Lobby, rules: RoundRules, rid: int, players: seq<GameUser>)
    requires rid in st.states
    requires rules.roundResult(st.states[rid]) == Continue
    ensures var g := st.states[rid];
            var r := Settle(st, lobby, rules, rid, players);
            && r.st == st.(states := st.states[rid := rules.nextRound(g)])
            && r.out == RoundSends(st, players, rules, g)
            && forall i :: 0 <= i < |r.out| ==> r.out[i].msg.RoundComplete?
  {
  }

  /**
   * A completed round whose result is neither `continue` nor a win records nothing: the round's
   * cards go out first, then every listed player whose device is reachable gets the result.
   */
  lemma DrawBroadcast(st: GameServer, lobby: Lobby, rules: RoundRules, rid: int, players: seq<GameUser>)
    requires rid in st.states
    requires rules.roundResult(st.states[rid]) == Other
    ensures var g := st.states[rid];
            var rounds := RoundSends(st, players, rules, g);
            var r := Settle(st, lobby, rules, rid, players);
            && r.st == st
            && r.out[..|rounds|] == rounds
            && forall j :: 0 <= j < |players| && Reachable(st, players[j].deviceId) ==>
                 MC.Send(st.sessions[players[j].deviceId], MC.GameResult(Other)) in r.out[|rounds|..]
  {
    var g := st.states[rid];
    assert RecordWin(st, lobby, rules, rid, players, Other) == Recorded(st, [], false);
    RoundsThenResult(Settle(st, lobby, rules, rid, players).out, RoundSends(st, players, rules, g), [], st, players, MC.GameResult(Other));
  }

  /**
   * A win that is recorded without throwing ends with the result: the round's cards go out
   * first, and every listed player whose device is reachable is sent the result after them.
   */
  lemma WinResultBroadcast(st: GameServer, lobby: Lobby, rules: RoundRules, rid: int, players: seq<GameUser>)
    requires rid in st.states
    requires var result := rules.roundResult(st.states[rid]);
             result in {RedWin, BlueWin} && !RecordWin(st, lobby, rules, rid, players, result).thrown
    ensures var g := st.states[rid];
            var result := rules.roundResult(g);
            var rounds := RoundSends(st, players, rules, g);
            var r := Settle(st, lobby, rules, rid, players);
            && r.out[..|rounds|] == rounds
            && forall j :: 0 <= j < |players| && Reachable(st, players[j].deviceId) ==>
                 MC.Send(st.sessions[players[j].deviceId], MC.GameResult(result)) in r.out[|rounds|..]
  {
    var g := st.states[rid];
    var result := rules.roundResult(g);
    var recorded := RecordWin(st, lobby, rules, rid, players, result);
    var rs := recorded.st.(sessions := st.sessions, live := st.live);
    assert recorded.st == rs;
    RoundsThenResult(Settle(st, lobby, rules, rid, players).out, RoundSends(st, players, rules, g), recorded.out, rs, players, MC.GameResult(result));
  }

  /** Messages made of the round's cards, then anything, then a broadcast: the broadcast's recipients all come after the cards. */
  lemma RoundsThenResult(out: seq<MC.Send>, rounds: seq<MC.Send>, mid: seq<MC.Send>, st: GameServer, players: seq<GameUser>, msg: MC.Msg)
    requires out == rounds + mid + Broadcast(st, players, msg)
    ensures out[..|rounds|] == rounds
    ensures forall j :: 0 <= j < |players| && Reachable(st, players[j].deviceId) ==>
              MC.Send(st.sessions[players[j].deviceId], msg) in out[|rounds|..]
  {
    assert out[|rounds|..] == mid + Broadcast(st, players, msg);
    BroadcastReaches(st, players, msg);
    forall j | 0 <= j < |players| && Reachable(st, players[j].deviceId)
      ensures MC.Send(st.sessions[players[j].deviceId], msg) in mid + Broadcast(st, players, msg)
    {
      var k :| 0 <= k < |Broadcast(st, players, msg)| && Broadcast(st, players, msg)[k] == MC.Send(st.sessions[players[j].deviceId], msg);
      assert (mid + Broadcast(st, players, msg))[|mid| + k] == Broadcast(st, players, msg)[k];
    }
  }

  /**
   * When the winner has a streak of three or more and its first entry in the lobby list has no
   * nickname, recording throws: the record is kept, but no share and no `game_result` is sent,
   * only the round's cards.
   */
  lemma NullNicknameSilencesResult(st: GameServer, lobby: Lobby, rules: RoundRules, rid: int, players: seq<GameUser>)
    requires rid in st.states && rid in lobby.players && lobby.players[rid] == players
    requires rules.roundResult(st.states[rid]) == RedWin
    requires FirstOnSide(players, RedSideName).Some? && FirstOnSide(players, BlueSideName).Some?
    requires var red := FirstOnSide(players, RedSideName).value.deviceId;
             var blue := FirstOnSide(players, BlueSideName).value.deviceId;
             && GameStreak(RecordGame(st, lobby, rules, rid, red, blue).st.history, red, rid) >= 3
             && NickOf(players, red, MC.DefaultWinnerName) == NullNickname
    ensures Settle(st, lobby, rules, rid, players).out == RoundSends(st, players, rules, st.states[rid])
  {
  }
}
