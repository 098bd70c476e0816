# Ten-card duel server: a Dafny model

This project models the server of a two-player card game ("ten cards"). Each player holds the
cards 1 to 10. Players meet in a room opened by a shared room code, play one card each per
round, and bet beans on the outcome.

The model covers the following parts of the server:

- **The `/match` WebSocket endpoint (`WebSocket4Match`).** This is the room coordinator. It
  keeps four registries: openId → session, roomId → room, openId → roomId, and
  roomCode → roomId. It also keeps the per-player game history and the bean balances.
  - Callbacks: open, close, error and message.
  - Message types: `join_room`, `play_card`, `leave_room`, `rematch_request`,
    `rematch_accept` and `rematch_reject`.
  - The `Room` class, with its player list and per-player card pools.
  - The win-streak scan and the settlement of a finished game. A finished game moves the bet
    from the loser to the winner and records the game in both histories. A streak of three
    wins or more earns the winner a "share" message.
- **The older `/game` endpoint (`WebSocket4Game`).** It keeps a device → session registry, one
  game state per room, and its own result history and share tiers.
- **The small helpers around the endpoints:**
  - the openId cleaning;
  - the nickname screens of the join and of the `/api/check-nickname` controller;
  - the `PlayerVO` nickname default;
  - the two id counters of `GameUtil` and the date-prefixed room id generator;
  - the `GameState` reset;
  - the user controller (daily sign-in bonus, nickname-update validation, user create and
    update);
  - the user and player services (find-or-create, random players).

## How the model is built

- **Pure transitions.** Every callback is a pure function from a state to a `Step`. A `Step` is
  the state afterwards plus the outbox: the messages handed to `GameUtil.sendMessage` that
  reach an open session, in order.
- **Sessions.** A session is a value `Session(id, param)`. Its `param` is the raw `openId` or
  `deviceId` request parameter. Whether a session is open is membership in the state's `live`
  set. Closing a session removes it from that set. The container's later `onClose` for it is a
  separate event.
- **The round logic is uninterpreted.** The game state's round logic is not defined in the
  code: adding a card, round completion, the round result, advancing the round, game
  completion, the bet, the recorded result and the game record. These are the
  function-valued fields of `GameStateModel.RoundRules`, which every transition receives, and
  the properties hold for every choice of them.
- **The bean store is a map.** The user store's bean balances are a map in the coordinator
  state. A balance that is missing reads as 0.
- **Clock and randomness are parameters.** The clock (`LocalDate.now`,
  `System.currentTimeMillis`, the `yyMMdd` date prefix) and the `Random` draws are passed in.
- **The invariant `MatchInvariants.Valid`.** It holds initially and after every callback, and
  so along every run. It states the following:
  - rooms are stored under their own id;
  - no room holds more than two players;
  - session entries sit under their own session's cleaned id;
  - room ids are below the room counter;
  - no two codes name one room;
  - every code names a room.

  The keying part makes the model's direct lookup `FindOpenIdBySession` agree with the
  source's scan of the session map (`FindOpenIdBySessionIsScan`). It also makes "remove the
  first code of the room" agree with "remove the codes of the room".

Some properties the code breaks are proved as facts about the model:

- Two players can both end up on the red side (`MatchProperties.TwoRedSides`).
- Room entries can dangle after a teardown (`MatchProperties.LeaveEffects`,
  `MatchProperties.LeaveWithoutRoom`).
- A played card is never checked against the player's pool
  (`MatchProperties.PlayCardUnchecked`).

Where a code comment and the code disagree, the model follows the code:

- `UserService.createRandomPlayer` stores 0 wins and 0 losses, not a value from 1 to 100.
- The generated game room id has 11 characters, not 14.
- A `join_room` for a full room still advances the user-code counter, because that counter is
  drawn before the room lookup.

## Model

Paths are relative to the repository root.

| member | source | states |
|---|---|---|
| GameUtil.NextRoomId | src/main/java/com/tencard/demo01/GameUtil.java:28-34 | returns the current room counter and advances it by exactly one; the user-code counter is untouched |
| GameUtil.NextUserCode | src/main/java/com/tencard/demo01/GameUtil.java:36-42 | returns the current user-code counter and advances it by exactly one; the room counter is untouched |
| GameUtil.RoomIdRunConsecutive | src/main/java/com/tencard/demo01/GameUtil.java:32-34 | the k-th room id handed out is the starting value plus k |
| GameUtil.UserCodeRunConsecutive | src/main/java/com/tencard/demo01/GameUtil.java:40-42 | the k-th user code handed out is the starting value plus k |
| GameUtil.RoomIdsFromStart | src/main/java/com/tencard/demo01/GameUtil.java:29-34 | from class load the first room id is 10000 and no two calls return the same id |
| GameUtil.UserCodesFromStart | src/main/java/com/tencard/demo01/GameUtil.java:37-42 | from class load the first user code is 10000 and no two calls return the same code |
| RoomIdGenerator.NextGameRoomId | src/main/java/com/tencard/demo01/GameRoomIdGenerator.java:15-24 | the id is the date prefix followed by digits that read back as the counter, at least five of them (exactly five below 100000); the counter grows by one |
| RoomIdGenerator.FirstIdEndsInOne | src/main/java/com/tencard/demo01/GameRoomIdGenerator.java:9-23 | the first id of a fresh generator is the prefix followed by "00001" |
| RoomIdGenerator.DistinctCountersDistinctIds | src/main/java/com/tencard/demo01/GameRoomIdGenerator.java:20-23 | with the same prefix, different counter values never give the same id |
| RoomIdGenerator.ElevenCharacters | src/main/java/com/tencard/demo01/GameRoomIdGenerator.java:22-23 | with a six-character prefix and a counter below 100000 the id has 11 characters |
| GameStateModel.Fresh | src/main/java/com/tencard/demo01/GameState.java:9-10 | a new game state has m = 0 and no pending card |
| GameStateModel.Reset | src/main/java/com/tencard/demo01/GameState.java:12-16 | whatever the prior values, the reset state equals a freshly constructed one field for field |
| GameStateModel.ResetIdempotent | src/main/java/com/tencard/demo01/GameState.java:12-16 | resetting twice equals resetting once |
| PlayerVO.SetNickName | src/main/java/com/tencard/demo01/PlayerVO.java:44-46 | the stored nickname is never null; a non-null argument is stored as it is; null stores the "玩家" prefix and Java's truncating `millis % 10000`, whose digits read back as a value in 0..9999 for a non-negative clock |
| PlayerVO.SuffixValue | src/main/java/com/tencard/demo01/PlayerVO.java:45 | for a non-negative clock, the decimal suffix reads back as `millis % 10000` |
| RandomNames.CjkChar | src/main/java/com/tencard/demo01/saveData/PlayerService.java:62 | each draw gives the character 0x4E00 + draw, which lies in U+4E00..U+9FA5 |
| RandomNames.RandomChineseName | src/main/java/com/tencard/demo01/saveData/UserService.java:59-68 | the name has exactly `length` characters, the i-th being 0x4E00 plus the i-th draw and so within U+4E00..U+9FA5 |
| NicknameCheck.RemoteVerdict | src/main/java/com/tencard/demo01/NicknameController.java:82-137 | the remote check rejects exactly on the verdict "risky"; "pass", "review", any other verdict and every failure (no token, null reply, non-zero errcode, no result, exception) pass |
| NicknameCheck.CheckNickname | src/main/java/com/tencard/demo01/NicknameController.java:29-141 | a null nickname is a server error; otherwise success is false exactly when the local pattern matches or the remote verdict is "risky"; a local match answers the sensitive-word message without consulting the remote |
| UserService.FindByOpenId | src/main/java/com/tencard/demo01/saveData/UserService.java:21-23 | finds a row of the table with that key, and finds none exactly when no row has the key |
| UserService.SaveExisting | src/main/java/com/tencard/demo01/saveData/UserService.java:70-72 | saving an entity with an id overwrites the rows with that id and no other row |
| UserService.CreatePlayer | src/main/java/com/tencard/demo01/saveData/UserService.java:79-95 | an existing key returns its row and stores nothing; a new key appends a row with the given nickname, 0 wins and 0 losses under the next id |
| UserService.CreatePlayerTwice | src/main/java/com/tencard/demo01/saveData/UserService.java:79-95 | creating the same key twice leaves exactly one row for it |
| UserService.CreateRandomPlayer | src/main/java/com/tencard/demo01/saveData/UserService.java:28-51 | a new key appends a row with a two-character name, 0 wins and 0 losses, and the lookup finds it; an existing key is a duplicate-key failure |
| UserController.SignIn | src/main/java/com/tencard/demo01/saveData/UserController.java:19-49 | a blank id fails; success requires a known account not signed in today with a balance, credits exactly 500 beans, sets today's date and reports the new balance; every failure writes nothing |
| UserController.SignInSameDayRefused | src/main/java/com/tencard/demo01/saveData/UserController.java:36-39 | an account already signed in today is refused and the table is unchanged |
| UserController.SignedInStaysSignedIn | src/main/java/com/tencard/demo01/saveData/UserController.java:36-45 | after a successful sign-in, a second one on the same day is refused |
| UserController.SignInTwiceSameDay | src/main/java/com/tencard/demo01/saveData/UserController.java:36-45 | two sign-ins on one day credit the bonus at most once: the second fails and writes nothing |
| UserController.UpdateNicknameStatus | src/main/java/com/tencard/demo01/saveData/UserController.java:112-121 | accepted exactly when openId and nickname are non-empty and the nickname has at most 20 UTF-16 units |
| UserController.CreateUser | src/main/java/com/tencard/demo01/saveData/UserController.java:63-73 | a null or empty openId is a bad request that writes nothing; a known key returns its row and writes nothing; a new key appends exactly one row under the next id, with the given nickname, 0 wins, 0 losses and no balance or sign-in date, and the next id advances by one |
| UserController.FindById | src/main/java/com/tencard/demo01/saveData/UserController.java:81-84 | finds a row with that id, and none exactly when no row has it |
| UserController.UpdateUser | src/main/java/com/tencard/demo01/saveData/UserController.java:78-96 | an unknown id is not found and writes nothing; otherwise the answer keeps the row's id, key, balance and sign-in date and takes nickname, wins and losses from the request (nulls included), and the table is the save of that answer: it replaces every row with the id and no other row |
| UserController.UpdateUserFound | src/main/java/com/tencard/demo01/saveData/UserController.java:78-96 | with unique ids, looking the id up after a successful update finds the updated account |
| PlayerService.FindByUsername | src/main/java/com/tencard/demo01/saveData/PlayerService.java:21-23 | no result for no row, the row for exactly one, a not-unique failure for more than one |
| PlayerService.CreateRandomPlayer | src/main/java/com/tencard/demo01/saveData/PlayerService.java:28-49 | appends one row under the next id with a two-character CJK name and wins and losses each in 1..100 |
| PlayerService.CreateRandomPlayerLookup | src/main/java/com/tencard/demo01/saveData/PlayerService.java:44-48 | the lookup by the new name returns the saved row when the name was free and fails as not unique when it was taken |
| OpenIdCleaning.Clean | src/main/java/com/tencard/demo01/WebSocket4Match.java:195-203 | the result is a prefix of the id: the whole id without "?" or without "?openId=", or when the id is only repetitions of the marker (empty split), else the text before the first "?openId=" |
| OpenIdCleaning.CleanOpenId | src/main/java/com/tencard/demo01/WebSocket4Match.java:195-203 | null passes through; any other id is cleaned |
| OpenIdCleaning.CleanIdempotent | src/main/java/com/tencard/demo01/WebSocket4Match.java:195-203 | cleaning a cleaned id changes nothing |
| OpenIdCleaning.CleanOpenIdIdempotent | src/main/java/com/tencard/demo01/WebSocket4Match.java:195-203 | cleaning twice equals cleaning once, null included |
| OpenIdCleaning.CleanDoubledId | src/main/java/com/tencard/demo01/WebSocket4Match.java:196-199 | a doubled id `x?openId=x` (x non-empty, without "?") cleans to x |
| OpenIdCleaning.CleanBareMarker | src/main/java/com/tencard/demo01/WebSocket4Match.java:197-199 | an id that is only the marker has an empty split and is kept |
| JoinNickname.AnyWordFrom | src/main/java/com/tencard/demo01/WebSocket4Match.java:231-238 | the word loop finds a hit exactly when some remaining refused word, lower-cased as Java lower-cases it, occurs in the lower-cased nickname |
| JoinNickname.JoinNicknameError | src/main/java/com/tencard/demo01/WebSocket4Match.java:224-240 | no error exactly when the nickname is non-blank and, after Java's lower-casing, contains none of the six words; a blank one gets the empty-nickname message, a sensitive one the sensitive-word message |
| JoinNickname.CaseInsensitiveAdmin | src/main/java/com/tencard/demo01/WebSocket4Match.java:231-238 | "ADMIN" is refused as sensitive |
| JoinNickname.KelvinSignRefused | src/main/java/com/tencard/demo01/WebSocket4Match.java:231-238 | "FUC" followed by the KELVIN SIGN, which Java lower-cases to "k", is refused as sensitive |
| JoinNickname.SpacesAreBlank | src/main/java/com/tencard/demo01/WebSocket4Match.java:225-229 | a nickname of spaces is refused as empty |
| ShareTiers.MatchShareCode | src/main/java/com/tencard/demo01/WebSocket4Match.java:693 | the code is "WIN" followed by digits that read back as the streak |
| ShareTiers.MatchTitle | src/main/java/com/tencard/demo01/WebSocket4Match.java:698-709 | a title exists exactly for the codes WIN3, WIN4 and WIN5 |
| ShareTiers.MatchTitleTiers | src/main/java/com/tencard/demo01/WebSocket4Match.java:693-709 | a streak has a title exactly when it is 3, 4 or 5, and each of those gets its own title |
| ShareTiers.MatchShare | src/main/java/com/tencard/demo01/WebSocket4Match.java:683-709 | the share carries both names, the streak's code, no content, and a title exactly up to a streak of 5 |
| ShareTiers.GameShareCode | src/main/java/com/tencard/demo01/WebSocket4Game.java:250 | the code is WIN5 exactly from a streak of 5 on and WIN3 exactly below it |
| ShareTiers.GameShare | src/main/java/com/tencard/demo01/WebSocket4Game.java:233-264 | the share carries both names, the tier's code, and the tier's title and content line |
| ShareTiers.GameTiersCoarserThanMatch | src/main/java/com/tencard/demo01/WebSocket4Game.java:250-264 | streaks 3 and 4 earn the same `/game` share while `/match` gives them different codes |
| WinStreak.Insert | src/main/java/com/tencard/demo01/WebSocket4Match.java:731 | inserting into a list ordered latest first keeps it ordered and adds exactly that record |
| WinStreak.SortByEndDesc | src/main/java/com/tencard/demo01/WebSocket4Match.java:731 | the sort is a permutation of the records, ordered by end time, latest first |
| WinStreak.SortSortedIsIdentity | src/main/java/com/tencard/demo01/WebSocket4Match.java:731 | a list already in order is its own sorted order |
| WinStreak.LeadingRun | src/main/java/com/tencard/demo01/WebSocket4Match.java:733-741 | every record before the count was won by the player in the room, the record at the count was not, and the count never exceeds the list |
| WinStreak.CountLeading | src/main/java/com/tencard/demo01/WebSocket4Match.java:733-741 | the counting loop stops at the first record not won by the player in the room, giving the leading run |
| WinStreak.Append | src/main/java/com/tencard/demo01/WebSocket4Match.java:678-679 | the record goes at the end of the player's list, created if missing; no other list changes |
| WinStreak.MatchStreak | src/main/java/com/tencard/demo01/WebSocket4Match.java:726-742 | no history gives 0 and changes nothing; otherwise the list is replaced by its sorted order and the streak is the leading run of that order |
| WinStreak.MatchStreakStable | src/main/java/com/tencard/demo01/WebSocket4Match.java:726-742 | scanning again the history a scan left behind changes nothing and gives the same streak |
| WinStreak.StreakStopsAtOtherRoom | src/main/java/com/tencard/demo01/WebSocket4Match.java:731-740 | four wins whose third latest was in another room count 2, whether stored in order or not, and the scan stores them in order |
| WinStreak.GameStreak | src/main/java/com/tencard/demo01/WebSocket4Game.java:275-286 | no history gives 0; otherwise the count never exceeds the length of the player's list; it counts over a sorted copy and leaves the stored list as it is |
| WinStreak.StreaksAgree | src/main/java/com/tencard/demo01/WebSocket4Game.java:275-286 | both endpoints report the same streak for the same history |
| MatchRoom.NewRoom | src/main/java/com/tencard/demo01/WebSocket4Match.java:826-833 | a new room has its id, no players, no pools and a fresh game state |
| MatchRoom.AddPlayer | src/main/java/com/tencard/demo01/WebSocket4Match.java:847-849 | the player is appended with no check; id, game and pools are unchanged |
| MatchRoom.FullDeck | src/main/java/com/tencard/demo01/WebSocket4Match.java:853-855 | the pool is the ten cards 1..TEN in order |
| MatchRoom.FullDeckContents | src/main/java/com/tencard/demo01/WebSocket4Match.java:853-855 | a card is in the full pool exactly when it lies in 1..10 |
| MatchRoom.FullDeckDistinct | src/main/java/com/tencard/demo01/WebSocket4Match.java:853-855 | no card occurs twice in the full pool |
| MatchRoom.ResetDecks | src/main/java/com/tencard/demo01/WebSocket4Match.java:851-857 | every listed player gets the full pool, the pools of others are kept, and no other key appears |
| MatchRoom.ResetPlayerDecks | src/main/java/com/tencard/demo01/WebSocket4Match.java:851-857 | every current player gets the full pool; stale pools of former players stay; players and game untouched |
| MatchRoom.ValidateCard | src/main/java/com/tencard/demo01/WebSocket4Match.java:859-862 | a card is valid exactly when the player has a pool and the card sits at some position of it; a player with no pool may play nothing |
| MatchRoom.ValidAfterReset | src/main/java/com/tencard/demo01/WebSocket4Match.java:851-862 | right after a reset a player may play exactly the cards 1..10 |
| MatchRoom.RemoveFirst | src/main/java/com/tencard/demo01/WebSocket4Match.java:867 | exactly one occurrence of the card leaves the list, or nothing when absent |
| MatchRoom.RemoveCard | src/main/java/com/tencard/demo01/WebSocket4Match.java:864-869 | one occurrence leaves that player's pool only; without a pool nothing changes |
| MatchRoom.RemoveCardUsesItUp | src/main/java/com/tencard/demo01/WebSocket4Match.java:859-869 | removing a card the pool held once makes it invalid for that player |
| MatchRoom.RemoveCardOthersUnchanged | src/main/java/com/tencard/demo01/WebSocket4Match.java:859-869 | removing a card from one pool never changes what another player may play |
| MatchRoom.CardUsedUpAfterReset | src/main/java/com/tencard/demo01/WebSocket4Match.java:851-869 | after a reset, a card removed once cannot be validated again |
| MatchRoom.FindMember | src/main/java/com/tencard/demo01/WebSocket4Match.java:342-346 | the first member with the openId, and none exactly when the list has none |
| MatchRoom.FirstOther | src/main/java/com/tencard/demo01/WebSocket4Match.java:388-391 | the first player with a different openId, and none exactly when the list has none |
| MatchRoom.FirstWithRole | src/main/java/com/tencard/demo01/WebSocket4Match.java:369-374 | the first player on the side, and none exactly when the list has none |
| MatchRoom.RemoveMember | src/main/java/com/tencard/demo01/WebSocket4Match.java:459 | nobody with the openId stays, everyone else stays, nothing is added |
| MatchRoom.RemoveMemberAppend | src/main/java/com/tencard/demo01/WebSocket4Match.java:459 | the removal goes through the list in order: it distributes over concatenation, and a single player is kept exactly when its openId differs, so the others keep their order and multiplicity |
| MatchRoom.Rebind | src/main/java/com/tencard/demo01/WebSocket4Match.java:276-282 | members with the openId get the new session, all else is as it was |
| MatchRoom.Seat | src/main/java/com/tencard/demo01/WebSocket4Match.java:270-283 | a returning member only has its session rebound; anyone else is appended |
| MatchCoordinator.SendTo | src/main/java/com/tencard/demo01/GameUtil.java:49-61 | a message is delivered exactly when the session is open |
| MatchCoordinator.Broadcast | src/main/java/com/tencard/demo01/WebSocket4Match.java:645-654 | at most one message per player, each this message and to an open session |
| MatchCoordinator.BroadcastReaches | src/main/java/com/tencard/demo01/WebSocket4Match.java:645-654 | every player whose session is open receives the message |
| MatchCoordinator.BroadcastOnlyListed | src/main/java/com/tencard/demo01/WebSocket4Match.java:645-654 | every message goes to the session of some player in the list |
| MatchCoordinator.BroadcastAppend | src/main/java/com/tencard/demo01/WebSocket4Match.java:646 | the players are served in list order: the broadcast to a concatenation is the broadcast to each part, one after the other |
| MatchCoordinator.BroadcastOne | src/main/java/com/tencard/demo01/WebSocket4Match.java:647-649 | one player receives the message exactly when its session is open |
| MatchCoordinator.FindOpenIdBySession | src/main/java/com/tencard/demo01/WebSocket4Match.java:183-192 | a found openId is registered with exactly this session |
| MatchCoordinator.FindOpenIdBySessionIsScan | src/main/java/com/tencard/demo01/WebSocket4Match.java:183-192 | with entries keyed by their own session, the lookup succeeds exactly when a scan would, at the same key |
| MatchCoordinator.CodesWithout | src/main/java/com/tencard/demo01/WebSocket4Match.java:465-471 | exactly the codes of other rooms stay, with their targets |
| MatchCoordinator.Teardown | src/main/java/com/tencard/demo01/WebSocket4Match.java:465-473 | the room and its codes go; nothing else changes |
| MatchCoordinator.DepartRoom | src/main/java/com/tencard/demo01/WebSocket4Match.java:458-477 | the player leaves the list; the room survives exactly when some remaining player has a session entry, else it is torn down |
| MatchCoordinator.OnOpen | src/main/java/com/tencard/demo01/WebSocket4Match.java:50-88 | without the parameter the session is closed and nothing else changes; otherwise it is registered under the cleaned id and a different old session is closed |
| MatchCoordinator.Cleanup | src/main/java/com/tencard/demo01/WebSocket4Match.java:781-812 | the room entry goes; if the room exists the player leaves its list, and the room survives with its codes exactly when a remaining player has a session entry, else it and its codes go; other rooms, sessions, beans, histories and counters are kept |
| MatchCoordinator.Disconnect | src/main/java/com/tencard/demo01/WebSocket4Match.java:749-776 | without a room entry or room nothing happens; otherwise the first other player is told the opponent left when its session is open, and the player's data is cleaned up |
| MatchCoordinator.OnClose | src/main/java/com/tencard/demo01/WebSocket4Match.java:91-119 | a session not registered for its openId is only marked closed; the registered one is closed and its entry removed, then a room of two is left through the disconnect and any other room through the cleanup, which tells nobody; counters, histories and beans are kept |
| MatchCoordinator.Leave | src/main/java/com/tencard/demo01/WebSocket4Match.java:408-418 | without a room entry or room nothing happens (a dangling entry stays); counters, histories and beans are kept |
| MatchCoordinator.OnError | src/main/java/com/tencard/demo01/WebSocket4Match.java:122-129 | an unregistered session changes nothing; counters, histories and beans are kept |
| MatchCoordinator.JoinRoom | src/main/java/com/tencard/demo01/WebSocket4Match.java:257-331 | every join by code draws exactly one user code; only an unknown code also draws a room id; histories and beans are untouched |
| MatchCoordinator.JoinExisting | src/main/java/com/tencard/demo01/WebSocket4Match.java:260-318 | only that room and the joiner's room entry change; the room's players are the seating of the joiner on the red side; a room still short of two announces its state; a room that reaches two starts (game state takes the room id, pools reset, `game_ready` to the room) only when both players hold the bet, and otherwise keeps the seating and broadcasts `bean_not_enough` |
| MatchCoordinator.JoinNew | src/main/java/com/tencard/demo01/WebSocket4Match.java:319-331 | the next room id names a new room holding only the joiner on the blue side; the code and the joiner's entry point at it; nothing else changes |
| MatchCoordinator.Join | src/main/java/com/tencard/demo01/WebSocket4Match.java:143-154 | a message without openId or room code changes nothing and sends nothing; a refused nickname only answers `nickname_error` to the joiner; counters never move back and histories and beans are kept |
| MatchCoordinator.RecordGame | src/main/java/com/tencard/demo01/WebSocket4Match.java:656-715 | an unknown room changes nothing; otherwise only that room's game, the beans and the histories change |
| MatchCoordinator.PlayCard | src/main/java/com/tencard/demo01/WebSocket4Match.java:335-399 | either nothing changes, or only the player's room's game, the beans and the histories |
| MatchCoordinator.Played | src/main/java/com/tencard/demo01/WebSocket4Match.java:349-398 | only the room's game, the beans and the histories change |
| MatchCoordinator.Settle | src/main/java/com/tencard/demo01/WebSocket4Match.java:351-387 | only the room's game, the beans and the histories change |
| MatchCoordinator.SettleResult | src/main/java/com/tencard/demo01/WebSocket4Match.java:366-387 | after the round's cards only the room's game, the beans and the histories change |
| MatchCoordinator.RoundSends | src/main/java/com/tencard/demo01/WebSocket4Match.java:351-364 | every player with an open session gets a `round_complete` with its own card first (red sees red first, anyone else blue first); every message goes to such a player and carries that player's view |
| MatchCoordinator.RematchRequest | src/main/java/com/tencard/demo01/WebSocket4Match.java:486-540 | a requester without a room entry changes nothing; no request touches the counters, histories or beans |
| MatchCoordinator.RematchAccept | src/main/java/com/tencard/demo01/WebSocket4Match.java:542-575 | a player without a two-player room changes nothing; only the accepting player's room may change, and no room gains or loses players; nothing else changes |
| MatchCoordinator.RematchReject | src/main/java/com/tencard/demo01/WebSocket4Match.java:577-629 | no state ever changes; a notice goes out exactly when the room holds two players, the rejecter is one of them and the other player's session is open, and then it is a single `rematch_reject` to that other player only |
| MatchCoordinator.OnMessage | src/main/java/com/tencard/demo01/WebSocket4Match.java:132-137 | a session with no registered openId is ignored; no message moves a counter back |
| MatchCoordinator.Handle | src/main/java/com/tencard/demo01/WebSocket4Match.java:50-180 | no callback moves a counter back, so no room id or user code is issued twice; opening, closing and an error leave the counters, histories and beans as they were |
| MatchInvariants.InitialValid | src/main/java/com/tencard/demo01/WebSocket4Match.java:37-47 | the empty registries satisfy the invariant |
| MatchInvariants.TeardownValid | src/main/java/com/tencard/demo01/WebSocket4Match.java:465-473 | a teardown keeps the invariant |
| MatchInvariants.DepartRoomValid | src/main/java/com/tencard/demo01/WebSocket4Match.java:458-477 | a departure keeps the invariant |
| MatchInvariants.OnOpenValid | src/main/java/com/tencard/demo01/WebSocket4Match.java:50-88 | opening keeps the invariant |
| MatchInvariants.CleanupValid | src/main/java/com/tencard/demo01/WebSocket4Match.java:781-812 | cleanup keeps the invariant |
| MatchInvariants.DisconnectValid | src/main/java/com/tencard/demo01/WebSocket4Match.java:749-776 | a disconnect keeps the invariant |
| MatchInvariants.OnCloseValid | src/main/java/com/tencard/demo01/WebSocket4Match.java:91-119 | closing keeps the invariant |
| MatchInvariants.LeaveValid | src/main/java/com/tencard/demo01/WebSocket4Match.java:401-484 | leaving keeps the invariant |
| MatchInvariants.OnErrorValid | src/main/java/com/tencard/demo01/WebSocket4Match.java:122-129 | an error keeps the invariant |
| MatchInvariants.JoinExistingValid | src/main/java/com/tencard/demo01/WebSocket4Match.java:260-318 | seating in a room with a free seat keeps it within two players |
| MatchInvariants.JoinNewValid | src/main/java/com/tencard/demo01/WebSocket4Match.java:319-331 | a new room takes a fresh id, so codes stay injective and resolve |
| MatchInvariants.JoinRoomValid | src/main/java/com/tencard/demo01/WebSocket4Match.java:258-331 | every join by code keeps the invariant |
| MatchInvariants.JoinValid | src/main/java/com/tencard/demo01/WebSocket4Match.java:143-154 | a `join_room` message keeps the invariant |
| MatchInvariants.PlayCardValid | src/main/java/com/tencard/demo01/WebSocket4Match.java:335-399 | playing a card keeps the invariant |
| MatchInvariants.RematchRequestValid | src/main/java/com/tencard/demo01/WebSocket4Match.java:486-540 | a rematch request keeps the invariant |
| MatchInvariants.RematchAcceptValid | src/main/java/com/tencard/demo01/WebSocket4Match.java:542-575 | accepting a rematch keeps the invariant |
| MatchInvariants.OnMessageValid | src/main/java/com/tencard/demo01/WebSocket4Match.java:132-180 | every message keeps the invariant |
| MatchInvariants.HandleValid | src/main/java/com/tencard/demo01/WebSocket4Match.java:50-180 | every callback keeps the invariant; in particular no room exceeds two players |
| MatchInvariants.Run | src/main/java/com/tencard/demo01/WebSocket4Match.java:35-47 | along any sequence of callbacks the counters never move back, and a sequence without messages leaves counters, histories and beans alone |
| MatchInvariants.RunAppend | src/main/java/com/tencard/demo01/WebSocket4Match.java:35-47 | the static maps persist between callbacks: two runs one after the other are the run of the concatenated callbacks |
| MatchInvariants.RunValid | src/main/java/com/tencard/demo01/WebSocket4Match.java:37-47 | along any sequence of callbacks from a valid state the invariant holds |
| MatchProperties.JoinUnknownCode | src/main/java/com/tencard/demo01/WebSocket4Match.java:319-331 | an unknown code opens a room under an id no room had, holding only the joiner on the blue side with the drawn user code; code and entry point at it; both counters advance by one; every existing room is untouched |
| MatchProperties.JoinFullRoom | src/main/java/com/tencard/demo01/WebSocket4Match.java:258-267 | a missing or full room answers `room_full` to the joiner and changes nothing but the user-code counter, even for a returning member |
| MatchProperties.JoinStartsGame | src/main/java/com/tencard/demo01/WebSocket4Match.java:286-318 | the seat that fills a room starts the game only if both hold the bet: room id in the game state, full pools for both, `game_ready` broadcast; either short: seating kept, old pools kept, `bean_not_enough` broadcast; one player: `room_state` |
| MatchProperties.JoinSeats | src/main/java/com/tencard/demo01/WebSocket4Match.java:260-284 | a newcomer is appended on the red side; a returning member keeps its place, side and openId, so nobody is seated twice; the room stays within two; codes are unchanged |
| MatchProperties.TwoRedSides | src/main/java/com/tencard/demo01/WebSocket4Match.java:270-275 | after the blue player leaves and a newcomer joins, the room holds two red players |
| MatchProperties.LeaveEffects | src/main/java/com/tencard/demo01/WebSocket4Match.java:420-475 | the leaver loses its session and room entries and its seat, and its session is closed; the room and code survive exactly when a remaining player has a session entry; other players' entries are untouched even when their room is gone; the first other player is told the opponent left exactly when its session is open |
| MatchProperties.LeaveWithoutRoom | src/main/java/com/tencard/demo01/WebSocket4Match.java:414-418 | when the room is gone, leaving changes nothing and the leaver's dangling entry stays |
| MatchProperties.DisconnectEffects | src/main/java/com/tencard/demo01/WebSocket4Match.java:749-812 | the first other player is told the opponent left exactly when its session is open; the player loses its room entry and seat; the room and its codes survive exactly when a remaining player has a session entry; sessions and other rooms are untouched |
| MatchProperties.ErrorEffects | src/main/java/com/tencard/demo01/WebSocket4Match.java:122-129 | an error removes the session entry before leaving, so the erroring session is not closed; the room entry and seat go, the room survives exactly when a remaining player has a session entry, and the first other player is told when its session is open |
| MatchProperties.StaleCloseIgnored | src/main/java/com/tencard/demo01/WebSocket4Match.java:91-97 | closing a session registered under no openId only marks it closed and sends nothing |
| MatchProperties.CurrentCloseRemoves | src/main/java/com/tencard/demo01/WebSocket4Match.java:98-117 | closing the registered session removes the session and room entries |
| MatchProperties.CloseEffects | src/main/java/com/tencard/demo01/WebSocket4Match.java:91-119 | closing the registered session of a player in a room closes it and removes its session and room entries and seat; the room survives exactly when a remaining player has a session entry; only in a room of two is the first other player told, exactly when its session is open |
| MatchProperties.ReconnectSurvivesStaleClose | src/main/java/com/tencard/demo01/WebSocket4Match.java:79-98 | after a reconnect, the old session's close leaves the new session registered and open, and no room, entry or code changes |
| MatchProperties.RecordGameBeans | src/main/java/com/tencard/demo01/WebSocket4Match.java:665-669 | the winner gains and the loser loses the bet, their sum is kept, nobody else's balance moves |
| MatchProperties.RecordGameHistories | src/main/java/com/tencard/demo01/WebSocket4Match.java:674-681 | one record is appended to the loser's list and added to the winner's, which is left sorted latest first; other histories are kept |
| MatchProperties.RecordGameShare | src/main/java/com/tencard/demo01/WebSocket4Match.java:681-714 | no share below a streak of 3; from 3 on, one share to the winner exactly when its registered session is open, with code "WIN"+streak and a title exactly up to 5 |
| MatchProperties.PlayCardDropped | src/main/java/com/tencard/demo01/WebSocket4Match.java:336-347 | no room entry, no room, a completed game or a non-member drops the card with no change and no message |
| MatchProperties.PlayCardUnchecked | src/main/java/com/tencard/demo01/WebSocket4Match.java:335-349 | mid-round, the game takes the card under the member's side whether or not its pool holds it, and pools, beans and histories are unchanged |
| MatchProperties.PlayCardKeepsPools | src/main/java/com/tencard/demo01/WebSocket4Match.java:335-399 | no play changes a pool, a player list or any registry map |
| MatchProperties.PlayCardPlays | src/main/java/com/tencard/demo01/WebSocket4Match.java:335-349 | a card from a member of an unfinished game in an existing room is played under the member's first entry in the player list |
| MatchProperties.PlayedAsksOpponent | src/main/java/com/tencard/demo01/WebSocket4Match.java:389-398 | when the round stays incomplete the card is kept and nothing else changes; `please_take_card` goes to the first other player exactly when there is one and its session is open, and to nobody else |
| MatchProperties.PlayedSettles | src/main/java/com/tencard/demo01/WebSocket4Match.java:349-351 | when the card completes the round, the room with the card included is settled |
| MatchProperties.SettleContinue | src/main/java/com/tencard/demo01/WebSocket4Match.java:351-368 | on `continue` every open player gets its own view of the round and the game moves to the next round; nothing else changes |
| MatchProperties.SettleRedWin | src/main/java/com/tencard/demo01/WebSocket4Match.java:370-387 | on a red win with both sides seated, the first red player is recorded as winner over the first blue player; the round views go out first, then what recording sends, then `game_result` to the room |
| MatchProperties.SettleBlueWin | src/main/java/com/tencard/demo01/WebSocket4Match.java:370-387 | on a blue win with both sides seated, the first blue player is recorded as winner over the first red player; the round views, then what recording sends, then `game_result` to the room |
| MatchProperties.SettleOtherResult | src/main/java/com/tencard/demo01/WebSocket4Match.java:370-387 | any other final result with both sides seated records nothing and changes nothing; the round views are followed by `game_result` to the room |
| MatchProperties.SettleSideMissing | src/main/java/com/tencard/demo01/WebSocket4Match.java:370-376 | a final result with no red or no blue player records nothing, changes nothing and sends only the round views |
| MatchProperties.SettlePaysWinner | src/main/java/com/tencard/demo01/WebSocket4Match.java:378-382 | after a red win the first red player gains the bet and the first blue player loses it; after a blue win the reverse |
| MatchProperties.RematchRequestEffect | src/main/java/com/tencard/demo01/WebSocket4Match.java:486-540 | an invalid room makes the requester leave; an open opponent alone is asked and nothing changes; a closed opponent makes the requester hear that the player left and leave |
| MatchProperties.RematchAcceptEffect | src/main/java/com/tencard/demo01/WebSocket4Match.java:542-575 | if either player is short of the bet nothing changes and the room hears `bean_not_enough` (rematch wording); otherwise the game is fresh, the players are kept, both get the full pool and the room hears `game_ready` with the players and room id |
| GameEndpoint.OnOpen | src/main/java/com/tencard/demo01/WebSocket4Game.java:40-58 | the session is registered under the raw device id and a different old session is closed; without the parameter nothing changes |
| GameEndpoint.FindDeviceBySession | src/main/java/com/tencard/demo01/WebSocket4Game.java:186-193 | a found device is registered with exactly this session |
| GameEndpoint.FindDeviceBySessionIsScan | src/main/java/com/tencard/demo01/WebSocket4Game.java:186-193 | with entries keyed by their own session, the lookup succeeds exactly when a scan would |
| GameEndpoint.OnClose | src/main/java/com/tencard/demo01/WebSocket4Game.java:61-71 | no entry is added or altered; with keyed entries, an entry is removed exactly when it holds the closing session |
| GameEndpoint.CallbacksKeepKeying | src/main/java/com/tencard/demo01/WebSocket4Game.java:40-71 | opening and closing keep every entry under its own device id |
| GameEndpoint.SendToDevice | src/main/java/com/tencard/demo01/WebSocket4Game.java:163-168 | a device gets the message exactly when its registered session is open |
| GameEndpoint.Broadcast | src/main/java/com/tencard/demo01/WebSocket4Game.java:203-213 | at most one message per listed player, each this message and to an open session |
| GameEndpoint.BroadcastReaches | src/main/java/com/tencard/demo01/WebSocket4Game.java:203-213 | every listed player whose device has an open registered session receives the message |
| GameEndpoint.BroadcastOnlyListed | src/main/java/com/tencard/demo01/WebSocket4Game.java:203-213 | every message goes to the open registered session of some listed player |
| GameEndpoint.BroadcastAppend | src/main/java/com/tencard/demo01/WebSocket4Game.java:206 | the players are served in list order: the broadcast to a concatenation is the broadcast to each part, one after the other |
| GameEndpoint.BroadcastOne | src/main/java/com/tencard/demo01/WebSocket4Game.java:207-210 | one player receives the message exactly when its device has an open registered session |
| GameEndpoint.RoundSends | src/main/java/com/tencard/demo01/WebSocket4Game.java:95-113 | at most one `round_complete` per listed player, each to an open session |
| GameEndpoint.RoundSendsReach | src/main/java/com/tencard/demo01/WebSocket4Game.java:95-113 | every listed player whose device has an open registered session gets a `round_complete` with its own card first (red sees red first, any other side blue first) |
| GameEndpoint.RoundSendsOnlyListed | src/main/java/com/tencard/demo01/WebSocket4Game.java:95-113 | every `round_complete` goes to the open registered session of a listed player and carries that player's view |
| GameEndpoint.FirstOnSide | src/main/java/com/tencard/demo01/WebSocket4Game.java:122-129 | the first listed player with the side name, and none exactly when there is none |
| GameEndpoint.FirstOtherDevice | src/main/java/com/tencard/demo01/WebSocket4Game.java:157-160 | the first listed player with another device, and none exactly when there is none |
| GameEndpoint.NickOf | src/main/java/com/tencard/demo01/WebSocket4Game.java:237-247 | the first listed player of the device decides: its nickname, or a throw when it is null; the fallback when the device is not listed |
| GameEndpoint.RecordGame | src/main/java/com/tencard/demo01/WebSocket4Game.java:216-272 | the room's game records the result and room id; the record is appended to the winner's and the loser's list unsorted; no share below 3; from 3 on, recording throws exactly when the room is unlisted or either first lobby entry has a null nickname, and otherwise the winner gets the share (its two names, the streak's tier) exactly when its session is open; a throw sends nothing |
| GameEndpoint.RecordWin | src/main/java/com/tencard/demo01/WebSocket4Game.java:120-145 | a red win records the first red player's win over the first blue player, a blue win the reverse; a missing side or any other result records nothing; sessions and room keys are kept |
| GameEndpoint.OnMessage | src/main/java/com/tencard/demo01/WebSocket4Game.java:77-82 | an unparsable message, a missing device id or card, or a device without a room changes nothing and sends nothing |
| GameEndpoint.Settle | src/main/java/com/tencard/demo01/WebSocket4Game.java:93-153 | a result other than a red or blue win keeps the histories; sessions and the set of rooms with a state are kept |
| GameEndpoint.ResetGameState | src/main/java/com/tencard/demo01/WebSocket4Game.java:196-201 | an existing state becomes fresh and nothing else changes; an unknown room gets no state |
| GameProperties.StaleCloseIgnored | src/main/java/com/tencard/demo01/WebSocket4Game.java:61-71 | closing a session registered under no device only marks it closed |
| GameProperties.ReconnectSurvivesStaleClose | src/main/java/com/tencard/demo01/WebSocket4Game.java:46-69 | after a reconnect, the old session's close leaves the new session registered and open |
| GameProperties.CompletedGameTakesNoCard | src/main/java/com/tencard/demo01/WebSocket4Game.java:84-89 | a card for a completed game sends nothing and changes nothing except creating a missing state |
| GameProperties.OnlyWinsRecord | src/main/java/com/tencard/demo01/WebSocket4Game.java:116-146 | the histories change only on a complete round whose result is a red or blue win |
| GameProperties.RedWinRecorded | src/main/java/com/tencard/demo01/WebSocket4Game.java:121-132 | a red win appends the same record to the red and the blue player's lists |
| GameProperties.BlueWinRecorded | src/main/java/com/tencard/demo01/WebSocket4Game.java:133-144 | a blue win appends the same record, naming the blue player as winner, to the blue and the red player's lists |
| GameProperties.AskOpponent | src/main/java/com/tencard/demo01/WebSocket4Game.java:154-169 | a card that leaves the round incomplete is kept, and only the first listed player on another device is asked for a card, exactly when its session is open |
| GameProperties.CompleteRoundSettles | src/main/java/com/tencard/demo01/WebSocket4Game.java:91-93 | a card that completes the round is added to the room's state and the round is then settled for the lobby's list of the room |
| GameProperties.ContinueAdvances | src/main/java/com/tencard/demo01/WebSocket4Game.java:116-118 | a `continue` result moves the room's game to the next round and sends only `round_complete` messages; nothing else changes |
| GameProperties.DrawBroadcast | src/main/java/com/tencard/demo01/WebSocket4Game.java:146-152 | a result that is neither `continue` nor a win changes no state; the round's cards come first and every reachable listed player then gets the result |
| GameProperties.WinResultBroadcast | src/main/java/com/tencard/demo01/WebSocket4Game.java:148-152 | after a win recorded without a throw, the round's cards come first and every reachable listed player then gets the result |
| GameProperties.NullNicknameSilencesResult | src/main/java/com/tencard/demo01/WebSocket4Game.java:237-241 | a null winner nickname at a streak of 3 or more leaves only the round's cards sent: no share and no result |

## Left out

- Concurrency is not modelled: the `ConcurrentHashMap` atomicity, the `synchronized` counters, and the `leavingOpenIds` guard against a concurrent second leave. Every callback runs to completion before the next starts, so the guard never fires.
- The user store behind `userService` is not modelled in `/match`: `findOrCreateUserByOpenId`, `updateUserStats`, `updateUserNickname` and `updateUserBean`. Bean balances are a map in the coordinator state, a missing balance reads as 0, and a `null` balance (which would throw) does not arise. `findOrCreateUserByOpenId`, `getLeaderboard` and the user repository's own queries are not in the source; so `getUserInfo` and `getLeaderboard` are left out.
- The WeChat HTTP exchange in the nickname controller is reduced to its outcome (`NicknameCheck.Remote`).
- The round logic of the game state is left uninterpreted, because the code does not define it. This covers card comparison, round and game completion, the bet, the result and the record's end time.
- The lobby of `/game` (`deviceId2RoomIdMap`, `roomId2UserListMap`) belongs to a room endpoint whose code is entirely commented out. It is an input of every `/game` transition and is never changed.
- JSON parsing is reduced to the parsed message datatypes `Inbound` and `GameInbound`. The message field names and Gson or fastjson serialisation are not modelled.
- Sessions are ids. A send to a closed session is not delivered. `/game` sends the round's cards to a registered session without checking that it is open, and the send then fails inside `sendMessage`, which the model treats as not delivered. `Session.close()` never fails.
- `GameEndpoint.OnOpen`: a connection without the `deviceId` parameter throws in the source. The model treats that as changing nothing.
- A `null` device id inside the lobby's player list is not modelled: `GameUser.deviceId` is a string.
- `UserController.CreateUser`: the conflict answer (409) is unreachable, because `createPlayer` always returns an account.
- `PlayerService.CreateRandomPlayer`: the `Player` entity in the source declares no `username` column, although the service and repository use one. The model adds the column.
- `MatchRoom.ResetPlayerDecks`: the source refers to `GameState.TEN`, which `GameState` does not declare. The model uses `GameUtil.TEN`, which is 10.
- `WinStreak.SortByEndDesc` is a stable insertion sort, as `List.sort` is stable. Stability is defined but not stated as a separate property; the contract gives the permutation and the order.
- GameEndpoint.Broadcast: the contract gives only the bound and that every message goes to an open session. Who receives it is stated by `GameEndpoint.BroadcastReaches` and `GameEndpoint.BroadcastOnlyListed`. The two directions are kept apart because together they make the solver instantiate each other without end.
- GameEndpoint.RoundSends: the contract gives only the bound and that every message goes to an open session. Who receives what is stated by `GameEndpoint.RoundSendsReach` and `GameEndpoint.RoundSendsOnlyListed`, kept apart for the same reason.
- MatchCoordinator.Broadcast: the same split; who receives the message is stated by `MatchCoordinator.BroadcastReaches` and `MatchCoordinator.BroadcastOnlyListed`.
- MatchCoordinator.Leave: the contract states only the no-op case and the frame. The effects of a leave, notice included, are stated by `MatchProperties.LeaveEffects`.
- MatchCoordinator.OnError: the contract states only the no-op case and the frame. The effects are stated by `MatchProperties.ErrorEffects`.
- MatchCoordinator.RecordGame: the contract states only the frame of what may change. The bean, history and share effects are stated by `MatchProperties.RecordGameBeans`, `MatchProperties.RecordGameHistories` and `MatchProperties.RecordGameShare`.
- MatchCoordinator.PlayCard: the contract states only the frame of what may change. The dropped cases are `MatchProperties.PlayCardDropped`, and `MatchProperties.PlayCardPlays` hands every other case to `MatchCoordinator.Played`.
- MatchCoordinator.Played: the contract states only the frame of what may change. The mid-round request to the opponent is `MatchProperties.PlayedAsksOpponent`, and the hand-over to the settlement is `MatchProperties.PlayedSettles`.
- MatchCoordinator.Settle: the contract states only the frame of what may change. Each outcome is stated by `MatchProperties.SettleContinue`, `MatchProperties.SettleRedWin`, `MatchProperties.SettleBlueWin`, `MatchProperties.SettleOtherResult` and `MatchProperties.SettleSideMissing`; `MatchProperties.SettlePaysWinner` states who gains the bet.
- MatchCoordinator.SettleResult: the contract states only the frame of what may change. Its outcomes are stated through `MatchCoordinator.Settle` by the same lemmas.
- MatchCoordinator.RematchRequest: the contract states only the missing-entry case and the frame. The outcomes, leaving included, are stated by `MatchProperties.RematchRequestEffect`.
- MatchCoordinator.RematchAccept: the contract states only the no-op cases and the frame. The bean check, the reset and both broadcasts are stated by `MatchProperties.RematchAcceptEffect`.
- GameEndpoint.OnMessage: the contract states only the drop cases. The other paths are stated by `GameProperties.CompletedGameTakesNoCard`, `GameProperties.AskOpponent` and `GameProperties.CompleteRoundSettles`.
- GameEndpoint.Settle: the contract states only what is kept. The effects of each result are stated by `GameProperties.ContinueAdvances`, `GameProperties.RedWinRecorded`, `GameProperties.BlueWinRecorded`, `GameProperties.DrawBroadcast`, `GameProperties.WinResultBroadcast` and `GameProperties.NullNicknameSilencesResult`.
- UserController.SignIn: `findOrCreateUserByOpenId` is not part of the source. The model reads it as the plain lookup `UserService.FindByOpenId`, so an unknown openId gets the unknown-user failure and no account is created.
- JoinNickname.JoinNicknameError: `toLowerCase()` depends on the default locale. The model lowers text as a locale without Turkic rules does, where 'I' becomes 'i'. In a Turkish locale "ADMIN" becomes "admın" and the source lets it through. Only the characters whose lower case contains an ASCII letter are mapped: 'A' to 'Z', the KELVIN SIGN and U+0130. Every other character is kept as it is. That cannot change whether one of the six words occurs: three are ASCII and the other three are Chinese, which has no case.
- JoinNickname.AnyWordFrom: matches on the same locale-free lowering as `JoinNickname.JoinNicknameError`, so it shares that gap for Turkic locales.
- JoinNickname.CaseInsensitiveAdmin: states that "ADMIN" is refused under the same locale-free lowering; in a Turkish locale the source lets "ADMIN" through.
- UserService: the repository looks rows up with `findByDeviceId` and writes the key with `setDeviceId`. The model identifies that device id with the account's openId column; the user controller passes an openId as that key.
- Logging, the front-end scripts, the WeChat login controller, the player controller and the plain entity and repository classes hold no logic to model.
