/**
 * The win-streak scan both endpoints run after recording a win: the player's result history
 * is ordered by end time, most recent first, and the leading records that were won by that
 * player in the current room are counted. `/match` sorts the stored list in place before the
 * scan; `/game` sorts a copy.
 */
module WinStreak {
  import opened Options
  import opened GameStateModel

  /** Most recent first: end times never increase along the sequence. */
  ghost predicate SortedDesc(s: seq<GameRecord>) {
    forall i, j :: 0 <= i < j < |s| ==> s[i].endTime >= s[j].endTime
  }

  /**
   * Places `x` in front of the first record that does not end strictly later, so that among
   * equal end times the record earlier in the list comes first (`List.sort` is stable).
   */
  function Insert(x: GameRecord, s: seq<GameRecord>): (r: seq<GameRecord>)
    requires SortedDesc(s)
    ensures |r| == |s| + 1
    ensures multiset(r) == multiset(s) + multiset{x}
    ensures SortedDesc(r)
  {
    if |s| == 0 || s[0].endTime <= x.endTime then
      PrependSorted(x, s);
      [x] + s
    else
      var rest := Insert(x, s[1..]);
      assert s == [s[0]] + s[1..];
      InsertMembers(x, s[1..], rest);
      assert forall i :: 0 <= i < |rest| ==> rest[i].endTime <= s[0].endTime by {
        forall i | 0 <= i < |rest| ensures rest[i].endTime <= s[0].endTime {
          if rest[i] != x {
            var k :| 0 <= k < |s[1..]| && s[1..][k] == rest[i];
            assert s[k + 1] == rest[i];
          }
        }
      }
      PrependSorted(s[0], rest);
      [s[0]] + rest
  }

  /** A record that ends no earlier than every record of a sorted list can go in front of it. */
  lemma PrependSorted(y: GameRecord, s: seq<GameRecord>)
    requires SortedDesc(s)
    requires forall i :: 0 <= i < |s| ==> s[i].endTime <= y.endTime
    ensures SortedDesc([y] + s)
  {
    var t := [y] + s;
    forall i, j | 0 <= i < j < |t| ensures t[i].endTime >= t[j].endTime {
      assert t[j] == s[j - 1];
      if i > 0 {
        assert t[i] == s[i - 1];
      }
    }
  }

  /** Every record of an insertion result is the inserted one or came from the input. */
  lemma InsertMembers(x: GameRecord, s: seq<GameRecord>, r: seq<GameRecord>)
    requires multiset(r) == multiset(s) + multiset{x}
    ensures forall i :: 0 <= i < |r| ==> r[i] == x || r[i] in s
  {
    forall i | 0 <= i < |r| ensures r[i] == x || r[i] in s {
      assert r[i] in multiset(r);
    }
  }

  /**
   * `records.sort((a, b) -> b.getGameEndTime().compareTo(a.getGameEndTime()))`: a stable
   * sort by end time, latest first.
   */
  function SortByEndDesc(s: seq<GameRecord>): (r: seq<GameRecord>)
    ensures |r| == |s|
    ensures multiset(r) == multiset(s)
    ensures SortedDesc(r)
  {
    if |s| == 0 then []
    else
      assert s == [s[0]] + s[1..];
      Insert(s[0], SortByEndDesc(s[1..]))
  }

  /** A record that continues the streak: won by `player` in room `roomId`. */
  predicate Extends(r: GameRecord, player: string, roomId: int) {
    r.roomId == roomId && r.winner == player
  }

  /**
   * The length of the longest prefix of `s` made of streak-extending records: every record
   * before it extends the streak and the record at it (if any) does not.
   */
  function LeadingRun(s: seq<GameRecord>, player: string, roomId: int): (n: nat)
    ensures n <= |s|
    ensures forall i :: 0 <= i < n ==> Extends(s[i], player, roomId)
    ensures n < |s| ==> !Extends(s[n], player, roomId)
  {
    if |s| == 0 || !Extends(s[0], player, roomId) then 0
    else 1 + LeadingRun(s[1..], player, roomId)
  }

  /**
   * The counting loop of `calculateWinStreak` (`count++` while the record matches, `break` at
   * the first that does not) over an already ordered list.
   */
  method CountLeading(s: seq<GameRecord>, player: string, roomId: int) returns (count: nat)
    ensures count <= |s|
    ensures forall i :: 0 <= i < count ==> Extends(s[i], player, roomId)
    ensures count < |s| ==> !Extends(s[count], player, roomId)
    ensures count == LeadingRun(s, player, roomId)
  {
    count := 0;
    var k := 0;
    while k < |s|
      invariant 0 <= k <= |s|
      invariant count == k
      invariant forall i :: 0 <= i < count ==> Extends(s[i], player, roomId)
    {
      if Extends(s[k], player, roomId) {
        count := count + 1;
      } else {
        break;
      }
      k := k + 1;
    }
  }

  /** The per-player result history: `playerGameRecords`. A missing key is Java's `null` list. */
  type History = map<string, seq<GameRecord>>

  /** The stored history of a player, `[]` for none. */
  function Prior(history: History, player: string): (s: seq<GameRecord>)
    ensures player in history ==> s == history[player]
    ensures player !in history ==> s == []
  {
    if player in history then history[player] else []
  }

  /**
   * `playerGameRecords.computeIfAbsent(player, ...).add(record)`: the record goes at the end of
   * the player's list, which is created if missing; no other list changes.
   */
  function Append(history: History, player: string, rec: GameRecord): (r: History)
    ensures r.Keys == history.Keys + {player}
    ensures r[player] == Prior(history, player) + [rec]
    ensures forall k :: k in history && k != player ==> r[k] == history[k]
  {
    history[player := Prior(history, player) + [rec]]
  }

  /** The streak reported and the history as `/match` leaves it (the list sorted in place). */
  datatype StreakScan = StreakScan(streak: nat, history: History)

  /**
   * `WebSocket4Match.calculateWinStreak(player, roomId)`: 0 with no list and nothing changed;
   * otherwise the player's list is replaced by its sorted order and the leading run of that
   * order is the streak.
   */
  function MatchStreak(history: History, player: string, roomId: int): (r: StreakScan)
    ensures player !in history ==> r.streak == 0 && r.history == history
    ensures player in history ==>
              && r.history == history[player := SortByEndDesc(history[player])]
              && r.streak <= |history[player]|
              && r.streak == LeadingRun(r.history[player], player, roomId)
  {
    if player !in history then StreakScan(0, history)
    else
      var sorted := SortByEndDesc(history[player]);
      StreakScan(LeadingRun(sorted, player, roomId), history[player := sorted])
  }

  /**
   * `WebSocket4Game.calculateWinStreak(player, roomId)`: the same count over a sorted copy
   * (`stream().sorted().takeWhile().count()`); the stored history is not touched, which is
   * why this variant returns only the number.
   */
  function GameStreak(history: History, player: string, roomId: int): (n: nat)
    ensures player !in history ==> n == 0
    ensures player in history ==> n <= |history[player]|
  {
    if player !in history then 0 else LeadingRun(SortByEndDesc(history[player]), player, roomId)
  }

  /** Both endpoints report the same streak for the same history. */
  lemma StreaksAgree(history: History, player: string, roomId: int)
    ensures GameStreak(history, player, roomId) == MatchStreak(history, player, roomId).streak
  {
  }

  /** A list already in order is its own sorted order: the stable sort moves nothing. */
  lemma {:induction false} SortSortedIsIdentity(s: seq<GameRecord>)
    requires SortedDesc(s)
    ensures SortByEndDesc(s) == s
  {
    if |s| > 0 {
      assert SortedDesc(s[1..]);
      SortSortedIsIdentity(s[1..]);
      assert s == [s[0]] + s[1..];
    }
  }

  /**
   * A second scan of the history `/match` left behind changes nothing more: the list is already
   * in order, and the streak is the same.
   */
  lemma MatchStreakStable(history: History, player: string, roomId: int)
    ensures MatchStreak(MatchStreak(history, player, roomId).history, player, roomId)
              == MatchStreak(history, player, roomId)
  {
    if player in history {
      SortSortedIsIdentity(SortByEndDesc(history[player]));
    }
  }

  /** Four records won by "W"; the second oldest was won in room 2, the others in room 1. */
  function ExampleSorted(): seq<GameRecord> {
    [GameRecord(1, "W", 4), GameRecord(1, "W", 3), GameRecord(2, "W", 2), GameRecord(1, "W", 1)]
  }

  /** The same records as stored in some other order. */
  function ExampleStored(): seq<GameRecord> {
    [GameRecord(2, "W", 2), GameRecord(1, "W", 4), GameRecord(1, "W", 1), GameRecord(1, "W", 3)]
  }

  /** The streak of "W" in room 1 over the latest-first order is 2. */
  lemma ExampleRun()
    ensures LeadingRun(ExampleSorted(), "W", 1) == 2
  {
    var s := ExampleSorted();
    assert s[1..][1..] == s[2..];
    assert !Extends(s[2], "W", 1);
  }

  /** The last two stored records, sorted: the later-ending one first. */
  lemma ExampleSortsTail()
    ensures SortByEndDesc(ExampleStored()[2..]) == [GameRecord(1, "W", 3), GameRecord(1, "W", 1)]
  {
    var s := ExampleStored()[2..];
    assert s[1..] == [GameRecord(1, "W", 3)];
    assert SortByEndDesc(s[1..]) == [GameRecord(1, "W", 3)] by {
      assert s[1..][1..] == [];
    }
  }

  /** The last three stored records, sorted. */
  lemma ExampleSortsThree()
    ensures SortByEndDesc(ExampleStored()[1..]) == [GameRecord(1, "W", 4), GameRecord(1, "W", 3), GameRecord(1, "W", 1)]
  {
    var s := ExampleStored()[1..];
    assert s[1..] == ExampleStored()[2..];
    ExampleSortsTail();
  }

  /** The room-2 record goes between end times 3 and 1. */
  lemma ExampleInsert()
    ensures var t := [GameRecord(1, "W", 4), GameRecord(1, "W", 3), GameRecord(1, "W", 1)];
            SortedDesc(t) && Insert(GameRecord(2, "W", 2), t) == ExampleSorted()
  {
    var x := GameRecord(2, "W", 2);
    var t := [GameRecord(1, "W", 4), GameRecord(1, "W", 3), GameRecord(1, "W", 1)];
    var u := [GameRecord(1, "W", 3), GameRecord(1, "W", 1)];
    var v := [GameRecord(1, "W", 1)];
    assert t[1..] == u && u[1..] == v;
    assert Insert(x, v) == [x] + v;
    assert Insert(x, u) == [u[0]] + Insert(x, v);
    assert Insert(x, t) == [t[0]] + Insert(x, u);
  }

  /** Sorting the stored order by end time, latest first, gives the latest-first order. */
  lemma ExampleSorts()
    ensures SortByEndDesc(ExampleStored()) == ExampleSorted()
  {
    var s := ExampleStored();
    ExampleSortsThree();
    ExampleInsert();
    assert SortByEndDesc(s) == Insert(s[0], SortByEndDesc(s[1..]));
  }

  /**
   * The streak stops at the first record of another room, so four wins with the third most
   * recent elsewhere count 2, not 3, whether the list is stored in order or not; `/match` leaves
   * it sorted.
   */
  lemma StreakStopsAtOtherRoom()
    ensures MatchStreak(map["W" := ExampleSorted()], "W", 1).streak == 2
    ensures MatchStreak(map["W" := ExampleStored()], "W", 1).streak == 2
    ensures MatchStreak(map["W" := ExampleStored()], "W", 1).history["W"] == ExampleSorted()
  {
    ExampleRun();
    ExampleSorts();
    assert SortedDesc(ExampleSorted());
    SortSortedIsIdentity(ExampleSorted());
  }
}
