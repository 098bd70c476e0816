/**
 * `GameUtil`: the card-range constant, the two side names, and the two process-wide
 * counters that hand out room ids and user codes.
 */
module GameUtil {

  /** Highest card value; each player's pool holds the cards `1..TEN`. */
  const TEN: int := 10

  /** `GameUtil.RoleEnum`. */
  datatype Role = BlueSide | RedSide

  /** The enum constant's name, as `RoleEnum.toString()` renders it. */
  function RoleName(r: Role): string {
    match r
    case BlueSide => "blueSide"
    case RedSide => "redSide"
  }

  /** First value either counter hands out. */
  const FirstId: int := 10000

  /** The two static counters `currentRomeId` and `currentUserCode`. */
  datatype Counters = Counters(roomId: int, userCode: int)

  /** Both counters as the class is loaded. */
  const InitialCounters: Counters := Counters(FirstId, FirstId)

  /** One value handed out by a counter, with the counters afterwards. */
  datatype Issued = Issued(value: int, next: Counters)

  /** `getNextRomeId()`: post-increment of the room counter; the user-code counter is untouched. */
  function NextRoomId(c: Counters): (r: Issued)
    ensures r.value == c.roomId
    ensures r.next.roomId == r.value + 1
    ensures r.next.userCode == c.userCode
  {
    Issued(c.roomId, c.(roomId := c.roomId + 1))
  }

  /** `getNextUserCode()`: post-increment of the user-code counter; the room counter is untouched. */
  function NextUserCode(c: Counters): (r: Issued)
    ensures r.value == c.userCode
    ensures r.next.userCode == r.value + 1
    ensures r.next.roomId == c.roomId
  {
    Issued(c.userCode, c.(userCode := c.userCode + 1))
  }

  /** The room ids handed out by `n` successive calls starting from `c`. */
  function RoomIdRun(c: Counters, n: nat): (ids: seq<int>)
    decreases n
    ensures |ids| == n
  {
    if n == 0 then [] else [NextRoomId(c).value] + RoomIdRun(NextRoomId(c).next, n - 1)
  }

  /** The user codes handed out by `n` successive calls starting from `c`. */
  function UserCodeRun(c: Counters, n: nat): (codes: seq<int>)
    decreases n
    ensures |codes| == n
  {
    if n == 0 then [] else [NextUserCode(c).value] + UserCodeRun(NextUserCode(c).next, n - 1)
  }

  /** The `k`-th room id handed out is the start value plus `k`: consecutive, hence never repeated. */
  lemma {:induction false} RoomIdRunConsecutive(c: Counters, n: nat)
    decreases n
    ensures forall k :: 0 <= k < n ==> RoomIdRun(c, n)[k] == c.roomId + k
  {
    if n > 0 {
      RoomIdRunConsecutive(NextRoomId(c).next, n - 1);
    }
  }

  /** The same for user codes. */
  lemma {:induction false} UserCodeRunConsecutive(c: Counters, n: nat)
    decreases n
    ensures forall k :: 0 <= k < n ==> UserCodeRun(c, n)[k] == c.userCode + k
  {
    if n > 0 {
      UserCodeRunConsecutive(NextUserCode(c).next, n - 1);
    }
  }

  /** From a fresh start, room ids run 10000, 10001, ... and no two calls return the same id. */
  lemma RoomIdsFromStart(n: nat)
    ensures n > 0 ==> RoomIdRun(InitialCounters, n)[0] == 10000
    ensures forall i, j :: 0 <= i < j < n ==> RoomIdRun(InitialCounters, n)[i] != RoomIdRun(InitialCounters, n)[j]
  {
    RoomIdRunConsecutive(InitialCounters, n);
  }

  /** From a fresh start, user codes also begin at 10000 and never repeat. */
  lemma UserCodesFromStart(n: nat)
    ensures n > 0 ==> UserCodeRun(InitialCounters, n)[0] == 10000
    ensures forall i, j :: 0 <= i < j < n ==> UserCodeRun(InitialCounters, n)[i] != UserCodeRun(InitialCounters, n)[j]
  {
    UserCodeRunConsecutive(InitialCounters, n);
  }
}
