/**
 * `UserService` over an in-memory table of `UserVO` rows. The repository's key lookup
 * (`findByDeviceId`) matches the row's unique identifying column, called `openId` here; the
 * JPA id sequence (`player_sequence`, starting at 10000) is the store's `nextId`.
 */
module UserService {
  import opened Options
  import opened RandomNames

  /** One `users` row. Nullable columns are `Option`s. */
  datatype UserAccount = UserAccount(
    id: int,
    openId: string,
    nickName: Option<string>,
    wins: Option<int>,
    losses: Option<int>,
    bean: Option<int>,
    lastSignIn: Option<int>)

  /** The table in `findAll()` order, and the next value of the id sequence. */
  datatype Store = Store(rows: seq<UserAccount>, nextId: int)

  /** The table as the schema starts it. */
  const EmptyStore: Store := Store([], 10000)

  /** The repository lookup by the identifying column: the first matching row. */
  function FindByOpenId(rows: seq<UserAccount>, openId: string): (r: Option<UserAccount>)
    ensures r.Some? ==> r.value in rows && r.value.openId == openId
    ensures r.None? <==> forall i :: 0 <= i < |rows| ==> rows[i].openId != openId
  {
    if |rows| == 0 then None
    else if rows[0].openId == openId then Some(rows[0])
    else FindByOpenId(rows[1..], openId)
  }

  /** How many rows carry `openId`. */
  function CountOpenId(rows: seq<UserAccount>, openId: string): (n: nat)
    ensures n <= |rows|
    ensures n == 0 <==> FindByOpenId(rows, openId).None?
  {
    if |rows| == 0 then 0
    else (if rows[0].openId == openId then 1 else 0) + CountOpenId(rows[1..], openId)
  }

  /** Appending a row adds one to the count of its own key and nothing to any other. */
  lemma {:induction false} CountAppend(rows: seq<UserAccount>, row: UserAccount, openId: string)
    ensures CountOpenId(rows + [row], openId) == CountOpenId(rows, openId) + (if row.openId == openId then 1 else 0)
  {
    if |rows| > 0 {
      assert (rows + [row])[1..] == rows[1..] + [row];
      CountAppend(rows[1..], row, openId);
    } else {
      assert [row][1..] == [];
    }
  }

  /** No two rows share a primary key. */
  predicate UniqueIds(rows: seq<UserAccount>) {
    forall i, j :: 0 <= i < j < |rows| ==> rows[i].id != rows[j].id
  }

  /** `save` of an entity that already has an id: the row with that id is overwritten. */
  function SaveExisting(store: Store, row: UserAccount): (r: Store)
    ensures |r.rows| == |store.rows| && r.nextId == store.nextId
    ensures forall i :: 0 <= i < |store.rows| ==>
              r.rows[i] == (if store.rows[i].id == row.id then row else store.rows[i])
  {
    store.(rows := seq(|store.rows|, i requires 0 <= i < |store.rows| =>
                         if store.rows[i].id == row.id then row else store.rows[i]))
  }

  /** The outcome of a call that creates a row: the returned account and the table afterwards. */
  datatype Created = Created(account: UserAccount, store: Store)

  /**
   * `createPlayer(deviceId, nickName)`: the existing row is returned untouched when the key is
   * present; otherwise a row with the given nickname and zero wins and losses is inserted
   * under the next sequence id.
   */
  function CreatePlayer(store: Store, deviceId: string, nickName: Option<string>): (r: Created)
    ensures FindByOpenId(store.rows, deviceId).Some? ==>
              r.store == store && r.account == FindByOpenId(store.rows, deviceId).value
    ensures FindByOpenId(store.rows, deviceId).None? ==>
              && r.account == UserAccount(store.nextId, deviceId, nickName, Some(0), Some(0), None, None)
              && r.store.rows == store.rows + [r.account]
              && r.store.nextId == store.nextId + 1
  {
    match FindByOpenId(store.rows, deviceId)
    case Some(existing) => Created(existing, store)
    case None =>
      var row := UserAccount(store.nextId, deviceId, nickName, Some(0), Some(0), None, None);
      Created(row, Store(store.rows + [row], store.nextId + 1))
  }

  /** Creating the same key twice leaves exactly one row for it, whatever the nicknames. */
  lemma CreatePlayerTwice(store: Store, deviceId: string, first: Option<string>, second: Option<string>)
    requires CountOpenId(store.rows, deviceId) <= 1
    ensures CountOpenId(CreatePlayer(CreatePlayer(store, deviceId, first).store, deviceId, second).store.rows, deviceId) == 1
  {
    var once := CreatePlayer(store, deviceId, first);
    if FindByOpenId(store.rows, deviceId).None? {
      CountAppend(store.rows, once.account, deviceId);
    }
    assert FindByOpenId(once.store.rows, deviceId).Some?;
  }

  /** `createRandomPlayer` either inserts a row or hits the unique constraint on the key column. */
  datatype RandomOutcome = Saved(found: Option<UserAccount>, store: Store) | DuplicateKey

  /**
   * `UserService.createRandomPlayer(deviceId)` with the two name draws passed in: a two-character
   * name and, whatever the comment above them says, zero wins and zero losses; the result is the
   * lookup by key after the insert. An already present key violates the column's unique
   * constraint on insert.
   */
  function CreateRandomPlayer(store: Store, deviceId: string, nameDraws: seq<int>): (r: RandomOutcome)
    requires |nameDraws| == 2 && forall i :: 0 <= i < 2 ==> IsDraw(nameDraws[i])
    ensures r.DuplicateKey? <==> FindByOpenId(store.rows, deviceId).Some?
    ensures r.Saved? ==>
              && r.found.Some? && r.found.value.openId == deviceId
              && r.found.value.wins == Some(0) && r.found.value.losses == Some(0)
              && r.found.value.nickName.Some? && |r.found.value.nickName.value| == 2
              && r.store.rows == store.rows + [r.found.value]
  {
    if FindByOpenId(store.rows, deviceId).Some? then DuplicateKey
    else
      var name := RandomChineseName(2, nameDraws);
      var row := UserAccount(store.nextId, deviceId, Some(name), Some(0), Some(0), None, None);
      var rows := store.rows + [row];
      FindAfterAppend(store.rows, row);
      Saved(FindByOpenId(rows, deviceId), Store(rows, store.nextId + 1))
  }

  /** Looking up the key of a row just appended to a table without that key finds that row. */
  lemma {:induction false} FindAfterAppend(rows: seq<UserAccount>, row: UserAccount)
    requires FindByOpenId(rows, row.openId).None?
    ensures FindByOpenId(rows + [row], row.openId) == Some(row)
  {
    if |rows| > 0 {
      assert (rows + [row])[1..] == rows[1..] + [row];
      FindAfterAppend(rows[1..], row);
    }
  }
}
