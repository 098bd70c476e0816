/**
 * `UserController`: daily sign-in, user creation and update, and the nickname-update
 * validation, over the `UserService` table. `LocalDate.now()` is the `today` parameter
 * (a day number).
 */
module UserController {
  import opened Options
  import opened JavaText
  import opened UserService

  /** Beans credited by one successful sign-in. */
  const SignInBonus: int := 500

  /** Longest nickname `updateNickname` accepts, in UTF-16 units (`String.length()`). */
  const MaxNicknameLength: nat := 20

  /** The JSON body of `signIn`, or the HTTP 500 a null `bean` column causes. */
  datatype SignInReply = SignInReply(success: bool, message: string, beans: Option<int>) | ServerError

  datatype SignInOutcome = SignInOutcome(reply: SignInReply, store: Store)

  /** The reply says `success: true`. */
  predicate Succeeded(reply: SignInReply) {
    reply.SignInReply? && reply.success
  }

  /** `openId == null || openId.trim().isEmpty()`. */
  predicate IsBlankId(openId: Option<string>) {
    openId.None? || Trim(openId.value) == []
  }

  /**
   * `signIn(openId)`. The account is the first row for the key (creation of missing users
   * happens in a lookup that is not part of this model, so a missing row is the "user does
   * not exist" reply).
   */
  function SignIn(store: Store, openId: Option<string>, today: int): (r: SignInOutcome)
    ensures IsBlankId(openId) ==> !Succeeded(r.reply) && r.store == store
    ensures Succeeded(r.reply) ==>
              && !IsBlankId(openId)
              && FindByOpenId(store.rows, openId.value).Some?
              && var before := FindByOpenId(store.rows, openId.value).value;
              && before.lastSignIn != Some(today) && before.bean.Some?
              && r.store == SaveExisting(store, before.(bean := Some(before.bean.value + SignInBonus), lastSignIn := Some(today)))
              && r.reply.beans == Some(before.bean.value + SignInBonus)
    ensures !Succeeded(r.reply) ==> r.store == store
  {
    if IsBlankId(openId) then SignInOutcome(SignInReply(false, "openId is required", None), store)
    else
      match FindByOpenId(store.rows, openId.value)
      case None => SignInOutcome(SignInReply(false, "用户不存在", None), store)
      case Some(user) =>
        if user.lastSignIn == Some(today) then
          SignInOutcome(SignInReply(false, "您今天已经签到过了", None), store)
        else if user.bean.None? then
          SignInOutcome(ServerError, store)
        else
          var updated := user.(bean := Some(user.bean.value + SignInBonus), lastSignIn := Some(today));
          SignInOutcome(SignInReply(true, "签到成功，获得500豆子！", updated.bean), SaveExisting(store, updated))
  }

  /** An account that already signed in today is refused and nothing is written. */
  lemma SignInSameDayRefused(store: Store, openId: string, today: int)
    requires FindByOpenId(store.rows, openId).Some?
    requires FindByOpenId(store.rows, openId).value.lastSignIn == Some(today)
    ensures !Succeeded(SignIn(store, Some(openId), today).reply)
    ensures SignIn(store, Some(openId), today).store == store
  {
  }

  /** The bean balance of the account a key resolves to, if any. */
  function BeansOf(store: Store, openId: string): Option<int> {
    match FindByOpenId(store.rows, openId)
    case Some(u) => u.bean
    case None => None
  }

  /** Saving a row found by key, with its id and key kept, keeps it the row found by that key. */
  lemma {:induction false} FindAfterSave(rows: seq<UserAccount>, openId: string, row: UserAccount)
    requires UniqueIds(rows)
    requires FindByOpenId(rows, openId).Some? && FindByOpenId(rows, openId).value.id == row.id
    requires row.openId == openId
    ensures FindByOpenId(SaveExisting(Store(rows, 0), row).rows, openId) == Some(row)
  {
    var saved := SaveExisting(Store(rows, 0), row).rows;
    if rows[0].openId == openId {
      assert saved[0] == row;
    } else {
      assert rows[0].id != row.id by {
        var u := FindByOpenId(rows, openId).value;
        var k :| 0 <= k < |rows| && rows[k] == u;
        assert k != 0;
      }
      assert UniqueIds(rows[1..]) by {
        forall i, j | 0 <= i < j < |rows[1..]| ensures rows[1..][i].id != rows[1..][j].id {
          assert rows[1..][i] == rows[i + 1] && rows[1..][j] == rows[j + 1];
        }
      }
      FindAfterSave(rows[1..], openId, row);
      assert saved[1..] == SaveExisting(Store(rows[1..], 0), row).rows;
    }
  }

  /**
   * Two sign-ins on the same day credit the bonus at most once: the second one fails and leaves
   * the table as the first one left it.
   */
  lemma SignInTwiceSameDay(store: Store, openId: Option<string>, today: int)
    requires UniqueIds(store.rows)
    ensures !Succeeded(SignIn(SignIn(store, openId, today).store, openId, today).reply)
    ensures SignIn(SignIn(store, openId, today).store, openId, today).store == SignIn(store, openId, today).store
  {
    var once := SignIn(store, openId, today);
    if Succeeded(once.reply) {
      SignedInStaysSignedIn(store, openId.value, today);
    } else {
      assert once.store == store;
    }
  }

  /** After a successful sign-in the account found by the key carries today's date. */
  lemma SignedInStaysSignedIn(store: Store, openId: string, today: int)
    requires UniqueIds(store.rows)
    requires Succeeded(SignIn(store, Some(openId), today).reply)
    ensures !Succeeded(SignIn(SignIn(store, Some(openId), today).store, Some(openId), today).reply)
  {
    var once := SignIn(store, Some(openId), today);
    var before := FindByOpenId(store.rows, openId).value;
    var after := before.(bean := Some(before.bean.value + SignInBonus), lastSignIn := Some(today));
    assert once.store == SaveExisting(store, after);
    FindAfterSave(store.rows, openId, after);
    assert SaveExisting(Store(store.rows, 0), after).rows == once.store.rows;
    assert FindByOpenId(once.store.rows, openId) == Some(after);
    SignInSameDayRefused(once.store, openId, today);
  }

  /** The status `updateNickname`, `createUser` and `updateUser` answer with. */
  datatype Status = Ok | BadRequest | NotFound

  /** `StringUtils.hasLength`: non-null and non-empty. */
  predicate HasLength(s: Option<string>) {
    s.Some? && |s.value| > 0
  }

  /** The validation of `updateNickname`; the store update it then delegates is not part of this model. */
  function UpdateNicknameStatus(openId: Option<string>, nickname: Option<string>): (r: Status)
    ensures r == Ok || r == BadRequest
    ensures r == Ok <==> HasLength(openId) && HasLength(nickname) && Utf16Length(nickname.value) <= MaxNicknameLength
  {
    if !HasLength(openId) || !HasLength(nickname) || Utf16Length(nickname.value) > MaxNicknameLength then BadRequest
    else Ok
  }

  datatype CreateOutcome = CreateOutcome(status: Status, created: Option<UserAccount>, store: Store)

  /**
   * `createUser(user)`: a null or empty key is a bad request and touches nothing; otherwise the
   * find-or-create of `UserService.createPlayer`, which always yields an account (so the
   * conflict answer is never produced).
   */
  function CreateUser(store: Store, openId: Option<string>, nickName: Option<string>): (r: CreateOutcome)
    ensures r.status == BadRequest <==> !HasLength(openId)
    ensures r.status == BadRequest ==> r.store == store && r.created.None?
    ensures r.status == Ok ==> r.created.Some? && r.created.value.openId == openId.value
                               && FindByOpenId(r.store.rows, openId.value).Some?
    ensures r.status == Ok && FindByOpenId(store.rows, openId.value).Some? ==>
              r.store == store && r.created == FindByOpenId(store.rows, openId.value)
    ensures r.status == Ok && FindByOpenId(store.rows, openId.value).None? ==>
              && r.store.rows == store.rows + [r.created.value]
              && r.store.nextId == store.nextId + 1
              && r.created.value == UserAccount(store.nextId, openId.value, nickName, Some(0), Some(0), None, None)
  {
    if !HasLength(openId) then CreateOutcome(BadRequest, None, store)
    else
      var c := CreatePlayer(store, openId.value, nickName);
      CountAppend(store.rows, c.account, openId.value);
      CreateOutcome(Ok, Some(c.account), c.store)
  }

  /** The fields `updateUser` copies from the request body. */
  datatype UserDetails = UserDetails(nickName: Option<string>, wins: Option<int>, losses: Option<int>)

  /** The first row with primary key `id` (`getAllPlayers().stream().filter(...).findFirst()`). */
  function FindById(rows: seq<UserAccount>, id: int): (r: Option<UserAccount>)
    ensures r.Some? ==> r.value in rows && r.value.id == id
    ensures r.None? <==> forall i :: 0 <= i < |rows| ==> rows[i].id != id
  {
    if |rows| == 0 then None
    else if rows[0].id == id then Some(rows[0])
    else FindById(rows[1..], id)
  }

  datatype UpdateOutcome = UpdateOutcome(status: Status, updated: Option<UserAccount>, store: Store)

  /**
   * `updateUser(id, details)`: not found for an unknown id; otherwise nickname, wins and losses
   * are overwritten (nulls included) and every other column and every other row is kept.
   */
  function UpdateUser(store: Store, id: int, details: UserDetails): (r: UpdateOutcome)
    ensures r.status == NotFound <==> FindById(store.rows, id).None?
    ensures r.status == NotFound ==> r.store == store
    ensures r.status == Ok ==>
              && r.updated.Some?
              && var prior := FindById(store.rows, id).value;
              && r.updated.value == UserAccount(prior.id, prior.openId, details.nickName, details.wins,
                                                details.losses, prior.bean, prior.lastSignIn)
              && |r.store.rows| == |store.rows|
              && forall i :: 0 <= i < |store.rows| && store.rows[i].id != id ==> r.store.rows[i] == store.rows[i]
    ensures r.status == Ok ==>
              forall i :: 0 <= i < |store.rows| && store.rows[i].id == id ==> r.store.rows[i] == r.updated.value
    ensures r.status == Ok ==> r.store == SaveExisting(store, r.updated.value)
    ensures r.status != BadRequest
  {
    match FindById(store.rows, id)
    case None => UpdateOutcome(NotFound, None, store)
    case Some(existing) =>
      var updated := existing.(nickName := details.nickName, wins := details.wins, losses := details.losses);
      UpdateOutcome(Ok, Some(updated), SaveExisting(store, updated))
  }

  /** With unique ids, looking the id up after a successful update finds the updated account. */
  lemma UpdateUserFound(store: Store, id: int, details: UserDetails)
    requires UniqueIds(store.rows)
    requires UpdateUser(store, id, details).status == Ok
    ensures FindById(UpdateUser(store, id, details).store.rows, id) == UpdateUser(store, id, details).updated
  {
    var r := UpdateUser(store, id, details);
    var k :| 0 <= k < |store.rows| && store.rows[k] == FindById(store.rows, id).value;
    FindByIdAt(r.store.rows, id, k);
  }

  /** The row at the only index carrying an id is the one `FindById` finds. */
  lemma {:induction false} FindByIdAt(rows: seq<UserAccount>, id: int, k: nat)
    requires k < |rows| && rows[k].id == id
    requires forall i :: 0 <= i < |rows| && i != k ==> rows[i].id != id
    ensures FindById(rows, id) == Some(rows[k])
  {
    if k > 0 {
      FindByIdAt(rows[1..], id, k - 1);
    }
  }
}
