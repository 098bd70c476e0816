/**
 * `NicknameController.checkNickname`: a local pattern check followed by the WeChat content
 * check, which fails open. The remote exchange is reduced to the one outcome it produced.
 */
module NicknameCheck {
  import opened Options
  import opened JavaText

  /** The alternatives of `SENSITIVE_PATTERN`; case-insensitivity does not affect these characters. */
  const SensitivePattern: seq<string> := ["管理员", "客服", "草", "艹"]

  /** `SENSITIVE_PATTERN.matcher(nickname).find()`. */
  predicate MatchesSensitive(nickname: string) {
    exists k :: 0 <= k < |SensitivePattern| && Contains(nickname, SensitivePattern[k])
  }

  /** An `errcode` the check reply can fail with: any value but 0, which means success. */
  type FailureCode = c: int | c != 0 witness 1

  /**
   * How the remote exchange ended: no `access_token` in the token reply, a null check reply,
   * a non-zero `errcode` (`ErrCode`), no `result` object, a `result.suggest` value (possibly null), or an
   * exception anywhere on the way (which includes a null `errcode`).
   */
  datatype Remote =
    | NoAccessToken
    | NullResponse
    | ErrCode(code: FailureCode)
    | NoResult
    | Suggest(suggest: Option<string>)
    | Threw

  /** The JSON body returned, or the HTTP 500 a null nickname causes outside the `try`. */
  datatype Reply = Reply(success: bool, message: string) | ServerError

  const MsgSensitive: string := "昵称包含敏感词，请重新输入"
  const MsgPassed: string := "昵称检查通过"
  const MsgRisky: string := "昵称包含违规内容，请重新输入"
  const MsgDegraded: string := "昵称检查通过（降级处理）"

  /** The remote part: only a `risky` verdict rejects; every failure passes (fail-open). */
  function RemoteVerdict(remote: Remote): (r: Reply)
    ensures r.Reply?
    ensures !r.success <==> remote == Suggest(Some("risky"))
  {
    match remote
    case Suggest(Some(s)) =>
      if s == "pass" then Reply(true, MsgPassed)
      else if s == "risky" then Reply(false, MsgRisky)
      else if s == "review" then Reply(true, MsgPassed)
      else Reply(true, MsgDegraded)
    case Suggest(None) => Reply(true, MsgDegraded)
    case _ => Reply(true, MsgDegraded)
  }

  /** `checkNickname` for the request's `nickname` and the remote outcome. */
  function CheckNickname(nickname: Option<string>, remote: Remote): (r: Reply)
    ensures nickname.None? <==> r.ServerError?
    ensures nickname.Some? ==> (!r.success <==> MatchesSensitive(nickname.value) || remote == Suggest(Some("risky")))
    ensures nickname.Some? && MatchesSensitive(nickname.value) ==> r == Reply(false, MsgSensitive)
  {
    match nickname
    case None => ServerError
    case Some(n) =>
      if MatchesSensitive(n) then Reply(false, MsgSensitive) else RemoteVerdict(remote)
  }
}
