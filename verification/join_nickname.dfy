/**
 * The nickname screen `handleJoinRoom` applies before touching any room: a missing or blank
 * nickname, or one whose lower-cased form contains one of six words, is answered with a
 * `nickname_error` and the join goes no further.
 */
module JoinNickname {
  import opened Options
  import opened JavaText

  /** The words the join screen refuses, in the order it tries them. */
  const JoinSensitiveWords: seq<string> := ["系统", "管理员", "admin", "fuck", "shit", "政府"]

  const MsgEmptyNickname: string := "昵称不能为空"
  const MsgSensitiveNickname: string := "昵称包含敏感词，请重新输入"

  /** `nickname == null || nickname.trim().isEmpty()`. */
  predicate IsBlank(nickname: Option<string>) {
    nickname.None? || Trim(nickname.value) == []
  }

  /** Some refused word occurs in the lower-cased nickname. */
  predicate HasSensitiveWord(nickname: string) {
    exists i :: 0 <= i < |JoinSensitiveWords| && Contains(ToLowerJava(nickname), ToLowerJava(JoinSensitiveWords[i]))
  }

  /** The loop over the refused words, from the `k`-th on: true at the first word that occurs. */
  function AnyWordFrom(lower: string, k: nat): (found: bool)
    requires k <= |JoinSensitiveWords|
    decreases |JoinSensitiveWords| - k
    ensures found <==> exists i :: k <= i < |JoinSensitiveWords| && Contains(lower, ToLowerJava(JoinSensitiveWords[i]))
  {
    if k == |JoinSensitiveWords| then false
    else Contains(lower, ToLowerJava(JoinSensitiveWords[k])) || AnyWordFrom(lower, k + 1)
  }

  /**
   * The error message the join answers with, or `None` when the nickname passes: blank first,
   * then the word list.
   */
  function JoinNicknameError(nickname: Option<string>): (e: Option<string>)
    ensures e.None? <==> !IsBlank(nickname) && !HasSensitiveWord(nickname.value)
    ensures IsBlank(nickname) ==> e == Some(MsgEmptyNickname)
    ensures !IsBlank(nickname) && HasSensitiveWord(nickname.value) ==> e == Some(MsgSensitiveNickname)
  {
    if IsBlank(nickname) then Some(MsgEmptyNickname)
    else if AnyWordFrom(ToLowerJava(nickname.value), 0) then Some(MsgSensitiveNickname)
    else None
  }

  /** Upper-case ASCII does not get a word past the screen: "ADMIN" is refused like "admin". */
  lemma CaseInsensitiveAdmin()
    ensures JoinNicknameError(Some("ADMIN")) == Some(MsgSensitiveNickname)
  {
    ToLowerJavaOfPlain("ADMIN");
    ToLowerJavaOfPlain("admin");
    assert ToLowerAscii("ADMIN") == "admin";
    assert ToLowerJava(JoinSensitiveWords[2]) == "admin";
    assert OccursAt("admin", "admin", 0);
    assert Trim("ADMIN") != [] by {
      TrimEmptyIff("ADMIN");
      assert !IsTrimmed("ADMIN"[0]);
    }
  }

  /** A nickname of spaces only is refused as empty, not as sensitive. */
  lemma SpacesAreBlank()
    ensures JoinNicknameError(Some("   ")) == Some(MsgEmptyNickname)
  {
    TrimEmptyIff("   ");
  }

  /**
   * The KELVIN SIGN lower-cases to an ASCII 'k', so "FUC" followed by it is refused like
   * "fuck".
   */
  lemma KelvinSignRefused()
    ensures JoinNicknameError(Some("FUC\U{212A}")) == Some(MsgSensitiveNickname)
  {
    var n := "FUC\U{212A}";
    assert ToLowerJava(n) == "fuck" by {
      assert n[1..][1..][1..][1..] == [];
      assert ToLowerJava(n[1..][1..][1..]) == "k";
    }
    ToLowerJavaOfPlain("fuck");
    assert ToLowerAscii("fuck") == "fuck";
    assert ToLowerJava(JoinSensitiveWords[3]) == "fuck";
    assert OccursAt("fuck", "fuck", 0);
    assert Trim(n) != [] by {
      TrimEmptyIff(n);
      assert !IsTrimmed(n[0]);
    }
  }
}
