/** `PlayerVO.setNickName`: the one setter of the player view object that is not plain Lombok. */
module PlayerVO {
  import opened Options
  import opened JavaText

  /** Prefix of the generated default nickname ("player"). */
  const DefaultNickPrefix: string := "玩家"

  /** For a non-negative clock the suffix reads back as `millis % 10000`. */
  lemma SuffixValue(millis: int)
    ensures millis >= 0 ==> Value(LongToString(JavaRem(millis, 10000))) == millis % 10000
  {
    if millis >= 0 {
      ValueOfDecimal(millis % 10000);
    }
  }

  /**
   * The value the `nickName` field holds after `setNickName(nickName)`, with
   * `System.currentTimeMillis()` passed in as `millis`: the argument when it is non-null,
   * otherwise the prefix followed by `millis % 10000` (Java's truncating remainder).
   */
  function SetNickName(nickName: Option<string>, millis: int): (stored: Option<string>)
    ensures stored.Some?
    ensures nickName.Some? ==> stored == nickName
    ensures nickName.None? ==>
              |stored.value| >= 3 && stored.value[..2] == DefaultNickPrefix
              && stored.value[2..] == LongToString(JavaRem(millis, 10000))
    ensures nickName.None? && millis >= 0 ==>
              IsDigits(stored.value[2..]) && Value(stored.value[2..]) == millis % 10000
              && Value(stored.value[2..]) <= 9999
  {
    match nickName
    case Some(n) => Some(n)
    case None =>
      var suffix := LongToString(JavaRem(millis, 10000));
      SuffixValue(millis);
      var s := DefaultNickPrefix + suffix;
      assert s[2..] == suffix;
      Some(s)
  }
}
