/**
 * The "share" notification both endpoints send a winner whose streak has reached three: its
 * share code and title (and, on `/game`, a content line). The two endpoints tier it
 * differently: `/match` writes the streak into the code and only knows titles for 3, 4 and 5;
 * `/game` has exactly two codes.
 */
module ShareTiers {
  import opened Options
  import opened JavaText

  /** The least streak that produces a share notification. */
  const MinShareStreak: nat := 3

  const TitleWin3: string := "连战连捷！"
  const TitleWin4: string := "爆锤！"
  const TitleWin5: string := "超神！"

  /** The `share` message: code, the two nicknames, and the optional title and content. */
  datatype Share = Share(code: string, winnerName: string, loserName: string,
                         title: Option<string>, content: Option<string>)

  // ---------------------------------------------------------------------------
  // /match

  /** `"WIN" + winStreak` with a non-negative `long`. */
  function MatchShareCode(streak: nat): (code: string)
    ensures |code| >= 4 && code[..3] == "WIN"
    ensures IsDigits(code[3..]) && Value(code[3..]) == streak
  {
    ValueOfDecimal(streak);
    var code := "WIN" + Decimal(streak);
    assert code[3..] == Decimal(streak);
    code
  }

  /** The `switch (shareCode)` of `/match`: a title for the three known codes and none otherwise. */
  function MatchTitle(code: string): (t: Option<string>)
    ensures t.Some? <==> code in {"WIN3", "WIN4", "WIN5"}
  {
    if code == "WIN3" then Some(TitleWin3)
    else if code == "WIN4" then Some(TitleWin4)
    else if code == "WIN5" then Some(TitleWin5)
    else None
  }

  /**
   * A `/match` streak gets a title exactly when it is 3, 4 or 5, and the title grows with the
   * streak; from 6 on the message carries no title at all.
   */
  lemma MatchTitleTiers(streak: nat)
    ensures MatchTitle(MatchShareCode(streak)).Some? <==> 3 <= streak <= 5
    ensures streak == 3 ==> MatchTitle(MatchShareCode(streak)) == Some(TitleWin3)
    ensures streak == 4 ==> MatchTitle(MatchShareCode(streak)) == Some(TitleWin4)
    ensures streak == 5 ==> MatchTitle(MatchShareCode(streak)) == Some(TitleWin5)
  {
    var code := MatchShareCode(streak);
    if code in {"WIN3", "WIN4", "WIN5"} {
      assert code[3..] in {"3", "4", "5"};
      assert Value("3") == 3 && Value("4") == 4 && Value("5") == 5;
    }
    if streak == 3 {
      assert Decimal(3) == "3";
    } else if streak == 4 {
      assert Decimal(4) == "4";
    } else if streak == 5 {
      assert Decimal(5) == "5";
    }
  }

  /** The `/match` share for a streak of at least three. */
  function MatchShare(streak: nat, winnerName: string, loserName: string): (s: Share)
    requires streak >= MinShareStreak
    ensures s.winnerName == winnerName && s.loserName == loserName
    ensures s.code == MatchShareCode(streak) && s.content.None?
    ensures s.title.Some? <==> streak <= 5
  {
    MatchTitleTiers(streak);
    var code := MatchShareCode(streak);
    Share(code, winnerName, loserName, MatchTitle(code), None)
  }

  // ---------------------------------------------------------------------------
  // /game

  /** `winStreak >= 5 ? "WIN5" : "WIN3"`. */
  function GameShareCode(streak: nat): (code: string)
    ensures code == "WIN5" <==> streak >= 5
    ensures code == "WIN3" <==> streak < 5
  {
    if streak >= 5 then "WIN5" else "WIN3"
  }

  /** The `/game` share for a streak of at least three: both codes carry a title and a content line. */
  function GameShare(streak: nat, winnerName: string, loserName: string): (s: Share)
    requires streak >= MinShareStreak
    ensures s.winnerName == winnerName && s.loserName == loserName
    ensures s.code == GameShareCode(streak)
    ensures streak >= 5 ==>
              s.title == Some(TitleWin5) && s.content == Some(winnerName + "5连胜！" + loserName + "还不拜见义父？")
    ensures streak < 5 ==>
              s.title == Some(TitleWin3) && s.content == Some(winnerName + "：恭喜你喜得义子——" + loserName + "！")
  {
    var code := GameShareCode(streak);
    if code == "WIN3" then
      Share(code, winnerName, loserName, Some(TitleWin3), Some(winnerName + "：恭喜你喜得义子——" + loserName + "！"))
    else
      Share(code, winnerName, loserName, Some(TitleWin5), Some(winnerName + "5连胜！" + loserName + "还不拜见义父？"))
  }

  /** Streaks of 3 and 4 earn the same `/game` share, where `/match` tells them apart by code. */
  lemma GameTiersCoarserThanMatch(winnerName: string, loserName: string)
    ensures GameShare(3, winnerName, loserName) == GameShare(4, winnerName, loserName)
    ensures MatchShare(3, winnerName, loserName).code != MatchShare(4, winnerName, loserName).code
  {
    assert MatchShareCode(3)[3..] != MatchShareCode(4)[3..];
  }
}
