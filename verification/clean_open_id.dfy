/**
 * `WebSocket4Match.cleanOpenId`: a client that builds its connection URL twice ends up
 * sending ids such as `abc?openId=abc`; the server keeps only the text before the first
 * `?openId=`.
 */
module OpenIdCleaning {
  import opened Options
  import opened JavaText

  /** The literal text the regex `\?openId=` matches. */
  const Marker: string := "?openId="

  /**
   * `cleanOpenId` on a non-null id: ids without `?` are returned as they are; otherwise the
   * first element of `split("\\?openId=")`, or the id itself when that array is empty.
   */
  function Clean(s: string): (r: string)
    ensures |r| <= |s| && r == s[..|r|]
    ensures !Contains(s, "?") ==> r == s
    ensures IndexOf(s, Marker).None? ==> r == s
    ensures IsRepetition(s, Marker) ==> r == s
    ensures IndexOf(s, Marker).Some? && !IsRepetition(s, Marker) ==>
              r == s[..IndexOf(s, Marker).value]
  {
    MarkerHasQuestionMark(s);
    SplitShape(s, Marker);
    if !Contains(s, "?") then s
    else
      var parts := Split(s, Marker);
      if |parts| > 0 then parts[0] else s
  }

  /** An occurrence of the marker is an occurrence of `?`. */
  lemma MarkerHasQuestionMark(s: string)
    ensures IndexOf(s, Marker).Some? ==> Contains(s, "?")
  {
    if IndexOf(s, Marker).Some? {
      var i := IndexOf(s, Marker).value;
      assert s[i..i + |Marker|][0] == '?';
      assert s[i..i + 1] == "?";
      assert OccursAt(s, "?", i);
    }
  }

  /** `cleanOpenId` including the `null` case, which passes through. */
  function CleanOpenId(id: Option<string>): (r: Option<string>)
    ensures id.None? <==> r.None?
    ensures id.Some? ==> r.value == Clean(id.value)
  {
    match id
    case None => None
    case Some(s) => Some(Clean(s))
  }

  /** Cleaning an already cleaned id changes nothing. */
  lemma CleanIdempotent(s: string)
    ensures Clean(Clean(s)) == Clean(s)
  {
    var r := Clean(s);
    if r != s {
      NoOccurrenceBeforeFirst(s, Marker);
      assert IndexOf(r, Marker).None?;
    }
  }

  /** `CleanOpenId` is idempotent too, `null` included. */
  lemma CleanOpenIdIdempotent(id: Option<string>)
    ensures CleanOpenId(CleanOpenId(id)) == CleanOpenId(id)
  {
    if id.Some? {
      CleanIdempotent(id.value);
    }
  }

  /**
   * The doubled-URL shape the cleaning exists for: `x?openId=x` becomes `x` when `x` is
   * non-empty and has no `?`.
   */
  lemma CleanDoubledId(x: string)
    requires |x| > 0 && !Contains(x, "?")
    ensures Clean(x + Marker + x) == x
  {
    var s := x + Marker + x;
    assert s[|x|..|x| + |Marker|] == Marker;
    assert OccursAt(s, Marker, |x|);
    assert s[|x|..|x| + 1] == "?";
    assert OccursAt(s, "?", |x|);
    forall j | 0 <= j < |x| ensures !OccursAt(s, Marker, j) {
      if OccursAt(s, Marker, j) {
        assert s[j..j + |Marker|][0] == '?';
        assert x[j] == s[j] == '?';
        assert x[j..j + 1] == "?";
        assert OccursAt(x, "?", j);
      }
    }
    assert IndexOf(s, Marker) == Some(|x|);
    assert s[..|x|] == x;
  }

  /** An id that is only the marker has an empty `split` result and is kept whole. */
  lemma CleanBareMarker()
    ensures Clean(Marker) == Marker
  {
    assert Marker == Repeat(Marker, 1);
  }
}
