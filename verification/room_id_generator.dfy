/**
 * `GameRoomIdGenerator`: a date prefix followed by a process-wide counter rendered with
 * `%05d`. The `yyMMdd` prefix comes from the clock, so it is a parameter here.
 */
module RoomIdGenerator {
  import opened JavaText

  /** The static `currentRoomId` counter. */
  datatype Generator = Generator(counter: nat)

  /** The counter as the class is loaded. */
  const InitialGenerator: Generator := Generator(1)

  /** One generated id with the generator afterwards. */
  datatype Generated = Generated(id: string, next: Generator)

  /** `getNextGameRoomId()` with today's formatted date passed in as `datePrefix`. */
  function NextGameRoomId(g: Generator, datePrefix: string): (r: Generated)
    ensures r.next.counter == g.counter + 1
    ensures |r.id| >= |datePrefix| + 5 && r.id[..|datePrefix|] == datePrefix
    ensures IsDigits(r.id[|datePrefix|..]) && Value(r.id[|datePrefix|..]) == g.counter
    ensures g.counter < 100000 ==> |r.id| == |datePrefix| + 5
  {
    FiveDigitsBelowLimit(g.counter);
    var id := datePrefix + ZeroPad(g.counter, 5);
    assert id[..|datePrefix|] == datePrefix;
    assert id[|datePrefix|..] == ZeroPad(g.counter, 5);
    Generated(id, Generator(g.counter + 1))
  }

  lemma FiveDigitsBelowLimit(n: nat)
    ensures n < 100000 ==> |Decimal(n)| <= 5
  {
    if n < 100000 {
      DecimalShort(n, 5);
    }
  }

  /** The first id of the day ends in `00001`. */
  lemma FirstIdEndsInOne(datePrefix: string)
    ensures NextGameRoomId(InitialGenerator, datePrefix).id == datePrefix + "00001"
  {
    assert Decimal(1) == "1";
    assert Zeros(4) == "0000";
  }

  /**
   * With the same prefix, two different counter values never give the same id; so every call
   * on one day (the counter only grows) yields a new id.
   */
  lemma DistinctCountersDistinctIds(g1: Generator, g2: Generator, datePrefix: string)
    requires g1.counter != g2.counter
    ensures NextGameRoomId(g1, datePrefix).id != NextGameRoomId(g2, datePrefix).id
  {
  }

  /** For a `yyMMdd` prefix the id is 11 characters long while the counter stays below 100000. */
  lemma ElevenCharacters(g: Generator, datePrefix: string)
    requires |datePrefix| == 6 && g.counter < 100000
    ensures |NextGameRoomId(g, datePrefix).id| == 11
  {
  }
}
