/**
 * `generateRandomChineseName(length)`, which `UserService` and `PlayerService` each carry an
 * identical copy of. The `Random.nextInt(0x9FA5 - 0x4E00 + 1)` draws are passed in.
 */
module RandomNames {

  /** First and last code point of the CJK Unified Ideographs block the names draw from. */
  const CjkFirst: int := 0x4E00
  const CjkLast: int := 0x9FA5

  /** A value `Random.nextInt(CjkLast - CjkFirst + 1)` can return. */
  predicate IsDraw(d: int) {
    0 <= d <= CjkLast - CjkFirst
  }

  /** `(char) (0x4E00 + d)`. */
  function CjkChar(d: int): (c: char)
    requires IsDraw(d)
    ensures c as int == CjkFirst + d
    ensures CjkFirst <= c as int <= CjkLast
  {
    (CjkFirst + d) as char
  }

  /** One character per draw, `(char) (0x4E00 + draw)`. */
  function RandomChineseName(length: nat, draws: seq<int>): (name: string)
    requires |draws| == length
    requires forall i :: 0 <= i < |draws| ==> IsDraw(draws[i])
    ensures |name| == length
    ensures forall i :: 0 <= i < length ==> CjkFirst <= name[i] as int <= CjkLast
    ensures forall i :: 0 <= i < length ==> name[i] as int == CjkFirst + draws[i]
  {
    seq(length, i requires 0 <= i < length => CjkChar(draws[i]))
  }
}
