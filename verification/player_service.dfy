/**
 * `PlayerService.createRandomPlayer`: a player with a random two-character name and random
 * win and loss counts is saved and then looked up again by that name. The `Random` draws are
 * passed in. The service writes and queries a `username` column that the `Player` entity does
 * not declare; the model gives the row that column, which is what the service evidently
 * relies on.
 */
module PlayerService {
  import opened Options
  import opened RandomNames

  /** Characters in a generated player name. */
  const NameLength: nat := 2

  /** `Random.nextInt(StatBound) + 1` gives the win and loss counts. */
  const StatBound: int := 100

  /** A `players` row: the sequence id, the generated name, wins and losses. */
  datatype PlayerRow = PlayerRow(id: int, username: string, wins: int, losses: int)

  /** The table in insertion order and the next value of `player_sequence`. */
  datatype PlayerTable = PlayerTable(rows: seq<PlayerRow>, nextId: int)

  /** `player_sequence` starts at 10000 and steps by 1. */
  const EmptyPlayers: PlayerTable := PlayerTable([], 10000)

  /** A value `Random.nextInt(StatBound)` can return. */
  predicate IsStatDraw(d: int) {
    0 <= d < StatBound
  }

  /** How many rows carry this name. */
  function CountName(rows: seq<PlayerRow>, name: string): (n: nat)
    ensures n <= |rows|
    ensures n == 0 <==> forall i :: 0 <= i < |rows| ==> rows[i].username != name
  {
    if |rows| == 0 then 0
    else (if rows[0].username == name then 1 else 0) + CountName(rows[1..], name)
  }

  /** Appending a row counts once more for its own name and not at all for any other. */
  lemma {:induction false} CountNameAppend(rows: seq<PlayerRow>, row: PlayerRow, name: string)
    ensures CountName(rows + [row], name) == CountName(rows, name) + (if row.username == name then 1 else 0)
  {
    if |rows| > 0 {
      assert (rows + [row])[1..] == rows[1..] + [row];
      CountNameAppend(rows[1..], row, name);
    } else {
      assert [row][1..] == [];
    }
  }

  /**
   * The single-result query `findByUsername`: `null` for no row, the row for exactly one, and an
   * incorrect-result-size error for more than one.
   */
  datatype Lookup = Found(row: PlayerRow) | NotFound | NotUnique

  /** The only row with this name, assuming there is exactly one. */
  function OnlyRow(rows: seq<PlayerRow>, name: string): (r: PlayerRow)
    requires CountName(rows, name) == 1
    ensures r in rows && r.username == name
  {
    if rows[0].username == name then rows[0] else OnlyRow(rows[1..], name)
  }

  function FindByUsername(rows: seq<PlayerRow>, name: string): (r: Lookup)
    ensures r.NotFound? <==> CountName(rows, name) == 0
    ensures r.Found? <==> CountName(rows, name) == 1
    ensures r.NotUnique? <==> CountName(rows, name) > 1
    ensures r.Found? ==> r.row in rows && r.row.username == name
  {
    var n := CountName(rows, name);
    if n == 0 then NotFound else if n == 1 then Found(OnlyRow(rows, name)) else NotUnique
  }

  /** What `createRandomPlayer` leaves in the table and returns. */
  datatype RandomPlayer = RandomPlayer(table: PlayerTable, result: Lookup)

  /**
   * `createRandomPlayer`: the name comes from two character draws, wins and losses are each a
   * draw plus one, the row is saved under the next sequence id, and the result is the lookup by
   * the new name.
   */
  function CreateRandomPlayer(t: PlayerTable, nameDraws: seq<int>, winDraw: int, lossDraw: int): (r: RandomPlayer)
    requires |nameDraws| == NameLength && forall i :: 0 <= i < |nameDraws| ==> IsDraw(nameDraws[i])
    requires IsStatDraw(winDraw) && IsStatDraw(lossDraw)
    ensures |r.table.rows| == |t.rows| + 1 && r.table.rows[..|t.rows|] == t.rows
    ensures r.table.nextId == t.nextId + 1
    ensures var row := r.table.rows[|t.rows|];
            && row.id == t.nextId
            && |row.username| == NameLength
            && (forall i :: 0 <= i < NameLength ==> CjkFirst <= row.username[i] as int <= CjkLast)
            && 1 <= row.wins <= StatBound && 1 <= row.losses <= StatBound
  {
    var name := RandomChineseName(NameLength, nameDraws);
    var row := PlayerRow(t.nextId, name, winDraw + 1, lossDraw + 1);
    var table := PlayerTable(t.rows + [row], t.nextId + 1);
    assert table.rows[..|t.rows|] == t.rows;
    RandomPlayer(table, FindByUsername(table.rows, name))
  }

  /**
   * The lookup after the save returns the saved row when no earlier player had the generated
   * name, and fails as not unique when one did.
   */
  lemma CreateRandomPlayerLookup(t: PlayerTable, nameDraws: seq<int>, winDraw: int, lossDraw: int)
    requires |nameDraws| == NameLength && forall i :: 0 <= i < |nameDraws| ==> IsDraw(nameDraws[i])
    requires IsStatDraw(winDraw) && IsStatDraw(lossDraw)
    ensures var r := CreateRandomPlayer(t, nameDraws, winDraw, lossDraw);
            var row := r.table.rows[|t.rows|];
            && (CountName(t.rows, row.username) == 0 ==> r.result == Found(row))
            && (CountName(t.rows, row.username) > 0 ==> r.result == NotUnique)
  {
    var r := CreateRandomPlayer(t, nameDraws, winDraw, lossDraw);
    var row := r.table.rows[|t.rows|];
    assert r.table.rows == t.rows + [row];
    CountNameAppend(t.rows, row, row.username);
    if CountName(t.rows, row.username) == 0 {
      assert r.result.Found?;
      assert row in r.table.rows;
      assert forall x :: x in r.table.rows && x.username == row.username ==> x == row by {
        forall x | x in r.table.rows && x.username == row.username ensures x == row {
          var k :| 0 <= k < |r.table.rows| && r.table.rows[k] == x;
          if k < |t.rows| {
            assert t.rows[k] == x;
          }
        }
      }
    }
  }
}
