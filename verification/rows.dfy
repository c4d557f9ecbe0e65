/**
 The table rows the command prints: each `UserStat` becomes the array
 `[id, userName, commentsCount, commitsCount]` under the header
 `id | userName | comments | commits`.
 */
module Rows {
  import opened Records

  /** One table cell: a number or a piece of text. */
  datatype Cell = Num(n: int) | Text(s: string)

  type Row = seq<Cell>

  /** The table's column headings, left to right. */
  const Header: seq<string> := ["id", "userName", "comments", "commits"]

  /** The statistic a column heading names, if it names one. */
  function Field(u: UserStat, heading: string): Option<Cell> {
    if heading == "id" then Some(Num(u.id))
    else if heading == "userName" then Some(Text(u.userName))
    else if heading == "comments" then Some(Num(u.commentsCount))
    else if heading == "commits" then Some(Num(u.commitsCount))
    else None
  }

  /**
   The heading row names four distinct columns, and a heading names a field
   of a statistic exactly when it is one of them.
   */
  lemma HeaderNamesEachField(u: UserStat)
    ensures |Header| == 4
    ensures forall i, j :: 0 <= i < j < |Header| ==> Header[i] != Header[j]
    ensures forall h :: Field(u, h).Some? <==> h in Header
  {
  }

  /**
   Reads a row back into the statistic it shows, if it has the table's shape;
   a row that reads back is exactly that statistic's projection.
   */
  function FromRow(row: Row): (u: Option<UserStat>)
    ensures u.Some? ==> |row| == |Header|
    ensures u.Some? ==> ToRow(u.value) == row
  {
    if |row| == 4 && row[0].Num? && row[0].n >= 0 && row[1].Text? && row[2].Num? && row[2].n >= 0 && row[3].Num? then
      Some(UserStat(row[0].n, row[1].s, row[2].n, row[3].n))
    else
      None
  }

  /**
   The projection of one statistic: every column holds the field its heading
   names.
   */
  function ToRow(u: UserStat): (row: Row)
    ensures |row| == |Header|
    ensures forall j :: 0 <= j < |Header| ==> Field(u, Header[j]) == Some(row[j])
  {
    [Num(u.id), Text(u.userName), Num(u.commentsCount), Num(u.commitsCount)]
  }

  /** `.map(...)` at the call site: one row per statistic, in the same order. */
  function ToRows(stats: seq<UserStat>): (rows: seq<Row>)
    ensures |rows| == |stats|
    ensures forall i :: 0 <= i < |stats| ==> FromRow(rows[i]) == Some(stats[i])
  {
    if |stats| == 0 then [] else [ToRow(stats[0])] + ToRows(stats[1..])
  }
}
