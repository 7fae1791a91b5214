/** The hosted record store behind the board, seen only through the replies
    of its four calls on the `tasks` table. Which reply arrives is decided by
    the store (and the network), so the board's operations take replies as
    inputs and report which calls they issued. */
module Store {
  import opened Options

  /** The outcome of one store call: a value, or the error the client reports
      (a thrown network failure is folded into Err as well). */
  datatype Reply<T> = Ok(value: T) | Err(error: string)

  /** A row as listed: the selected columns id, created_at, title, member,
      start_time, end_time, priority. Columns may be null (None). */
  datatype Row = Row(
    id: int,
    createdAt: Option<string>,
    title: string,
    member: string,
    startTime: Option<string>,
    endTime: Option<string>,
    priority: Option<string>)

  /** The payload of an insert: the draft's fields, with its start time. */
  datatype NewRow = NewRow(
    title: string,
    member: string,
    startTime: string,
    endTime: string,
    date: string,
    priority: string)

  /** The calls the board issues, in the order it issues them. An update names
      its row by the textual id (key) the drag library reports; an update field that
      is undefined (None) is not sent. */
  datatype Call =
    | Insert(row: NewRow)
    | List
    | Update(key: string, member: string, startTime: Option<string>)
    | Delete(id: int)
}
