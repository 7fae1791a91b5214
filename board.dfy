/** The board controller: the component state (the task list and the draft
    form) and the operations that change it, each awaiting the record store. */
module TaskBoard {
  import opened Options
  import opened Store
  import opened App
  import Text

  class Board {
    /** The in-memory task list, a cache of the store's rows. */
    var tasks: seq<Task>
    /** The draft form. */
    var input: Draft

    /** The controller never gives a task a `time` property. */
    ghost predicate Valid()
      reads this
    {
      NoTimeKey(tasks)
    }

    /** The state on mount, before the first refresh. */
    constructor (today: string)
      ensures Valid()
      ensures tasks == [] && input == InitialDraft(today)
    {
      tasks := [];
      input := InitialDraft(today);
    }

    /** A form field changed: the draft is replaced (`setInput`). */
    method SetInput(d: Draft)
      modifies this
      ensures tasks == old(tasks) && input == d
    {
      input := d;
    }

    /** Refresh: list the rows; on success install them with trimmed times,
        on error keep the current list. */
    method FetchTasks(listed: Reply<seq<Row>>) returns (calls: seq<Call>)
      requires Valid()
      modifies this
      ensures Valid() && input == old(input)
      ensures calls == [List]
      ensures tasks == if listed.Ok? then Fetched(listed.value) else old(tasks)
    {
      calls := [List];
      if listed.Ok? {
        FetchedRows(listed.value);
        tasks := Fetched(listed.value);
      }
    }

    /** Submit the draft. An empty title does nothing. Otherwise the draft is
        inserted; when the store answers with the inserted rows, the
        notification and badge calls run, and if they return normally the list
        is refreshed and only the draft's title is cleared. `inserted` is
        Ok(true) when the insert succeeded and returned its rows; `notified` is
        false when the notification or badge call throws, which abandons the
        handler before the refresh. */
    method AddTask(inserted: Reply<bool>, notified: bool, listed: Reply<seq<Row>>) returns (calls: seq<Call>)
      requires Valid()
      modifies this
      ensures Valid()
      ensures calls == [] <==> old(input).title == ""
      ensures old(input).title == "" ==> tasks == old(tasks) && input == old(input)
      ensures old(input).title != "" && !(inserted == Ok(true) && notified) ==>
        calls == [Insert(NewRowOf(old(input)))] && tasks == old(tasks) && input == old(input)
      ensures old(input).title != "" && inserted == Ok(true) && notified ==>
        && calls == [Insert(NewRowOf(old(input))), List]
        && tasks == (if listed.Ok? then Fetched(listed.value) else old(tasks))
        && input == old(input).(title := "")
    {
      if input.title == "" {
        return [];
      }
      calls := [Insert(NewRowOf(input))];
      if inserted == Ok(true) && notified {
        var draft := input;
        var refresh := FetchTasks(listed);
        calls := calls + refresh;
        input := draft.(title := "");
      }
    }

    /** Delete the task with this id after the user confirms (the title is only
        shown in the prompt). Declining, or a store error, changes nothing;
        otherwise every task with the id leaves the list. */
    method DeleteTask(id: int, title: string, confirmed: bool, deleted: Reply<()>) returns (calls: seq<Call>)
      requires Valid()
      modifies this
      ensures Valid() && input == old(input)
      ensures !confirmed ==> calls == [] && tasks == old(tasks)
      ensures confirmed ==> calls == [Delete(id)]
      ensures confirmed && deleted.Ok? ==> tasks == WithoutId(old(tasks), id)
      ensures confirmed && deleted.Err? ==> tasks == old(tasks)
    {
      calls := [];
      if confirmed {
        calls := [Delete(id)];
        if deleted.Ok? {
          DeleteKeepsInvariants(tasks, id);
          tasks := WithoutId(tasks, id);
        }
      }
    }

    /** A card was double-clicked: delete that card's task, by its id, naming
        its title in the prompt. */
    method DeleteCard(card: Task, confirmed: bool, deleted: Reply<()>) returns (calls: seq<Call>)
      requires Valid()
      modifies this
      ensures Valid() && input == old(input)
      ensures !confirmed ==> calls == [] && tasks == old(tasks)
      ensures confirmed ==> calls == [Delete(card.id)]
      ensures confirmed && deleted.Ok? ==> card !in tasks && tasks == WithoutId(old(tasks), card.id)
      ensures confirmed && deleted.Err? ==> tasks == old(tasks)
    {
      calls := DeleteTask(card.id, card.title, confirmed, deleted);
    }

    /** A drag ended. With no destination nothing happens. Otherwise the drop
        target resolves to a member and start time, the dragged task takes
        them at once, and the store is asked to do the same, also when the task
        was dropped where it already was; if the store refuses, the list is
        refreshed from the store. */
    method OnDragEnd(destination: Option<string>, draggableId: string,
                     updated: Reply<()>, listed: Reply<seq<Row>>) returns (calls: seq<Call>)
      requires Valid()
      modifies this
      ensures Valid() && input == old(input)
      ensures destination.None? ==> calls == [] && tasks == old(tasks)
      ensures destination.Some? ==>
        var p := Resolve(old(tasks), draggableId, destination.value);
        var moved := MoveTasks(old(tasks), draggableId, p.member, p.startTime);
        && |calls| >= 1
        && calls[0] == Update(draggableId, p.member, p.startTime)
        && (updated.Ok? ==> calls == [calls[0]] && tasks == moved)
        && (updated.Err? ==> calls == [calls[0], List]
                             && tasks == if listed.Ok? then Fetched(listed.value) else moved)
    {
      if destination.None? {
        return [];
      }
      var p := Resolve(tasks, draggableId, destination.value);
      MoveKeepsInvariants(tasks, draggableId, p.member, p.startTime);
      tasks := MoveTasks(tasks, draggableId, p.member, p.startTime);
      calls := [Update(draggableId, p.member, p.startTime)];
      if updated.Err? {
        var refresh := FetchTasks(listed);
        calls := calls + refresh;
      }
    }
  }

  /** Create, move and delete one task against a store that accepts every
      call and lists the rows it holds. */
  method KickoffScenario()
  {
    var board := new Board("2024-01-14");
    board.SetInput(board.input.(title := "Kickoff"));
    var row := Row(1, None, "Kickoff", "田中", Some("09:00:00"), Some("11:00:00"), Some("low"));
    var calls := board.AddTask(Ok(true), true, Ok([row]));
    var kickoff := Task(1, None, "Kickoff", "田中", Some("09:00"), Some("11:00"), Some("low"), None);
    assert "09:00:00"[..5] == "09:00" && "11:00:00"[..5] == "11:00";
    assert Normalize(FromRow(row)) == kickoff;
    FetchedRows([row]);
    assert Fetched([row])[0] == kickoff;
    assert calls[0].row.startTime == "09:00";
    assert board.tasks == [kickoff];
    assert board.input.title == "" && board.input.member == "田中";

    var moved := kickoff.(member := "佐藤", startTime := Some("10:00"));
    KickoffMoves(kickoff);
    calls := board.OnDragEnd(Some("佐藤-10:00"), "1", Ok(()), Ok([]));
    assert board.tasks == [moved];
    assert calls == [Update("1", "佐藤", Some("10:00"))];

    assert WithoutId([moved], 1) == [] by {
      DeleteOneOfDistinct([moved], 0);
    }
    calls := board.DeleteTask(1, "Kickoff", true, Ok(()));
    assert board.tasks == [];
  }

  lemma KickoffMoves(kickoff: Task)
    requires kickoff.id == 1
    ensures Resolve([kickoff], "1", "佐藤-10:00") == Placement("佐藤", Some("10:00"))
    ensures MoveTasks([kickoff], "1", "佐藤", Some("10:00"))
         == [kickoff.(member := "佐藤", startTime := Some("10:00"))]
  {
    assert Text.DecimalString(1) == "1";
    assert CellId("佐藤", "10:00") == "佐藤-10:00";
    ResolveFixedGridCell([kickoff], "1", "佐藤", "10:00");
  }
}
