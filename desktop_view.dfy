/** The desktop grid: one drop cell per (member, hour), the tasks each cell
    lists, and the quick-add button of an empty cell. */
module DesktopView {
  import opened Options
  import opened Text
  import opened Seqs
  import opened App

  /** The cell filter as written: it compares the task's `time` property. */
  function InCell(member: string, hour: string): Task -> bool {
    (t: Task) => t.member == member && t.time == Some(hour)
  }

  /** The tasks a cell lists, in list order. */
  function CellTasks(ts: seq<Task>, member: string, hour: string): seq<Task> {
    Filter(ts, InCell(member, hour))
  }

  /** What one cell shows: its id, its cards, and whether the "+ 予約" button is there. */
  datatype Cell = Cell(droppableId: string, cards: seq<Task>, showsQuickAdd: bool)

  function RenderCell(ts: seq<Task>, member: string, hour: string): (c: Cell)
    ensures c.droppableId == CellId(member, hour)
    ensures c.showsQuickAdd <==> forall k :: 0 <= k < |ts| ==> !InCell(member, hour)(ts[k])
  {
    var cards := CellTasks(ts, member, hour);
    FilterEmptyIff(ts, InCell(member, hour));
    Cell(CellId(member, hour), cards, |cards| == 0)
  }

  /** The quick-add as written: `{ ...input, member, time }`. */
  function QuickAdd(d: Draft, member: string, hour: string): Draft {
    d.(member := member, time := Some(hour))
  }

  /** The quick-add as evidently intended: the cell's hour becomes the start time. */
  function QuickAddAtStart(d: Draft, member: string, hour: string): Draft {
    d.(member := member, startTime := hour)
  }

  /** The cell filter as evidently intended: it compares the start time. */
  function StartsInCell(member: string, hour: string): Task -> bool {
    (t: Task) => t.member == member && TrimSeconds(t.startTime) == Some(hour)
  }

  function CellTasksByStart(ts: seq<Task>, member: string, hour: string): seq<Task> {
    Filter(ts, StartsInCell(member, hour))
  }

  /** The forty cell ids of the fixed grid are pairwise distinct. */
  lemma CellIdsDistinct(m1: string, h1: string, m2: string, h2: string)
    requires m1 in Members && h1 in Hours && m2 in Members && h2 in Hours
    ensures CellId(m1, h1) == CellId(m2, h2) <==> m1 == m2 && h1 == h2
  {
    ResolveFixedGridCell([], "", m1, h1);
    ResolveFixedGridCell([], "", m2, h2);
  }

  /** A cell lists exactly the tasks of its member whose `time` is its hour,
      each as often as the list holds it, in list order. */
  lemma CellTasksExactly(ts: seq<Task>, member: string, hour: string, t: Task)
    ensures multiset(CellTasks(ts, member, hour))[t]
         == if t.member == member && t.time == Some(hour) then multiset(ts)[t] else 0
    ensures IsSubsequence(CellTasks(ts, member, hour), ts)
  {
    FilterCount(ts, InCell(member, hour), t);
    FilterIsSubsequence(ts, InCell(member, hour));
  }

  /** No controller task has a `time` property, so every cell is empty and
      shows its quick-add button, whatever the list holds. */
  lemma CellsEmptyOnBoard(ts: seq<Task>, member: string, hour: string)
    requires NoTimeKey(ts)
    ensures CellTasks(ts, member, hour) == []
    ensures RenderCell(ts, member, hour).showsQuickAdd
  {
    FilterKeepsNone(ts, InCell(member, hour));
  }

  /** Dropping a task on a grid cell gives it the cell's member and start time,
      yet the cell as written still does not list it. */
  lemma DroppedTaskMissingFromCell(ts: seq<Task>, i: nat, member: string, hour: string)
    requires DistinctIds(ts) && NoTimeKey(ts) && i < |ts|
    requires member in Members && hour in Hours
    ensures
      var did := DecimalString(ts[i].id);
      var p := Resolve(ts, did, CellId(member, hour));
      var moved := MoveTasks(ts, did, p.member, p.startTime);
      && moved[i].member == member && moved[i].startTime == Some(hour)
      && moved[i] !in CellTasks(moved, member, hour)
  {
    var did := DecimalString(ts[i].id);
    ResolveFixedGridCell(ts, did, member, hour);
    MoveKeepsInvariants(ts, did, member, Some(hour));
    CellsEmptyOnBoard(MoveTasks(ts, did, member, Some(hour)), member, hour);
  }

  /** With the intended filter, a task dropped on a cell of the fixed grid is
      listed in that cell and in no other. */
  lemma DroppedTaskLandsInCell(ts: seq<Task>, i: nat, member: string, hour: string, m2: string, h2: string)
    requires DistinctIds(ts) && i < |ts|
    requires member in Members && hour in Hours
    ensures
      var did := DecimalString(ts[i].id);
      var p := Resolve(ts, did, CellId(member, hour));
      var moved := MoveTasks(ts, did, p.member, p.startTime);
      && moved[i] in CellTasksByStart(moved, member, hour)
      && (moved[i] in CellTasksByStart(moved, m2, h2) ==> m2 == member && h2 == hour)
  {
    var did := DecimalString(ts[i].id);
    ResolveFixedGridCell(ts, did, member, hour);
    FixedNamesAreClean(member, hour);
    var moved := MoveTasks(ts, did, member, Some(hour));
    assert moved[i].member == member && moved[i].startTime == Some(hour);
    assert Take(hour, 5) == hour;
    assert StartsInCell(member, hour)(moved[i]);
  }

  /** The quick-add as written sets the member and leaves the start time, so
      submitting the draft books the task at the draft's earlier start time,
      not at the clicked cell's hour. */
  lemma QuickAddKeepsStart(d: Draft, member: string, hour: string)
    ensures NewRowOf(QuickAdd(d, member, hour)) == NewRowOf(d).(member := member)
    ensures hour != d.startTime ==> NewRowOf(QuickAdd(d, member, hour)).startTime != hour
    ensures QuickAdd(d, member, hour).title == d.title
  {
  }

  /** The intended quick-add books the submitted task in the clicked cell and
      keeps every other draft field. */
  lemma QuickAddAtStartTargetsCell(d: Draft, member: string, hour: string)
    ensures NewRowOf(QuickAddAtStart(d, member, hour)) == NewRowOf(d).(member := member, startTime := hour)
    ensures QuickAddAtStart(d, member, hour).time == d.time
  {
  }
}
