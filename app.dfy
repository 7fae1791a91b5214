/** The pure part of the board controller: the task record and the draft form,
    the fixed members and hours, and the list transforms and drop-target
    resolution that the controller's operations apply. */
module App {
  import opened Options
  import opened Text
  import opened Seqs
  import Store

  /** The rows of the board, in display order. */
  const Members: seq<string> := ["田中", "佐藤", "鈴木", "高橋"]

  /** The columns of the board: ten hour marks, "09:00" to "18:00". */
  const Hours: seq<string> := ["09:00", "10:00", "11:00", "12:00", "13:00",
                               "14:00", "15:00", "16:00", "17:00", "18:00"]

  /** The member a mobile drop falls back to when the dragged task has none. */
  const Unassigned: string := "未定"

  /** The marker that starts every mobile lane id. */
  const MobilePrefix: string := "mobile-"

  /** A task as the controller holds it: a listed row with its times trimmed.
      `time` is the property of that name, which the desktop grid reads and the
      card's task type declares; the controller never sets it, so on its tasks
      it is undefined. */
  datatype Task = Task(
    id: int,
    createdAt: Option<string>,
    title: string,
    member: string,
    startTime: Option<string>,
    endTime: Option<string>,
    priority: Option<string>,
    time: Option<string>)

  /** The draft form. `time` is the extra key the desktop quick-add writes;
      the form itself and the insert never read it. */
  datatype Draft = Draft(
    title: string,
    member: string,
    startTime: string,
    endTime: string,
    date: string,
    priority: string,
    time: Option<string>)

  /** The form's initial values; `today` is the local date at start-up. */
  function InitialDraft(today: string): (d: Draft)
    ensures d.title == "" && d.member == Members[0] && d.startTime == Hours[0]
    ensures d.endTime == Hours[2] && d.date == today && d.priority == "low" && d.time == None
  {
    Draft("", "田中", "09:00", "11:00", today, "low", None)
  }

  /** The insert payload built from the draft: its start time is `startTime`. */
  function NewRowOf(d: Draft): (r: Store.NewRow)
    ensures r.title == d.title && r.member == d.member
    ensures r.startTime == d.startTime && r.endTime == d.endTime
    ensures r.date == d.date && r.priority == d.priority
  {
    Store.NewRow(d.title, d.member, d.startTime, d.endTime, d.date, d.priority)
  }

  predicate DistinctIds(ts: seq<Task>) {
    forall j, k :: 0 <= j < k < |ts| ==> ts[j].id != ts[k].id
  }

  /** No task carries a `time` property. */
  predicate NoTimeKey(ts: seq<Task>) {
    forall k :: 0 <= k < |ts| ==> ts[k].time == None
  }

  // ---------------------------------------------------------------------
  // Refresh: listed rows become tasks with their times cut to "HH:MM".

  /** `value?.substring(0, 5)` */
  function TrimSeconds(value: Option<string>): Option<string> {
    match value
    case None => None
    case Some(s) => Some(Take(s, 5))
  }

  function Normalize(t: Task): Task {
    t.(startTime := TrimSeconds(t.startTime), endTime := TrimSeconds(t.endTime))
  }

  function NormalizeAll(ts: seq<Task>): seq<Task> {
    seq(|ts|, k requires 0 <= k < |ts| => Normalize(ts[k]))
  }

  /** A listed row as a JavaScript object: exactly the selected columns. */
  function FromRow(r: Store.Row): Task {
    Task(r.id, r.createdAt, r.title, r.member, r.startTime, r.endTime, r.priority, None)
  }

  /** The list a successful refresh installs. */
  function Fetched(rows: seq<Store.Row>): seq<Task> {
    NormalizeAll(seq(|rows|, k requires 0 <= k < |rows| => FromRow(rows[k])))
  }

  /** Normalising keeps the list's length and order and every field except the
      two times, each of which becomes its own first (at most) five characters. */
  lemma NormalizeOnlyTrimsTimes(ts: seq<Task>)
    ensures |NormalizeAll(ts)| == |ts|
    ensures forall k :: 0 <= k < |ts| ==>
      var (a, b) := (ts[k], NormalizeAll(ts)[k]);
      && b.id == a.id && b.createdAt == a.createdAt && b.title == a.title
      && b.member == a.member && b.priority == a.priority && b.time == a.time
      && (b.startTime.Some? <==> a.startTime.Some?)
      && (b.endTime.Some? <==> a.endTime.Some?)
      && (a.startTime.Some? && |a.startTime.value| >= 5 ==> b.startTime.value == a.startTime.value[..5])
      && (a.startTime.Some? && |a.startTime.value| <= 5 ==> b.startTime == a.startTime)
      && (a.endTime.Some? && |a.endTime.value| >= 5 ==> b.endTime.value == a.endTime.value[..5])
      && (a.endTime.Some? && |a.endTime.value| <= 5 ==> b.endTime == a.endTime)
  {
  }

  /** Normalising twice is normalising once. */
  lemma NormalizeIdempotent(ts: seq<Task>)
    ensures NormalizeAll(NormalizeAll(ts)) == NormalizeAll(ts)
  {
    var once := NormalizeAll(ts);
    forall k | 0 <= k < |ts|
      ensures Normalize(once[k]) == once[k]
    {
    }
  }

  /** A refresh installs the rows in the store's order, with distinct ids when the
      rows have them, and none of them has a `time` property. */
  lemma FetchedRows(rows: seq<Store.Row>)
    ensures |Fetched(rows)| == |rows|
    ensures forall k :: 0 <= k < |rows| ==> Fetched(rows)[k].id == rows[k].id
    ensures NoTimeKey(Fetched(rows))
    ensures NormalizeAll(Fetched(rows)) == Fetched(rows)
  {
    NormalizeIdempotent(seq(|rows|, k requires 0 <= k < |rows| => FromRow(rows[k])));
  }

  // ---------------------------------------------------------------------
  // Delete: the tasks with one id are filtered out.

  function HasOtherId(id: int): Task -> bool {
    (t: Task) => t.id != id
  }

  /** `tasks.filter(t => t.id !== id)` */
  function WithoutId(ts: seq<Task>, id: int): seq<Task> {
    Filter(ts, HasOtherId(id))
  }

  /** Deleting removes every copy of every task with the id and keeps every
      copy of every other task. */
  lemma DeleteRemovesExactlyThatId(ts: seq<Task>, id: int, t: Task)
    ensures multiset(WithoutId(ts, id))[t] == if t.id == id then 0 else multiset(ts)[t]
  {
    FilterCount(ts, HasOtherId(id), t);
  }

  /** The survivors of a delete keep their relative order. */
  lemma DeleteKeepsOrder(ts: seq<Task>, id: int)
    ensures IsSubsequence(WithoutId(ts, id), ts)
  {
    FilterIsSubsequence(ts, HasOtherId(id));
  }

  /** With distinct ids, deleting the id of the task at position i removes
      exactly that one task. */
  lemma DeleteOneOfDistinct(ts: seq<Task>, i: nat)
    requires DistinctIds(ts) && i < |ts|
    ensures WithoutId(ts, ts[i].id) == ts[..i] + ts[i + 1..]
  {
    assert ts == (ts[..i] + [ts[i]]) + ts[i + 1..];
    OthersSurvive(ts, i);
    FilterDropsOne(ts[..i], ts[i], ts[i + 1..], HasOtherId(ts[i].id));
  }

  /** With distinct ids, no task before or after position i has its id. */
  lemma OthersSurvive(ts: seq<Task>, i: nat)
    requires DistinctIds(ts) && i < |ts|
    ensures WithoutId(ts[..i], ts[i].id) == ts[..i]
    ensures WithoutId(ts[i + 1..], ts[i].id) == ts[i + 1..]
  {
    var p := HasOtherId(ts[i].id);
    var before := ts[..i];
    var after := ts[i + 1..];
    forall k | 0 <= k < |before| ensures p(before[k]) {
      assert before[k] == ts[k];
    }
    forall k | 0 <= k < |after| ensures p(after[k]) {
      assert after[k] == ts[i + 1 + k];
    }
    FilterKeepsAll(before, p);
    FilterKeepsAll(after, p);
  }

  lemma DeleteKeepsInvariants(ts: seq<Task>, id: int)
    requires NoTimeKey(ts)
    ensures NoTimeKey(WithoutId(ts, id))
  {
  }

  // ---------------------------------------------------------------------
  // Move: the dragged task takes the resolved member and start time.

  /** The task with the given draggable id, the first one when several match:
      `tasks.find(t => String(t.id) === draggableId)`. */
  function FindByDraggableId(ts: seq<Task>, did: string): (r: Option<Task>)
    ensures r.Some? ==> r.value in ts && DecimalString(r.value.id) == did
    ensures r.None? <==> forall k :: 0 <= k < |ts| ==> DecimalString(ts[k].id) != did
    decreases |ts|
  {
    if ts == [] then None
    else if DecimalString(ts[0].id) == did then Some(ts[0])
    else FindByDraggableId(ts[1..], did)
  }

  /** With distinct ids, the lookup by a task's draggable id finds that task. */
  lemma {:induction false} FindByDraggableIdUnique(ts: seq<Task>, i: nat)
    requires DistinctIds(ts) && i < |ts|
    ensures FindByDraggableId(ts, DecimalString(ts[i].id)) == Some(ts[i])
  {
    if i > 0 {
      DecimalInjective(ts[0].id, ts[i].id);
      FindByDraggableIdUnique(ts[1..], i - 1);
    }
  }

  /** One task after a move: `{ ...t, member, start_time }` when it is the dragged one. */
  function Place(t: Task, did: string, member: string, startTime: Option<string>): Task {
    if DecimalString(t.id) == did then t.(member := member, startTime := startTime) else t
  }

  /** `prev.map(t => String(t.id) === draggableId ? { ...t, member, start_time } : t)` */
  function MoveTasks(ts: seq<Task>, did: string, member: string, startTime: Option<string>): seq<Task> {
    seq(|ts|, k requires 0 <= k < |ts| => Place(ts[k], did, member, startTime))
  }

  /** A move keeps the list's length and order, gives the dragged task the new
      member and start time, and changes nothing else. */
  lemma MoveOnlyPlaces(ts: seq<Task>, did: string, member: string, startTime: Option<string>)
    ensures |MoveTasks(ts, did, member, startTime)| == |ts|
    ensures forall k :: 0 <= k < |ts| ==>
      var (a, b) := (ts[k], MoveTasks(ts, did, member, startTime)[k]);
      && b.id == a.id && b.createdAt == a.createdAt && b.title == a.title
      && b.endTime == a.endTime && b.priority == a.priority && b.time == a.time
      && (DecimalString(a.id) == did ==> b.member == member && b.startTime == startTime)
      && (DecimalString(a.id) != did ==> b == a)
  {
  }

  /** Moving twice to the same place is moving once. */
  lemma MoveIdempotent(ts: seq<Task>, did: string, member: string, startTime: Option<string>)
    ensures MoveTasks(MoveTasks(ts, did, member, startTime), did, member, startTime)
         == MoveTasks(ts, did, member, startTime)
  {
  }

  /** With distinct ids, a move changes at most one task. */
  lemma MoveChangesAtMostOne(ts: seq<Task>, did: string, member: string, startTime: Option<string>, j: nat, k: nat)
    requires DistinctIds(ts) && j < |ts| && k < |ts| && j != k
    ensures MoveTasks(ts, did, member, startTime)[j] == ts[j] || MoveTasks(ts, did, member, startTime)[k] == ts[k]
  {
    DecimalInjective(ts[j].id, ts[k].id);
  }

  lemma MoveKeepsInvariants(ts: seq<Task>, did: string, member: string, startTime: Option<string>)
    ensures NoTimeKey(ts) ==> NoTimeKey(MoveTasks(ts, did, member, startTime))
    ensures DistinctIds(ts) ==> DistinctIds(MoveTasks(ts, did, member, startTime))
  {
  }

  // ---------------------------------------------------------------------
  // Drop targets: "mobile-<time>" lanes and "<member>-<time>" grid cells.

  /** The droppable id of a desktop grid cell, `${member}-${time}`. */
  function CellId(member: string, hour: string): string {
    member + "-" + hour
  }

  datatype DropTarget =
    | MobileLane(laneTime: string)
    | GridCell(member: string, cellTime: Option<string>)

  /** How the drop handler reads a droppable id: a "mobile-" id loses that
      marker; any other id is split at '-' and its first two pieces are the
      member and the time (the time is undefined when there is no '-'). */
  function ParseDropTarget(dId: string): DropTarget {
    if StartsWith(dId, MobilePrefix) then MobileLane(ReplaceFirst(dId, MobilePrefix, ""))
    else
      var parts := Split(dId, '-');
      GridCell(parts[0], if |parts| > 1 then Some(parts[1]) else None)
  }

  /** `tasks.find(...)?.member || "未定"`: an empty member counts as missing. */
  function MobileMember(ts: seq<Task>, did: string): string {
    match FindByDraggableId(ts, did)
    case Some(t) => if t.member != "" then t.member else Unassigned
    case None => Unassigned
  }

  datatype Placement = Placement(member: string, startTime: Option<string>)

  /** The member and start time a drop on `dId` assigns to the dragged task. */
  function Resolve(ts: seq<Task>, did: string, dId: string): Placement {
    match ParseDropTarget(dId)
    case MobileLane(time) => Placement(MobileMember(ts, did), Some(time))
    case GridCell(member, time) => Placement(member, time)
  }

  /** A mobile lane id resolves to its hour, and to the dragged task's own member
      when it has one; with no such task, or an empty member, to "未定". */
  lemma ResolveMobileLane(ts: seq<Task>, did: string, hour: string)
    ensures Resolve(ts, did, MobilePrefix + hour).startTime == Some(hour)
    ensures (forall k :: 0 <= k < |ts| ==> DecimalString(ts[k].id) != did)
              ==> Resolve(ts, did, MobilePrefix + hour).member == Unassigned
    ensures forall k :: 0 <= k < |ts| && DistinctIds(ts) && DecimalString(ts[k].id) == did
              ==> Resolve(ts, did, MobilePrefix + hour).member
                  == if ts[k].member == "" then Unassigned else ts[k].member
  {
    var dId := MobilePrefix + hour;
    assert StartsWith(dId, MobilePrefix);
    ReplaceLeadingPattern(dId, MobilePrefix);
    assert dId[|MobilePrefix|..] == hour;
    forall k | 0 <= k < |ts| && DistinctIds(ts) && DecimalString(ts[k].id) == did
      ensures FindByDraggableId(ts, did) == Some(ts[k])
    {
      FindByDraggableIdUnique(ts, k);
    }
  }

  /** A grid id built from a member and an hour that hold no '-' resolves to
      exactly that member and hour, unless it happens to start with "mobile-". */
  lemma ResolveGridCell(ts: seq<Task>, did: string, member: string, hour: string)
    requires '-' !in member && '-' !in hour
    requires !StartsWith(CellId(member, hour), MobilePrefix)
    ensures ParseDropTarget(CellId(member, hour)) == GridCell(member, Some(hour))
    ensures Resolve(ts, did, CellId(member, hour)) == Placement(member, Some(hour))
  {
    assert CellId(member, hour) == member + ['-'] + hour;
    SplitPair(member, '-', hour);
  }

  /** No id that starts with "mobile-" is ever read as a grid cell, and a member
      named "mobile" would have its grid cells read as mobile lanes. */
  lemma MobileMarkerWins(ts: seq<Task>, did: string, hour: string)
    ensures ParseDropTarget(CellId("mobile", hour)) == MobileLane(hour)
    ensures Resolve(ts, did, CellId("mobile", hour)).member == MobileMember(ts, did)
  {
    assert CellId("mobile", hour) == MobilePrefix + hour;
    ResolveMobileLane(ts, did, hour);
  }

  /** A member name holding '-' is cut short: its cell resolves to the part
      before the '-', and the time to the part after it. */
  lemma DashInMemberMisreads(ts: seq<Task>, did: string, first: string, second: string, hour: string)
    requires '-' !in first && '-' !in second && '-' !in hour
    requires first != [] && first[0] != 'm'
    ensures Resolve(ts, did, CellId(first + "-" + second, hour)) == Placement(first, Some(second))
  {
    var dId := CellId(first + "-" + second, hour);
    assert dId == first + ['-'] + (second + ['-'] + hour);
    SplitAfterHead(first, '-', second + ['-'] + hour);
    SplitPair(second, '-', hour);
    assert dId[0] == first[0];
  }

  /** The fixed members and hours hold no '-', and no member starts like "mobile-". */
  lemma FixedNamesAreClean(member: string, hour: string)
    requires member in Members && hour in Hours
    ensures '-' !in member && '-' !in hour && |hour| == 5
    ensures member != [] && member[0] != 'm'
  {
  }

  /** Over the fixed members and hours, a grid id never takes the mobile branch
      and resolves to exactly its own member and hour. */
  lemma ResolveFixedGridCell(ts: seq<Task>, did: string, member: string, hour: string)
    requires member in Members && hour in Hours
    ensures !StartsWith(CellId(member, hour), MobilePrefix)
    ensures ParseDropTarget(CellId(member, hour)) == GridCell(member, Some(hour))
    ensures Resolve(ts, did, CellId(member, hour)) == Placement(member, Some(hour))
  {
    FixedNamesAreClean(member, hour);
    assert CellId(member, hour)[0] == member[0] != MobilePrefix[0];
    ResolveGridCell(ts, did, member, hour);
  }
}
