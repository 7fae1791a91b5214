/** The mobile view: one drop lane per hour, the tasks each lane lists, and
    the quick-add button of an empty lane. */
module MobileView {
  import opened Options
  import opened Text
  import opened Seqs
  import opened App

  /** The droppable id of a lane, `mobile-${time}`. */
  function LaneId(hour: string): string {
    MobilePrefix + hour
  }

  /** The lane filter: the first five characters of the start time are the
      lane's hour, and the member is one of the fixed members. */
  function InLane(hour: string): Task -> bool {
    (t: Task) => TrimSeconds(t.startTime) == Some(hour) && t.member in Members
  }

  /** The tasks a lane lists, in list order. */
  function LaneTasks(ts: seq<Task>, hour: string): seq<Task> {
    Filter(ts, InLane(hour))
  }

  /** What one lane shows: its id, its cards, and whether the "+ 追加" button is there. */
  datatype Lane = Lane(droppableId: string, cards: seq<Task>, showsQuickAdd: bool)

  function RenderLane(ts: seq<Task>, hour: string): (l: Lane)
    ensures l.droppableId == LaneId(hour)
    ensures l.showsQuickAdd <==> forall k :: 0 <= k < |ts| ==> !InLane(hour)(ts[k])
  {
    var cards := LaneTasks(ts, hour);
    FilterEmptyIff(ts, InLane(hour));
    Lane(LaneId(hour), cards, |cards| == 0)
  }

  /** The lane quick-add, `{ ...input, startTime: time }`. */
  function LaneQuickAdd(d: Draft, hour: string): Draft {
    d.(startTime := hour)
  }

  /** Every lane id, for any hour, takes the mobile branch of the drop handler
      and resolves to that hour. */
  lemma LaneIdRoundTrip(ts: seq<Task>, did: string, hour: string)
    ensures StartsWith(LaneId(hour), MobilePrefix)
    ensures ParseDropTarget(LaneId(hour)) == MobileLane(hour)
    ensures Resolve(ts, did, LaneId(hour)).startTime == Some(hour)
  {
    ResolveMobileLane(ts, did, hour);
  }

  /** Lane ids and the fixed grid's cell ids never coincide. */
  lemma LaneIdsAreNotCellIds(hour: string, member: string, cellHour: string)
    requires member in Members && cellHour in Hours
    ensures LaneId(hour) != CellId(member, cellHour)
  {
    LaneIdRoundTrip([], "", hour);
    ResolveFixedGridCell([], "", member, cellHour);
  }

  /** A lane lists exactly the tasks of a fixed member whose start time begins
      with its hour, each as often as the list holds it, in list order. */
  lemma LaneTasksExactly(ts: seq<Task>, hour: string, t: Task)
    ensures multiset(LaneTasks(ts, hour))[t]
         == if TrimSeconds(t.startTime) == Some(hour) && t.member in Members then multiset(ts)[t] else 0
    ensures IsSubsequence(LaneTasks(ts, hour), ts)
  {
    FilterCount(ts, InLane(hour), t);
    FilterIsSubsequence(ts, InLane(hour));
  }

  /** A task whose member is not a fixed member, "未定" among them, is in no lane. */
  lemma OutsideMembersInNoLane(ts: seq<Task>, t: Task, hour: string)
    requires t.member !in Members
    ensures t !in LaneTasks(ts, hour)
  {
  }

  /** The hours are distinct, so a task is listed in at most one lane. */
  lemma AtMostOneLane(ts: seq<Task>, t: Task, h1: string, h2: string)
    requires t in LaneTasks(ts, h1) && t in LaneTasks(ts, h2)
    ensures h1 == h2
  {
  }

  /** A task of a fixed member dropped on a lane of the fixed hours keeps its
      member and is listed in that lane and in no other. */
  lemma DroppedTaskLandsInLane(ts: seq<Task>, i: nat, hour: string, h2: string)
    requires DistinctIds(ts) && i < |ts|
    requires ts[i].member in Members && hour in Hours
    ensures
      var did := DecimalString(ts[i].id);
      var p := Resolve(ts, did, LaneId(hour));
      var moved := MoveTasks(ts, did, p.member, p.startTime);
      && moved[i].member == ts[i].member
      && moved[i] in LaneTasks(moved, hour)
      && (moved[i] in LaneTasks(moved, h2) ==> h2 == hour)
  {
    var did := DecimalString(ts[i].id);
    LaneIdRoundTrip(ts, did, hour);
    ResolveMobileLane(ts, did, hour);
    FixedNamesAreClean(Members[0], hour);
    var moved := MoveTasks(ts, did, ts[i].member, Some(hour));
    assert moved[i].member == ts[i].member && moved[i].startTime == Some(hour);
    assert Take(hour, 5) == hour;
    assert InLane(hour)(moved[i]);
  }

  /** A task with an empty member dropped on a lane falls back to "未定" and
      then disappears from every lane. */
  lemma DroppedMemberlessTaskVanishes(ts: seq<Task>, i: nat, hour: string, h2: string)
    requires DistinctIds(ts) && i < |ts| && ts[i].member == ""
    ensures
      var did := DecimalString(ts[i].id);
      var p := Resolve(ts, did, LaneId(hour));
      var moved := MoveTasks(ts, did, p.member, p.startTime);
      && moved[i].member == Unassigned
      && moved[i] !in LaneTasks(moved, h2)
  {
    var did := DecimalString(ts[i].id);
    LaneIdRoundTrip(ts, did, hour);
    ResolveMobileLane(ts, did, hour);
    assert Unassigned !in Members;
  }

  /** The lane quick-add changes only the draft's start time, so a submitted
      draft is booked at that lane's hour. */
  lemma LaneQuickAddOnlyStart(d: Draft, hour: string)
    ensures LaneQuickAdd(d, hour).(startTime := d.startTime) == d
    ensures NewRowOf(LaneQuickAdd(d, hour)) == NewRowOf(d).(startTime := hour)
  {
  }
}
