# Task board: placement and list reconciliation

This project models the core of a small team-scheduling board. The board is a
grid of four members × ten hour marks. Users create tasks from a draft form,
drag them to another cell or lane, and delete them with a double-click. Every
change goes to a hosted record store, and the in-memory list is a cache of the
store's rows.

What is modelled:

- **The controller** (`TaskBoard.Board`, from `src/App.tsx`). A class holds the
  task list and the draft form. Its methods are the refresh, submit, delete and
  drag-end handlers. Each method takes the store's replies as inputs and returns
  the store calls it issued, so "no store call" can be stated as `calls == []`.
  The confirmation dialog is a boolean input. `Board.Valid()` is the invariant
  that no task in the list has a `time` property.
- **The pure transforms the controller applies** (`App`):
  - trimming `HH:MM:SS` to `HH:MM` on refresh;
  - filtering out an id on delete;
  - rewriting member and start time on a move;
  - parsing the two drop-target schemes, `"<member>-<time>"` grid cells and
    `"mobile-<time>"` lanes, and resolving the new member and start time.
- **The three views** (`DesktopView`, `MobileView`, `TaskCard`):
  - the droppable ids each view builds;
  - the filter that decides which tasks a cell or lane lists;
  - the quick-add update of the draft;
  - the draggable id, the priority badge and the four-character id tag.
- **JavaScript semantics the code relies on** (`Text`, `Seqs`): `split`,
  `replace`, `substring`, `slice(-4)`, `String(id)` and `Array.filter`.

`TaskBoard.KickoffScenario` is a client of the class. It creates "Kickoff" for
田中 at 09:00, drops it on `"佐藤-10:00"`, deletes it, and asserts the list
after each step.

Behaviours of the code worth knowing:

- Only the empty title is rejected. A whitespace-only title is submitted
  (`src/App.tsx:132`).
- A drop on the cell the task already occupies still issues the store update.
  There is no same-slot check.
- A delete removes every task with the id. This is exactly one task when ids
  are distinct.
- A mobile drop keeps the dragged task's member only when it is non-empty.
  Otherwise the member becomes `"未定"`, and a `"未定"` task shows in no lane.
- `src/App.tsx` has no local-storage store; only the unused `App copy` files keep one.

## Model

| member | source | states |
|---|---|---|
| App.InitialDraft | src/App.tsx:107-114 | the initial draft has an empty title, the first member, start 09:00, end 11:00, today's date, low priority and no `time` key |
| App.NewRowOf | src/App.tsx:136-143 | the insert sends the draft's title, member, startTime, endTime, date and priority; a `time` key on the draft is not sent |
| App.FixedNamesAreClean | src/App.tsx:34-35 | no fixed member or hour contains '-'; every hour has five characters; no member starts with 'm' |
| App.NormalizeOnlyTrimsTimes | src/App.tsx:62-66 | refresh normalisation keeps length, order and every field except start_time/end_time; each of those stays present or absent, becomes exactly its first five characters when it has at least five, and is kept whole when it has at most five |
| App.NormalizeIdempotent | src/App.tsx:62-66 | normalising twice equals normalising once |
| App.FetchedRows | src/App.tsx:53-67 | a refresh installs one task per listed row, in the store's order, with the row's id; no task has a `time` key; the list is already normalised |
| App.DeleteRemovesExactlyThatId | src/App.tsx:179 | after the delete filter, a task with the deleted id occurs zero times; any other task occurs as often as before |
| App.DeleteKeepsOrder | src/App.tsx:179 | the survivors of a delete are a subsequence of the old list, so their relative order is kept |
| App.DeleteOneOfDistinct | src/App.tsx:179 | with distinct ids, deleting the id of the task at position i gives the list without exactly that position |
| App.FindByDraggableId | src/App.tsx:194 | the lookup by draggable id returns a task of the list whose decimal id is the draggable id; it returns nothing exactly when no task matches |
| App.FindByDraggableIdUnique | src/App.tsx:194 | with distinct ids, looking up a task's own decimal id finds that task |
| App.MoveOnlyPlaces | src/App.tsx:199-201 | a move keeps length and order; the matching task gets the new member and start_time; its id, title, end_time, priority, created_at and time are kept; every other task is unchanged |
| App.MoveIdempotent | src/App.tsx:199-201 | applying the same move twice equals applying it once |
| App.MoveChangesAtMostOne | src/App.tsx:199-201 | with distinct ids, a move changes at most one task |
| App.MoveKeepsInvariants | src/App.tsx:199-201 | a move keeps ids distinct and adds no `time` key |
| App.ResolveMobileLane | src/App.tsx:192-194 | `"mobile-"+h` resolves to time h; the member is "未定" when no task has the draggable id; with distinct ids it is the matching task's member, or "未定" when that member is empty |
| App.ResolveGridCell | src/App.tsx:195-197 | `m+"-"+h` with no '-' in m or h, not starting with "mobile-", parses as the grid cell (m, h) and resolves to exactly (m, h) |
| App.ResolveFixedGridCell | src/App.tsx:192-197 | for every fixed member and hour, the desktop cell id `m-h` does not start with "mobile-", takes the grid branch and resolves to exactly (m, h) |
| App.MobileMarkerWins | src/App.tsx:192-193 | a cell id of a member named "mobile" is read as a mobile lane, and its member comes from the dragged task |
| App.DashInMemberMisreads | src/App.tsx:196 | a member name with a '-' in it is cut at the '-': the cell resolves to the part before it, with the part after it as the time |
| TaskBoard.Board.constructor | src/App.tsx:46-114 | on mount the list is empty and the draft is the initial draft |
| TaskBoard.Board.SetInput | src/App.tsx:251-279 | a form edit replaces the draft and leaves the list alone |
| TaskBoard.Board.FetchTasks | src/App.tsx:51-72 | issues one list call; on success the list becomes the normalised rows; on error the list is unchanged; the draft is never touched |
| TaskBoard.Board.AddTask | src/App.tsx:131-166 | an empty title issues no call and changes nothing; otherwise the draft is inserted; if the insert returns rows and the notification and badge calls return normally, the list is refreshed and only the title is reset to ""; if the insert fails or those calls throw, nothing else happens |
| TaskBoard.Board.DeleteTask | src/App.tsx:169-182 | declining issues no call and changes nothing; confirming issues one delete by id; on success the list is the old list without that id; on error it is unchanged |
| TaskBoard.Board.DeleteCard | src/components/TaskCard.tsx:33 | double-clicking a card deletes by that card's own id; after a confirmed, successful delete the card's task is gone from the list |
| TaskBoard.Board.OnDragEnd | src/App.tsx:184-216 | with no destination: no call, no change; otherwise the update for the resolved (member, start time) is always issued first; the list becomes the moved list; if the update fails, a refresh follows and replaces the list when the listing succeeds |
| DesktopView.RenderCell | src/components/DesktopView.tsx:21-41 | the cell's droppable id is `member-hour`; its quick-add button shows exactly when no task of the list passes the cell filter |
| DesktopView.CellIdsDistinct | src/components/DesktopView.tsx:18-22 | two fixed cell ids are equal exactly when their members and hours are equal, so the 40 ids are pairwise distinct |
| DesktopView.CellTasksExactly | src/components/DesktopView.tsx:23 | a cell lists exactly the tasks with that member and `time == hour`, with their multiplicity, in list order |
| DesktopView.CellsEmptyOnBoard | src/components/DesktopView.tsx:23 | for any list without `time` keys, which is every controller list, every cell is empty and shows its quick-add button |
| DesktopView.DroppedTaskMissingFromCell | src/components/DesktopView.tsx:23 | a task dropped on cell (m, h) gets member m and start time h, but the cell as written does not list it |
| DesktopView.DroppedTaskLandsInCell | src/components/DesktopView.tsx:23 | with the filter on start_time, a task dropped on a fixed cell is listed in that cell and in no other |
| DesktopView.QuickAddKeepsStart | src/components/DesktopView.tsx:39 | the quick-add as written changes only member and `time`; a submitted draft is inserted at the draft's old start time, not at the clicked hour |
| DesktopView.QuickAddAtStartTargetsCell | src/components/DesktopView.tsx:39 | the corrected quick-add inserts the draft at the clicked member and hour and keeps every other field |
| MobileView.RenderLane | src/components/MobileView.tsx:8-36 | the lane's droppable id is `mobile-hour`; its quick-add button shows exactly when no task passes the lane filter |
| MobileView.LaneIdRoundTrip | src/components/MobileView.tsx:9 | every lane id starts with "mobile-", parses as a mobile lane and resolves to its own hour, for any hour string |
| MobileView.LaneIdsAreNotCellIds | src/components/MobileView.tsx:9 | no lane id equals a fixed grid cell id |
| MobileView.LaneTasksExactly | src/components/MobileView.tsx:10-13 | a lane lists exactly the tasks whose start_time prefix of length 5 is the hour and whose member is a fixed member, with their multiplicity, in list order |
| MobileView.OutsideMembersInNoLane | src/components/MobileView.tsx:12 | a task whose member is not a fixed member, such as "未定", is in no lane |
| MobileView.AtMostOneLane | src/components/MobileView.tsx:8-13 | a task listed in lanes h1 and h2 has h1 == h2 |
| MobileView.DroppedTaskLandsInLane | src/components/MobileView.tsx:10-13 | a task of a fixed member dropped on a fixed lane keeps its member and is listed in that lane and in no other |
| MobileView.DroppedMemberlessTaskVanishes | src/components/MobileView.tsx:12 | a task with an empty member dropped on any lane gets member "未定" and is then listed in no lane |
| MobileView.LaneQuickAddOnlyStart | src/components/MobileView.tsx:34 | the lane quick-add changes only the draft's startTime, so a submitted draft is inserted at that hour |
| TaskCard.DraggableIdIdentifies | src/components/TaskCard.tsx:27 | with distinct ids, a card's draggable id matches only its own task: the lookup finds it and a move changes no other task |
| TaskCard.PriorityBadge | src/components/TaskCard.tsx:24-45 | "至急" in the error colour exactly for priority "high"; "通常" in the info colour for every other value, absent included |
| TaskCard.IdTag | src/components/TaskCard.tsx:49 | the tag is a suffix of the decimal id, at most four characters long; it is exactly four characters when the id has at least four, and the whole id when the id has at most four |
| TaskCard.IdTagWhole | src/components/TaskCard.tsx:49 | ids 0 to 9999 appear in full in the tag |

## Left out

- The record store client (`src/supabaseClient.ts`) and query building. The store is abstract: each call's reply is an input (`Store.Reply`). The store's own row state is not modelled.
- The realtime subscription and its teardown (`src/App.tsx:80-100`). Its only effect is "on any change, refresh", which is `Board.FetchTasks`.
- Interleavings of awaits. The handlers use the `tasks` and `input` of the render that started them: `deleteTask` filters the captured list, and `addTask` resets the captured draft. A refresh or a form edit that lands during an await would be overwritten. The model runs each operation to completion with nothing in between.
- Notification permission, notifications and app badges (`src/App.tsx:38-43`, `103`, `152-161`). They are platform I/O, and line 103 is unreachable after the `return`. What they do is not modelled. Whether they return normally is modelled: it is the `notified` input of `TaskBoard.Board.AddTask`, because a throw there skips the refresh and the title reset.
- Window-resize tracking and the mobile/desktop switch (`src/App.tsx:117-124`, `290`). Both views are modelled, so it does not matter which one is shown.
- Locale date formatting. Today's date is the constructor's `today` parameter.
- All markup, styling classes and drag-and-drop library wiring. This includes the mobile card's member label.
- `vite.config.js` and `tailwind.config.js`: build and styling configuration only.
- The `date` field of the task type. It is never selected, so in-memory tasks do not carry it.
- Null `title` or `member` columns are not modelled; both are strings. Ids are integers, not arbitrary JavaScript numbers.
- App.FindByDraggableId: its contract does not state that it returns the first match. It states only that a returned task matches, and that nothing is returned exactly when no task matches. Uniqueness under distinct ids is `App.FindByDraggableIdUnique`.
- Text.Split models `split` for a one-character separator only, which is the only form the drop handler uses.

## Findings

| source | as written | input that shows it | evidently intended | confidence | as-written member | corrected member |
|---|---|---|---|---|---|---|
| src/components/DesktopView.tsx:23 | the cell filter compares `t.time`, a property controller tasks never carry | drop task 1 on `"佐藤-10:00"`: the task now has member 佐藤 and start_time 10:00, but cell 佐藤/10:00 stays empty, as does every other cell | compare the (trimmed) `start_time`, as the mobile lane does | high that no task is ever listed; medium on the intended filter; not executed | DesktopView.DroppedTaskMissingFromCell | DesktopView.DroppedTaskLandsInCell |
| src/components/DesktopView.tsx:39 | the empty-cell quick-add writes a `time` key on the draft, which the insert ignores | with draft start 09:00, click "+" on 鈴木/14:00 and submit: the task is inserted at 09:00 | set `startTime` to the cell's hour | medium; not executed | DesktopView.QuickAddKeepsStart | DesktopView.QuickAddAtStartTargetsCell |
