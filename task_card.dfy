/** The task card: its draggable id, its priority badge and its short id tag. */
module TaskCard {
  import opened Options
  import opened Text
  import opened App

  /** `String(task.id)`, the id the drag library reports for this card. */
  function DraggableId(t: Task): string {
    DecimalString(t.id)
  }

  /** With distinct ids, a card's draggable id picks out its own task and no
      other: the drop handler's lookup finds it, and a move rewrites only it. */
  lemma DraggableIdIdentifies(ts: seq<Task>, i: nat, k: nat, member: string, startTime: Option<string>)
    requires DistinctIds(ts) && i < |ts| && k < |ts|
    ensures FindByDraggableId(ts, DraggableId(ts[i])) == Some(ts[i])
    ensures DraggableId(ts[k]) == DraggableId(ts[i]) <==> k == i
    ensures k != i ==> MoveTasks(ts, DraggableId(ts[i]), member, startTime)[k] == ts[k]
  {
    FindByDraggableIdUnique(ts, i);
    DecimalInjective(ts[k].id, ts[i].id);
  }

  datatype Badge = Badge(caption: string, color: string)

  /** The priority badge: "至急" in the error colour for "high", and "通常" in
      the info colour for anything else, an absent priority included. */
  function PriorityBadge(priority: Option<string>): (b: Badge)
    ensures b.caption == "至急" <==> priority == Some("high")
    ensures b.caption == "通常" <==> priority != Some("high")
    ensures b.color == "badge-error text-white" <==> b.caption == "至急"
    ensures b.color == "badge-info text-white" <==> b.caption == "通常"
  {
    var color := if priority == Some("high") then "badge-error text-white" else "badge-info text-white";
    var caption := if priority == Some("high") then "至急" else "通常";
    Badge(caption, color)
  }

  /** `task.id.toString().slice(-4)`: the last four characters of the id. */
  function IdTag(id: int): (tag: string)
    ensures |tag| <= 4 && |tag| <= |DecimalString(id)|
    ensures tag == DecimalString(id)[|DecimalString(id)| - |tag|..]
    ensures |DecimalString(id)| >= 4 ==> |tag| == 4
    ensures |DecimalString(id)| <= 4 ==> tag == DecimalString(id)
  {
    TakeLast(DecimalString(id), 4)
  }

  function Pow10(k: nat): (p: nat)
    ensures p >= 1
  {
    if k == 0 then 1 else 10 * Pow10(k - 1)
  }

  /** A number below 10^k has at most k digits. */
  lemma {:induction false} NatStringLength(n: nat, k: nat)
    requires 1 <= k && n < Pow10(k)
    ensures |NatString(n)| <= k
  {
    if n >= 10 {
      assert Pow10(1) == 10;
      assert k > 1;
      assert n / 10 < Pow10(k - 1);
      NatStringLength(n / 10, k - 1);
    }
  }

  /** Ids from 0 to 9999 show in full in the tag. */
  lemma IdTagWhole(id: int)
    requires 0 <= id < 10000
    ensures IdTag(id) == DecimalString(id)
  {
    assert Pow10(4) == 10000;
    NatStringLength(id, 4);
  }
}
