/** The new task lists the handlers of `TodoApp` build from the old one before
    storing them: the input guard, removal by id, and the three per-task
    rewrites (edit, toggle, reclassification by drop). */
module TaskOps {
  import opened Tasks
  import opened Text
  import opened Seqs

  /** The guard of `addTask` and `saveEditedTask`: the name must not be empty
      once trimmed and the date must not be empty. Equivalently: the name holds
      some character that is not white space, and a date was given. */
  function ValidInput(name: string, date: DueDate): (ok: bool)
    ensures ok <==> !IsBlank(name) && date != Blank
  {
    Trim(name) != [] && date != Blank
  }

  /** The `disabled` flag of the form's submit button: the trimmed name is
      empty or no date was given. The button is disabled exactly when the
      handler behind it would refuse the fields. */
  function SubmitDisabled(name: string, date: DueDate): (disabled: bool)
    ensures disabled <==> IsBlank(name) || date == Blank
    ensures disabled <==> !ValidInput(name, date)
  {
    Trim(name) == [] || date == Blank
  }

  /** Appending a task keeps the ids unique exactly when the old ids were
      unique and the new id is not among them. */
  lemma AppendKeepsUnique(ts: seq<Task>, t: Task)
    ensures UniqueIds(ts + [t]) <==> UniqueIds(ts) && IdFree(ts, t.id)
  {
    var r := ts + [t];
    if UniqueIds(r) {
      forall i, j | 0 <= i < j < |ts| ensures ts[i].id != ts[j].id {
        assert r[i] == ts[i] && r[j] == ts[j];
      }
      forall i | 0 <= i < |ts| ensures ts[i].id != t.id {
        assert r[i] == ts[i] && r[|ts|] == t;
      }
    }
  }

  /** The list without the tasks whose id is `id`. */
  function Deleted(ts: seq<Task>, id: int): (r: seq<Task>)
    ensures IdFree(r, id)
    ensures |r| <= |ts|
  {
    Filter(ts, (t: Task) => t.id != id)
  }

  /** Deletion keeps exactly the tasks whose id differs, every copy of each,
      in their original order; a missing id leaves the list as it was; unique
      ids stay unique. */
  lemma DeletedSpec(ts: seq<Task>, id: int)
    ensures forall t :: t in Deleted(ts, id) <==> t in ts && t.id != id
    ensures forall t :: multiset(Deleted(ts, id))[t] == if t.id != id then multiset(ts)[t] else 0
    ensures IsSubsequence(Deleted(ts, id), ts)
    ensures IdFree(ts, id) ==> Deleted(ts, id) == ts
    ensures UniqueIds(ts) ==> UniqueIds(Deleted(ts, id))
  {
    forall t ensures t in Deleted(ts, id) <==> t in ts && t.id != id {
      FilterMembers(ts, (t: Task) => t.id != id, t);
    }
    forall t ensures multiset(Deleted(ts, id))[t] == if t.id != id then multiset(ts)[t] else 0 {
      FilterCounts(ts, (t: Task) => t.id != id, t);
    }
    FilterIsSubsequence(ts, (t: Task) => t.id != id);
    if IdFree(ts, id) {
      FilterKeepsAll(ts, (t: Task) => t.id != id);
    }
    if UniqueIds(ts) {
      SubsequenceKeepsUnique(Deleted(ts, id), ts);
    }
  }

  /** With unique ids, deleting an id that is present removes one task. */
  lemma {:induction false} DeletedRemovesOne(ts: seq<Task>, id: int)
    requires UniqueIds(ts) && !IdFree(ts, id)
    ensures |Deleted(ts, id)| == |ts| - 1
  {
    if ts[0].id == id {
      assert IdFree(ts[1..], id);
      FilterKeepsAll(ts[1..], (t: Task) => t.id != id);
    } else {
      DeletedRemovesOne(ts[1..], id);
    }
  }

  /** Dropping tasks from a list with unique ids leaves unique ids. */
  lemma {:induction false} SubsequenceKeepsUnique(sub: seq<Task>, ts: seq<Task>)
    requires IsSubsequence(sub, ts) && UniqueIds(ts)
    ensures UniqueIds(sub)
    decreases |ts|
  {
    if sub != [] {
      assert UniqueIds(ts[1..]);
      if sub[0] == ts[0] && IsSubsequence(sub[1..], ts[1..]) {
        SubsequenceKeepsUnique(sub[1..], ts[1..]);
        forall j | 0 < j < |sub| ensures sub[0].id != sub[j].id {
          SubsequenceMembers(sub[1..], ts[1..], sub[j]);
          var k :| 0 <= k < |ts[1..]| && ts[1..][k] == sub[j];
          assert ts[k + 1] == sub[j];
        }
      } else {
        SubsequenceKeepsUnique(sub, ts[1..]);
      }
    }
  }

  /** The list with name and date of the task(s) with id `id` replaced. Every
      task keeps its position, id, completion flag and creation stamp; tasks
      with another id are untouched. */
  function Edited(ts: seq<Task>, id: int, name: string, date: DueDate): (r: seq<Task>)
    ensures |r| == |ts|
    ensures forall i :: 0 <= i < |ts| ==> r[i].(name := ts[i].name, date := ts[i].date) == ts[i]
    ensures forall i :: 0 <= i < |ts| && ts[i].id == id ==> r[i].name == name && r[i].date == date
    ensures forall i :: 0 <= i < |ts| && ts[i].id != id ==> r[i] == ts[i]
    ensures UniqueIds(r) == UniqueIds(ts)
  {
    seq(|ts|, i requires 0 <= i < |ts| =>
      if ts[i].id == id then ts[i].(name := name, date := date) else ts[i])
  }

  /** The list with the completion flag of the task(s) with id `id` flipped.
      Every task keeps its position and every other field, and its flag
      changes exactly when its id is `id`. */
  function Toggled(ts: seq<Task>, id: int): (r: seq<Task>)
    ensures |r| == |ts|
    ensures forall i :: 0 <= i < |ts| ==> r[i].(completed := ts[i].completed) == ts[i]
    ensures forall i :: 0 <= i < |ts| ==> (r[i].completed != ts[i].completed <==> ts[i].id == id)
    ensures UniqueIds(r) == UniqueIds(ts)
  {
    seq(|ts|, i requires 0 <= i < |ts| =>
      if ts[i].id == id then ts[i].(completed := !ts[i].completed) else ts[i])
  }

  /** The list with the completion flag of the task(s) with id `id` set to
      `target`. Every task keeps its position and every other field. */
  function Reclassified(ts: seq<Task>, id: int, target: bool): (r: seq<Task>)
    ensures |r| == |ts|
    ensures forall i :: 0 <= i < |ts| ==> r[i].(completed := ts[i].completed) == ts[i]
    ensures forall i :: 0 <= i < |ts| ==> r[i].completed == (if ts[i].id == id then target else ts[i].completed)
    ensures UniqueIds(r) == UniqueIds(ts)
  {
    seq(|ts|, i requires 0 <= i < |ts| =>
      if ts[i].id == id then ts[i].(completed := target) else ts[i])
  }

  /** Toggling the same id twice gives back the original list. */
  lemma ToggleTwiceRestores(ts: seq<Task>, id: int)
    ensures Toggled(Toggled(ts, id), id) == ts
  {
    var once := Toggled(ts, id);
    var twice := Toggled(once, id);
    forall i | 0 <= i < |ts| ensures twice[i] == ts[i] {
      assert once[i].id == ts[i].id;
    }
  }

  /** Saving the same edit twice changes nothing the first save did not. */
  lemma EditTwiceIsEditOnce(ts: seq<Task>, id: int, name: string, date: DueDate)
    ensures Edited(Edited(ts, id, name, date), id, name, date) == Edited(ts, id, name, date)
  {
    var once := Edited(ts, id, name, date);
    var twice := Edited(once, id, name, date);
    forall i | 0 <= i < |ts| ensures twice[i] == once[i] {
      assert once[i].id == ts[i].id;
    }
  }

  /** Reclassifying to the flag the matching tasks already have changes nothing. */
  lemma ReclassifyToSameIsNoOp(ts: seq<Task>, id: int, target: bool)
    requires forall i :: 0 <= i < |ts| && ts[i].id == id ==> ts[i].completed == target
    ensures Reclassified(ts, id, target) == ts
  {
    var r := Reclassified(ts, id, target);
    forall i | 0 <= i < |ts| ensures r[i] == ts[i] {
      assert r[i].(completed := ts[i].completed) == ts[i];
    }
  }

  /** Reclassifying to the opposite of the flag the matching tasks have is a toggle. */
  lemma ReclassifyToOtherIsToggle(ts: seq<Task>, id: int, target: bool)
    requires forall i :: 0 <= i < |ts| && ts[i].id == id ==> ts[i].completed == !target
    ensures Reclassified(ts, id, target) == Toggled(ts, id)
  {
    var r := Reclassified(ts, id, target);
    var t := Toggled(ts, id);
    forall i | 0 <= i < |ts| ensures r[i] == t[i] {
      assert r[i].(completed := ts[i].completed) == ts[i];
      assert t[i].(completed := ts[i].completed) == ts[i];
    }
  }
}
