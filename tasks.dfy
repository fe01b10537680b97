/** The task handlers: every read and write is scoped to the calling user's
    id, a task that is absent and a task owned by someone else are the same
    404, and any store fault is a 500 with a fixed message. */
module Tasks {
  import opened Wrappers
  import opened JsString

  type TaskId = string
  type UserId = string

  datatype Task = Task(id: TaskId, userId: UserId, text: string, completed: bool, createdAt: nat)

  /** The fixed messages of the replies. */
  datatype Msg =
    | TextRequired | InvalidTaskId | TaskNotFound | TaskDeleted
    | ListFailed | CreateFailed | UpdateFailed | DeleteFailed

  datatype Payload = Message(msg: Msg) | One(task: Task) | Many(tasks: seq<Task>)

  datatype Reply = Reply(status: int, payload: Payload)

  /** The library's `ObjectId.isValid` together with the cast a query applies
      to the id string: `None` for an id the check rejects. */
  type IdCast = string -> Option<TaskId>

  /** No two tasks share an id. */
  ghost predicate UniqueIds(ts: seq<Task>) {
    forall i, j :: 0 <= i < j < |ts| ==> ts[i].id != ts[j].id
  }

  predicate HasId(ts: seq<Task>, id: TaskId) {
    exists t :: t in ts && t.id == id
  }

  /** The filter `{ userId }` of the queries. */
  function OwnedBy(ts: seq<Task>, uid: UserId): (r: seq<Task>)
    ensures |r| <= |ts|
  {
    if ts == [] then []
    else
      var last := ts[|ts| - 1];
      OwnedBy(ts[..|ts| - 1], uid) + (if last.userId == uid then [last] else [])
  }

  /** The filter keeps exactly the tasks of `uid`. */
  lemma {:induction false} OwnedByMembers(ts: seq<Task>, uid: UserId)
    ensures forall t :: t in OwnedBy(ts, uid) <==> t in ts && t.userId == uid
  {
    if ts != [] {
      var init := ts[..|ts| - 1];
      OwnedByMembers(init, uid);
      assert ts == init + [ts[|ts| - 1]];
    }
  }

  /** The filter of a single task. */
  lemma OwnedBySingle(t: Task, uid: UserId)
    ensures OwnedBy([t], uid) == if t.userId == uid then [t] else []
  {
    assert [t][..0] == [];
  }

  /** The filter of a concatenation is the concatenation of the filters. */
  lemma {:induction false} OwnedByAppend(a: seq<Task>, b: seq<Task>, uid: UserId)
    ensures OwnedBy(a + b, uid) == OwnedBy(a, uid) + OwnedBy(b, uid)
    decreases |b|
  {
    if b != [] {
      var b' := b[..|b| - 1];
      assert (a + b)[..|a + b| - 1] == a + b';
      OwnedByAppend(a, b', uid);
    } else {
      assert a + b == a;
    }
  }

  /** The sort `{ createdAt: -1 }`: newest first. */
  ghost predicate NewestFirst(ts: seq<Task>) {
    forall i, j :: 0 <= i < j < |ts| ==> ts[i].createdAt >= ts[j].createdAt
  }

  function InsertByAge(t: Task, ts: seq<Task>): (r: seq<Task>)
    requires NewestFirst(ts)
    ensures NewestFirst(r)
    ensures multiset(r) == multiset(ts) + multiset{t}
    ensures |r| == |ts| + 1 && (r[0] == t || (ts != [] && r[0] == ts[0]))
  {
    if ts == [] || t.createdAt >= ts[0].createdAt then [t] + ts
    else
      var rest := InsertByAge(t, ts[1..]);
      assert ts == [ts[0]] + ts[1..];
      assert ts[0].createdAt >= rest[0].createdAt;
      [ts[0]] + rest
  }

  /** Sorts newest first; tasks with equal timestamps may come in any order,
      which is all the database promises for them. */
  function SortNewestFirst(ts: seq<Task>): (r: seq<Task>)
    ensures NewestFirst(r)
    ensures multiset(r) == multiset(ts)
  {
    if ts == [] then []
    else
      assert ts == [ts[0]] + ts[1..];
      InsertByAge(ts[0], SortNewestFirst(ts[1..]))
  }

  /** The filter `{ _id: id, userId }`. */
  predicate Matches(t: Task, id: TaskId, uid: UserId) {
    t.id == id && t.userId == uid
  }

  /** The first task matching both the id and the caller; `None` when the id
      is absent or belongs to another user's task. */
  function FindOwned(ts: seq<Task>, id: TaskId, uid: UserId): (r: Option<nat>)
    ensures r.Some? ==> r.value < |ts| && Matches(ts[r.value], id, uid)
    ensures r.Some? ==> forall k :: 0 <= k < r.value ==> !Matches(ts[k], id, uid)
    ensures r.None? ==> forall k :: 0 <= k < |ts| ==> !Matches(ts[k], id, uid)
  {
    if ts == [] then None
    else if Matches(ts[0], id, uid) then Some(0)
    else
      match FindOwned(ts[1..], id, uid)
      case None => None
      case Some(k) => Some(k + 1)
  }

  /** Two task lists that agree on every id and owner have the same match. */
  lemma FindOwnedIgnoresFields(ts: seq<Task>, us: seq<Task>, id: TaskId, uid: UserId)
    requires |ts| == |us|
    requires forall k :: 0 <= k < |ts| ==> ts[k].id == us[k].id && ts[k].userId == us[k].userId
    ensures FindOwned(ts, id, uid) == FindOwned(us, id, uid)
  {
    var a, b := FindOwned(ts, id, uid), FindOwned(us, id, uid);
    if a.Some? && b.Some? {
      assert !(a.value < b.value) && !(b.value < a.value);
    }
  }

  /** The store after `updateTask`: the matched task's `completed` negated. */
  function ToggleOwned(ts: seq<Task>, id: TaskId, uid: UserId): seq<Task> {
    match FindOwned(ts, id, uid)
    case None => ts
    case Some(i) => ts[i := ts[i].(completed := !ts[i].completed)]
  }

  /** The store after `deleteTask`: the matched task removed. */
  function DeleteOwned(ts: seq<Task>, id: TaskId, uid: UserId): seq<Task> {
    match FindOwned(ts, id, uid)
    case None => ts
    case Some(i) => ts[..i] + ts[i + 1..]
  }

  /** Toggling changes exactly the matched task, and only its completion flag;
      without a match nothing changes. */
  lemma ToggleFrame(ts: seq<Task>, id: TaskId, uid: UserId)
    requires UniqueIds(ts)
    ensures |ToggleOwned(ts, id, uid)| == |ts|
    ensures forall k :: 0 <= k < |ts| && !Matches(ts[k], id, uid) ==> ToggleOwned(ts, id, uid)[k] == ts[k]
    ensures forall k :: 0 <= k < |ts| && Matches(ts[k], id, uid) ==>
      ToggleOwned(ts, id, uid)[k] == ts[k].(completed := !ts[k].completed)
  {
  }

  /** Toggling twice restores the store. */
  lemma ToggleTwice(ts: seq<Task>, id: TaskId, uid: UserId)
    ensures ToggleOwned(ToggleOwned(ts, id, uid), id, uid) == ts
  {
    FindOwnedIgnoresFields(ts, ToggleOwned(ts, id, uid), id, uid);
  }

  /** Deleting removes exactly the matched task, keeping the order of the
      others; without a match nothing changes. */
  lemma DeleteFrame(ts: seq<Task>, id: TaskId, uid: UserId)
    requires UniqueIds(ts)
    ensures FindOwned(ts, id, uid).None? ==> DeleteOwned(ts, id, uid) == ts
    ensures FindOwned(ts, id, uid).Some? ==>
      var i := FindOwned(ts, id, uid).value;
      multiset(DeleteOwned(ts, id, uid)) == multiset(ts) - multiset{ts[i]}
      && !HasId(DeleteOwned(ts, id, uid), id)
  {
    match FindOwned(ts, id, uid)
    case None =>
    case Some(i) =>
      assert ts == ts[..i] + [ts[i]] + ts[i + 1..];
      var r := ts[..i] + ts[i + 1..];
      forall t | t in r ensures t.id != id {
        var k :| 0 <= k < |r| && r[k] == t;
        if k < i { assert r[k] == ts[k]; } else { assert r[k] == ts[k + 1]; }
      }
  }

  /** The filter of a list with one task cut out or replaced, in three parts. */
  lemma OwnedBySplice(pre: seq<Task>, mid: seq<Task>, post: seq<Task>, uid: UserId)
    ensures OwnedBy(pre + mid + post, uid) == OwnedBy(pre, uid) + OwnedBy(mid, uid) + OwnedBy(post, uid)
  {
    OwnedByAppend(pre + mid, post, uid);
    OwnedByAppend(pre, mid, uid);
  }

  /** Toggling does not change what any other user sees. */
  lemma ToggleKeepsOtherUsers(ts: seq<Task>, id: TaskId, uid: UserId, other: UserId)
    requires other != uid
    ensures OwnedBy(ToggleOwned(ts, id, uid), other) == OwnedBy(ts, other)
  {
    match FindOwned(ts, id, uid)
    case None =>
    case Some(i) =>
      var t := ts[i];
      var t' := t.(completed := !t.completed);
      var pre, post := ts[..i], ts[i + 1..];
      assert ts == pre + [t] + post;
      assert ToggleOwned(ts, id, uid) == pre + [t'] + post;
      OwnedBySplice(pre, [t], post, other);
      OwnedBySplice(pre, [t'], post, other);
      OwnedBySingle(t, other);
      OwnedBySingle(t', other);
  }

  /** Deleting never shrinks another user's listing. */
  lemma DeleteKeepsOtherUsers(ts: seq<Task>, id: TaskId, uid: UserId, other: UserId)
    requires other != uid
    ensures OwnedBy(DeleteOwned(ts, id, uid), other) == OwnedBy(ts, other)
  {
    match FindOwned(ts, id, uid)
    case None =>
    case Some(i) =>
      var t := ts[i];
      var pre, post := ts[..i], ts[i + 1..];
      assert ts == pre + [t] + post;
      OwnedBySplice(pre, [t], post, other);
      OwnedBySingle(t, other);
      OwnedByAppend(pre, post, other);
  }

  /** A successful delete shortens the caller's own listing by exactly one. */
  lemma DeleteShrinksOwnListByOne(ts: seq<Task>, id: TaskId, uid: UserId)
    requires FindOwned(ts, id, uid).Some?
    ensures |OwnedBy(DeleteOwned(ts, id, uid), uid)| == |OwnedBy(ts, uid)| - 1
  {
    var i := FindOwned(ts, id, uid).value;
    var t := ts[i];
    var pre, post := ts[..i], ts[i + 1..];
    assert ts == pre + [t] + post;
    OwnedBySplice(pre, [t], post, uid);
    OwnedByAppend(pre, post, uid);
    OwnedBySingle(t, uid);
  }

  /** Appending a task adds it to its owner's listing and to no other. */
  lemma AddExtendsOwnList(ts: seq<Task>, t: Task, uid: UserId)
    ensures OwnedBy(ts + [t], uid) == OwnedBy(ts, uid) + (if t.userId == uid then [t] else [])
  {
    assert (ts + [t])[..|ts|] == ts;
  }

  /** The task collection, in insertion order. `completedDefault` is the
      task schema's default for `completed`, one value for the whole store. */
  class TaskStore {
    var tasks: seq<Task>
    const completedDefault: bool

    ghost predicate Valid()
      reads this
    {
      UniqueIds(tasks)
    }

    constructor (completedDefault: bool)
      ensures Valid() && tasks == [] && this.completedDefault == completedDefault
    {
      tasks := [];
      this.completedDefault := completedDefault;
    }

    /** `getAllTasks`: the caller's tasks, newest first, and no one else's. */
    method GetAllTasks(userId: UserId, fault: bool) returns (r: Reply)
      ensures fault ==> r == Reply(500, Message(ListFailed))
      ensures !fault ==> r.status == 200 && r.payload.Many?
      ensures !fault ==> NewestFirst(r.payload.tasks)
      ensures !fault ==> multiset(r.payload.tasks) == multiset(OwnedBy(tasks, userId))
      ensures !fault ==> forall t :: t in r.payload.tasks <==> t in tasks && t.userId == userId
    {
      if fault {
        return Reply(500, Message(ListFailed));
      }
      var listed := SortNewestFirst(OwnedBy(tasks, userId));
      OwnedByMembers(tasks, userId);
      assert forall t :: t in listed <==> t in multiset(OwnedBy(tasks, userId));
      r := Reply(200, Many(listed));
    }

    /** `addTask`: a text that is missing or blank after trimming is a 400;
        otherwise one task with the trimmed text and the caller's id is
        appended and returned with 201. `newId` and `createdAt` are
        what the database supplies, `completed` starts at the schema default;
        an id already in use fails like any other store fault. */
    method AddTask(userId: UserId, text: Option<string>, newId: TaskId, createdAt: nat,
                   fault: bool) returns (r: Reply)
      requires Valid()
      modifies this
      ensures Valid()
      ensures text.None? || Trim(text.value) == "" ==>
        r == Reply(400, Message(TextRequired)) && tasks == old(tasks)
      ensures text.Some? && Trim(text.value) != "" && (fault || HasId(old(tasks), newId)) ==>
        r == Reply(500, Message(CreateFailed)) && tasks == old(tasks)
      ensures text.Some? && Trim(text.value) != "" && !fault && !HasId(old(tasks), newId) ==>
        var task := Task(newId, userId, Trim(text.value), completedDefault, createdAt);
        r == Reply(201, One(task)) && tasks == old(tasks) + [task]
    {
      if text.None? || Trim(text.value) == "" {
        return Reply(400, Message(TextRequired));
      }
      var cleanText := Trim(text.value);
      if fault || HasId(tasks, newId) {
        return Reply(500, Message(CreateFailed));
      }
      var task := Task(newId, userId, cleanText, completedDefault, createdAt);
      tasks := tasks + [task];
      r := Reply(201, One(task));
    }

    /** `updateTask`: an id the check rejects is a 400 before the store is
        touched; no task with that id owned by the caller is a 404; otherwise
        the task's completion flag is negated and the task returned. A fault
        of the lookup or of the save is a 500 and leaves the store as it was. */
    method UpdateTask(userId: UserId, id: string, cast: IdCast, lookupFault: bool, saveFault: bool)
      returns (r: Reply)
      requires Valid()
      modifies this
      ensures Valid()
      ensures cast(id).None? ==> r == Reply(400, Message(InvalidTaskId)) && tasks == old(tasks)
      ensures cast(id).Some? && lookupFault ==>
        r == Reply(500, Message(UpdateFailed)) && tasks == old(tasks)
      ensures cast(id).Some? && !lookupFault && FindOwned(old(tasks), cast(id).value, userId).None? ==>
        r == Reply(404, Message(TaskNotFound)) && tasks == old(tasks)
      ensures cast(id).Some? && !lookupFault && FindOwned(old(tasks), cast(id).value, userId).Some? ==>
        var i := FindOwned(old(tasks), cast(id).value, userId).value;
        if saveFault then r == Reply(500, Message(UpdateFailed)) && tasks == old(tasks)
        else (tasks == ToggleOwned(old(tasks), cast(id).value, userId)
          && r == Reply(200, One(tasks[i])) && tasks[i].completed == !old(tasks)[i].completed)
    {
      var key := cast(id);
      if key.None? {
        return Reply(400, Message(InvalidTaskId));
      }
      if lookupFault {
        return Reply(500, Message(UpdateFailed));
      }
      var found := FindOwned(tasks, key.value, userId);
      if found.None? {
        return Reply(404, Message(TaskNotFound));
      }
      var i := found.value;
      var task := tasks[i].(completed := !tasks[i].completed);
      if saveFault {
        return Reply(500, Message(UpdateFailed));
      }
      tasks := tasks[i := task];
      r := Reply(200, One(task));
    }

    /** `deleteTask`: same id check and same 404 as `updateTask`; otherwise
        the caller's task with that id is removed and 200 is returned. */
    method DeleteTask(userId: UserId, id: string, cast: IdCast, fault: bool) returns (r: Reply)
      requires Valid()
      modifies this
      ensures Valid()
      ensures cast(id).None? ==> r == Reply(400, Message(InvalidTaskId)) && tasks == old(tasks)
      ensures cast(id).Some? && fault ==> r == Reply(500, Message(DeleteFailed)) && tasks == old(tasks)
      ensures cast(id).Some? && !fault && FindOwned(old(tasks), cast(id).value, userId).None? ==>
        r == Reply(404, Message(TaskNotFound)) && tasks == old(tasks)
      ensures cast(id).Some? && !fault && FindOwned(old(tasks), cast(id).value, userId).Some? ==>
        r == Reply(200, Message(TaskDeleted)) && tasks == DeleteOwned(old(tasks), cast(id).value, userId)
    {
      var key := cast(id);
      if key.None? {
        return Reply(400, Message(InvalidTaskId));
      }
      if fault {
        return Reply(500, Message(DeleteFailed));
      }
      var found := FindOwned(tasks, key.value, userId);
      if found.None? {
        return Reply(404, Message(TaskNotFound));
      }
      var i := found.value;
      assert tasks == tasks[..i] + [tasks[i]] + tasks[i + 1..];
      tasks := tasks[..i] + tasks[i + 1..];
      r := Reply(200, Message(TaskDeleted));
    }
  }
}
