/** The task handlers of `taskController.js`. Each takes the database the
    connection pool reaches, the caller's id (`req.userId`, set by the
    authentication middleware) and the request's parameters and body, and
    answers a row or an error kind. Each request runs as one atomic step. */
module TaskController {
  import opened Common
  import opened Text
  import opened Tables
  import opened Policy
  import opened Db

  /** `POST /tasks`: the group's creator adds a task, PENDING, to the group.
      The checks come in the handler's order: title and group id given, the
      group exists, the caller created it, a given assignee is a member or
      the creator. The title is stored as its VARCHAR(255) column stores it;
      a title the column refuses, or a description holding U+0000, is a
      server error. */
  method CreateTask(db: Store, caller: Id, title: Json, description: Json, groupId: Json, assignedTo: Json)
    returns (r: Result<Task>)
    requires db.Valid()
    modifies db
    ensures db.Valid()
    ensures r.Err? ==> unchanged(db)
    ensures !Truthy(title) || !Truthy(groupId) ==> r == Err(Validation)
    ensures Truthy(title) && Truthy(groupId) && groupId.s !in Keys(old(db.groups), GroupKey) ==> r == Err(NotFound)
    ensures Truthy(title) && Truthy(groupId) && groupId.s in Keys(old(db.groups), GroupKey) ==>
              var g := GroupWithId(old(db.groups), groupId.s).value;
              && (!IsCreator(g, caller) ==> r == Err(Forbidden))
              && (IsCreator(g, caller) && Truthy(assignedTo) && !MayAssign(g, old(db.members), assignedTo.s) ==>
                    r == Err(Validation))
              && (IsCreator(g, caller) && (Truthy(assignedTo) ==> MayAssign(g, old(db.members), assignedTo.s)) ==>
                    (StoreVarchar(title.s, MaxVarchar).None? || RefusedText(description) ==> r == Err(Internal))
                    && (StoreVarchar(title.s, MaxVarchar).Some? && !RefusedText(description) ==> r.Ok?))
    ensures r.Ok? ==>
              && r.value.id == FreshId(old(db.tasks), TaskKey)
              && Some(r.value.title) == StoreVarchar(title.s, MaxVarchar)
              && r.value.description == OrNull(description)
              && r.value.status == Some(Pending) && r.value.groupId == groupId.s
              && r.value.assignedTo == OrNull(assignedTo) && r.value.createdAt == old(db.clock)
              && db.tasks == old(db.tasks) + [r.value]
              && db.users == old(db.users) && db.groups == old(db.groups) && db.members == old(db.members)
              && db.clock == old(db.clock) + 1
  {
    if !Truthy(title) || !Truthy(groupId) {
      return Err(Validation);
    }
    var group := GroupWithId(db.groups, groupId.s);
    if group.None? {
      return Err(NotFound);
    }
    var g := group.value;
    if g.createdBy != caller {
      return Err(Forbidden);
    }
    if Truthy(assignedTo) {
      var assignedCheck := IsMember(db.members, assignedTo.s, groupId.s);
      var isAssigningCreator := g.createdBy == assignedTo.s;
      if !assignedCheck && !isAssigningCreator {
        return Err(Validation);
      }
    }
    var stored := StoreVarchar(title.s, MaxVarchar);
    if stored.None? || RefusedText(description) {
      // the database refuses the INSERT and the catch block answers 500
      return Err(Internal);
    }
    var task := Task(FreshId(db.tasks, TaskKey), stored.value, OrNull(description), Some(Pending),
                     groupId.s, OrNull(assignedTo), db.clock);
    db.InsertTask(task);
    return Ok(task);
  }

  /** `GET /tasks/:groupId`: the group's tasks, newest first, for its
      creator and its members; anyone else is refused. */
  method GetGroupTasks(db: Store, caller: Id, groupId: Id) returns (r: Result<seq<Task>>)
    requires db.Valid()
    ensures groupId !in Keys(db.groups, GroupKey) ==> r == Err(NotFound)
    ensures groupId in Keys(db.groups, GroupKey) ==>
              var g := GroupWithId(db.groups, groupId).value;
              && (!MayView(g, db.members, caller) ==> r == Err(Forbidden))
              && (MayView(g, db.members, caller) ==>
                    && r.Ok?
                    && (forall t :: t in r.value <==> t in db.tasks && t.groupId == groupId)
                    && Descending(r.value, TaskStamp))
  {
    var group := GroupWithId(db.groups, groupId);
    if group.None? {
      return Err(NotFound);
    }
    if group.value.createdBy != caller {
      var isMember := IsMember(db.members, caller, groupId);
      if !isMember {
        return Err(Forbidden);
      }
    }
    var keep := (t: Task) => t.groupId == groupId;
    NewestFirstDescending(db.tasks, keep, TaskStamp);
    return Ok(NewestFirst(db.tasks, keep));
  }

  /** What `PUT /tasks/:taskId` answers, as a typed partial update: the task
      and its group are looked up, the caller's permission and the values are
      checked in the handler's order, a request naming no field is refused,
      and otherwise the supplied fields are written. */
  function UpdateOutcome(groups: seq<Group>, members: set<Membership>, tasks: seq<Task>, caller: Id, taskId: Id,
                         title: Json, description: Json, status: Json, assignedTo: Json): (r: Result<Task>)
    ensures taskId !in Keys(tasks, TaskKey) ==> r == Err(NotFound)
    ensures NoFields(title, description, status, assignedTo) ==> r.Err?
    ensures r.Ok? ==> taskId in Keys(tasks, TaskKey) && r.value.id == taskId
  {
    match IndexOf(tasks, TaskKey, taskId)
    case None => Err(NotFound)
    case Some(i) =>
      match GroupWithId(groups, tasks[i].groupId)
      case None => Err(NotFound)
      case Some(g) =>
        match UpdateRefusal(g, members, caller, title, description, status, assignedTo)
        case Some(e) => Err(e)
        case None =>
          if NoFields(title, description, status, assignedTo) then Err(Validation)
          else Patch(tasks[i], title, description, status, assignedTo)
  }

  /** A successful update writes exactly the supplied fields: a field left
      out keeps its value, a supplied one takes the value sent (`null`
      clearing a nullable column), and the id, group and creation time stay. */
  lemma UpdateWritesSuppliedFields(groups: seq<Group>, members: set<Membership>, tasks: seq<Task>,
                                   caller: Id, taskId: Id, i: nat,
                                   title: Json, description: Json, status: Json, assignedTo: Json)
    requires IndexOf(tasks, TaskKey, taskId) == Some(i)
    requires UpdateOutcome(groups, members, tasks, caller, taskId, title, description, status, assignedTo).Ok?
    ensures var u := UpdateOutcome(groups, members, tasks, caller, taskId, title, description, status, assignedTo).value;
            var t := tasks[i];
            && u.id == t.id && u.groupId == t.groupId && u.createdAt == t.createdAt
            && (title == Undefined ==> u.title == t.title)
            && (title != Undefined ==> title.Str? && StoreVarchar(title.s, MaxVarchar) == Some(u.title))
            && (description == Undefined ==> u.description == t.description)
            && (description != Undefined ==> !RefusedText(description) && u.description == Bound(description))
            && (status == Undefined ==> u.status == t.status)
            && (status != Undefined ==> u.status == Bound(status))
            && (assignedTo == Undefined ==> u.assignedTo == t.assignedTo)
            && (assignedTo != Undefined ==> u.assignedTo == Bound(assignedTo))
  {
  }

  /** Whoever is not the group's creator changes at most the status of a
      task, and only to PENDING or DONE, and must be a member to do so. */
  lemma MemberUpdateOnlyToggles(groups: seq<Group>, members: set<Membership>, tasks: seq<Task>,
                                caller: Id, taskId: Id, i: nat, g: Group,
                                title: Json, description: Json, status: Json, assignedTo: Json)
    requires IndexOf(tasks, TaskKey, taskId) == Some(i)
    requires GroupWithId(groups, tasks[i].groupId) == Some(g) && !IsCreator(g, caller)
    requires UpdateOutcome(groups, members, tasks, caller, taskId, title, description, status, assignedTo).Ok?
    ensures IsMember(members, caller, g.id)
    ensures var u := UpdateOutcome(groups, members, tasks, caller, taskId, title, description, status, assignedTo).value;
            u == tasks[i].(status := u.status) && KnownStatus(u.status)
  {
    MemberMaySetOnlyStatus(g, members, caller, title, description, status, assignedTo);
  }

  /** A request naming no field is refused once its task and group are
      found: the creator gets the validation error, anyone else is refused
      earlier, for the missing status. */
  lemma EmptyUpdateRefused(groups: seq<Group>, members: set<Membership>, tasks: seq<Task>,
                           caller: Id, taskId: Id, i: nat, g: Group)
    requires IndexOf(tasks, TaskKey, taskId) == Some(i)
    requires GroupWithId(groups, tasks[i].groupId) == Some(g)
    ensures UpdateOutcome(groups, members, tasks, caller, taskId, Undefined, Undefined, Undefined, Undefined)
            == if IsCreator(g, caller) then Err(Validation) else Err(Forbidden)
  {
  }

  /** Once the checks let a request naming some field through, the database
      refuses the UPDATE, and the handler answers a server error, exactly
      when the title is null or refused by VARCHAR(255), or the description
      holds U+0000; otherwise the update succeeds. */
  lemma UpdateRefusedByDatabase(groups: seq<Group>, members: set<Membership>, tasks: seq<Task>,
                                caller: Id, taskId: Id, i: nat, g: Group,
                                title: Json, description: Json, status: Json, assignedTo: Json)
    requires IndexOf(tasks, TaskKey, taskId) == Some(i)
    requires GroupWithId(groups, tasks[i].groupId) == Some(g)
    requires UpdateRefusal(g, members, caller, title, description, status, assignedTo) == None
    requires !NoFields(title, description, status, assignedTo)
    ensures var r := UpdateOutcome(groups, members, tasks, caller, taskId, title, description, status, assignedTo);
            && (r.Err? ==> r == Err(Internal))
            && (r.Err? <==> (title != Undefined && (!title.Str? || StoreVarchar(title.s, MaxVarchar).None?))
                            || RefusedText(description))
  {
    if status != Undefined {
      assert AllowedStatus(status);
      assert StoreVarchar(status.s, MaxStatusLength) == Some(status.s);
    }
  }

  /** An update that succeeds keeps the task fitting its group: its status
      known and its assignee nobody, the creator or a member. */
  lemma UpdateKeepsFit(groups: seq<Group>, members: set<Membership>, tasks: seq<Task>,
                       caller: Id, taskId: Id, i: nat,
                       title: Json, description: Json, status: Json, assignedTo: Json)
    requires IndexOf(tasks, TaskKey, taskId) == Some(i) && TaskInGroup(groups, members, tasks[i])
    requires UpdateOutcome(groups, members, tasks, caller, taskId, title, description, status, assignedTo).Ok?
    ensures TaskInGroup(groups, members,
                        UpdateOutcome(groups, members, tasks, caller, taskId, title, description, status, assignedTo).value)
  {
    var g := GroupWithId(groups, tasks[i].groupId).value;
    AcceptedPatchFits(g, members, caller, tasks[i], title, description, status, assignedTo);
  }

  /** A well-formed SET list: item k names parameter k + 1, and the next
      placeholder number is one past the last parameter. */
  predicate Numbered(updates: seq<Assignment>, values: seq<Json>, paramCount: nat)
  {
    && |updates| == |values| && paramCount == |values| + 1
    && forall k :: 0 <= k < |updates| ==> updates[k].param == k + 1
  }

  /** `if (v !== undefined) { updates.push(column = $paramCount++); values.push(v); }`:
      a supplied field becomes one more item, applied after the others. */
  method PushIfSupplied(updates: seq<Assignment>, values: seq<Json>, paramCount: nat, c: Column, v: Json)
    returns (updates': seq<Assignment>, values': seq<Json>, paramCount': nat)
    requires Numbered(updates, values, paramCount)
    ensures Numbered(updates', values', paramCount') && ParamsBound(updates', values')
    ensures |updates'| == 0 <==> |updates| == 0 && v == Undefined
    ensures forall t :: ExecuteSet(t, updates', values') == Apply(ExecuteSet(t, updates, values), c, v)
  {
    updates', values', paramCount' := updates, values, paramCount;
    if v != Undefined {
      ExecuteSetPush(updates, values, c, v);
      updates', paramCount' := updates + [Assignment(c, paramCount)], paramCount + 1;
      values' := values + [v];
    }
  }

  /** The SET list and parameters the handler assembles, one field after the
      other. Executed on any row, the list does what the typed partial update
      describes, and it is empty exactly when no field is supplied. */
  method BuildUpdate(title: Json, description: Json, status: Json, assignedTo: Json)
    returns (updates: seq<Assignment>, values: seq<Json>, paramCount: nat)
    ensures Numbered(updates, values, paramCount) && ParamsBound(updates, values)
    ensures |updates| == 0 <==> NoFields(title, description, status, assignedTo)
    ensures forall t :: ExecuteSet(t, updates, values) == Patch(t, title, description, status, assignedTo)
  {
    var u0, v0, p0 := [], [], 1;
    var u1, v1, p1 := PushIfSupplied(u0, v0, p0, TitleColumn, title);
    var u2, v2, p2 := PushIfSupplied(u1, v1, p1, DescriptionColumn, description);
    var u3, v3, p3 := PushIfSupplied(u2, v2, p2, StatusColumn, status);
    updates, values, paramCount := PushIfSupplied(u3, v3, p3, AssigneeColumn, assignedTo);
    forall t
      ensures ExecuteSet(t, updates, values) == Patch(t, title, description, status, assignedTo)
    {
      PatchInSteps(t, title, description, status, assignedTo);
    }
  }

  /** The permission and value checks of `PUT /tasks/:taskId`, in the
      handler's order, once the task's group `g` is found: the refusal the
      handler answers with, or none. */
  method CheckUpdate(members: set<Membership>, g: Group, caller: Id,
                     title: Json, description: Json, status: Json, assignedTo: Json)
    returns (refusal: Option<Error>)
    ensures !IsCreator(g, caller) ==>
              && (refusal.Some? ==> refusal == Some(Forbidden))
              && (refusal.None? <==> IsMember(members, caller, g.id) && AllowedStatus(status)
                                     && title == Undefined && description == Undefined && assignedTo == Undefined)
    ensures IsCreator(g, caller) ==>
              && (refusal.Some? ==> refusal == Some(Validation))
              && (refusal.None? <==> (status == Undefined || AllowedStatus(status))
                                     && (assignedTo == Undefined || AssigneeFits(g, members, assignedTo)))
    ensures refusal == UpdateRefusal(g, members, caller, title, description, status, assignedTo)
  {
    var isCreator := g.createdBy == caller;
    if !isCreator {
      var isMember := IsMember(members, caller, g.id);
      if !isMember {
        return Some(Forbidden);
      }
      if status == Undefined || !AllowedStatus(status) {
        return Some(Forbidden);
      }
      if title != Undefined || description != Undefined || assignedTo != Undefined {
        return Some(Forbidden);
      }
    } else {
      if status != Undefined && !AllowedStatus(status) {
        return Some(Validation);
      }
      if assignedTo != Undefined {
        // a `null` assignee finds no member row and is not the creator's id
        var assignedCheck := assignedTo.Str? && IsMember(members, assignedTo.s, g.id);
        var isAssigningCreator := assignedTo == Str(g.createdBy);
        if !assignedCheck && !isAssigningCreator {
          return Some(Validation);
        }
      }
    }
    return None;
  }

  /** `PUT /tasks/:taskId`: the handler's checks, then the `UPDATE` it
      assembles, executed on the task's row. It answers what the typed
      partial update describes, and writes that row and nothing else. */
  method UpdateTask(db: Store, caller: Id, taskId: Id,
                    title: Json, description: Json, status: Json, assignedTo: Json)
    returns (r: Result<Task>)
    requires db.Valid()
    modifies db
    ensures db.Valid()
    ensures r == UpdateOutcome(old(db.groups), old(db.members), old(db.tasks), caller, taskId,
                               title, description, status, assignedTo)
    ensures r.Err? ==> unchanged(db)
    ensures r.Ok? ==> db.tasks == old(db.tasks)[IndexOf(old(db.tasks), TaskKey, taskId).value := r.value]
    ensures db.users == old(db.users) && db.groups == old(db.groups) && db.members == old(db.members)
    ensures db.clock == old(db.clock)
  {
    var found := IndexOf(db.tasks, TaskKey, taskId);
    if found.None? {
      return Err(NotFound);
    }
    var i := found.value;
    var task := db.tasks[i];
    assert task in db.tasks;
    var group := GroupWithId(db.groups, task.groupId);
    if group.None? {
      // the foreign key on "groupId" keeps every task's group in place
      assert false;
    }
    var g := group.value;
    var refusal := CheckUpdate(db.members, g, caller, title, description, status, assignedTo);
    if refusal.Some? {
      return Err(refusal.value);
    }
    var updates, values, paramCount := BuildUpdate(title, description, status, assignedTo);
    if |updates| == 0 {
      return Err(Validation);
    }
    ExecuteSetExtend(task, updates, values, Str(taskId));
    values := values + [Str(taskId)];
    // `WHERE id = $paramCount` names the task's own row
    assert values[paramCount - 1] == Str(taskId);
    var written := ExecuteSet(task, updates, values);
    if written.Err? {
      return Err(Internal);
    }
    var updated := written.value;
    UpdateKeepsFit(db.groups, db.members, db.tasks, caller, taskId, i, title, description, status, assignedTo);
    db.ReplaceTask(i, updated);
    return Ok(updated);
  }

  /** `DELETE /tasks/:taskId`: the group's creator removes the task; the
      other tasks stay, in their order. */
  method DeleteTask(db: Store, caller: Id, taskId: Id) returns (r: Result<()>)
    requires db.Valid()
    modifies db
    ensures db.Valid()
    ensures r.Err? ==> unchanged(db)
    ensures taskId !in Keys(old(db.tasks), TaskKey) ==> r == Err(NotFound)
    ensures taskId in Keys(old(db.tasks), TaskKey) ==>
              var i := IndexOf(old(db.tasks), TaskKey, taskId).value;
              var g := GroupWithId(old(db.groups), old(db.tasks)[i].groupId);
              && g.Some?
              && (!IsCreator(g.value, caller) ==> r == Err(Forbidden))
              && (IsCreator(g.value, caller) ==> r.Ok? && db.tasks == old(db.tasks[..i] + db.tasks[i + 1..]))
    ensures r.Ok? ==> forall t :: t in db.tasks <==> t in old(db.tasks) && t.id != taskId
    ensures db.users == old(db.users) && db.groups == old(db.groups) && db.members == old(db.members)
    ensures db.clock == old(db.clock)
  {
    var found := IndexOf(db.tasks, TaskKey, taskId);
    if found.None? {
      return Err(NotFound);
    }
    var i := found.value;
    var task := db.tasks[i];
    assert task in db.tasks;
    var group := GroupWithId(db.groups, task.groupId);
    if group.None? {
      // the foreign key on "groupId" keeps every task's group in place
      assert false;
    }
    if group.value.createdBy != caller {
      return Err(Forbidden);
    }
    db.RemoveTask(i);
    return Ok(());
  }
}
