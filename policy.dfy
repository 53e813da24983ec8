/** Who may do what to a group's tasks, and what a partial update writes.
    The predicates are the checks the task handlers make; `UpdateRefusal`
    gathers those of the update handler in their order; `Patch` is the
    typed partial update and `ExecuteSet` the database's reading of the
    `UPDATE ... SET` statement the handler assembles. */
module Policy {
  import opened Common
  import opened Tables

  const Pending: string := "PENDING"
  const Done: string := "DONE"

  /** `['PENDING', 'DONE'].includes(status)` for a body property. */
  predicate AllowedStatus(v: Json)
  {
    v == Str(Pending) || v == Str(Done)
  }

  /** A value of the status column the application writes. */
  predicate KnownStatus(s: Option<string>)
  {
    s == Some(Pending) || s == Some(Done)
  }

  predicate IsCreator(g: Group, u: Id)
  {
    g.createdBy == u
  }

  /** A `GroupMember` row exists for the user and the group. */
  predicate IsMember(members: set<Membership>, u: Id, gid: Id)
  {
    Membership(u, gid) in members
  }

  /** Who may list a group's tasks: its creator and its members. */
  predicate MayView(g: Group, members: set<Membership>, u: Id)
  {
    IsCreator(g, u) || IsMember(members, u, g.id)
  }

  /** Who may be assigned a task of the group: a member or the creator. */
  predicate MayAssign(g: Group, members: set<Membership>, a: Id)
  {
    IsMember(members, a, g.id) || IsCreator(g, a)
  }

  /** The assignee check on a body property: `null` finds no member row and
      is not the creator's id. */
  predicate AssigneeFits(g: Group, members: set<Membership>, v: Json)
  {
    v.Str? && MayAssign(g, members, v.s)
  }

  predicate NoFields(title: Json, description: Json, status: Json, assignedTo: Json)
  {
    title == Undefined && description == Undefined && status == Undefined && assignedTo == Undefined
  }

  /** The refusal the update handler gives once the task and its group are
      found, checks in the handler's order; none when the update may proceed. */
  function UpdateRefusal(g: Group, members: set<Membership>, caller: Id,
                         title: Json, description: Json, status: Json, assignedTo: Json): Option<Error>
  {
    if !IsCreator(g, caller) then
      if !IsMember(members, caller, g.id) then Some(Forbidden)
      else if status == Undefined || !AllowedStatus(status) then Some(Forbidden)
      else if title != Undefined || description != Undefined || assignedTo != Undefined then Some(Forbidden)
      else None
    else if status != Undefined && !AllowedStatus(status) then Some(Validation)
    else if assignedTo != Undefined && !AssigneeFits(g, members, assignedTo) then Some(Validation)
    else None
  }

  /** Someone who neither created the group nor belongs to it can change nothing. */
  lemma OutsiderCannotUpdate(g: Group, members: set<Membership>, caller: Id,
                             title: Json, description: Json, status: Json, assignedTo: Json)
    requires !MayView(g, members, caller)
    ensures UpdateRefusal(g, members, caller, title, description, status, assignedTo) == Some(Forbidden)
  {
  }

  /** A member who is not the creator gets through only with a status of
      PENDING or DONE and no other field, even when that status is valid. */
  lemma MemberMaySetOnlyStatus(g: Group, members: set<Membership>, caller: Id,
                               title: Json, description: Json, status: Json, assignedTo: Json)
    requires !IsCreator(g, caller)
    ensures UpdateRefusal(g, members, caller, title, description, status, assignedTo) == None
            <==> IsMember(members, caller, g.id) && AllowedStatus(status)
                 && title == Undefined && description == Undefined && assignedTo == Undefined
  {
  }

  /** The creator is never forbidden: a refusal is a validation error, given
      exactly for a status outside PENDING and DONE or an assignee who is
      neither a member nor the creator (an explicit `null` included). */
  lemma CreatorRefusals(g: Group, members: set<Membership>,
                        title: Json, description: Json, status: Json, assignedTo: Json)
    ensures var e := UpdateRefusal(g, members, g.createdBy, title, description, status, assignedTo);
            && (e.Some? ==> e.value == Validation)
            && (e.None? <==> (status == Undefined || AllowedStatus(status))
                             && (assignedTo == Undefined || AssigneeFits(g, members, assignedTo)))
  {
  }

  /** The columns of `Task` an update can name. */
  datatype Column = TitleColumn | DescriptionColumn | StatusColumn | AssigneeColumn

  /** One `column = $param` item of the SET list. */
  datatype Assignment = Assignment(column: Column, param: nat)

  /** A parameter bound to a nullable VARCHAR(n) column: SQL NULL for
      `undefined` and `null`, otherwise the value the column stores, or a
      database error when the column refuses it. */
  function BindVarchar(v: Json, n: nat): (r: Result<Option<string>>)
    ensures !v.Str? ==> r == Ok(None)
    ensures v.Str? ==> (r.Ok? <==> StoreVarchar(v.s, n).Some?)
    ensures r.Ok? && v.Str? ==> r.value == StoreVarchar(v.s, n)
  {
    if !v.Str? then Ok(None)
    else
      match StoreVarchar(v.s, n)
      case Some(s) => Ok(Some(s))
      case None => Err(Internal)
  }

  /** The database storing parameter value `v` in column `c` of row `t`: the
      title column is NOT NULL and VARCHAR(255), the status column VARCHAR(50),
      and no text may hold U+0000; a refused value is an error of the
      statement. */
  function StoreColumn(t: Task, c: Column, v: Json): Result<Task>
  {
    match c
    case TitleColumn =>
      (match BindVarchar(v, MaxVarchar)
       case Ok(Some(s)) => Ok(t.(title := s))
       case _ => Err(Internal))
    case DescriptionColumn =>
      if RefusedText(v) then Err(Internal) else Ok(t.(description := Bound(v)))
    case StatusColumn =>
      (match BindVarchar(v, MaxStatusLength)
       case Ok(s) => Ok(t.(status := s))
       case Err(e) => Err(e))
    case AssigneeColumn => Ok(t.(assignedTo := Bound(v)))
  }

  /** One more assignment applied to the outcome of the earlier ones. */
  function Then(r: Result<Task>, c: Column, v: Json): Result<Task>
  {
    match r
    case Err(e) => Err(e)
    case Ok(u) => StoreColumn(u, c, v)
  }

  /** Every placeholder of the SET list names a bound parameter. */
  predicate ParamsBound(updates: seq<Assignment>, values: seq<Json>)
  {
    forall k :: 0 <= k < |updates| ==> 1 <= updates[k].param <= |values|
  }

  function Columns(updates: seq<Assignment>): set<Column>
  {
    set a | a in updates :: a.column
  }

  lemma ColumnsAppend(init: seq<Assignment>, last: Assignment)
    ensures Columns(init + [last]) == Columns(init) + {last.column}
  {
    assert forall a :: a in init + [last] <==> a in init || a == last;
  }

  /** An assignment to column `c` leaves the other columns as they were. */
  lemma ThenKeepsOtherColumns(r: Result<Task>, c: Column, v: Json)
    ensures var r' := Then(r, c, v);
            && (r'.Ok? ==> r.Ok? && r'.value.id == r.value.id && r'.value.groupId == r.value.groupId)
            && (r'.Ok? ==> r'.value.createdAt == r.value.createdAt)
            && (r'.Ok? && c != TitleColumn ==> r'.value.title == r.value.title)
            && (r'.Ok? && c != DescriptionColumn ==> r'.value.description == r.value.description)
            && (r'.Ok? && c != StatusColumn ==> r'.value.status == r.value.status)
            && (r'.Ok? && c != AssigneeColumn ==> r'.value.assignedTo == r.value.assignedTo)
  {
  }

  /** `UPDATE "Task" SET c1 = $p1, ... RETURNING *` on row `t` with parameters
      `values`. Whatever happens, the columns the SET list does not name keep
      their values, and the id, group and creation time are never touched.
      It is meant for lists whose columns are distinct, as the handler builds
      them: PostgreSQL refuses a statement that assigns one column twice,
      which this reading does not model. */
  function ExecuteSet(t: Task, updates: seq<Assignment>, values: seq<Json>): (r: Result<Task>)
    requires ParamsBound(updates, values)
    ensures r.Ok? ==> r.value.id == t.id && r.value.groupId == t.groupId && r.value.createdAt == t.createdAt
    ensures r.Ok? && TitleColumn !in Columns(updates) ==> r.value.title == t.title
    ensures r.Ok? && DescriptionColumn !in Columns(updates) ==> r.value.description == t.description
    ensures r.Ok? && StatusColumn !in Columns(updates) ==> r.value.status == t.status
    ensures r.Ok? && AssigneeColumn !in Columns(updates) ==> r.value.assignedTo == t.assignedTo
    decreases |updates|
  {
    if updates == [] then Ok(t)
    else
      var init, last := updates[..|updates| - 1], updates[|updates| - 1];
      assert updates == init + [last];
      ColumnsAppend(init, last);
      ThenKeepsOtherColumns(ExecuteSet(t, init, values), last.column, values[last.param - 1]);
      Then(ExecuteSet(t, init, values), last.column, values[last.param - 1])
  }

  /** Binding more parameters than the SET list uses changes nothing. */
  lemma {:induction false} ExecuteSetExtend(t: Task, updates: seq<Assignment>, values: seq<Json>, v: Json)
    requires ParamsBound(updates, values)
    ensures ParamsBound(updates, values + [v])
    ensures ExecuteSet(t, updates, values + [v]) == ExecuteSet(t, updates, values)
    decreases |updates|
  {
    if updates != [] {
      var init, last := updates[..|updates| - 1], updates[|updates| - 1];
      ExecuteSetExtend(t, init, values, v);
      assert (values + [v])[last.param - 1] == values[last.param - 1];
    }
  }

  /** Pushing `column = $n` and the n-th parameter applies that one assignment
      after the others. */
  lemma ExecuteSetPush(updates: seq<Assignment>, values: seq<Json>, c: Column, v: Json)
    requires ParamsBound(updates, values)
    ensures ParamsBound(updates + [Assignment(c, |values| + 1)], values + [v])
    ensures forall t :: ExecuteSet(t, updates + [Assignment(c, |values| + 1)], values + [v])
                        == Then(ExecuteSet(t, updates, values), c, v)
  {
    var updates' := updates + [Assignment(c, |values| + 1)];
    assert updates'[..|updates'| - 1] == updates;
    forall t
      ensures ExecuteSet(t, updates', values + [v]) == Then(ExecuteSet(t, updates, values), c, v)
    {
      ExecuteSetExtend(t, updates, values, v);
    }
  }

  /** The typed partial update: a field left `undefined` keeps its value, a
      supplied one replaces it (`null` clears a nullable column). A title or
      status is stored as its VARCHAR column stores it; a null title, a
      description holding U+0000, or a value its column refuses, is a
      database error. */
  function Patch(t: Task, title: Json, description: Json, status: Json, assignedTo: Json): Result<Task>
  {
    var title' := BindVarchar(title, MaxVarchar);
    var status' := BindVarchar(status, MaxStatusLength);
    if title != Undefined && !(title'.Ok? && title'.value.Some?) then Err(Internal)
    else if RefusedText(description) then Err(Internal)
    else if status'.Err? then Err(Internal)
    else
      Ok(t.(title := if title == Undefined then t.title else title'.value.value,
            description := if description == Undefined then t.description else Bound(description),
            status := if status == Undefined then t.status else status'.value,
            assignedTo := if assignedTo == Undefined then t.assignedTo else Bound(assignedTo)))
  }

  /** One field of a partial update: nothing when it is not supplied,
      otherwise one more assignment. */
  function Apply(r: Result<Task>, c: Column, v: Json): Result<Task>
  {
    if v == Undefined then r else Then(r, c, v)
  }

  /** The partial update supplied field by field, in the order title,
      description, status, assignee: each supplied field is one more
      assignment applied after those before it. */
  lemma PatchInSteps(t: Task, title: Json, description: Json, status: Json, assignedTo: Json)
    ensures Patch(t, title, description, status, assignedTo)
            == Apply(Apply(Apply(Apply(Ok(t), TitleColumn, title), DescriptionColumn, description),
                           StatusColumn, status), AssigneeColumn, assignedTo)
  {
  }

  /** What a task row keeps true, given its group: a known status, a title
      that fits its column, and an assignee who is nobody, the creator or a
      member. */
  predicate TaskFits(g: Group, members: set<Membership>, t: Task)
  {
    && t.groupId == g.id
    && KnownStatus(t.status)
    && |t.title| <= MaxVarchar
    && (t.assignedTo.Some? ==> MayAssign(g, members, t.assignedTo.value))
  }

  /** An update the checks let through keeps the row's invariants. */
  lemma AcceptedPatchFits(g: Group, members: set<Membership>, caller: Id, t: Task,
                          title: Json, description: Json, status: Json, assignedTo: Json)
    requires TaskFits(g, members, t)
    requires UpdateRefusal(g, members, caller, title, description, status, assignedTo) == None
    ensures Patch(t, title, description, status, assignedTo).Ok? ==>
              TaskFits(g, members, Patch(t, title, description, status, assignedTo).value)
  {
  }
}
