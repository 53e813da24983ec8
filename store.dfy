/** The shared database the handlers read and write through the connection
    pool: the `User`, `Group`, `GroupMember` and `Task` tables and the clock
    behind `NOW()`. `Consistent` is what the schema's keys and the handlers'
    checks keep true; the lemmas below show that each kind of write the
    handlers make keeps it. */
module Db {
  import opened Common
  import opened Tables
  import opened Policy

  /** A `Group` row the schema admits: its creator is a user (foreign key),
      its name is set and fits VARCHAR(255), and it was stamped before now. */
  predicate GroupFits(users: seq<User>, g: Group, clock: nat)
  {
    g.createdBy in Keys(users, UserKey) && g.name != "" && |g.name| <= MaxVarchar && g.createdAt < clock
  }

  ghost predicate Consistent(users: seq<User>, groups: seq<Group>, members: set<Membership>,
                             tasks: seq<Task>, clock: nat)
  {
    && UniqueKeys(users, UserKey) && UniqueKeys(users, EmailKey)
    && UniqueKeys(groups, GroupKey) && UniqueKeys(tasks, TaskKey)
    && Ascending(groups, GroupStamp) && Ascending(tasks, TaskStamp)
    && (forall g :: g in groups ==> GroupFits(users, g, clock))
    && (forall m :: m in members ==> m.userId in Keys(users, UserKey) && m.groupId in Keys(groups, GroupKey))
    && (forall t :: t in tasks ==> t.createdAt < clock && TaskInGroup(groups, members, t))
  }

  /** The task's group exists (foreign key) and the row fits it. */
  predicate TaskInGroup(groups: seq<Group>, members: set<Membership>, t: Task)
  {
    match GroupWithId(groups, t.groupId)
    case None => false
    case Some(g) => TaskFits(g, members, t)
  }

  /** `createGroup`'s INSERT keeps the database consistent. */
  lemma InsertGroupKeeps(users: seq<User>, groups: seq<Group>, members: set<Membership>,
                         tasks: seq<Task>, clock: nat, g: Group)
    requires Consistent(users, groups, members, tasks, clock)
    requires g.id !in Keys(groups, GroupKey) && g.createdAt == clock && GroupFits(users, g, clock + 1)
    ensures Consistent(users, groups + [g], members, tasks, clock + 1)
  {
    var groups' := groups + [g];
    KeysAppend(groups, GroupKey, g);
    forall t | t in tasks
      ensures TaskInGroup(groups', members, t)
    {
      assert TaskInGroup(groups, members, t);
      IndexOfAppend(groups, GroupKey, g, t.groupId);
    }
    forall x | x in groups'
      ensures GroupFits(users, x, clock + 1)
    {
      if x != g { assert x in groups; }
    }
    UniqueAppend(groups, GroupKey, g);
    AscendingAppend(groups, GroupStamp, g);
  }

  /** `inviteToGroup`'s INSERT keeps the database consistent: a new member
      row only widens who may be assigned. */
  lemma InsertMemberKeeps(users: seq<User>, groups: seq<Group>, members: set<Membership>,
                          tasks: seq<Task>, clock: nat, m: Membership)
    requires Consistent(users, groups, members, tasks, clock)
    requires m.userId in Keys(users, UserKey) && m.groupId in Keys(groups, GroupKey)
    ensures Consistent(users, groups, members + {m}, tasks, clock)
  {
    forall t | t in tasks
      ensures TaskInGroup(groups, members + {m}, t)
    {
      assert TaskInGroup(groups, members, t);
    }
  }

  /** `createTask`'s INSERT keeps the database consistent. */
  lemma InsertTaskKeeps(users: seq<User>, groups: seq<Group>, members: set<Membership>,
                        tasks: seq<Task>, clock: nat, t: Task)
    requires Consistent(users, groups, members, tasks, clock)
    requires t.id !in Keys(tasks, TaskKey) && t.createdAt == clock && TaskInGroup(groups, members, t)
    ensures Consistent(users, groups, members, tasks + [t], clock + 1)
  {
    var tasks' := tasks + [t];
    UniqueAppend(tasks, TaskKey, t);
    AscendingAppend(tasks, TaskStamp, t);
    forall x | x in tasks'
      ensures x.createdAt < clock + 1 && TaskInGroup(groups, members, x)
    {
      if x != t { assert x in tasks; }
    }
  }

  /** `updateTask`'s UPDATE keeps the database consistent when the new row
      keeps the id, group and creation time and fits its group. */
  lemma ReplaceTaskKeeps(users: seq<User>, groups: seq<Group>, members: set<Membership>,
                         tasks: seq<Task>, clock: nat, i: nat, t: Task)
    requires Consistent(users, groups, members, tasks, clock)
    requires i < |tasks| && t.id == tasks[i].id && t.groupId == tasks[i].groupId
    requires t.createdAt == tasks[i].createdAt && TaskInGroup(groups, members, t)
    ensures Consistent(users, groups, members, tasks[i := t], clock)
  {
    var tasks' := tasks[i := t];
    assert tasks[i] in tasks;
    forall x | x in tasks'
      ensures x.createdAt < clock && TaskInGroup(groups, members, x)
    {
      var k :| 0 <= k < |tasks'| && tasks'[k] == x;
      if k != i { assert tasks[k] in tasks; }
    }
  }

  /** `deleteTask`'s DELETE keeps the database consistent. */
  lemma RemoveTaskKeeps(users: seq<User>, groups: seq<Group>, members: set<Membership>,
                        tasks: seq<Task>, clock: nat, i: nat)
    requires Consistent(users, groups, members, tasks, clock)
    requires i < |tasks|
    ensures Consistent(users, groups, members, tasks[..i] + tasks[i + 1..], clock)
  {
    var tasks' := tasks[..i] + tasks[i + 1..];
    assert forall k :: 0 <= k < |tasks'| ==> tasks'[k] == tasks[if k < i then k else k + 1];
    forall x | x in tasks'
      ensures x in tasks
    {
      var k :| 0 <= k < |tasks'| && tasks'[k] == x;
    }
  }

  /** The database behind the connection pool. */
  class Store {
    var users: seq<User>
    var groups: seq<Group>
    var members: set<Membership>
    var tasks: seq<Task>
    /** The next value `NOW()` returns; it only increases. */
    var clock: nat

    ghost predicate Valid()
      reads this
    {
      Consistent(users, groups, members, tasks, clock)
    }

    /** The tables as the schema creates them, with the users already
        registered (their id and e-mail are unique). */
    constructor (users: seq<User>)
      requires UniqueKeys(users, UserKey) && UniqueKeys(users, EmailKey)
      ensures Valid()
      ensures this.users == users && groups == [] && members == {} && tasks == [] && clock == 0
    {
      this.users := users;
      groups, members, tasks, clock := [], {}, [], 0;
    }

    /** `INSERT INTO "Group"`: the new row `g`, stamped now, goes last. */
    method InsertGroup(g: Group)
      requires Valid()
      requires g.id !in Keys(groups, GroupKey) && g.createdAt == clock && GroupFits(users, g, clock + 1)
      modifies this
      ensures Valid()
      ensures groups == old(groups) + [g] && clock == old(clock) + 1
      ensures users == old(users) && members == old(members) && tasks == old(tasks)
    {
      InsertGroupKeeps(users, groups, members, tasks, clock, g);
      groups, clock := groups + [g], clock + 1;
    }

    /** `INSERT INTO "GroupMember"`: user and group both exist. */
    method InsertMember(m: Membership)
      requires Valid()
      requires m.userId in Keys(users, UserKey) && m.groupId in Keys(groups, GroupKey)
      modifies this
      ensures Valid()
      ensures members == old(members) + {m}
      ensures users == old(users) && groups == old(groups) && tasks == old(tasks) && clock == old(clock)
    {
      InsertMemberKeeps(users, groups, members, tasks, clock, m);
      members := members + {m};
    }

    /** `INSERT INTO "Task"`: the new row `t`, stamped now, goes last. */
    method InsertTask(t: Task)
      requires Valid()
      requires t.id !in Keys(tasks, TaskKey) && t.createdAt == clock && TaskInGroup(groups, members, t)
      modifies this
      ensures Valid()
      ensures tasks == old(tasks) + [t] && clock == old(clock) + 1
      ensures users == old(users) && groups == old(groups) && members == old(members)
    {
      InsertTaskKeeps(users, groups, members, tasks, clock, t);
      tasks, clock := tasks + [t], clock + 1;
    }

    /** `UPDATE "Task" ... WHERE id = ...`: row `i` becomes `t`, which keeps
        the row's id, group and creation time and fits its group. */
    method ReplaceTask(i: nat, t: Task)
      requires Valid()
      requires i < |tasks| && t.id == tasks[i].id && t.groupId == tasks[i].groupId
      requires t.createdAt == tasks[i].createdAt && TaskInGroup(groups, members, t)
      modifies this
      ensures Valid()
      ensures tasks == old(tasks)[i := t]
      ensures users == old(users) && groups == old(groups) && members == old(members) && clock == old(clock)
    {
      ReplaceTaskKeeps(users, groups, members, tasks, clock, i, t);
      tasks := tasks[i := t];
    }

    /** `DELETE FROM "Task" WHERE id = ...`: row `i` goes, the others keep
        their order. */
    method RemoveTask(i: nat)
      requires Valid()
      requires i < |tasks|
      modifies this
      ensures Valid()
      ensures tasks == old(tasks[..i] + tasks[i + 1..])
      ensures users == old(users) && groups == old(groups) && members == old(members) && clock == old(clock)
    {
      RemoveTaskKeeps(users, groups, members, tasks, clock, i);
      tasks := tasks[..i] + tasks[i + 1..];
    }
  }
}
