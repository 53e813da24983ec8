/** A session against the handlers: a creator makes a group, which gives
    them no member row, and adds a task; they invite a member by a
    differently capitalised and padded e-mail address; the member may toggle
    the task's status but not retitle it; the creator may reassign it; only
    the creator may delete it. */
module Scenario {
  import opened Common
  import opened Text
  import opened Tables
  import opened Policy
  import opened Db
  import opened TaskController
  import opened GroupController

  function Carol(): User { User("c", "Carol", "carol@x") }
  function Mo(): User { User("m", "Mo", "mo@x") }

  /** The database once Carol has made group `g` with task `t` and invited Mo. */
  predicate Session(db: Store, g: Group, t: Task)
    reads db
  {
    && db.users == [Carol(), Mo()] && db.groups == [g] && g.createdBy == Carol().id
    && db.members == {Membership(Mo().id, g.id)} && db.tasks == [t] && t.groupId == g.id
  }

  method MakeGroup() returns (db: Store, g: Group)
    ensures fresh(db)
    ensures db.Valid()
    ensures db.users == [Carol(), Mo()] && db.groups == [g] && db.members == {} && db.tasks == []
    ensures g.createdBy == Carol().id && g.id != ""
  {
    IdsUnique();
    EmailsUnique();
    db := new Store([Carol(), Mo()]);
    assert Carol().id in Keys(db.users, UserKey) by { assert Carol() in db.users; }
    var made := CreateGroup(db, Carol().id, Str("Team"));
    g := made.value;
  }

  method AddTask(db: Store, g: Group) returns (t: Task)
    requires db.Valid()
    requires db.users == [Carol(), Mo()] && db.groups == [g] && db.members == {} && db.tasks == []
    requires g.createdBy == Carol().id && g.id != ""
    modifies db
    ensures db.Valid()
    ensures db.users == [Carol(), Mo()] && db.groups == [g] && db.members == {} && db.tasks == [t]
    ensures t.groupId == g.id && t.status == Some(Pending) && t.assignedTo == None
  {
    assert GroupWithId(db.groups, g.id) == Some(g);
    var created := CreateTask(db, Carol().id, Str("Write"), Undefined, Str(g.id), Undefined);
    t := created.value;
  }

  lemma IdsUnique()
    ensures UniqueKeys([Carol(), Mo()], UserKey)
  {
    var users := [Carol(), Mo()];
    assert users[0].id[0] != users[1].id[0];
  }

  lemma EmailsUnique()
    ensures UniqueKeys([Carol(), Mo()], EmailKey)
  {
    var users := [Carol(), Mo()];
    assert users[0].email[0] != users[1].email[0];
  }

  lemma LowerEmailsUnique()
    ensures UniqueKeys([Carol(), Mo()], LowerEmailKey)
  {
    var users := [Carol(), Mo()];
    var c, m := LowerEmailKey(users[0]), LowerEmailKey(users[1]);
    assert c[0] == 'c' && m[0] == 'm';
  }

  lemma TrimPadded()
    ensures Trim(" Mo@x") == "Mo@x"
  {
    assert SkipLeading(" Mo@x", 1) == 1;
    assert SkipTrailing(" Mo@x", 1, 5) == 5;
  }

  lemma LowerMo()
    ensures ToLower("Mo@x") == LowerEmailKey(Mo())
  {
    var lower := ToLower("Mo@x");
    assert lower[0] == 'm' && lower[1] == 'o' && lower[2] == '@' && lower[3] == 'x';
    var key := LowerEmailKey(Mo());
    assert key[0] == 'm' && key[1] == 'o' && key[2] == '@' && key[3] == 'x';
  }

  /** " Mo@x", once trimmed, is a parameter the database accepts. */
  lemma PaddedAddressSendable()
    ensures !RefusedText(Str(Trim(" Mo@x")))
  {
    TrimPadded();
  }

  /** " Mo@x" names Mo once trimmed and lower-cased. */
  lemma PaddedAddressNamesMo()
    ensures Invitee([Carol(), Mo()], " Mo@x") == Some(Mo())
  {
    LowerEmailsUnique();
    TrimPadded();
    LowerMo();
    InviteeByEmail([Carol(), Mo()], 1, " Mo@x");
  }

  method InviteMo(db: Store, g: Group, t: Task, address: string)
    requires Invitee([Carol(), Mo()], address) == Some(Mo()) && address != ""
    requires !RefusedText(Str(Trim(address)))
    requires db.Valid()
    requires db.users == [Carol(), Mo()] && db.groups == [g] && g.createdBy == Carol().id && g.id != ""
    requires db.members == {} && db.tasks == [t] && t.groupId == g.id
    modifies db
    ensures db.Valid()
    ensures Session(db, g, t)
  {
    assert GroupWithId(db.groups, g.id) == Some(g);
    var invited := InviteToGroup(db, Carol().id, Str(g.id), Str(address));
  }

  method MemberToggles(db: Store, g: Group, t: Task) returns (t': Task)
    requires db.Valid()
    requires Session(db, g, t)
    modifies db
    ensures db.Valid()
    ensures Session(db, g, t') && t' == t.(status := Some(Done))
  {
    assert IndexOf(db.tasks, TaskKey, t.id) == Some(0);
    assert GroupWithId(db.groups, g.id) == Some(g);
    var toggled := UpdateTask(db, Mo().id, t.id, Undefined, Undefined, Str(Done), Undefined);
    assert toggled == Ok(t.(status := Some(Done)));
    t' := toggled.value;
    var retitled := UpdateTask(db, Mo().id, t'.id, Str("Mine"), Undefined, Str(Done), Undefined);
    assert retitled == Err(Forbidden);
  }

  method CreatorReassigns(db: Store, g: Group, t: Task) returns (t': Task)
    requires db.Valid()
    requires Session(db, g, t)
    modifies db
    ensures db.Valid()
    ensures Session(db, g, t') && t' == t.(assignedTo := Some(Mo().id))
  {
    assert IndexOf(db.tasks, TaskKey, t.id) == Some(0);
    assert GroupWithId(db.groups, g.id) == Some(g);
    var reassigned := UpdateTask(db, Carol().id, t.id, Undefined, Undefined, Undefined, Str(Mo().id));
    assert reassigned == Ok(t.(assignedTo := Some(Mo().id)));
    t' := reassigned.value;
  }

  method OnlyCreatorDeletes(db: Store, g: Group, t: Task)
    requires db.Valid()
    requires Session(db, g, t)
    modifies db
    ensures db.tasks == []
  {
    assert IndexOf(db.tasks, TaskKey, t.id) == Some(0);
    assert GroupWithId(db.groups, g.id) == Some(g);
    var refused := DeleteTask(db, Mo().id, t.id);
    assert refused == Err(Forbidden);
    var deleted := DeleteTask(db, Carol().id, t.id);
    assert deleted.Ok?;
  }

  method CreatorAndMember()
  {
    var db, g := MakeGroup();
    assert !IsMember(db.members, Carol().id, g.id);
    var t := AddTask(db, g);
    PaddedAddressNamesMo();
    PaddedAddressSendable();
    InviteMo(db, g, t, " Mo@x");
    t := MemberToggles(db, g, t);
    t := CreatorReassigns(db, g, t);
    OnlyCreatorDeletes(db, g, t);
    assert db.tasks == [];
  }
}
