/** The group handlers of `groupController.js`: listing users, creating a
    group, listing the caller's groups and inviting a user into a group. Like
    the task handlers, each takes the shared database and the caller's id and
    runs as one atomic step. */
module GroupController {
  import opened Common
  import opened Text
  import opened Tables
  import opened Policy
  import opened Db

  /** `GET /groups/users`: every registered user once, ordered by name. */
  method GetAllUsers(db: Store) returns (r: seq<User>)
    ensures SortedByName(r)
    ensures multiset(r) == multiset(db.users)
  {
    r := SortByName(db.users);
  }

  /** `POST /groups`: a new group whose creator is the caller. The creator is
      not made a member, so the group starts with no member rows. The name is
      stored as its VARCHAR(255) column stores it; a name the column refuses,
      or a caller the foreign key on "createdBy" does not find, is a server
      error. */
  method CreateGroup(db: Store, caller: Id, name: Json) returns (r: Result<Group>)
    requires db.Valid()
    modifies db
    ensures db.Valid()
    ensures r.Err? ==> unchanged(db)
    ensures !Truthy(name) ==> r == Err(Validation)
    ensures Truthy(name) && (caller !in Keys(old(db.users), UserKey) || StoreVarchar(name.s, MaxVarchar).None?) ==>
              r == Err(Internal)
    ensures Truthy(name) && caller in Keys(old(db.users), UserKey) && StoreVarchar(name.s, MaxVarchar).Some? ==> r.Ok?
    ensures r.Ok? ==>
              && r.value.id == FreshId(old(db.groups), GroupKey)
              && Some(r.value.name) == StoreVarchar(name.s, MaxVarchar)
              && r.value.createdBy == caller && r.value.createdAt == old(db.clock)
              && db.groups == old(db.groups) + [r.value]
              && db.users == old(db.users) && db.members == old(db.members) && db.tasks == old(db.tasks)
              && db.clock == old(db.clock) + 1
              && (forall m :: m in db.members ==> m.groupId != r.value.id)
  {
    if !Truthy(name) {
      return Err(Validation);
    }
    var groupId := FreshId(db.groups, GroupKey);
    var stored := StoreVarchar(name.s, MaxVarchar);
    if caller !in Keys(db.users, UserKey) || stored.None? {
      // the INSERT violates the foreign key or VARCHAR(255); the catch block answers 500
      return Err(Internal);
    }
    var g := Group(groupId, stored.value, caller, db.clock);
    db.InsertGroup(g);
    return Ok(g);
  }

  /** `GET /groups/my`: the groups the caller created or belongs to, newest first. */
  method GetMyGroups(db: Store, caller: Id) returns (r: seq<Group>)
    requires db.Valid()
    ensures forall g :: g in r <==> g in db.groups && MayView(g, db.members, caller)
    ensures Descending(r, GroupStamp)
  {
    var members := db.members;
    var keep := (g: Group) => IsCreator(g, caller) || IsMember(members, caller, g.id);
    NewestFirstDescending(db.groups, keep, GroupStamp);
    r := NewestFirst(db.groups, keep);
  }

  /** The user an invitation names. Input holding an `@` is an e-mail address:
      the first user, in table order, whose e-mail equals the trimmed input
      when both are lower-cased. Other input is an id: the user whose id is
      the trimmed input. */
  function Invitee(users: seq<User>, input: string): (r: Option<User>)
    ensures r.Some? ==> r.value in users
    ensures '@' in input ==>
              && (r.Some? ==> ToLower(r.value.email) == ToLower(Trim(input)))
              && (r.None? <==> forall u :: u in users ==> ToLower(u.email) != ToLower(Trim(input)))
    ensures '@' !in input ==>
              && (r.Some? ==> r.value.id == Trim(input))
              && (r.None? <==> forall u :: u in users ==> u.id != Trim(input))
  {
    var found := if '@' in input then IndexOf(users, LowerEmailKey, ToLower(Trim(input)))
                 else IndexOf(users, UserKey, Trim(input));
    match found
    case Some(k) => Some(users[k])
    case None => None
  }

  /** Inviting by id finds that user, since ids are unique, whatever the
      whitespace around the id. */
  lemma InviteeById(users: seq<User>, i: nat, input: string)
    requires UniqueKeys(users, UserKey) && i < |users|
    requires '@' !in input && Trim(input) == users[i].id
    ensures Invitee(users, input) == Some(users[i])
  {
    IndexOfUnique(users, UserKey, i);
  }

  /** Inviting by e-mail finds that user, however the address is capitalised
      and padded, as long as no other user's address differs from it only in
      case. */
  lemma InviteeByEmail(users: seq<User>, i: nat, input: string)
    requires UniqueKeys(users, LowerEmailKey) && i < |users|
    requires '@' in input && ToLower(Trim(input)) == ToLower(users[i].email)
    ensures Invitee(users, input) == Some(users[i])
  {
    IndexOfUnique(users, LowerEmailKey, i);
  }

  /** The `User` table keeps e-mails unique only as written, so two users may
      have addresses that differ only in case; an invitation by the second
      one's exact address then finds the one registered first. */
  lemma CaseVariantEmailsCollide()
    ensures var first := User("1", "Ann", "Ann@x");
            var second := User("2", "Ann", "ann@x");
            && UniqueKeys([first, second], EmailKey)
            && Invitee([first, second], "ann@x") == Some(first)
  {
    var first := User("1", "Ann", "Ann@x");
    var second := User("2", "Ann", "ann@x");
    var address := second.email;
    assert first.email[0] != address[0];
    TrimUnpadded(address);
    var lower := ToLower(first.email);
    assert lower[0] == 'a' && lower[1] == 'n' && lower[2] == 'n' && lower[3] == '@' && lower[4] == 'x';
    assert LowerEmailKey(first) == ToLower(address);
  }

  /** `POST /groups/invite`: the group's creator adds the user the input
      names as a member. The checks come in the handler's order: both fields
      given, the group exists, the caller created it, the user exists, the
      user is not yet a member. The lookup sends the trimmed input to the
      database, which refuses it with a server error when it holds U+0000. */
  method InviteToGroup(db: Store, caller: Id, groupId: Json, userIdOrEmail: Json) returns (r: Result<User>)
    requires db.Valid()
    modifies db
    ensures db.Valid()
    ensures r.Err? ==> unchanged(db)
    ensures !Truthy(groupId) || !Truthy(userIdOrEmail) ==> r == Err(Validation)
    ensures Truthy(groupId) && Truthy(userIdOrEmail) && groupId.s !in Keys(old(db.groups), GroupKey) ==>
              r == Err(NotFound)
    ensures Truthy(groupId) && Truthy(userIdOrEmail) && groupId.s in Keys(old(db.groups), GroupKey) ==>
              var g := GroupWithId(old(db.groups), groupId.s).value;
              var u := Invitee(old(db.users), userIdOrEmail.s);
              var sent := Str(Trim(userIdOrEmail.s));
              && (!IsCreator(g, caller) ==> r == Err(Forbidden))
              && (IsCreator(g, caller) && RefusedText(sent) ==> r == Err(Internal))
              && (IsCreator(g, caller) && !RefusedText(sent) && u.None? ==> r == Err(NotFound))
              && (IsCreator(g, caller) && !RefusedText(sent) && u.Some? && IsMember(old(db.members), u.value.id, g.id) ==>
                    r == Err(Validation))
              && (IsCreator(g, caller) && !RefusedText(sent) && u.Some? && !IsMember(old(db.members), u.value.id, g.id) ==>
                    r == Ok(u.value) && db.members == old(db.members) + {Membership(u.value.id, g.id)})
    ensures db.users == old(db.users) && db.groups == old(db.groups) && db.tasks == old(db.tasks)
    ensures db.clock == old(db.clock)
  {
    if !Truthy(groupId) || !Truthy(userIdOrEmail) {
      return Err(Validation);
    }
    var group := GroupWithId(db.groups, groupId.s);
    if group.None? {
      return Err(NotFound);
    }
    if group.value.createdBy != caller {
      return Err(Forbidden);
    }
    if RefusedText(Str(Trim(userIdOrEmail.s))) {
      // the lookup's parameter holds U+0000; the catch block answers 500
      return Err(Internal);
    }
    var userToAdd: Option<User>;
    if '@' in userIdOrEmail.s {
      var found := IndexOf(db.users, LowerEmailKey, ToLower(Trim(userIdOrEmail.s)));
      userToAdd := if found.Some? then Some(db.users[found.value]) else None;
    } else {
      var found := IndexOf(db.users, UserKey, Trim(userIdOrEmail.s));
      userToAdd := if found.Some? then Some(db.users[found.value]) else None;
    }
    if userToAdd.None? {
      return Err(NotFound);
    }
    var u := userToAdd.value;
    var existingMember := IsMember(db.members, u.id, groupId.s);
    if existingMember {
      return Err(Validation);
    }
    assert u in db.users;
    db.InsertMember(Membership(u.id, groupId.s));
    return Ok(u);
  }
}
