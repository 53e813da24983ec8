# TaskHive: group and task permission rules in Dafny

TaskHive is a small team task board. Users make groups, invite other users
into them, and keep a list of tasks per group. This project models the
backend's two controllers, `taskController.js` and `groupController.js`,
against an in-memory copy of the PostgreSQL tables they use. It proves who
may do what to a group and its tasks, and what each request writes.

- `common.dfy` (`Common`): `Option`, `Result` and the error kinds.
  - `Validation` is HTTP 400, `Forbidden` 403 and `NotFound` 404.
  - `Internal` is the 500 a handler's `catch` block answers when the
    database refuses a statement.
  - A request body property is `Undefined`, `Null` or a string.
  - `Truthy` is JavaScript's `!!v` on such a property.
  - `OrNull` is `v || null`.
  - `Bound` is how node-postgres binds a parameter: undefined and null both
    become SQL NULL.
- `text.dfy` (`Text`): `String.prototype.trim`, SQL `LOWER` on ASCII, and the
  character-by-character name order that `ORDER BY name` uses.
- `tables.dfy` (`Tables`): the rows of `User`, `Group`, `GroupMember` and
  `Task`, and the queries run on them.
  - Lookup by a key column is `IndexOf`: the first match in table order.
  - `crypto.randomUUID()` is `FreshId`.
  - `ORDER BY "createdAt" DESC` is `NewestFirst`.
  - `ORDER BY name ASC` is `SortByName`.
  - Storing a string in a VARCHAR(n) column is `StoreVarchar`: PostgreSQL cuts trailing spaces that do not fit and refuses anything else that is too long.
  - `RefusedText` is a string holding U+0000, which PostgreSQL refuses as a text parameter whatever the column.
- `policy.dfy` (`Policy`): the permission predicates and the update handler's
  refusals in their order (`UpdateRefusal`).
  - `Patch` is the typed partial update.
  - `ExecuteSet` is how the database runs the `UPDATE "Task" SET ...`
    statement the handler assembles.
- `store.dfy` (`Db`): the class `Store` holds the tables and the clock behind
  `NOW()`.
  - `Valid` states the schema's keys and the handlers' invariants.
  - One method per kind of write proves that the write keeps `Valid`.
- `task_controller.dfy` (`TaskController`) and `group_controller.dfy`
  (`GroupController`): one method per handler.
  - Each method runs the checks in the handler's order.
  - Its contract states the answer for every case and the new state of the
    tables.
- `scenario.dfy` (`Scenario`): a session run through the handlers:
  1. a creator makes a group and a task;
  2. the creator invites a member by a padded, differently capitalised
     address;
  3. the member may toggle the status but not retitle the task;
  4. the creator reassigns the task;
  5. only the creator may delete it.

How the tables are represented:
- A table is a sequence in insertion order.
- The `GroupMember` table is a set of (user, group) pairs, so a pair is
  never stored twice.
- `NOW()` is a counter that only increases. So table order is `createdAt`
  order, and "newest first" is the matching rows in reverse table order.

The invariant `Store.Valid` holds before and after every handler:
- ids are unique;
- e-mails are unique as written;
- every foreign key resolves;
- titles and names fit VARCHAR(255);
- every task's status is PENDING or DONE;
- every task's assignee is nobody, the group's creator or a member of the
  task's group.

## Model

| member | source | states |
|---|---|---|
| TaskController.CreateTask | taskhive/backend/src/controllers/taskController.js:3-42 | Missing title or group id gives Validation. Unknown group gives NotFound. A caller who is not the creator gets Forbidden. A given assignee who is neither member nor creator gives Validation. The title is stored as VARCHAR(255) stores it: cut to 255 characters when only spaces follow. A title VARCHAR(255) refuses (too long, or holding U+0000), or a description holding U+0000, is a server error. Any refusal leaves the store unchanged. Success appends exactly one task: PENDING, a fresh id, description and assignee null when absent. |
| TaskController.GetGroupTasks | taskhive/backend/src/controllers/taskController.js:59-93 | Unknown group gives NotFound. Someone neither creator nor member gets Forbidden. Otherwise the answer holds exactly the group's tasks, strictly newest first. |
| TaskController.UpdateOutcome | taskhive/backend/src/controllers/taskController.js:106-193 | The typed answer of an update. An unknown task is NotFound. A request naming no field never succeeds (which error: `EmptyUpdateRefused`). A success is the task with the requested id. |
| TaskController.UpdateWritesSuppliedFields | taskhive/backend/src/controllers/taskController.js:165-193 | A successful update writes exactly the supplied fields. An omitted field keeps its value. A supplied title is stored as VARCHAR(255) stores it, cut to 255 characters when only spaces follow. A supplied description holds no U+0000. Other supplied fields take the value sent, null clearing them. Id, group and creation time stay. |
| TaskController.MemberUpdateOnlyToggles | taskhive/backend/src/controllers/taskController.js:125-142 | When a non-creator's update succeeds, the caller is a member and only the status changed, to PENDING or DONE. |
| TaskController.UpdateKeepsFit | taskhive/backend/src/controllers/taskController.js:144-162 | An update that succeeds keeps the task's status known and its assignee nobody, the creator or a member. |
| TaskController.CheckUpdate | taskhive/backend/src/controllers/taskController.js:123-163 | For a non-creator: no refusal exactly when they are a member, the status is PENDING or DONE, and no other field is given; any refusal is Forbidden. For the creator: any refusal is Validation, given exactly for a status outside PENDING and DONE or an assignee (null included) who is neither a member nor the creator. The answer is the refusal `UpdateRefusal` that `UpdateOutcome` uses. |
| TaskController.PushIfSupplied | taskhive/backend/src/controllers/taskController.js:169-184 | Pushing a supplied field keeps each SET item k naming parameter k + 1. The list stays empty only if it was empty and the field is absent. Executing the longer list applies that one column after the others. |
| TaskController.BuildUpdate | taskhive/backend/src/controllers/taskController.js:165-186 | The assembled SET list is empty exactly when no field is supplied. Executed on any row, it gives the same result as the typed partial update `Patch`. |
| TaskController.UpdateTask | taskhive/backend/src/controllers/taskController.js:100-193 | The answer is `UpdateOutcome` of the tables before the request, whose cases `UpdateWritesSuppliedFields`, `MemberUpdateOnlyToggles`, `EmptyUpdateRefused`, `UpdateRefusedByDatabase` and `Policy.CreatorRefusals` spell out. A refusal writes nothing. A success replaces that one task row and leaves the other tables and the clock unchanged. |
| TaskController.DeleteTask | taskhive/backend/src/controllers/taskController.js:210-236 | Unknown task gives NotFound. A task's group always exists, so the "Group not found" branch cannot be taken. A non-creator gets Forbidden. The creator's delete removes exactly the tasks with that id; the others keep their order. |
| GroupController.GetAllUsers | taskhive/backend/src/controllers/groupController.js:3-8 | Every user exactly once (same multiset), sorted by name ascending. |
| GroupController.CreateGroup | taskhive/backend/src/controllers/groupController.js:15-45 | A missing name gives Validation. A caller who is not a user is a server error. The name is stored as VARCHAR(255) stores it: cut to 255 characters when only spaces follow, and a server error when it is otherwise too long or holds U+0000. Success appends one group with a fresh id, created by the caller, with no member rows. Nothing else changes. |
| GroupController.GetMyGroups | taskhive/backend/src/controllers/groupController.js:52-80 | Exactly the groups the caller created or belongs to, strictly newest first. |
| GroupController.Invitee | taskhive/backend/src/controllers/groupController.js:112-126 | Input containing `@` matches a user whose lower-cased e-mail equals the lower-cased trimmed input. Other input matches a user whose id equals the trimmed input. None exactly when no user matches. |
| GroupController.InviteeById | taskhive/backend/src/controllers/groupController.js:120-126 | With unique ids, an input whose trim is a user's id finds that user. |
| GroupController.InviteeByEmail | taskhive/backend/src/controllers/groupController.js:114-119 | If no two addresses differ only in case, any capitalisation and padding of a user's address finds that user. |
| GroupController.CaseVariantEmailsCollide | taskhive/backend/src/initDb.js:17 | The case-sensitive UNIQUE on e-mail admits `Ann@x` and `ann@x`. An invitation by the second address then finds the first user. |
| GroupController.InviteToGroup | taskhive/backend/src/controllers/groupController.js:87-150 | Checks in order: both fields given (Validation), group exists (NotFound), caller is its creator (Forbidden), the trimmed input holds no U+0000 (otherwise the lookup fails with a server error), user found (NotFound), not yet a member (Validation). Each refusal leaves the store unchanged. Success adds exactly the membership (invitee, group) and changes nothing else. |
| Policy.OutsiderCannotUpdate | taskhive/backend/src/controllers/taskController.js:125-133 | Someone neither creator nor member is refused with Forbidden, whatever the body. |
| Policy.MemberMaySetOnlyStatus | taskhive/backend/src/controllers/taskController.js:125-142 | A non-creator gets through if and only if they are a member, the status is PENDING or DONE, and no other field is present. |
| Policy.CreatorRefusals | taskhive/backend/src/controllers/taskController.js:143-162 | The creator is never forbidden. The creator is refused with Validation exactly for a status outside PENDING and DONE, or an assignee (null included) who is neither a member nor the creator. |
| Policy.ExecuteSet | taskhive/backend/src/controllers/taskController.js:190-193 | Running the SET list never touches id, group or creation time, and leaves every column the list does not name as it was. It reads lists whose columns are distinct, as the handler builds them. |
| Policy.ExecuteSetExtend | taskhive/backend/src/controllers/taskController.js:190-191 | Binding the extra `WHERE id` parameter after the SET parameters does not change what the SET list writes. |
| Policy.ExecuteSetPush | taskhive/backend/src/controllers/taskController.js:169-184 | Pushing `column = $n` with the n-th value applies that assignment after the earlier ones. |
| Policy.PatchInSteps | taskhive/backend/src/controllers/taskController.js:169-184 | The typed partial update equals the supplied fields applied one after another, in the order title, description, status, assignee. |
| Policy.AcceptedPatchFits | taskhive/backend/src/initDb.js:49-57 | An update the checks let through keeps the row's status known, its title within VARCHAR(255) and its assignee allowed. |
| Db.InsertGroupKeeps | taskhive/backend/src/controllers/groupController.js:24-29 | Appending a group with a fresh id, a known creator and the current stamp keeps the store consistent. |
| Db.InsertMemberKeeps | taskhive/backend/src/controllers/groupController.js:146-150 | Adding a membership of an existing user to an existing group keeps the store consistent. |
| Db.InsertTaskKeeps | taskhive/backend/src/controllers/taskController.js:38-42 | Appending a fitting task with a fresh id and the current stamp keeps the store consistent. |
| Db.ReplaceTaskKeeps | taskhive/backend/src/controllers/taskController.js:193 | Replacing a task row by one with the same id, group and stamp that fits its group keeps the store consistent. |
| Db.RemoveTaskKeeps | taskhive/backend/src/controllers/taskController.js:236 | Removing a task row keeps the store consistent. |
| Db.Store.constructor | taskhive/backend/src/initDb.js:13-58 | The empty tables, with users already registered under unique ids and e-mails, are consistent. |
| Db.Store.InsertGroup | taskhive/backend/src/controllers/groupController.js:26-29 | The group is appended, the clock advances, the other tables are unchanged and `Valid` is kept. |
| Db.Store.InsertMember | taskhive/backend/src/controllers/groupController.js:147-150 | The membership is added, the rest is unchanged and `Valid` is kept. |
| Db.Store.InsertTask | taskhive/backend/src/controllers/taskController.js:39-42 | The task is appended, the clock advances, the rest is unchanged and `Valid` is kept. |
| Db.Store.ReplaceTask | taskhive/backend/src/controllers/taskController.js:193 | Only row i changes, the rest is unchanged and `Valid` is kept. |
| Db.Store.RemoveTask | taskhive/backend/src/controllers/taskController.js:236 | Only row i goes, the other rows keep their order, and `Valid` is kept. |
| Tables.IndexOf | taskhive/backend/src/controllers/taskController.js:106-112 | The first row whose key equals the id, or none exactly when no row has that key. |
| Tables.IndexOfUnique | taskhive/backend/src/initDb.js:15 | Under a unique key, looking up a row's key finds that row. |
| Tables.GroupWithId | taskhive/backend/src/controllers/taskController.js:12-19 | The group with that id, or none exactly when the `Group` table has no such id. |
| Tables.FreshId | taskhive/backend/src/controllers/taskController.js:38 | The new id is non-empty and differs from every id in the table. |
| Tables.NewestFirst | taskhive/backend/src/controllers/taskController.js:84-91 | The answer holds exactly the table's rows that pass the filter. |
| Tables.NewestFirstDescending | taskhive/backend/src/controllers/groupController.js:76 | Since stamps grow with table order, the answer is strictly newest first. |
| Tables.DescendingUnique | taskhive/backend/src/controllers/taskController.js:89 | Two strictly newest-first sequences with the same rows are equal, so the ordered answer is determined. |
| Tables.InsertByName | taskhive/backend/src/controllers/groupController.js:6 | Inserting into a list sorted by name keeps it sorted and adds exactly that user. |
| Tables.SortByName | taskhive/backend/src/controllers/groupController.js:6 | The users sorted by name ascending, every user exactly once. |
| Text.Trim | taskhive/backend/src/controllers/groupController.js:117 | Trimming removes only leading and trailing whitespace, and the result neither starts nor ends with whitespace. |
| Text.TrimKeepsAt | taskhive/backend/src/controllers/groupController.js:114-117 | The input contains `@` exactly when its trim does. So testing the raw input, as the handler does, picks the same branch as testing the trimmed one. |
| Text.ToLower | taskhive/backend/src/controllers/groupController.js:116 | The same length, each ASCII capital replaced by its small letter, every other character kept. |
| Text.NameLeTotal | taskhive/backend/src/controllers/groupController.js:6 | Any two names are ordered one way or the other. |
| Text.NameLeTransitive | taskhive/backend/src/controllers/groupController.js:6 | The name order is transitive. |
| TaskController.EmptyUpdateRefused | taskhive/backend/src/controllers/taskController.js:136-188 | Once the task and its group are found, a request naming no field gets Validation from the creator's path (lines 186-188) and Forbidden from anyone else's, because the missing status is refused first. |
| TaskController.UpdateRefusedByDatabase | taskhive/backend/src/controllers/taskController.js:190-193 | Once the checks let a request naming some field through, the only error left is the server error, given exactly when the title is null or refused by VARCHAR(255) or the description holds U+0000. |
| Tables.StoreVarchar | taskhive/backend/src/initDb.js:51-53 | Assigning to a VARCHAR(n) column (the title and status here, the group name at line 26) is refused exactly when the value holds U+0000 or some character past the n-th is not a space. A value that fits and holds no U+0000 is stored unchanged. Otherwise, when everything past the n-th character is spaces, the stored value is its first n characters. |
| Tables.StoreVarcharDropsPadding | taskhive/backend/src/initDb.js:51 | A value of exactly n characters followed by spaces is stored as those n characters. |
| Policy.BindVarchar | taskhive/backend/src/initDb.js:51-53 | Undefined and null bind as SQL NULL. A string is accepted exactly when its VARCHAR column stores it, and then binds as the stored value. |
| Scenario.MemberToggles | taskhive/backend/src/controllers/taskController.js:125-142 | In the session, the member's status toggle succeeds and writes DONE; the member's retitle is Forbidden. |
| Scenario.OnlyCreatorDeletes | taskhive/backend/src/controllers/taskController.js:232-236 | In the session, the member's delete is Forbidden and the creator's removes the task. |

## Left out

- Authentication (`authController.js`) is not part of this model: password hashing, token signing and registration. The caller's id is a parameter, and the users are given to `Store`'s constructor.
- The JSON the handlers answer with is not modelled: the `assignedUser` and `creator` objects, the member list with its row ids, the `searchedFor` field and the HTTP plumbing. A handler answers the row it wrote or looked up, or an error kind.
- The `GroupMember` row id (`memberId`) is not modelled. A membership is the (user, group) pair only.
- Ids are compared as plain strings, not as PostgreSQL `UUID` values. This has two consequences:
  - Text that is not a UUID, including text holding U+0000, makes a query's cast to `UUID` raise an error, and the handler answers 500. The model instead answers NotFound for an ill-formed task, group or user id. It answers Validation for an ill-formed assignee in the creator's request: `"bob"` in create or update, or `""` in update. Create treats `""` as no assignee and stores NULL, as the source does.
  - One UUID written two ways, for example in upper case, is the same id to PostgreSQL but two ids to the model. The source finds the task, group, member or user, and stores the normalised id for an assignee. The model answers NotFound, or Validation for the assignee.
- Body properties are `undefined`, `null` or strings. Numbers, booleans, arrays and objects in a request body are not modelled.
- Text.ToLower: models `LOWER` for ASCII letters only; PostgreSQL's `LOWER` also folds other letters.
- Tables.SortByName: takes `ORDER BY name` as code-point order, not the database's collation. Users with equal names keep table order.
- GroupController.GetAllUsers: inherits the code-point order of `Tables.SortByName` in place of the database's collation.
- A lookup without `ORDER BY` that reads `rows[0]` takes the first matching row in table order. The database promises no particular row.
- Concurrency is not modelled. Each request runs as one atomic step, although the handlers' checks and writes are separate statements that concurrent requests can interleave.
- `groupController.js` reaches the database through `../db` and `taskController.js` through `../prisma`; both are taken to be the same pool. `../db` is not part of this model.
- `ON DELETE CASCADE` and `ON DELETE SET NULL` are not modelled, since no handler deletes users or groups. No handler removes members either, which is why a task's assignee stays a member.
- The "Group not found" branches of the update and delete handlers are kept in the model. The proof shows they cannot be taken while the foreign key on `"groupId"` holds.
- The UI's status toggle and the axios client are not modelled.
- Self-invitation: the creator may invite themselves into their own group. The model allows it, as the handler does.
- Case-variant addresses: an invitation by e-mail finds the earliest user whose address matches when two addresses differ only in case (see `CaseVariantEmailsCollide`). Registration compares addresses case-sensitively, so such pairs can exist. No corrected version is modelled, because the intended rule is not evident.
