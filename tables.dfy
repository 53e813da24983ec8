/** The four tables the controllers read and write, one datatype per row,
    with the queries they run over them: lookup by key, the identifier
    `crypto.randomUUID()` supplies, `ORDER BY "createdAt" DESC` and
    `ORDER BY name ASC`. A table is a sequence of rows in insertion order. */
module Tables {
  import opened Common
  import opened Text

  type Id = string

  /** Length bound of the VARCHAR(255) columns `Group.name` and `Task.title`. */
  const MaxVarchar: nat := 255
  /** Length bound of the VARCHAR(50) column `Task.status`. */
  const MaxStatusLength: nat := 50

  /** PostgreSQL refuses any text value holding U+0000, whatever the column:
      the server reports an invalid byte sequence for UTF8 (error 22021). */
  predicate RefusedText(v: Json)
  {
    v.Str? && '\0' in v.s
  }

  /** PostgreSQL assigning `s` to a VARCHAR(n) column: a value holding U+0000
      is refused; otherwise a value of at most n characters is stored as it
      is, and a longer one is cut to its first n characters when everything
      past them is spaces, and refused when anything else is. */
  function StoreVarchar(s: string, n: nat): (r: Option<string>)
    ensures r.None? <==> '\0' in s || exists j :: n <= j < |s| && s[j] != ' '
    ensures |s| <= n && '\0' !in s ==> r == Some(s)
    ensures r.Some? ==> |r.value| <= n && r.value <= s
    ensures r.Some? && n < |s| ==> r.value == s[..n]
    ensures r.Some? ==> forall j :: |r.value| <= j < |s| ==> s[j] == ' '
  {
    if '\0' in s then None
    else if |s| <= n then Some(s)
    else if forall j :: n <= j < |s| ==> s[j] == ' ' then Some(s[..n])
    else None
  }

  /** A value of exactly n characters followed by spaces is stored without
      the spaces. */
  lemma StoreVarcharDropsPadding(s: string, pad: string, n: nat)
    requires |s| == n && '\0' !in s && forall j :: 0 <= j < |pad| ==> pad[j] == ' '
    ensures StoreVarchar(s + pad, n) == Some(s)
  {
    var p := s + pad;
    forall j | n <= j < |p|
      ensures p[j] == ' '
    {
      assert p[j] == pad[j - n];
    }
    assert '\0' !in p by {
      forall j | 0 <= j < |p|
        ensures p[j] != '\0'
      {
        if j < n {
          assert p[j] == s[j];
        }
      }
    }
    if pad == [] {
      assert p == s;
    } else {
      assert p[..n] == s;
      assert StoreVarchar(p, n) == Some(p[..n]);
    }
  }

  /** A `User` row; the password hash is not part of this model. */
  datatype User = User(id: Id, name: string, email: string)

  /** A `Group` row. `createdAt` is the value `NOW()` had when it was inserted. */
  datatype Group = Group(id: Id, name: string, createdBy: Id, createdAt: nat)

  /** A `GroupMember` row, identified here by its (user, group) pair, which the
      table keeps unique. */
  datatype Membership = Membership(userId: Id, groupId: Id)

  /** A `Task` row; the nullable columns are options. */
  datatype Task = Task(id: Id, title: string, description: Option<string>, status: Option<string>,
                       groupId: Id, assignedTo: Option<Id>, createdAt: nat)

  function UserKey(u: User): Id { u.id }
  function EmailKey(u: User): string { u.email }
  /** `LOWER(email)`, the key the invite lookup by e-mail compares. */
  function LowerEmailKey(u: User): string { ToLower(u.email) }
  function GroupKey(g: Group): Id { g.id }
  function TaskKey(t: Task): Id { t.id }
  function GroupStamp(g: Group): nat { g.createdAt }
  function TaskStamp(t: Task): nat { t.createdAt }

  /** The values a column takes in a table. */
  function Keys<T(==)>(rows: seq<T>, key: T -> string): set<string>
  {
    set x | x in rows :: key(x)
  }

  /** A primary key or UNIQUE constraint: no two rows share the column's value. */
  ghost predicate UniqueKeys<T>(rows: seq<T>, key: T -> string)
  {
    forall i, j :: 0 <= i < |rows| && 0 <= j < |rows| && key(rows[i]) == key(rows[j]) ==> i == j
  }

  /** `SELECT ... WHERE key = id` followed by `rows[0]`: the position of the
      first row whose column equals `id`, or none when no row does. */
  function IndexOf<T(==)>(rows: seq<T>, key: T -> string, id: string): (r: Option<nat>)
    ensures r.Some? ==> r.value < |rows| && key(rows[r.value]) == id
    ensures r.Some? ==> forall i :: 0 <= i < r.value ==> key(rows[i]) != id
    ensures r.None? <==> id !in Keys(rows, key)
  {
    if rows == [] then None
    else if key(rows[0]) == id then Some(0)
    else
      match IndexOf(rows[1..], key, id)
      case None =>
        assert forall x :: x in rows ==> x == rows[0] || x in rows[1..];
        None
      case Some(k) => Some(k + 1)
  }

  /** Under a unique key, the lookup of a row's key finds that row. */
  lemma IndexOfUnique<T>(rows: seq<T>, key: T -> string, i: nat)
    requires UniqueKeys(rows, key) && i < |rows|
    ensures IndexOf(rows, key, key(rows[i])) == Some(i)
  {
  }

  /** The group whose id is `id`, if the `Group` table has one. */
  function GroupWithId(groups: seq<Group>, id: Id): (r: Option<Group>)
    ensures r.Some? ==> r.value in groups && r.value.id == id
    ensures r.None? <==> id !in Keys(groups, GroupKey)
  {
    match IndexOf(groups, GroupKey, id)
    case Some(k) => Some(groups[k])
    case None => None
  }

  /** Appending a row with another key leaves every lookup as it was. */
  lemma {:induction false} IndexOfAppend<T>(rows: seq<T>, key: T -> string, x: T, id: string)
    requires key(x) != id
    ensures IndexOf(rows + [x], key, id) == IndexOf(rows, key, id)
  {
    if rows != [] {
      assert (rows + [x])[1..] == rows[1..] + [x];
      IndexOfAppend(rows[1..], key, x, id);
    }
  }

  /** Appending a row adds its key to the column's values. */
  lemma KeysAppend<T>(rows: seq<T>, key: T -> string, x: T)
    ensures Keys(rows + [x], key) == Keys(rows, key) + {key(x)}
  {
    assert forall y :: y in rows + [x] <==> y in rows || y == x;
  }

  /** A row whose key is new keeps the key unique. */
  lemma UniqueAppend<T>(rows: seq<T>, key: T -> string, x: T)
    requires UniqueKeys(rows, key) && key(x) !in Keys(rows, key)
    ensures UniqueKeys(rows + [x], key)
  {
    var rows' := rows + [x];
    forall i, j | 0 <= i < |rows'| && 0 <= j < |rows'| && key(rows'[i]) == key(rows'[j])
      ensures i == j
    {
      if i < |rows| { assert rows[i] in rows; }
      if j < |rows| { assert rows[j] in rows; }
    }
  }

  /** A row stamped after every other keeps the table ascending. */
  lemma AscendingAppend<T>(rows: seq<T>, stamp: T -> nat, x: T)
    requires Ascending(rows, stamp) && forall y :: y in rows ==> stamp(y) < stamp(x)
    ensures Ascending(rows + [x], stamp)
  {
    var rows' := rows + [x];
    forall i, j | 0 <= i < j < |rows'|
      ensures stamp(rows'[i]) < stamp(rows'[j])
    {
      assert rows[i] in rows;
    }
  }

  /** The length of the longest value a column holds. */
  function Longest<T(==)>(rows: seq<T>, key: T -> string): (n: nat)
    ensures forall x :: x in rows ==> |key(x)| <= n
  {
    if rows == [] then 0
    else
      var m := Longest(rows[1..], key);
      assert forall x :: x in rows ==> x == rows[0] || x in rows[1..];
      if |key(rows[0])| > m then |key(rows[0])| else m
  }

  /** A stand-in for `crypto.randomUUID()`: an identifier no row of the table
      carries yet (longer than every identifier in it). */
  function FreshId<T(==)>(rows: seq<T>, key: T -> string): (r: Id)
    ensures r !in Keys(rows, key) && r != ""
  {
    seq(Longest(rows, key) + 1, _ => 'u')
  }

  /** Rows in table order carry strictly increasing stamps. */
  ghost predicate Ascending<T>(rows: seq<T>, stamp: T -> nat)
  {
    forall i, j :: 0 <= i < j < |rows| ==> stamp(rows[i]) < stamp(rows[j])
  }

  /** Rows carry strictly decreasing stamps: newest first, no row twice. */
  ghost predicate Descending<T>(rows: seq<T>, stamp: T -> nat)
  {
    forall i, j :: 0 <= i < j < |rows| ==> stamp(rows[i]) > stamp(rows[j])
  }

  /** `SELECT ... WHERE keep ORDER BY "createdAt" DESC` over a table kept in
      insertion order: the kept rows, last inserted first. */
  function NewestFirst<T(!new,==)>(rows: seq<T>, keep: T -> bool): (r: seq<T>)
    ensures forall x :: x in r <==> x in rows && keep(x)
  {
    if rows == [] then []
    else
      assert forall x :: x in rows ==> x == rows[0] || x in rows[1..];
      NewestFirst(rows[1..], keep) + if keep(rows[0]) then [rows[0]] else []
  }

  /** Because `NOW()` only increases, a table in insertion order is ascending
      in `createdAt`, and the query answers newest first. */
  lemma {:induction false} NewestFirstDescending<T(!new)>(rows: seq<T>, keep: T -> bool, stamp: T -> nat)
    requires Ascending(rows, stamp)
    ensures Descending(NewestFirst(rows, keep), stamp)
  {
    if rows != [] {
      var rest := NewestFirst(rows[1..], keep);
      NewestFirstDescending(rows[1..], keep, stamp);
      forall x | x in rest
        ensures stamp(x) > stamp(rows[0])
      {
        var j :| 0 <= j < |rows[1..]| && rows[1..][j] == x;
        assert rows[j + 1] == x;
      }
    }
  }

  lemma MultisetTail<T>(s: seq<T>)
    requires s != []
    ensures multiset(s[1..]) == multiset(s) - multiset{s[0]}
  {
    assert s == [s[0]] + s[1..];
  }

  /** The newest row of a strictly newest-first sequence is determined by its rows. */
  lemma DescendingHead<T>(a: seq<T>, b: seq<T>, stamp: T -> nat)
    requires Descending(a, stamp) && Descending(b, stamp)
    requires multiset(a) == multiset(b) && a != []
    ensures b != [] && a[0] == b[0]
  {
    assert a[0] in multiset(b);
    assert b[0] in multiset(a);
    var i :| 0 <= i < |a| && a[i] == b[0];
    var j :| 0 <= j < |b| && b[j] == a[0];
    assert stamp(a[0]) >= stamp(a[i]);
    assert stamp(b[0]) >= stamp(b[j]);
  }

  lemma SameHeadAndTail<T>(a: seq<T>, b: seq<T>)
    requires a != [] && b != [] && a[0] == b[0] && a[1..] == b[1..]
    ensures a == b
  {
    assert a == [a[0]] + a[1..];
    assert b == [b[0]] + b[1..];
  }

  lemma DescendingTail<T>(a: seq<T>, stamp: T -> nat)
    requires Descending(a, stamp) && a != []
    ensures Descending(a[1..], stamp)
  {
  }

  /** Two answers that hold the same rows and are both strictly newest first
      are the same sequence: `ORDER BY "createdAt" DESC` leaves no choice. */
  lemma {:induction false} DescendingUnique<T>(a: seq<T>, b: seq<T>, stamp: T -> nat)
    requires Descending(a, stamp) && Descending(b, stamp)
    requires multiset(a) == multiset(b)
    ensures a == b
  {
    if a != [] {
      DescendingHead(a, b, stamp);
      MultisetTail(a);
      MultisetTail(b);
      DescendingTail(a, stamp);
      DescendingTail(b, stamp);
      DescendingUnique(a[1..], b[1..], stamp);
      SameHeadAndTail(a, b);
    } else {
      assert |b| == |multiset(b)| == 0;
    }
  }

  /** Users ordered by name, as `ORDER BY name ASC` returns them. */
  ghost predicate SortedByName(users: seq<User>)
  {
    forall i, j :: 0 <= i < j < |users| ==> NameLe(users[i].name, users[j].name)
  }

  /** A user whose name sorts no later than any name of a sorted sequence may lead it. */
  lemma ConsSorted(x: User, rest: seq<User>)
    requires SortedByName(rest) && forall y :: y in rest ==> NameLe(x.name, y.name)
    ensures SortedByName([x] + rest)
  {
    var s := [x] + rest;
    forall i, j | 0 <= i < j < |s|
      ensures NameLe(s[i].name, s[j].name)
    {
      assert s[j] == rest[j - 1];
      if i == 0 { assert s[j] in rest; } else { assert s[i] == rest[i - 1]; }
    }
  }

  /** Dropping the first user of a sorted sequence leaves it sorted. */
  lemma SortedTail(sorted: seq<User>)
    requires SortedByName(sorted) && sorted != []
    ensures SortedByName(sorted[1..])
  {
    var tail := sorted[1..];
    forall i, j | 0 <= i < j < |tail|
      ensures NameLe(tail[i].name, tail[j].name)
    {
      assert tail[i] == sorted[i + 1] && tail[j] == sorted[j + 1];
    }
  }

  /** A name no later than the first of a sorted sequence is no later than any of it. */
  lemma BelowHead(u: User, sorted: seq<User>)
    requires SortedByName(sorted) && sorted != [] && NameLe(u.name, sorted[0].name)
    ensures forall y :: y in sorted ==> NameLe(u.name, y.name)
  {
    forall y | y in sorted
      ensures NameLe(u.name, y.name)
    {
      var j :| 0 <= j < |sorted| && sorted[j] == y;
      if j > 0 { NameLeTransitive(u.name, sorted[0].name, sorted[j].name); }
    }
  }

  /** The first name of a sorted sequence is no later than any name after it. */
  lemma HeadBelowTail(sorted: seq<User>)
    requires SortedByName(sorted) && sorted != []
    ensures forall y :: y in sorted[1..] ==> NameLe(sorted[0].name, y.name)
  {
    forall y | y in sorted[1..]
      ensures NameLe(sorted[0].name, y.name)
    {
      var j :| 0 <= j < |sorted| - 1 && sorted[1..][j] == y;
      assert sorted[j + 1] == y;
    }
  }

  /** A name no later than every name of `tail` and than `u.name` is no later
      than any name of a rearrangement of `tail` with `u`. */
  lemma BelowAll(h: User, tail: seq<User>, u: User, rest: seq<User>)
    requires forall y :: y in tail ==> NameLe(h.name, y.name)
    requires NameLe(h.name, u.name) && multiset(rest) == multiset(tail) + multiset{u}
    ensures forall x :: x in rest ==> NameLe(h.name, x.name)
  {
    forall x | x in rest
      ensures NameLe(h.name, x.name)
    {
      assert x in multiset(rest);
      if x != u {
        assert x in multiset(tail);
      }
    }
  }

  /** `u` placed before the first user of `sorted` whose name it does not follow. */
  function InsertByName(u: User, sorted: seq<User>): (r: seq<User>)
    requires SortedByName(sorted)
    ensures SortedByName(r)
    ensures multiset(r) == multiset(sorted) + multiset{u}
  {
    if sorted == [] then [u]
    else if NameLe(u.name, sorted[0].name) then
      BelowHead(u, sorted);
      ConsSorted(u, sorted);
      [u] + sorted
    else
      NameLeTotal(u.name, sorted[0].name);
      var tail := sorted[1..];
      SortedTail(sorted);
      HeadBelowTail(sorted);
      var rest := InsertByName(u, tail);
      assert sorted == [sorted[0]] + tail;
      BelowAll(sorted[0], tail, u, rest);
      ConsSorted(sorted[0], rest);
      [sorted[0]] + rest
  }

  /** The `User` table ordered by name: every user once, ascending by name;
      users with equal names keep their table order. */
  function SortByName(users: seq<User>): (r: seq<User>)
    ensures SortedByName(r)
    ensures multiset(r) == multiset(users)
  {
    if users == [] then []
    else
      assert users == [users[0]] + users[1..];
      InsertByName(users[0], SortByName(users[1..]))
  }
}
