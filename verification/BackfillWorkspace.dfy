/** backend/scripts/backfill_workspace_id.py: giving every row a workspace, by its user where one is
    known. */
module BackfillWorkspace {
  import opened Seqs
  import opened Wrappers

  /** An active workspace, in the order of creation. */
  datatype Workspace = Workspace(id: string, owner: int)

  /** An active membership. */
  datatype Member = Member(user: int, workspace: string)

  /** What a user column holds. */
  datatype Uid = Number(n: int) | Text(s: string) | Null

  datatype Row = Row(uid: Uid, workspace: Option<string>)

  /** A table with a user column, which may be string-typed. */
  datatype Table = Table(uidIsString: bool, rows: seq<Row>)

  // --- decimal rendering ---

  function Digit(d: nat): char
    requires d < 10
  {
    '0' + d as char
  }

  function Digits(n: nat): string {
    if n < 10 then [Digit(n)] else Digits(n / 10) + [Digit(n % 10)]
  }

  /** `str` of an integer. */
  function Str(n: int): string {
    if n < 0 then "-" + Digits(-n) else Digits(n)
  }

  lemma {:induction false} DigitsInjective(a: nat, b: nat)
    requires Digits(a) == Digits(b)
    ensures a == b
    decreases a + b
  {
    var s, t := Digits(a), Digits(b);
    LastDigit(a);
    LastDigit(b);
    if a >= 10 && b >= 10 {
      assert s[..|s| - 1] == Digits(a / 10) && t[..|t| - 1] == Digits(b / 10);
      DigitsInjective(a / 10, b / 10);
    }
  }

  lemma {:induction false} LastDigit(n: nat)
    ensures |Digits(n)| > 0 && Digits(n)[|Digits(n)| - 1] == Digit(n % 10)
    ensures n >= 10 ==> |Digits(n)| > 1
    ensures Digits(n)[0] != '-'
  {
    if n >= 10 {
      LastDigit(n / 10);
    }
  }

  lemma {:induction false} StrInjective(a: int, b: int)
    requires Str(a) == Str(b)
    ensures a == b
  {
    hide Digits, Digit;
    LastDigit(if a < 0 then -a else a);
    LastDigit(if b < 0 then -b else b);
    var signA, signB := Str(a)[0], Str(b)[0];
    if a < 0 && b < 0 {
      assert Str(a)[1..] == Digits(-a) && Str(b)[1..] == Digits(-b);
      DigitsInjective(-a, -b);
    } else if a >= 0 && b >= 0 {
      DigitsInjective(a, b);
    }
  }

  // --- the workspace of a user ---

  function FirstOwned(workspaces: seq<Workspace>, user: int): Option<string> {
    if workspaces == [] then None
    else if workspaces[0].owner == user then Some(workspaces[0].id)
    else FirstOwned(workspaces[1..], user)
  }

  function FirstJoined(members: seq<Member>, user: int): Option<string> {
    if members == [] then None
    else if members[0].user == user then Some(members[0].workspace)
    else FirstJoined(members[1..], user)
  }

  /** The oldest workspace that the user owns, else the first membership. */
  function WorkspaceOf(workspaces: seq<Workspace>, members: seq<Member>, user: int): Option<string> {
    var owned := FirstOwned(workspaces, user);
    if owned.Some? then owned else FirstJoined(members, user)
  }

  type UserMap = map<int, string>

  function Find(users: UserMap, user: int): Option<string> {
    if user in users then Some(users[user]) else None
  }

  lemma {:induction false} OwnedSnoc(workspaces: seq<Workspace>, w: Workspace, user: int)
    ensures FirstOwned(workspaces + [w], user) ==
            if FirstOwned(workspaces, user).Some? then FirstOwned(workspaces, user)
            else if w.owner == user then Some(w.id) else None
  {
    if workspaces != [] {
      assert (workspaces + [w])[1..] == workspaces[1..] + [w];
      OwnedSnoc(workspaces[1..], w, user);
    }
  }

  lemma {:induction false} JoinedSnoc(members: seq<Member>, m: Member, user: int)
    ensures FirstJoined(members + [m], user) ==
            if FirstJoined(members, user).Some? then FirstJoined(members, user)
            else if m.user == user then Some(m.workspace) else None
  {
    if members != [] {
      assert (members + [m])[1..] == members[1..] + [m];
      JoinedSnoc(members[1..], m, user);
    }
  }

  /** The user map and its keys in the order of insertion. */
  ghost predicate KeysListed(users: UserMap, keys: seq<int>) {
    Distinct(keys) && forall u: int :: u in keys <==> u in users
  }

  method BuildMap(workspaces: seq<Workspace>, members: seq<Member>) returns (users: UserMap, keys: seq<int>)
    ensures forall u: int :: Find(users, u) == WorkspaceOf(workspaces, members, u)
    ensures KeysListed(users, keys)
  {
    users, keys := map[], [];
    for i := 0 to |workspaces|
      invariant forall u: int :: Find(users, u) == FirstOwned(workspaces[..i], u)
      invariant KeysListed(users, keys)
    {
      var w := workspaces[i];
      PrefixSnoc(workspaces, i);
      forall u: int
        ensures FirstOwned(workspaces[..i + 1], u) ==
                if FirstOwned(workspaces[..i], u).Some? then FirstOwned(workspaces[..i], u)
                else if w.owner == u then Some(w.id) else None
      {
        OwnedSnoc(workspaces[..i], w, u);
      }
      ghost var before := users;
      if w.owner !in users {
        users := users[w.owner := w.id];
        keys := keys + [w.owner];
      }
      forall u: int
        ensures Find(users, u) == FirstOwned(workspaces[..i + 1], u)
      {
        assert Find(before, u) == FirstOwned(workspaces[..i], u);
      }
    }
    assert workspaces[..|workspaces|] == workspaces;
    for i := 0 to |members|
      invariant forall u: int :: Find(users, u) == WorkspaceOf(workspaces, members[..i], u)
      invariant KeysListed(users, keys)
    {
      var m := members[i];
      PrefixSnoc(members, i);
      forall u: int
        ensures FirstJoined(members[..i + 1], u) ==
                if FirstJoined(members[..i], u).Some? then FirstJoined(members[..i], u)
                else if m.user == u then Some(m.workspace) else None
      {
        JoinedSnoc(members[..i], m, u);
      }
      ghost var before := users;
      if m.user !in users {
        users := users[m.user := m.workspace];
        keys := keys + [m.user];
      }
      forall u: int
        ensures Find(users, u) == WorkspaceOf(workspaces, members[..i + 1], u)
      {
        assert Find(before, u) == WorkspaceOf(workspaces, members[..i], u);
      }
    }
    assert members[..|members|] == members;
  }

  // --- what a row ends up with ---

  /** The value that the update for a user compares the column with. */
  function Matching(user: int, uidIsString: bool): Uid {
    if uidIsString then Text(Str(user)) else Number(user)
  }

  lemma {:induction false} MatchingInjective(a: int, b: int, uidIsString: bool)
    requires Matching(a, uidIsString) == Matching(b, uidIsString)
    ensures a == b
  {
    if uidIsString {
      StrInjective(a, b);
    }
  }

  /** The user of a column value, if it is one's of the map. */
  ghost function UserOf(users: UserMap, uid: Uid, uidIsString: bool): Option<int> {
    if exists u: int :: u in users && Matching(u, uidIsString) == uid
    then
      var u: int :| u in users && Matching(u, uidIsString) == uid;
      Some(u)
    else None
  }

  /** The workspace for a row without one: its user's, else the default. */
  ghost function Assigned(users: UserMap, fallback: string, uid: Uid, uidIsString: bool): string {
    var u := UserOf(users, uid, uidIsString);
    if u.Some? && u.value in users then users[u.value] else fallback
  }

  ghost predicate Filled(was: Row, now: Row, users: UserMap, fallback: string, uidIsString: bool) {
    now == if was.workspace.Some? then was else was.(workspace := Some(Assigned(users, fallback, was.uid, uidIsString)))
  }

  function Nulls(rows: seq<Row>): nat {
    if rows == [] then 0 else (if rows[0].workspace.None? then 1 else 0) + Nulls(rows[1..])
  }

  // --- the statements ---

  /** `UPDATE ... SET workspace_id = w WHERE workspace_id IS NULL AND uid_col = uid`, and with no
      second condition if `uid` is None. */
  function UpdateRow(row: Row, uid: Option<Uid>, w: string): Row {
    if row.workspace.None? && (uid.None? || (uid.value == row.uid && uid.value != Null))
    then row.(workspace := Some(w)) else row
  }

  function UpdateRows(rows: seq<Row>, uid: Option<Uid>, w: string): (r: seq<Row>)
    ensures |r| == |rows|
    ensures forall i | 0 <= i < |rows| :: r[i] == UpdateRow(rows[i], uid, w)
  {
    if rows == [] then [] else [UpdateRow(rows[0], uid, w)] + UpdateRows(rows[1..], uid, w)
  }

  lemma {:induction false} UpdateCounts(rows: seq<Row>, uid: Option<Uid>, w: string)
    ensures Nulls(UpdateRows(rows, uid, w)) <= Nulls(rows)
    ensures uid.None? ==> Nulls(UpdateRows(rows, uid, w)) == 0
  {
    if rows != [] {
      UpdateCounts(rows[1..], uid, w);
    }
  }

  /** The statement has dealt with the first `i` rows and counted those it changed. */
  ghost predicate UpdatedUpTo(after: seq<Row>, count: nat, rows: seq<Row>, uid: Option<Uid>, w: string, i: nat) {
    i <= |rows| && after == UpdateRows(rows[..i], uid, w) && Nulls(after) + count == Nulls(rows[..i])
  }

  lemma {:induction false} UpdateNext(after: seq<Row>, count: nat, rows: seq<Row>, uid: Option<Uid>, w: string, i: nat)
    requires i < |rows| && UpdatedUpTo(after, count, rows, uid, w, i)
    ensures var row := UpdateRow(rows[i], uid, w);
            UpdatedUpTo(after + [row], if row != rows[i] then count + 1 else count, rows, uid, w, i + 1)
  {
    var row := UpdateRow(rows[i], uid, w);
    PrefixSnoc(rows, i);
    NullsConcat(after, [row]);
    NullsConcat(rows[..i], [rows[i]]);
    assert Nulls([row]) + (if row != rows[i] then 1 else 0) == Nulls([rows[i]]);
    hide Nulls, UpdateRow;
    assert after + [row] == UpdateRows(rows[..i + 1], uid, w);
  }

  /** The statement, and its row count. */
  method Update(rows: seq<Row>, uid: Option<Uid>, w: string) returns (after: seq<Row>, count: nat)
    ensures after == UpdateRows(rows, uid, w)
    ensures Nulls(after) + count == Nulls(rows)
  {
    after, count := [], 0;
    for i := 0 to |rows|
      invariant UpdatedUpTo(after, count, rows, uid, w, i)
    {
      hide UpdatedUpTo;
      UpdateNext(after, count, rows, uid, w, i);
      var row := UpdateRow(rows[i], uid, w);
      if row != rows[i] {
        count := count + 1;
      }
      after := after + [row];
    }
    assert rows[..|rows|] == rows;
  }

  lemma {:induction false} NullsConcat(a: seq<Row>, b: seq<Row>)
    ensures Nulls(a + b) == Nulls(a) + Nulls(b)
  {
    if a == [] {
      assert a + b == b;
    } else {
      assert (a + b)[1..] == a[1..] + b;
      NullsConcat(a[1..], b);
    }
  }

  // --- the updates user by user ---

  /** The updates for the users in `keys`, in that order. */
  function ByUser(rows: seq<Row>, users: UserMap, keys: seq<int>, uidIsString: bool): seq<Row> {
    if keys == [] then rows
    else
      var earlier, u := ByUser(rows, users, keys[..|keys| - 1], uidIsString), keys[|keys| - 1];
      if u in users then UpdateRows(earlier, Some(Matching(u, uidIsString)), users[u]) else earlier
  }

  /** What the updates so far have made of a row. */
  ghost predicate FilledSoFar(was: Row, now: Row, users: UserMap, keys: seq<int>, uidIsString: bool) {
    && (was.workspace.Some? ==> now == was)
    && (was.workspace.None? ==>
          && (forall u: int :: u in keys && u in users && Matching(u, uidIsString) == was.uid ==>
                now == was.(workspace := Some(users[u])))
          && ((forall u: int :: u in keys && u in users ==> Matching(u, uidIsString) != was.uid) ==> now == was))
  }

  lemma {:induction false} FilledNext(was: Row, now: Row, users: UserMap, keys: seq<int>, uidIsString: bool, user: int)
    requires FilledSoFar(was, now, users, keys, uidIsString) && user in users
    ensures FilledSoFar(was, UpdateRow(now, Some(Matching(user, uidIsString)), users[user]), users,
            keys + [user], uidIsString)
  {
    hide Matching;
    forall u: int | Matching(u, uidIsString) == Matching(user, uidIsString)
      ensures u == user
    {
      MatchingInjective(u, user, uidIsString);
    }
    assert Matching(user, uidIsString) != Null by { NotNull(user, uidIsString); }
  }

  lemma {:induction false} NotNull(user: int, uidIsString: bool)
    ensures Matching(user, uidIsString) != Null
  {
  }

  lemma {:induction false} ByUserFills(rows: seq<Row>, users: UserMap, keys: seq<int>, uidIsString: bool)
    requires forall u: int | u in keys :: u in users
    ensures |ByUser(rows, users, keys, uidIsString)| == |rows|
    ensures forall i | 0 <= i < |rows| ::
            FilledSoFar(rows[i], ByUser(rows, users, keys, uidIsString)[i], users, keys, uidIsString)
    decreases |keys|
  {
    if keys != [] {
      var init, u := keys[..|keys| - 1], keys[|keys| - 1];
      assert keys == init + [u];
      assert forall v: int | v in init :: v in keys;
      assert u in keys;
      ByUserFills(rows, users, init, uidIsString);
      var earlier := ByUser(rows, users, init, uidIsString);
      forall i | 0 <= i < |rows|
        ensures FilledSoFar(rows[i], UpdateRow(earlier[i], Some(Matching(u, uidIsString)), users[u]), users, keys,
                uidIsString)
      {
        FilledNext(rows[i], earlier[i], users, init, uidIsString, u);
      }
    }
  }

  lemma {:induction false} FallbackFills(
      was: Row, mid: Row, users: UserMap, keys: seq<int>, uidIsString: bool, fallback: string)
    requires FilledSoFar(was, mid, users, keys, uidIsString) && forall u: int :: u in keys <==> u in users
    ensures Filled(was, UpdateRow(mid, None, fallback), users, fallback, uidIsString)
  {
  }

  ghost predicate TableFilled(was: seq<Row>, now: seq<Row>, users: UserMap, fallback: string, uidIsString: bool) {
    |now| == |was| && forall i | 0 <= i < |was| :: Filled(was[i], now[i], users, fallback, uidIsString)
  }

  /** The updates user by user, in any order of the users, and then the fallback give every row what
      the pointwise rule gives it. */
  lemma {:induction false} AnyOrderFills(
      rows: seq<Row>, users: UserMap, keys: seq<int>, uidIsString: bool, fallback: string)
    requires forall u: int :: u in keys <==> u in users
    ensures TableFilled(rows, UpdateRows(ByUser(rows, users, keys, uidIsString), None, fallback), users, fallback,
            uidIsString)
  {
    hide FilledSoFar, Filled, UpdateRow, ByUser;
    ByUserFills(rows, users, keys, uidIsString);
    var mid := ByUser(rows, users, keys, uidIsString);
    forall i | 0 <= i < |rows|
      ensures Filled(rows[i], UpdateRow(mid[i], None, fallback), users, fallback, uidIsString)
    {
      FallbackFills(rows[i], mid[i], users, keys, uidIsString, fallback);
    }
  }

  // --- the rule in terms of workspaces and memberships ---

  /** The user that a column value names. */
  ghost function Named(uid: Uid, uidIsString: bool): Option<int> {
    if exists u: int :: Matching(u, uidIsString) == uid
    then
      var u: int :| Matching(u, uidIsString) == uid;
      Some(u)
    else None
  }

  /** The workspace for a row without one: the oldest active one its user owns, else the user's
      membership, else the oldest active one of all. */
  ghost function Wanted(workspaces: seq<Workspace>, members: seq<Member>, uid: Uid, uidIsString: bool): string
    requires workspaces != []
  {
    var u := Named(uid, uidIsString);
    if u.Some? && WorkspaceOf(workspaces, members, u.value).Some? then WorkspaceOf(workspaces, members, u.value).value
    else workspaces[0].id
  }

  lemma {:induction false} AssignedIsWanted(
    workspaces: seq<Workspace>, members: seq<Member>, users: UserMap, uid: Uid, uidIsString: bool)
    requires workspaces != [] && forall u: int :: Find(users, u) == WorkspaceOf(workspaces, members, u)
    ensures Assigned(users, workspaces[0].id, uid, uidIsString) == Wanted(workspaces, members, uid, uidIsString)
  {
    hide Matching, WorkspaceOf;
    var named, known := Named(uid, uidIsString), UserOf(users, uid, uidIsString);
    if named.Some? {
      assert Find(users, named.value) == WorkspaceOf(workspaces, members, named.value);
      if known.Some? {
        MatchingInjective(named.value, known.value, uidIsString);
      }
    }
  }

  ghost predicate RowsBackfilled(
      was: seq<Row>, now: seq<Row>, workspaces: seq<Workspace>, members: seq<Member>, uidIsString: bool)
    requires workspaces != []
  {
    |now| == |was| &&
    forall i | 0 <= i < |was| ::
      now[i] == if was[i].workspace.Some? then was[i]
                else was[i].(workspace := Some(Wanted(workspaces, members, was[i].uid, uidIsString)))
  }

  lemma {:induction false} FilledIsBackfilled(
    was: seq<Row>, now: seq<Row>, workspaces: seq<Workspace>, members: seq<Member>, users: UserMap, uidIsString: bool)
    requires workspaces != [] && forall u: int :: Find(users, u) == WorkspaceOf(workspaces, members, u)
    requires TableFilled(was, now, users, workspaces[0].id, uidIsString)
    ensures RowsBackfilled(was, now, workspaces, members, uidIsString)
  {
    hide Assigned, Wanted, WorkspaceOf, Find;
    forall i | 0 <= i < |was|
      ensures Filled(was[i], now[i], users, workspaces[0].id, uidIsString)
      ensures Assigned(users, workspaces[0].id, was[i].uid, uidIsString) ==
              Wanted(workspaces, members, was[i].uid, uidIsString)
    {
      AssignedIsWanted(workspaces, members, users, was[i].uid, uidIsString);
    }
  }

  lemma {:induction false} NoNulls(rows: seq<Row>)
    ensures Nulls(rows) == 0 <==> forall i | 0 <= i < |rows| :: rows[i].workspace.Some?
  {
    if rows != [] {
      NoNulls(rows[1..]);
      assert forall i | 1 <= i < |rows| :: rows[i] == rows[1..][i - 1];
      assert forall i | 0 <= i < |rows[1..]| :: rows[1..][i] == rows[i + 1];
    }
  }

  /** No NULL remains, and a second pass, whatever the workspaces are by then, changes no row. */
  lemma {:induction false} NoNullRemains(
      was: seq<Row>, now: seq<Row>, workspaces: seq<Workspace>, members: seq<Member>, uidIsString: bool)
    requires workspaces != [] && RowsBackfilled(was, now, workspaces, members, uidIsString)
    ensures Nulls(now) == 0
  {
    hide Wanted;
    NoNulls(now);
  }

  lemma {:induction false} SecondPass(
      was: seq<Row>, now: seq<Row>, workspaces: seq<Workspace>, members: seq<Member>, uidIsString: bool)
    requires workspaces != [] && RowsBackfilled(was, now, workspaces, members, uidIsString) && Nulls(was) == 0
    ensures now == was
  {
    hide Wanted;
    NoNulls(was);
  }

  // --- the whole run ---

  /** A table with a user column. */
  method BackfillTable(
      table: Table, users: UserMap, keys: seq<int>, fallback: string) returns (rows: seq<Row>, updated: nat)
    requires KeysListed(users, keys)
    ensures TableFilled(table.rows, rows, users, fallback, table.uidIsString)
    ensures updated == Nulls(table.rows)
  {
    hide UpdateRows, TableFilled;
    rows, updated := table.rows, 0;
    var nulls := CountNulls(rows);
    if nulls == 0 {
      FullTable(rows, users, fallback, table.uidIsString);
      return;
    }
    var count: nat;
    assert keys[..0] == [];
    for i := 0 to |keys|
      invariant rows == ByUser(table.rows, users, keys[..i], table.uidIsString)
      invariant Nulls(rows) + updated == Nulls(table.rows)
    {
      var u := keys[i];
      PrefixSnoc(keys, i);
      assert keys[..i + 1][..i] == keys[..i];
      assert u in keys;
      rows, count := Update(rows, Some(Matching(u, table.uidIsString)), users[u]);
      updated := updated + count;
    }
    assert keys[..|keys|] == keys;
    AnyOrderFills(table.rows, users, keys, table.uidIsString, fallback);
    UpdateCounts(rows, None, fallback);
    rows, count := Update(rows, None, fallback);
    updated := updated + count;
  }

  method CountNulls(rows: seq<Row>) returns (n: nat)
    ensures n == Nulls(rows)
  {
    n := 0;
    assert rows[0..] == rows;
    for i := 0 to |rows|
      invariant n + Nulls(rows[i..]) == Nulls(rows)
    {
      assert rows[i..][1..] == rows[i + 1..];
      n := if rows[i].workspace.None? then n + 1 else n;
    }
  }

  lemma {:induction false} FullTable(rows: seq<Row>, users: UserMap, fallback: string, uidIsString: bool)
    requires Nulls(rows) == 0
    ensures TableFilled(rows, rows, users, fallback, uidIsString)
  {
    NoNulls(rows);
  }

  /** A table without one: every NULL gets the default. */
  ghost predicate Defaulted(was: seq<Row>, now: seq<Row>, fallback: string) {
    |now| == |was| &&
    forall i | 0 <= i < |was| ::
      now[i] == if was[i].workspace.Some? then was[i] else was[i].(workspace := Some(fallback))
  }

  function ScopedNulls(tables: seq<Table>): nat {
    if tables == [] then 0 else ScopedNulls(tables[..|tables| - 1]) + Nulls(tables[|tables| - 1].rows)
  }

  function PlainNulls(tables: seq<seq<Row>>): nat {
    if tables == [] then 0 else PlainNulls(tables[..|tables| - 1]) + Nulls(tables[|tables| - 1])
  }

  ghost predicate ScopedBackfilled(was: seq<Table>, now: seq<Table>, workspaces: seq<Workspace>, members: seq<Member>)
    requires workspaces != []
  {
    |now| == |was| &&
    forall i | 0 <= i < |was| ::
      && now[i].uidIsString == was[i].uidIsString
      && RowsBackfilled(was[i].rows, now[i].rows, workspaces, members, was[i].uidIsString)
  }

  ghost predicate PlainBackfilled(was: seq<seq<Row>>, now: seq<seq<Row>>, fallback: string) {
    |now| == |was| && forall i | 0 <= i < |was| :: Defaulted(was[i], now[i], fallback)
  }

  class Database {
    var scoped: seq<Table>
    var plain: seq<seq<Row>>

    constructor (scoped: seq<Table>, plain: seq<seq<Row>>)
      ensures this.scoped == scoped && this.plain == plain
    {
      this.scoped, this.plain := scoped, plain;
    }

    /** `run`: without an active workspace nothing happens; otherwise every row is as the rule says,
        and the total is the number of rows that had no workspace. */
    method Run(workspaces: seq<Workspace>, members: seq<Member>) returns (total: nat)
      modifies this
      ensures workspaces == [] ==> scoped == old(scoped) && plain == old(plain) && total == 0
      ensures workspaces != [] ==>
                && ScopedBackfilled(old(scoped), scoped, workspaces, members)
                && PlainBackfilled(old(plain), plain, workspaces[0].id)
                && total == ScopedNulls(old(scoped)) + PlainNulls(old(plain))
    {
      if workspaces == [] {
        return 0;
      }
      var users, keys := BuildMap(workspaces, members);
      total := BackfillScoped(workspaces, members, users, keys);
      var more := BackfillPlain(workspaces[0].id);
      total := total + more;
    }

    method BackfillScoped(
        workspaces: seq<Workspace>, members: seq<Member>, users: UserMap, keys: seq<int>) returns (total: nat)
      requires workspaces != [] && KeysListed(users, keys)
      requires forall u: int :: Find(users, u) == WorkspaceOf(workspaces, members, u)
      modifies this
      ensures ScopedBackfilled(old(scoped), scoped, workspaces, members) && plain == old(plain)
      ensures total == ScopedNulls(old(scoped))
    {
      hide RowsBackfilled, TableFilled, KeysListed, WorkspaceOf, Find, Nulls;
      total := 0;
      ghost var was := scoped;
      assert was[..0] == [];
      for i := 0 to |scoped|
        invariant |scoped| == |was| && plain == old(plain)
        invariant forall k | i <= k < |was| :: scoped[k] == was[k]
        invariant forall k | 0 <= k < i ::
                    && scoped[k].uidIsString == was[k].uidIsString
                    && RowsBackfilled(was[k].rows, scoped[k].rows, workspaces, members, was[k].uidIsString)
        invariant total == ScopedNulls(was[..i])
      {
        var table := scoped[i];
        var rows, updated := BackfillTable(table, users, keys, workspaces[0].id);
        FilledIsBackfilled(table.rows, rows, workspaces, members, users, table.uidIsString);
        scoped := scoped[i := table.(rows := rows)];
        total := total + updated;
        assert was[..i + 1][..i] == was[..i];
      }
      assert was[..|was|] == was;
    }

    method BackfillPlain(fallback: string) returns (total: nat)
      modifies this
      ensures PlainBackfilled(old(plain), plain, fallback) && scoped == old(scoped)
      ensures total == PlainNulls(old(plain))
    {
      hide Nulls, Defaulted;
      total := 0;
      ghost var was := plain;
      assert was[..0] == [];
      for i := 0 to |plain|
        invariant |plain| == |was| && scoped == old(scoped)
        invariant forall k | i <= k < |was| :: plain[k] == was[k]
        invariant forall k | 0 <= k < i :: Defaulted(was[k], plain[k], fallback)
        invariant total == PlainNulls(was[..i])
      {
        UpdateCounts(plain[i], None, fallback);
        var rows, updated := Update(plain[i], None, fallback);
        DefaultFills(was[i], fallback);
        plain := plain[i := rows];
        if updated > 0 {
          total := total + updated;
        }
        assert was[..i + 1][..i] == was[..i];
      }
      assert was[..|was|] == was;
    }
  }

  lemma {:induction false} DefaultFills(rows: seq<Row>, fallback: string)
    ensures Defaulted(rows, UpdateRows(rows, None, fallback), fallback)
  {
  }

  /** After a run no row is without a workspace: a second run, whenever it is, updates none. */
  lemma {:induction false} SecondRun(
    was: seq<Table>, now: seq<Table>, plainWas: seq<seq<Row>>, plainNow: seq<seq<Row>>,
    workspaces: seq<Workspace>, members: seq<Member>, after: seq<Table>, plainAfter: seq<seq<Row>>,
    workspaces2: seq<Workspace>, members2: seq<Member>)
    requires workspaces != [] && ScopedBackfilled(was, now, workspaces, members) &&
             PlainBackfilled(plainWas, plainNow, workspaces[0].id)
    requires workspaces2 != [] && ScopedBackfilled(now, after, workspaces2, members2) &&
             PlainBackfilled(plainNow, plainAfter, workspaces2[0].id)
    ensures ScopedNulls(now) == 0 && PlainNulls(plainNow) == 0
    ensures after == now && plainAfter == plainNow
  {
    hide RowsBackfilled;
    forall i | 0 <= i < |now|
      ensures Nulls(now[i].rows) == 0 && after[i] == now[i]
    {
      NoNullRemains(was[i].rows, now[i].rows, workspaces, members, was[i].uidIsString);
      SecondPass(now[i].rows, after[i].rows, workspaces2, members2, now[i].uidIsString);
    }
    forall i | 0 <= i < |plainNow|
      ensures Nulls(plainNow[i]) == 0 && plainAfter[i] == plainNow[i]
    {
      assert Defaulted(plainWas[i], plainNow[i], workspaces[0].id) &&
        Defaulted(plainNow[i], plainAfter[i], workspaces2[0].id);
      NoNulls(plainNow[i]);
    }
    hide Nulls;
    ScopedZero(now);
    PlainZero(plainNow);
  }

  lemma {:induction false} ScopedZero(tables: seq<Table>)
    requires forall i | 0 <= i < |tables| :: Nulls(tables[i].rows) == 0
    ensures ScopedNulls(tables) == 0
    decreases |tables|
  {
    if tables != [] {
      ScopedZero(tables[..|tables| - 1]);
    }
  }

  lemma {:induction false} PlainZero(tables: seq<seq<Row>>)
    requires forall i | 0 <= i < |tables| :: Nulls(tables[i]) == 0
    ensures PlainNulls(tables) == 0
    decreases |tables|
  {
    if tables != [] {
      PlainZero(tables[..|tables| - 1]);
    }
  }
}
