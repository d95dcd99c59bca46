/** The workspace that backend/scripts/backfill_workspace_id.py gives a row, by what the row, the
    workspaces and the memberships say. */
module BackfillRule {
  import opened BackfillWorkspace
  import opened Wrappers

  // --- decimal numbers ---

  predicate IsDigit(c: char) {
    '0' <= c <= '9'
  }

  /** The number that digits stand for. */
  function NumberOf(s: string): int {
    if s == "" then 0 else 10 * NumberOf(s[..|s| - 1]) + (s[|s| - 1] as int - '0' as int)
  }

  /** Digits without a leading zero, but for zero itself. */
  predicate Unsigned(s: string) {
    && s != "" && (forall i | 0 <= i < |s| :: IsDigit(s[i]))
    && (|s| > 1 ==> s[0] != '0')
  }

  /** `s` is the integer in decimal. */
  predicate Decimal(s: string, n: int) {
    if n >= 0 then Unsigned(s) && NumberOf(s) == n
    else s != "" && s[0] == '-' && Unsigned(s[1..]) && NumberOf(s[1..]) == -n
  }

  lemma {:induction false} DigitsAre(n: nat)
    ensures Unsigned(Digits(n)) && NumberOf(Digits(n)) == n
    ensures n > 0 ==> Digits(n)[0] != '0'
  {
    var s := Digits(n);
    if n < 10 {
      assert s[..|s| - 1] == "" && s[0] == Digit(n);
    } else {
      DigitsAre(n / 10);
      assert s[..|s| - 1] == Digits(n / 10) && s[|s| - 1] == Digit(n % 10);
      assert s[0] == Digits(n / 10)[0];
    }
  }

  lemma {:induction false} LeadingDigit(s: string)
    requires Unsigned(s)
    ensures NumberOf(s) >= 0 && (s[0] != '0' ==> NumberOf(s) > 0)
  {
    var init, last := s[..|s| - 1], s[|s| - 1];
    assert IsDigit(last);
    if init != "" {
      assert init[0] == s[0];
      LeadingDigit(init);
    } else {
      assert s[0] == last && NumberOf(init) == 0;
    }
  }

  lemma {:induction false} OnlyDigits(s: string)
    requires Unsigned(s)
    ensures NumberOf(s) >= 0 && Digits(NumberOf(s)) == s
  {
    LeadingDigit(s);
    var init, last := s[..|s| - 1], s[|s| - 1];
    assert IsDigit(last) && s == init + [last];
    if init != "" {
      assert Unsigned(init) && init[0] == s[0] != '0';
      LeadingDigit(init);
      OnlyDigits(init);
      var n, d := NumberOf(init), last as int - '0' as int;
      assert (10 * n + d) / 10 == n && (10 * n + d) % 10 == d;
      assert Digit(d) == last;
    } else {
      assert NumberOf(init) == 0 && Digit(NumberOf(s)) == last;
    }
  }

  /** `str` of an integer is the one decimal notation of it. */
  lemma {:induction false} StrIff(s: string, n: int)
    ensures s == Str(n) <==> Decimal(s, n)
  {
    hide NumberOf, Digits, Unsigned;
    DigitsAre(if n < 0 then -n else n);
    if Decimal(s, n) {
      OnlyDigits(if n < 0 then s[1..] else s);
      assert n < 0 ==> s == ['-'] + s[1..];
    }
  }

  // --- the rule ---

  /** The user column names this user: as a number, or as its decimal notation where it is a string. */
  predicate Names(uid: Uid, uidIsString: bool, user: int) {
    if uidIsString then uid.Text? && Decimal(uid.s, user) else uid == Number(user)
  }

  lemma {:induction false} NamesIff(uid: Uid, uidIsString: bool, user: int)
    ensures Matching(user, uidIsString) == uid <==> Names(uid, uidIsString, user)
  {
    hide Decimal, Str;
    if uid.Text? {
      StrIff(uid.s, user);
    }
  }

  /** The first workspace that the user owns. */
  predicate OwnsFirst(workspaces: seq<Workspace>, user: int, k: nat) {
    k < |workspaces| && workspaces[k].owner == user && forall j | 0 <= j < k :: workspaces[j].owner != user
  }

  predicate OwnsNone(workspaces: seq<Workspace>, user: int) {
    forall j | 0 <= j < |workspaces| :: workspaces[j].owner != user
  }

  predicate JoinedFirst(members: seq<Member>, user: int, k: nat) {
    k < |members| && members[k].user == user && forall j | 0 <= j < k :: members[j].user != user
  }

  predicate JoinedNone(members: seq<Member>, user: int) {
    forall j | 0 <= j < |members| :: members[j].user != user
  }

  lemma {:induction false} FirstOwnedIs(workspaces: seq<Workspace>, user: int)
    ensures FirstOwned(workspaces, user).None? <==> OwnsNone(workspaces, user)
    ensures forall k: nat | OwnsFirst(workspaces, user, k) :: FirstOwned(workspaces, user) == Some(workspaces[k].id)
  {
    if workspaces != [] {
      var rest := workspaces[1..];
      FirstOwnedIs(rest, user);
      assert forall j | 1 <= j < |workspaces| :: workspaces[j] == rest[j - 1];
      assert forall j | 0 <= j < |rest| :: rest[j] == workspaces[j + 1];
      forall k: nat | OwnsFirst(workspaces, user, k)
        ensures FirstOwned(workspaces, user) == Some(workspaces[k].id)
      {
        if k > 0 {
          assert OwnsFirst(rest, user, k - 1);
        }
      }
    }
  }

  lemma {:induction false} FirstJoinedIs(members: seq<Member>, user: int)
    ensures FirstJoined(members, user).None? <==> JoinedNone(members, user)
    ensures forall k: nat | JoinedFirst(members, user, k) :: FirstJoined(members, user) == Some(members[k].workspace)
  {
    if members != [] {
      var rest := members[1..];
      FirstJoinedIs(rest, user);
      assert forall j | 1 <= j < |members| :: members[j] == rest[j - 1];
      assert forall j | 0 <= j < |rest| :: rest[j] == members[j + 1];
      forall k: nat | JoinedFirst(members, user, k)
        ensures FirstJoined(members, user) == Some(members[k].workspace)
      {
        if k > 0 {
          assert JoinedFirst(rest, user, k - 1);
        }
      }
    }
  }

  lemma {:induction false} WantedFor(
      workspaces: seq<Workspace>, members: seq<Member>, uid: Uid, uidIsString: bool, user: int)
    requires workspaces != [] && Names(uid, uidIsString, user)
    ensures Wanted(workspaces, members, uid, uidIsString) ==
            if WorkspaceOf(workspaces, members, user).Some? then WorkspaceOf(workspaces, members, user).value
            else workspaces[0].id
  {
    hide Matching, WorkspaceOf, Names;
    NamesIff(uid, uidIsString, user);
    var named := BackfillWorkspace.Named(uid, uidIsString);
    assert named.Some?;
    MatchingInjective(named.value, user, uidIsString);
  }

  lemma {:induction false} WantedForNone(workspaces: seq<Workspace>, members: seq<Member>, uid: Uid, uidIsString: bool)
    requires workspaces != [] && forall user: int :: !Names(uid, uidIsString, user)
    ensures Wanted(workspaces, members, uid, uidIsString) == workspaces[0].id
  {
    hide Matching, WorkspaceOf, Names;
    forall user: int
      ensures Matching(user, uidIsString) != uid
    {
      NamesIff(uid, uidIsString, user);
    }
  }

  /** A row that had no workspace has the first one that its user owns; else the user's first
      membership; and the first of all where it names no user, or one with neither. */
  lemma {:induction false} RowRule(
      was: seq<Row>, now: seq<Row>, workspaces: seq<Workspace>, members: seq<Member>, uidIsString: bool, i: nat)
    requires workspaces != [] && RowsBackfilled(was, now, workspaces, members, uidIsString)
    requires i < |was| && was[i].workspace.None?
    ensures i < |now| && now[i].uid == was[i].uid
    ensures forall user: int, k: nat | Names(was[i].uid, uidIsString, user) && OwnsFirst(workspaces, user, k) ::
              now[i].workspace == Some(workspaces[k].id)
    ensures forall user: int, k: nat
              | Names(was[i].uid, uidIsString, user) && OwnsNone(workspaces, user) && JoinedFirst(members, user, k) ::
              now[i].workspace == Some(members[k].workspace)
    ensures (forall user: int | Names(was[i].uid, uidIsString, user) ::
               OwnsNone(workspaces, user) && JoinedNone(members, user)) ==>
            now[i].workspace == Some(workspaces[0].id)
  {
    assert forall user: int, k: nat | OwnsFirst(workspaces, user, k) :: k < |workspaces|;
    assert forall user: int, k: nat | JoinedFirst(members, user, k) :: k < |members|;
    hide Wanted, Names, OwnsFirst, OwnsNone, JoinedFirst, JoinedNone;
    var uid := was[i].uid;
    forall user: int | Names(uid, uidIsString, user)
      ensures now[i].workspace ==
              Some(if WorkspaceOf(workspaces, members, user).Some? then WorkspaceOf(workspaces, members, user).value
                   else workspaces[0].id)
    {
      WantedFor(workspaces, members, uid, uidIsString, user);
    }
    forall user: int
      ensures FirstOwned(workspaces, user).None? <==> OwnsNone(workspaces, user)
      ensures FirstJoined(members, user).None? <==> JoinedNone(members, user)
      ensures forall k: nat | k < |workspaces| && OwnsFirst(workspaces, user, k) ::
                FirstOwned(workspaces, user) == Some(workspaces[k].id)
      ensures forall k: nat | k < |members| && JoinedFirst(members, user, k) ::
                FirstJoined(members, user) == Some(members[k].workspace)
    {
      FirstOwnedIs(workspaces, user);
      FirstJoinedIs(members, user);
    }
    hide FirstOwned, FirstJoined, RowsBackfilled;
    if forall user: int :: !Names(uid, uidIsString, user) {
      WantedForNone(workspaces, members, uid, uidIsString);
    }
  }

  // --- what is counted ---

  /** The positions of rows without a workspace. */
  function Missing(rows: seq<Row>): set<nat> {
    set i: nat | i < |rows| && rows[i].workspace.None?
  }

  lemma {:induction false} MissingSnoc(rows: seq<Row>, row: Row)
    ensures |rows| !in Missing(rows)
    ensures Missing(rows + [row]) == Missing(rows) + if row.workspace.None? then {|rows|} else {}
  {
  }

  lemma {:induction false} NullsAre(rows: seq<Row>)
    ensures Nulls(rows) == |Missing(rows)|
    decreases |rows|
  {
    if rows != [] {
      var init, last := rows[..|rows| - 1], rows[|rows| - 1];
      NullsAre(init);
      assert rows == init + [last];
      NullsConcat(init, [last]);
      MissingSnoc(init, last);
      hide Missing;
    }
  }

  /** The rows without a workspace in several tables, by table and position. */
  function AllMissing(tables: seq<seq<Row>>): set<(nat, nat)> {
    set t: nat, i: nat | t < |tables| && i in Missing(tables[t]) :: (t, i)
  }

  function Placed(t: nat, positions: set<nat>): set<(nat, nat)> {
    set i | i in positions :: (t, i)
  }

  lemma {:induction false} PlacedSize(t: nat, positions: set<nat>)
    ensures |Placed(t, positions)| == |positions|
    decreases |positions|
  {
    if positions != {} {
      var i :| i in positions;
      PlacedSize(t, positions - {i});
      assert Placed(t, positions) == Placed(t, positions - {i}) + {(t, i)};
    }
  }

  lemma {:induction false} AllMissingSnoc(tables: seq<seq<Row>>, rows: seq<Row>)
    ensures AllMissing(tables + [rows]) == AllMissing(tables) + Placed(|tables|, Missing(rows))
    ensures AllMissing(tables) !! Placed(|tables|, Missing(rows))
  {
    hide Missing;
  }

  /** The total of a run over tables without a user column counts each row without a workspace once. */
  lemma {:induction false} PlainNullsAre(tables: seq<seq<Row>>)
    ensures PlainNulls(tables) == |AllMissing(tables)|
    decreases |tables|
  {
    hide AllMissing, Missing, Placed, Nulls;
    if tables == [] {
      NoneMissing();
    } else {
      var init, last := tables[..|tables| - 1], tables[|tables| - 1];
      PlainNullsAre(init);
      NullsAre(last);
      PlacedSize(|init|, Missing(last));
      AllMissingSnoc(init, last);
      assert tables == init + [last];
    }
  }

  lemma {:induction false} NoneMissing()
    ensures AllMissing([]) == {}
  {
  }

  function RowsOf(tables: seq<Table>): seq<seq<Row>> {
    seq(|tables|, i requires 0 <= i < |tables| => tables[i].rows)
  }

  /** And so does the total over those with one. */
  lemma {:induction false} ScopedNullsAre(tables: seq<Table>)
    ensures ScopedNulls(tables) == |AllMissing(RowsOf(tables))|
  {
    PlainNullsAre(RowsOf(tables));
    ScopedIsPlain(tables);
  }

  lemma {:induction false} ScopedIsPlain(tables: seq<Table>)
    ensures ScopedNulls(tables) == PlainNulls(RowsOf(tables))
    decreases |tables|
  {
    hide Nulls;
    if tables != [] {
      ScopedIsPlain(tables[..|tables| - 1]);
      assert RowsOf(tables)[..|tables| - 1] == RowsOf(tables[..|tables| - 1]);
    }
  }
}
