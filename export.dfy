/** The export as a computation on values: which groups get a sheet, and what
    each sheet holds. The repository's export loop is proved against these
    functions. */
module ExportLayout {
  import opened Models
  import opened Spreadsheet

  const TITLE_ROW := 5
  const FIRST_DATA_ROW := 6
  const TITLES: seq<string> :=
    ["User Name", "User Email", "Created By", "Created Date", "Modified By", "Modified Date"]

  predicate NoDuplicates<T(==)>(s: seq<T>) {
    forall i, j :: 0 <= i < j < |s| ==> s[i] != s[j]
  }

  /** The group ids the export iterates over: the non-null group ids of active
      users, each once, in order of first appearance. */
  function ActiveGroupIds(users: seq<User>): (ids: seq<int>)
    ensures NoDuplicates(ids)
    ensures forall g :: g in ids <==> exists u :: u in users && IsActive(u) && u.groupId == Some(g)
  {
    if users == [] then []
    else
      var init := users[..|users| - 1];
      var u := users[|users| - 1];
      assert users == init + [u];
      var prefix := ActiveGroupIds(init);
      if IsActive(u) && u.groupId.Some? && u.groupId.value !in prefix
      then prefix + [u.groupId.value]
      else prefix
  }

  /** The active users of group `gid`, in table order. */
  function GroupUsers(users: seq<User>, gid: int): (members: seq<User>)
    ensures forall u ::
      multiset(members)[u] == if IsActive(u) && u.groupId == Some(gid) then multiset(users)[u] else 0
    ensures forall u :: u in members <==> u in users && IsActive(u) && u.groupId == Some(gid)
  {
    if users == [] then []
    else
      var init := users[..|users| - 1];
      var u := users[|users| - 1];
      assert users == init + [u];
      var prefix := GroupUsers(init, gid);
      if IsActive(u) && u.groupId == Some(gid) then prefix + [u] else prefix
  }

  /** Row `row` of `sheet` shows exactly user `u`. */
  predicate UserRowAt(sheet: Sheet, row: int, u: User) {
    && (row, 1) in sheet.cells && sheet.cells[(row, 1)] == Text(u.userName)
    && (row, 2) in sheet.cells && sheet.cells[(row, 2)] == Text(u.userEmail)
    && (row, 3) in sheet.cells && sheet.cells[(row, 3)] == Text(u.createdBy)
    && (row, 4) in sheet.cells && sheet.cells[(row, 4)] == Date(u.createdDate)
    && ((row, 5) in sheet.cells <==> u.modifiedBy.Some?)
    && (u.modifiedBy.Some? ==> sheet.cells[(row, 5)] == Text(u.modifiedBy.value))
    && ((row, 6) in sheet.cells <==> u.modifiedDate.Some?)
    && (u.modifiedDate.Some? ==> sheet.cells[(row, 6)] == Date(u.modifiedDate.value))
    && row in sheet.styles && sheet.styles[row] == BorderedStyle
  }

  /** The cells and row styles of `sheet` that lie above the first data row. */
  predicate SameHeader(sheet: Sheet, base: Sheet) {
    && sheet.name == base.name
    && (forall p :: p in base.cells ==> p in sheet.cells && sheet.cells[p] == base.cells[p])
    && (forall r :: r in base.styles ==> r in sheet.styles && sheet.styles[r] == base.styles[r])
  }

  predicate HeaderOnly(base: Sheet) {
    && (forall p :: p in base.cells ==> p.0 < FIRST_DATA_ROW)
    && (forall r :: r in base.styles ==> r < FIRST_DATA_ROW)
  }

  /** A new sheet named after the group, holding the three label/value rows
      and the styled title row. */
  function NewGroupSheet(group: Group, today: string): (sheet: Sheet)
    ensures sheet.name == group.groupName
    ensures HeaderOnly(sheet)
  {
    var cells := map[]
      [(1, 1) := Text("Group Name:")][(1, 2) := Text(group.groupName)]
      [(2, 1) := Text("Group Owner:")][(2, 2) := Text(group.createdBy)]
      [(3, 1) := Text("Date:")][(3, 2) := Text(today)]
      [(TITLE_ROW, 1) := Text(TITLES[0])][(TITLE_ROW, 2) := Text(TITLES[1])]
      [(TITLE_ROW, 3) := Text(TITLES[2])][(TITLE_ROW, 4) := Text(TITLES[3])]
      [(TITLE_ROW, 5) := Text(TITLES[4])][(TITLE_ROW, 6) := Text(TITLES[5])];
    Sheet(group.groupName, cells, map[TITLE_ROW := TitleStyle])
  }

  /** Writes user `u` into row `row`: a bordered row with name, email,
      creator and created date, then the modifier and the modified date only
      where they are set. */
  function WriteUser(sheet: Sheet, u: User, row: int): (s: Sheet)
    ensures s.name == sheet.name
    ensures (row, 5) !in sheet.cells && (row, 6) !in sheet.cells ==> UserRowAt(s, row, u)
  {
    var c4 := sheet.cells
      [(row, 1) := Text(u.userName)][(row, 2) := Text(u.userEmail)]
      [(row, 3) := Text(u.createdBy)][(row, 4) := Date(u.createdDate)];
    var c5 := if u.modifiedBy.Some? then c4[(row, 5) := Text(u.modifiedBy.value)] else c4;
    var c6 := if u.modifiedDate.Some? then c5[(row, 6) := Date(u.modifiedDate.value)] else c5;
    sheet.(cells := c6, styles := sheet.styles[row := BorderedStyle])
  }

  /** Writes `us` one per row from the first data row on. */
  function WriteUsers(sheet: Sheet, us: seq<User>): (s: Sheet)
    ensures s.name == sheet.name
  {
    if us == [] then sheet
    else WriteUser(WriteUsers(sheet, us[..|us| - 1]), us[|us| - 1], FIRST_DATA_ROW + |us| - 1)
  }

  /** Writing one more user appends it on the row after the previous ones. */
  lemma WriteUsersStep(sheet: Sheet, us: seq<User>, u: User)
    ensures WriteUsers(sheet, us + [u]) == WriteUser(WriteUsers(sheet, us), u, FIRST_DATA_ROW + |us|)
  {
    assert (us + [u])[..|us|] == us;
  }

  /** Writing one user touches row `row` only. */
  lemma WriteUserEffect(sheet: Sheet, u: User, row: int)
    requires (row, 5) !in sheet.cells && (row, 6) !in sheet.cells
    ensures var s := WriteUser(sheet, u, row);
      && s.name == sheet.name
      && UserRowAt(s, row, u)
      && (forall p: (int, int) :: p.0 != row ==> (p in s.cells <==> p in sheet.cells))
      && (forall p: (int, int) :: p.0 != row && p in sheet.cells ==> s.cells[p] == sheet.cells[p])
      && (forall p :: p in s.cells ==> p in sheet.cells || (p.0 == row && 1 <= p.1 <= 6))
      && (forall r :: r != row ==> (r in s.styles <==> r in sheet.styles))
      && (forall r :: r != row && r in sheet.styles ==> s.styles[r] == sheet.styles[r])
      && (forall r :: r in s.styles ==> r in sheet.styles || r == row)
  {
  }

  /** A row written earlier survives a write to another row. */
  lemma UserRowAtKept(sheet: Sheet, u: User, row: int, v: User, other: int)
    requires other != row && UserRowAt(sheet, other, v)
    ensures UserRowAt(WriteUser(sheet, u, row), other, v)
  {
  }

  /** Writing users below a header keeps the header and writes nothing
      outside rows 6 .. 5 + |us| and columns 1-6. */
  lemma {:induction false} WriteUsersFrame(base: Sheet, us: seq<User>)
    requires HeaderOnly(base)
    ensures SameHeader(WriteUsers(base, us), base)
    ensures forall p :: p in WriteUsers(base, us).cells ==>
      p in base.cells || (FIRST_DATA_ROW <= p.0 < FIRST_DATA_ROW + |us| && 1 <= p.1 <= 6)
    ensures forall r :: r in WriteUsers(base, us).styles ==>
      r in base.styles || FIRST_DATA_ROW <= r < FIRST_DATA_ROW + |us|
  {
    if us != [] {
      var init := us[..|us| - 1];
      var row := FIRST_DATA_ROW + |us| - 1;
      WriteUsersFrame(base, init);
      var prev := WriteUsers(base, init);
      assert (row, 5) !in prev.cells && (row, 6) !in prev.cells;
      WriteUserEffect(prev, us[|us| - 1], row);
    }
  }

  /** Writing users below a header puts the k-th user on row 6 + k. */
  lemma {:induction false} WriteUsersLayout(base: Sheet, us: seq<User>)
    requires HeaderOnly(base)
    ensures forall k :: 0 <= k < |us| ==> UserRowAt(WriteUsers(base, us), FIRST_DATA_ROW + k, us[k])
  {
    if us != [] {
      var init := us[..|us| - 1];
      var last := us[|us| - 1];
      var row := FIRST_DATA_ROW + |us| - 1;
      WriteUsersLayout(base, init);
      WriteUsersFrame(base, init);
      var prev := WriteUsers(base, init);
      assert (row, 5) !in prev.cells && (row, 6) !in prev.cells;
      WriteUserEffect(prev, last, row);
      forall k | 0 <= k < |us| - 1
        ensures UserRowAt(WriteUsers(base, us), FIRST_DATA_ROW + k, us[k])
      {
        assert init[k] == us[k];
        UserRowAtKept(prev, last, row, us[k], FIRST_DATA_ROW + k);
      }
    }
  }

  /** The complete sheet for a group whose active users are `members`. */
  function GroupSheet(group: Group, members: seq<User>, today: string): (sheet: Sheet)
    ensures sheet.name == group.groupName
  {
    WriteUsers(NewGroupSheet(group, today), members)
  }

  /** The cells a new group sheet holds, and nothing else. */
  lemma NewGroupSheetDomain(group: Group, today: string)
    ensures NewGroupSheet(group, today).cells.Keys ==
      {(1, 1), (1, 2), (2, 1), (2, 2), (3, 1), (3, 2),
       (TITLE_ROW, 1), (TITLE_ROW, 2), (TITLE_ROW, 3), (TITLE_ROW, 4), (TITLE_ROW, 5), (TITLE_ROW, 6)}
  {
  }

  /** The title row of a new group sheet holds the six column titles. */
  lemma NewGroupSheetTitles(group: Group, today: string)
    ensures var cells := NewGroupSheet(group, today).cells;
      forall c :: 1 <= c <= 6 ==> (TITLE_ROW, c) in cells && cells[(TITLE_ROW, c)] == Text(TITLES[c - 1])
  {
    var cells := NewGroupSheet(group, today).cells;
    assert cells[(TITLE_ROW, 1)] == Text(TITLES[0]) && cells[(TITLE_ROW, 2)] == Text(TITLES[1]);
    assert cells[(TITLE_ROW, 3)] == Text(TITLES[2]) && cells[(TITLE_ROW, 4)] == Text(TITLES[3]);
    assert cells[(TITLE_ROW, 5)] == Text(TITLES[4]) && cells[(TITLE_ROW, 6)] == Text(TITLES[5]);
  }

  /** The header block of a new group sheet. */
  lemma NewGroupSheetLayout(group: Group, today: string)
    ensures var s := NewGroupSheet(group, today);
      && HeaderOnly(s)
      && s.name == group.groupName
      && (1, 1) in s.cells && s.cells[(1, 1)] == Text("Group Name:")
      && (1, 2) in s.cells && s.cells[(1, 2)] == Text(group.groupName)
      && (2, 1) in s.cells && s.cells[(2, 1)] == Text("Group Owner:")
      && (2, 2) in s.cells && s.cells[(2, 2)] == Text(group.createdBy)
      && (3, 1) in s.cells && s.cells[(3, 1)] == Text("Date:")
      && (3, 2) in s.cells && s.cells[(3, 2)] == Text(today)
      && (forall c :: 1 <= c <= 6 ==> (TITLE_ROW, c) in s.cells && s.cells[(TITLE_ROW, c)] == Text(TITLES[c - 1]))
      && s.styles == map[TITLE_ROW := TitleStyle]
      && (forall p :: p in s.cells ==> 1 <= p.1 <= 6 && ((1 <= p.0 <= 3 && p.1 <= 2) || p.0 == TITLE_ROW))
  {
    NewGroupSheetDomain(group, today);
    NewGroupSheetTitles(group, today);
  }

  /** The fixed layout of an exported group sheet. */
  lemma GroupSheetLayout(group: Group, members: seq<User>, today: string)
    ensures var s := GroupSheet(group, members, today);
      && s.name == group.groupName
      && (1, 1) in s.cells && s.cells[(1, 1)] == Text("Group Name:")
      && (1, 2) in s.cells && s.cells[(1, 2)] == Text(group.groupName)
      && (2, 1) in s.cells && s.cells[(2, 1)] == Text("Group Owner:")
      && (2, 2) in s.cells && s.cells[(2, 2)] == Text(group.createdBy)
      && (3, 1) in s.cells && s.cells[(3, 1)] == Text("Date:")
      && (3, 2) in s.cells && s.cells[(3, 2)] == Text(today)
      && (forall c :: 1 <= c <= 6 ==> (TITLE_ROW, c) in s.cells && s.cells[(TITLE_ROW, c)] == Text(TITLES[c - 1]))
      && TITLE_ROW in s.styles && s.styles[TITLE_ROW] == TitleStyle
      && (forall k :: 0 <= k < |members| ==> UserRowAt(s, FIRST_DATA_ROW + k, members[k]))
      && (forall p :: p in s.cells ==>
            1 <= p.1 <= 6 &&
            ((1 <= p.0 <= 3 && p.1 <= 2) || p.0 == TITLE_ROW || FIRST_DATA_ROW <= p.0 < FIRST_DATA_ROW + |members|))
      && (forall r :: r in s.styles ==> r == TITLE_ROW || FIRST_DATA_ROW <= r < FIRST_DATA_ROW + |members|)
  {
    var base := NewGroupSheet(group, today);
    NewGroupSheetLayout(group, today);
    WriteUsersFrame(base, members);
    WriteUsersLayout(base, members);
  }

  /** The ids among `ids` that have a Group record, in order. */
  function ExistingIds(ids: seq<int>, groups: map<int, Group>): (existing: seq<int>)
    ensures forall g :: g in existing <==> g in ids && g in groups
    ensures NoDuplicates(ids) ==> NoDuplicates(existing)
  {
    if ids == [] then []
    else
      var init := ids[..|ids| - 1];
      var g := ids[|ids| - 1];
      assert ids == init + [g];
      if g in groups then ExistingIds(init, groups) + [g] else ExistingIds(init, groups)
  }

  /** Adds one sheet per id that has a Group record, in order; fails when a
      sheet with the group's name is already in the workbook. */
  function BuildSheets(ids: seq<int>, users: seq<User>, groups: map<int, Group>, today: string)
    : (result: Result<Workbook, ExportError>)
    ensures result.Failure? ==> result.error.DuplicateSheetName?
    ensures result.Ok? ==> |result.value| <= |ids|
    ensures result.Ok? ==> forall i, j :: 0 <= i < j < |result.value| ==> result.value[i].name != result.value[j].name
  {
    if ids == [] then Ok([])
    else
      match BuildSheets(ids[..|ids| - 1], users, groups, today)
      case Failure(e) => Failure(e)
      case Ok(wb) =>
        var gid := ids[|ids| - 1];
        if gid !in groups then Ok(wb)
        else if groups[gid].groupName in SheetNames(wb) then Failure(DuplicateSheetName(groups[gid].groupName))
        else Ok(wb + [GroupSheet(groups[gid], GroupUsers(users, gid), today)])
  }

  /** The workbook the export saves; saving a workbook without a sheet
      fails. */
  function Export(users: seq<User>, groups: map<int, Group>, today: string): (result: Result<Workbook, ExportError>)
    ensures result.Ok? ==> result.value != [] && result == BuildSheets(ActiveGroupIds(users), users, groups, today)
    ensures result == Failure(EmptyWorkbook) ==> BuildSheets(ActiveGroupIds(users), users, groups, today) == Ok([])
  {
    match BuildSheets(ActiveGroupIds(users), users, groups, today)
    case Failure(e) => Failure(e)
    case Ok(wb) => if wb == [] then Failure(EmptyWorkbook) else Ok(wb)
  }

  /** The groups of `existing` carry pairwise different names. */
  predicate DistinctNames(existing: seq<int>, groups: map<int, Group>)
    requires forall i :: 0 <= i < |existing| ==> existing[i] in groups
  {
    forall i, j :: 0 <= i < j < |existing| ==> groups[existing[i]].groupName != groups[existing[j]].groupName
  }

  /** A name clash among the earlier groups remains one when a group is
      appended. */
  lemma ClashPersists(prevEx: seq<int>, gid: int, groups: map<int, Group>)
    requires forall i :: 0 <= i < |prevEx| ==> prevEx[i] in groups
    requires gid in groups && !DistinctNames(prevEx, groups)
    ensures !DistinctNames(prevEx + [gid], groups)
  {
    var ex := prevEx + [gid];
    var i, j :| 0 <= i < j < |prevEx| && groups[prevEx[i]].groupName == groups[prevEx[j]].groupName;
    assert ex[i] == prevEx[i] && ex[j] == prevEx[j];
  }

  /** Appending a group keeps the names distinct exactly when its name is
      not among the sheets built so far. */
  lemma AppendNameCheck(prevEx: seq<int>, gid: int, wb: Workbook, users: seq<User>,
                        groups: map<int, Group>, today: string)
    requires forall i :: 0 <= i < |prevEx| ==> prevEx[i] in groups
    requires gid in groups && DistinctNames(prevEx, groups)
    requires |wb| == |prevEx|
    requires forall j :: 0 <= j < |wb| ==> wb[j] == GroupSheet(groups[prevEx[j]], GroupUsers(users, prevEx[j]), today)
    ensures DistinctNames(prevEx + [gid], groups) <==> groups[gid].groupName !in SheetNames(wb)
  {
    var ex := prevEx + [gid];
    var name := groups[gid].groupName;
    assert forall k :: 0 <= k < |wb| ==> wb[k].name == groups[prevEx[k]].groupName;
    if name in SheetNames(wb) {
      var k :| 0 <= k < |wb| && wb[k].name == name;
      assert ex[k] == prevEx[k] && ex[|prevEx|] == gid;
    } else {
      forall i, j | 0 <= i < j < |ex|
        ensures groups[ex[i]].groupName != groups[ex[j]].groupName
      {
        if j == |prevEx| {
          assert wb[i].name == groups[ex[i]].groupName;
        } else {
          assert ex[i] == prevEx[i] && ex[j] == prevEx[j];
        }
      }
    }
  }

  /** Building succeeds exactly when the groups that get a sheet have
      distinct names. */
  lemma {:induction false} BuildSheetsSucceeds(ids: seq<int>, users: seq<User>, groups: map<int, Group>, today: string)
    ensures BuildSheets(ids, users, groups, today).Ok? <==> DistinctNames(ExistingIds(ids, groups), groups)
  {
    if ids != [] {
      var init := ids[..|ids| - 1];
      var gid := ids[|ids| - 1];
      BuildSheetsSucceeds(init, users, groups, today);
      var prevEx := ExistingIds(init, groups);
      assert ids == init + [gid];
      if gid in groups {
        assert ExistingIds(ids, groups) == prevEx + [gid];
        match BuildSheets(init, users, groups, today)
        case Failure(_) =>
          ClashPersists(prevEx, gid, groups);
        case Ok(wb) =>
          BuildSheetsContents(init, users, groups, today);
          AppendNameCheck(prevEx, gid, wb, users, groups, today);
      }
    }
  }

  /** When building succeeds, the j-th sheet is the sheet of the j-th id
      that has a Group record. */
  lemma {:induction false} BuildSheetsContents(ids: seq<int>, users: seq<User>, groups: map<int, Group>, today: string)
    ensures BuildSheets(ids, users, groups, today).Ok? ==>
      var wb := BuildSheets(ids, users, groups, today).value;
      var existing := ExistingIds(ids, groups);
      && |wb| == |existing|
      && forall j :: 0 <= j < |wb| ==> wb[j] == GroupSheet(groups[existing[j]], GroupUsers(users, existing[j]), today)
  {
    if ids != [] {
      var init := ids[..|ids| - 1];
      var gid := ids[|ids| - 1];
      BuildSheetsContents(init, users, groups, today);
      assert ids == init + [gid];
      if gid in groups {
        assert ExistingIds(ids, groups) == ExistingIds(init, groups) + [gid];
      }
    }
  }

  /** The ids of the groups that get a sheet: referenced by an active user
      and present in the Groups table. */
  ghost function SheetGroups(users: seq<User>, groups: map<int, Group>): set<int> {
    set u | u in users && IsActive(u) && u.groupId.Some? && u.groupId.value in groups :: u.groupId.value
  }

  lemma {:induction false} NoDuplicatesCard(s: seq<int>)
    requires NoDuplicates(s)
    ensures |set x | x in s| == |s|
  {
    if s != [] {
      var init := s[..|s| - 1];
      var x := s[|s| - 1];
      assert s == init + [x];
      NoDuplicatesCard(init);
      assert (set y | y in s) == (set y | y in init) + {x};
      assert x !in (set y | y in init);
    }
  }

  /** The ids the export walks that have a Group record are exactly the
      sheet groups, each once. */
  lemma SheetGroupsListed(users: seq<User>, groups: map<int, Group>)
    ensures var existing := ExistingIds(ActiveGroupIds(users), groups);
      && NoDuplicates(existing)
      && (forall g :: g in existing <==> g in SheetGroups(users, groups))
      && |existing| == |SheetGroups(users, groups)|
  {
    var existing := ExistingIds(ActiveGroupIds(users), groups);
    forall g | g in SheetGroups(users, groups) ensures g in existing {
      var u :| u in users && IsActive(u) && u.groupId.Some? && u.groupId.value in groups && u.groupId.value == g;
    }
    assert (set x | x in existing) == SheetGroups(users, groups);
    NoDuplicatesCard(existing);
  }

  /** When building succeeds, every listed id with a Group record has its
      sheet. */
  lemma BuildSheetsCovers(ids: seq<int>, users: seq<User>, groups: map<int, Group>, today: string)
    requires BuildSheets(ids, users, groups, today).Ok?
    ensures var wb := BuildSheets(ids, users, groups, today).value;
      forall g :: g in ids && g in groups ==>
        (exists j :: 0 <= j < |wb| && wb[j] == GroupSheet(groups[g], GroupUsers(users, g), today))
  {
    var wb := BuildSheets(ids, users, groups, today).value;
    var existing := ExistingIds(ids, groups);
    BuildSheetsSucceeds(ids, users, groups, today);
    BuildSheetsContents(ids, users, groups, today);
    forall g | g in ids && g in groups
      ensures exists j :: 0 <= j < |wb| && wb[j] == GroupSheet(groups[g], GroupUsers(users, g), today)
    {
      assert g in existing;
      var j :| 0 <= j < |existing| && existing[j] == g;
      assert wb[j] == GroupSheet(groups[g], GroupUsers(users, g), today);
    }
  }

  /** Each exported sheet is the sheet of a group referenced by an active
      user that has a Group record. */
  lemma ExportSheetsAreGroupSheets(users: seq<User>, groups: map<int, Group>, today: string)
    requires Export(users, groups, today).Ok?
    ensures var wb := Export(users, groups, today).value;
      forall j :: 0 <= j < |wb| ==>
        (exists gid :: gid in groups && gid in SheetGroups(users, groups) &&
           wb[j] == GroupSheet(groups[gid], GroupUsers(users, gid), today))
  {
    var ids := ActiveGroupIds(users);
    var existing := ExistingIds(ids, groups);
    var wb := BuildSheets(ids, users, groups, today).value;
    BuildSheetsContents(ids, users, groups, today);
    SheetGroupsListed(users, groups);
    forall j | 0 <= j < |wb|
      ensures exists gid ::
        gid in groups && gid in SheetGroups(users, groups) &&
        wb[j] == GroupSheet(groups[gid], GroupUsers(users, gid), today)
    {
      assert existing[j] in existing;
    }
  }

  /** Export produces one sheet per group that is referenced by an active
      user and has a Group record, and it fails exactly when two such groups
      share a name. */
  lemma ExportOneSheetPerGroup(users: seq<User>, groups: map<int, Group>, today: string)
    ensures Export(users, groups, today).Ok? <==>
      DistinctNames(ExistingIds(ActiveGroupIds(users), groups), groups) && SheetGroups(users, groups) != {}
    ensures Export(users, groups, today) == Failure(EmptyWorkbook) <==> SheetGroups(users, groups) == {}
    ensures Export(users, groups, today).Ok? ==>
      var wb := Export(users, groups, today).value;
      && |wb| == |SheetGroups(users, groups)|
      && (forall j :: 0 <= j < |wb| ==>
            (exists gid :: gid in groups && gid in SheetGroups(users, groups) &&
               wb[j] == GroupSheet(groups[gid], GroupUsers(users, gid), today)))
      && (forall gid :: gid in groups && gid in SheetGroups(users, groups) ==>
            (exists j :: 0 <= j < |wb| && wb[j] == GroupSheet(groups[gid], GroupUsers(users, gid), today)))
  {
    var ids := ActiveGroupIds(users);
    BuildSheetsSucceeds(ids, users, groups, today);
    BuildSheetsContents(ids, users, groups, today);
    SheetGroupsListed(users, groups);
    if Export(users, groups, today).Ok? {
      ExportSheetsAreGroupSheets(users, groups, today);
      BuildSheetsCovers(ids, users, groups, today);
    }
  }

  /** Every data row of a group's sheet shows an active user of that group,
      there are as many data rows as the group has active users, and no
      deleted user is among them. */
  lemma SheetRowsAreActiveMembers(group: Group, users: seq<User>, gid: int, today: string)
    ensures var members := GroupUsers(users, gid);
      var s := GroupSheet(group, members, today);
      && (forall k :: 0 <= k < |members| ==>
            members[k] in users && IsActive(members[k]) && members[k].groupId == Some(gid) &&
            UserRowAt(s, FIRST_DATA_ROW + k, members[k]))
      && (forall p :: p in s.cells && p.0 >= FIRST_DATA_ROW ==> p.0 < FIRST_DATA_ROW + |members|)
      && (forall u :: u in users && u.isDeleted ==> u !in members)
  {
    var members := GroupUsers(users, gid);
    GroupSheetLayout(group, members, today);
    forall k | 0 <= k < |members|
      ensures members[k] in users && IsActive(members[k]) && members[k].groupId == Some(gid)
    {
      assert members[k] in members;
    }
  }
}
