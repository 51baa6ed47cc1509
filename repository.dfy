/** The repository's two operations over a database context: export of the
    active users into one sheet per group, and import of a sheet's rows into
    the Users table. */
module Repository {
  import opened Models
  import opened Spreadsheet
  import opened ExportLayout
  import opened ImportRules
  import opened ChangeTracking
  import opened Data

  /** Once building fails on a prefix of the ids, it fails the same way on
      the whole list. */
  lemma {:induction false} BuildSheetsFailureSticks(
    ids: seq<int>, n: nat, users: seq<User>, groups: map<int, Group>, today: string)
    requires n <= |ids| && BuildSheets(ids[..n], users, groups, today).Failure?
    ensures BuildSheets(ids, users, groups, today) == BuildSheets(ids[..n], users, groups, today)
    decreases |ids| - n
  {
    if n < |ids| {
      assert ids[..|ids| - 1][..n] == ids[..n];
      BuildSheetsFailureSticks(ids[..|ids| - 1], n, users, groups, today);
    } else {
      assert ids[..n] == ids;
    }
  }

  /** Fills the sheet of one group: the label/value rows, the styled title
      row, then one bordered row per user from the first data row on. */
  method FillGroupSheet(group: Group, users: seq<User>, today: string) returns (sheet: Sheet)
    ensures sheet == GroupSheet(group, users, today)
  {
    sheet := Sheet(group.groupName, map[], map[]);
    sheet := sheet.(cells := sheet.cells[(1, 1) := Text("Group Name:")][(1, 2) := Text(group.groupName)]);
    sheet := sheet.(cells := sheet.cells[(2, 1) := Text("Group Owner:")][(2, 2) := Text(group.createdBy)]);
    sheet := sheet.(cells := sheet.cells[(3, 1) := Text("Date:")][(3, 2) := Text(today)]);
    sheet := sheet.(styles := sheet.styles[TITLE_ROW := TitleStyle]);
    sheet := sheet.(cells := sheet.cells[(TITLE_ROW, 1) := Text("User Name")]);
    sheet := sheet.(cells := sheet.cells[(TITLE_ROW, 2) := Text("User Email")]);
    sheet := sheet.(cells := sheet.cells[(TITLE_ROW, 3) := Text("Created By")]);
    sheet := sheet.(cells := sheet.cells[(TITLE_ROW, 4) := Text("Created Date")]);
    sheet := sheet.(cells := sheet.cells[(TITLE_ROW, 5) := Text("Modified By")]);
    sheet := sheet.(cells := sheet.cells[(TITLE_ROW, 6) := Text("Modified Date")]);
    assert sheet == NewGroupSheet(group, today);
    ghost var header := sheet;

    var row := FIRST_DATA_ROW;
    var k := 0;
    while k < |users|
      invariant 0 <= k <= |users| && row == FIRST_DATA_ROW + k
      invariant sheet == WriteUsers(header, users[..k])
    {
      var user := users[k];
      assert users[..k + 1] == users[..k] + [user];
      WriteUsersStep(header, users[..k], user);
      ghost var written := sheet;
      sheet := sheet.(styles := sheet.styles[row := BorderedStyle]);
      sheet := sheet.(cells := sheet.cells[(row, 1) := Text(user.userName)]);
      sheet := sheet.(cells := sheet.cells[(row, 2) := Text(user.userEmail)]);
      sheet := sheet.(cells := sheet.cells[(row, 3) := Text(user.createdBy)]);
      sheet := sheet.(cells := sheet.cells[(row, 4) := Date(user.createdDate)]);
      if user.modifiedBy.Some? {
        sheet := sheet.(cells := sheet.cells[(row, 5) := Text(user.modifiedBy.value)]);
      }
      if user.modifiedDate.Some? {
        sheet := sheet.(cells := sheet.cells[(row, 6) := Date(user.modifiedDate.value)]);
      }
      assert sheet == WriteUser(written, user, row);
      row := row + 1;
      k := k + 1;
    }
    assert users[..k] == users;
  }

  class ExcelRepository {
    const db: DbContext

    constructor (db: DbContext)
      ensures this.db == db
    {
      this.db := db;
    }

    /** Builds the export workbook: one sheet per group referenced by an
        active user, fails when two such groups share a name. */
    method ExportExcel(today: string) returns (result: Result<Workbook, ExportError>)
      ensures result == Export(db.users, db.groups, today)
    {
      var package: Workbook := [];
      var groupIds := ActiveGroupIds(db.users);
      var i := 0;
      while i < |groupIds|
        invariant 0 <= i <= |groupIds|
        invariant BuildSheets(groupIds[..i], db.users, db.groups, today) == Ok(package)
      {
        var groupId := groupIds[i];
        assert groupIds[..i + 1][..i] == groupIds[..i];
        if groupId in db.groups {
          var group := db.groups[groupId];
          if group.groupName in SheetNames(package) {
            BuildSheetsFailureSticks(groupIds, i + 1, db.users, db.groups, today);
            return Failure(DuplicateSheetName(group.groupName));
          }
          var sheet := FillGroupSheet(group, GroupUsers(db.users, groupId), today);
          package := package + [sheet];
        }
        assert BuildSheets(groupIds[..i + 1], db.users, db.groups, today) == Ok(package);
        i := i + 1;
      }
      assert groupIds[..i] == groupIds;
      if package == [] {
        return Failure(EmptyWorkbook);
      }
      return Ok(package);
    }

    /** Imports rows 2 through the sheet's last row: malformed rows are
        skipped, a row whose email is stored updates that user, any other
        row stages a new user; the batch is saved once at the end. */
    method ImportExcel(sheet: ImportSheet, now: DateTime)
      requires db.Valid()
      modifies db
      ensures db.Valid()
      ensures db.users ==
        Commit(old(db.users), StageRows(old(db.users), old(db.staged), sheet, sheet.lastRow, now), old(db.nextId))
      ensures db.nextId ==
        old(db.nextId) + |StageRows(old(db.users), old(db.staged), sheet, sheet.lastRow, now).added|
      ensures db.staged == NOTHING_STAGED && db.groups == old(db.groups)
    {
      var lastRow := sheet.lastRow;
      var row := FIRST_IMPORT_ROW;
      while row <= lastRow
        invariant FIRST_IMPORT_ROW <= row && (row <= lastRow + 1 || row == FIRST_IMPORT_ROW)
        invariant db.Valid()
        invariant db.users == old(db.users) && db.groups == old(db.groups) && db.nextId == old(db.nextId)
        invariant db.staged == StageRows(old(db.users), old(db.staged), sheet, row - 1, now)
      {
        var cells := ReadRow(sheet, row);
        if !IsValidRow(cells) {
          row := row + 1;
          continue;
        }
        var userName, userEmail, createdBy, groupId :=
          cells.userName.value, cells.userEmail.value, cells.createdBy.value, cells.groupId;
        var existing := FindByEmail(db.users, userEmail);
        if existing.Some? {
          var i := existing.value;
          var existingUser := Tracked(db.users, db.staged, i);
          existingUser := existingUser.(userName := userName, createdBy := createdBy,
                                        createdDate := now, groupId := Some(groupId));
          db.Update(i, existingUser);
        } else {
          var newUser := User(0, userName, userEmail, Some(groupId), createdBy, now, None, None, false);
          db.Add(newUser);
        }
        row := row + 1;
      }
      assert db.staged == StageRows(old(db.users), old(db.staged), sheet, lastRow, now);
      db.SaveChanges();
    }
  }
}
