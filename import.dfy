/** The import as a computation on values: how each row of the uploaded sheet
    is validated and staged against the stored Users table, and what the
    table holds once the staged batch is saved. The repository's import loop
    is proved against these functions. */
module ImportRules {
  import opened Models
  import opened Spreadsheet
  import opened ChangeTracking

  /** The first row the import reads; row 1 holds the column titles. */
  const FIRST_IMPORT_ROW := 2

  predicate IsNullOrEmpty(s: Option<string>) {
    s.None? || s.value == ""
  }

  /** A row is imported only when name, email and creator are non-empty and
      the group id is not 0. */
  predicate IsValidRow(row: ImportRow)
    ensures IsValidRow(row) ==> row != EMPTY_ROW
    ensures IsValidRow(row) ==> row.userName.Some? && row.userEmail.Some? && row.createdBy.Some?
  {
    && !IsNullOrEmpty(row.userName)
    && !IsNullOrEmpty(row.userEmail)
    && !IsNullOrEmpty(row.createdBy)
    && row.groupId != 0
  }

  /** The position of the first stored user with this email, if any. */
  function FindByEmail(users: seq<User>, email: string): (i: Option<nat>)
    ensures i.Some? ==> i.value < |users| && users[i.value].userEmail == email
    ensures i.Some? ==> forall j :: 0 <= j < i.value ==> users[j].userEmail != email
    ensures i.None? <==> forall j :: 0 <= j < |users| ==> users[j].userEmail != email
  {
    if users == [] then None
    else if users[0].userEmail == email then Some(0)
    else
      match FindByEmail(users[1..], email)
      case None => None
      case Some(k) => Some(k + 1)
  }

  /** An existing user after an import row: name, creator and group are
      taken from the row, and the created date is reset to `now`. */
  function UpdatedUser(u: User, row: ImportRow, now: DateTime): (v: User)
    requires IsValidRow(row)
    ensures v.id == u.id && v.userEmail == u.userEmail && v.isDeleted == u.isDeleted
    ensures v.modifiedBy == u.modifiedBy && v.modifiedDate == u.modifiedDate && v.createdDate == now
    ensures v.groupId.Some? &&
      ImportRow(Some(v.userName), Some(v.userEmail), Some(v.createdBy), v.groupId.value) == row.(userEmail := Some(u.userEmail))
  {
    u.(userName := row.userName.value, createdBy := row.createdBy.value,
       createdDate := now, groupId := Some(row.groupId))
  }

  /** The user an import row creates, before the database assigns its id. */
  function NewUser(row: ImportRow, now: DateTime): (u: User)
    requires IsValidRow(row)
    ensures IsActive(u) && u.modifiedBy.None? && u.modifiedDate.None? && u.createdDate == now
    ensures u.groupId.Some? && ImportRow(Some(u.userName), Some(u.userEmail), Some(u.createdBy), u.groupId.value) == row
  {
    User(0, row.userName.value, row.userEmail.value, Some(row.groupId), row.createdBy.value,
         now, None, None, false)
  }

  /** Stages the effect of one row: nothing for a malformed row, an update of
      the stored user with the row's email, or the insertion of a new user.
      The lookup sees the stored table only, never the staged insertions. */
  function StageRow(users: seq<User>, st: Staged, row: ImportRow, now: DateTime): (next: Staged)
    ensures !IsValidRow(row) ==> next == st
    ensures StagedFor(users, st) ==> StagedFor(users, next)
    ensures |st.added| <= |next.added| <= |st.added| + 1 && next.added[..|st.added|] == st.added
    ensures st.modified.Keys <= next.modified.Keys
    ensures |next.added| == |st.added| + 1 <==> IsValidRow(row) && FindByEmail(users, row.userEmail.value).None?
  {
    if !IsValidRow(row) then st
    else
      match FindByEmail(users, row.userEmail.value)
      case Some(i) => st.(modified := st.modified[i := UpdatedUser(Tracked(users, st, i), row, now)])
      case None => st.(added := st.added + [NewUser(row, now)])
  }

  /** Stages rows 2 through `last` of `sheet`, in order, on top of `st`. */
  function StageRows(users: seq<User>, st: Staged, sheet: ImportSheet, last: int, now: DateTime): (staged: Staged)
    ensures |st.added| <= |staged.added| && staged.added[..|st.added|] == st.added
    ensures |staged.added| - |st.added| <= if last < FIRST_IMPORT_ROW then 0 else last - FIRST_IMPORT_ROW + 1
    ensures st.modified.Keys <= staged.modified.Keys
    decreases last
  {
    if last < FIRST_IMPORT_ROW then st
    else StageRow(users, StageRows(users, st, sheet, last - 1, now), ReadRow(sheet, last), now)
  }

  /** No two users share an email. */
  predicate EmailsUnique(users: seq<User>) {
    forall i, j :: 0 <= i < j < |users| ==> users[i].userEmail != users[j].userEmail
  }

  /** The Users table after importing `sheet` into a context with nothing
      staged and saving. */
  function ImportTable(users: seq<User>, sheet: ImportSheet, now: DateTime, nextId: int): (table: seq<User>)
    ensures |users| <= |table|
    ensures |table| - |users| <= if sheet.lastRow < FIRST_IMPORT_ROW then 0 else sheet.lastRow - FIRST_IMPORT_ROW + 1
  {
    Commit(users, StageRows(users, NOTHING_STAGED, sheet, sheet.lastRow, now), nextId)
  }

  // ---------------------------------------------------------------------
  // Which rows matter

  /** Only the valid rows among rows 2 through `last` influence the staged
      batch: two sheets whose valid rows agree there stage the same changes. */
  lemma {:induction false} StageRowsDependsOnValidRows(
    users: seq<User>, st: Staged, s1: ImportSheet, s2: ImportSheet, last: int, now: DateTime)
    requires forall r :: FIRST_IMPORT_ROW <= r <= last ==>
      (IsValidRow(ReadRow(s1, r)) || IsValidRow(ReadRow(s2, r))) ==> ReadRow(s1, r) == ReadRow(s2, r)
    ensures StageRows(users, st, s1, last, now) == StageRows(users, st, s2, last, now)
    decreases last
  {
    if last >= FIRST_IMPORT_ROW {
      StageRowsDependsOnValidRows(users, st, s1, s2, last - 1, now);
    }
  }

  /** Row 1 is never read: whatever it holds, the import is the same. */
  lemma HeaderRowNeverRead(users: seq<User>, st: Staged, sheet: ImportSheet, title: ImportRow, now: DateTime)
    ensures var withTitle := sheet.(rows := sheet.rows[1 := title]);
      StageRows(users, st, withTitle, sheet.lastRow, now) == StageRows(users, st, sheet, sheet.lastRow, now)
  {
    var withTitle := sheet.(rows := sheet.rows[1 := title]);
    forall r | FIRST_IMPORT_ROW <= r <= sheet.lastRow
      ensures ReadRow(withTitle, r) == ReadRow(sheet, r)
    {
    }
    StageRowsDependsOnValidRows(users, st, withTitle, sheet, sheet.lastRow, now);
  }

  /** A malformed row stages nothing: the import equals the import of the
      sheet with that row emptied. */
  lemma MalformedRowSkipped(users: seq<User>, st: Staged, sheet: ImportSheet, r: int, now: DateTime)
    requires !IsValidRow(ReadRow(sheet, r))
    ensures var without := sheet.(rows := sheet.rows - {r});
      StageRows(users, st, without, sheet.lastRow, now) == StageRows(users, st, sheet, sheet.lastRow, now)
  {
    var without := sheet.(rows := sheet.rows - {r});
    assert ReadRow(without, r) == EMPTY_ROW;
    forall k | FIRST_IMPORT_ROW <= k <= sheet.lastRow && k != r
      ensures ReadRow(without, k) == ReadRow(sheet, k)
    {
    }
    StageRowsDependsOnValidRows(users, st, without, sheet, sheet.lastRow, now);
  }

  /** A sheet whose last row is above row 2 changes nothing. */
  lemma NoDataRowsNoChange(users: seq<User>, sheet: ImportSheet, now: DateTime, nextId: int)
    requires sheet.lastRow < FIRST_IMPORT_ROW
    ensures ImportTable(users, sheet, now, nextId) == users
  {
    var table := ImportTable(users, sheet, now, nextId);
    assert |table| == |users|;
    forall i | 0 <= i < |users| ensures table[i] == users[i] {
    }
  }

  // ---------------------------------------------------------------------
  // What gets staged

  /** The valid rows among 2 through `last` whose email no stored user has,
      in row order: the rows that stage an insertion. */
  function NewRows(users: seq<User>, sheet: ImportSheet, last: int): (rows: seq<ImportRow>)
    ensures forall k :: 0 <= k < |rows| ==>
      IsValidRow(rows[k]) && FindByEmail(users, rows[k].userEmail.value).None?
    decreases last
  {
    if last < FIRST_IMPORT_ROW then []
    else
      var row := ReadRow(sheet, last);
      NewRows(users, sheet, last - 1) +
      (if IsValidRow(row) && FindByEmail(users, row.userEmail.value).None? then [row] else [])
  }

  /** The last row among 2 through `last` that is valid and whose email
      leads to stored user `i`. */
  function LastMatch(users: seq<User>, sheet: ImportSheet, last: int, i: nat): (r: Option<int>)
    ensures r.Some? ==>
      && FIRST_IMPORT_ROW <= r.value <= last
      && IsValidRow(ReadRow(sheet, r.value))
      && FindByEmail(users, ReadRow(sheet, r.value).userEmail.value) == Some(i)
    ensures r.Some? ==> forall k :: r.value < k <= last ==>
      !(IsValidRow(ReadRow(sheet, k)) && FindByEmail(users, ReadRow(sheet, k).userEmail.value) == Some(i))
    ensures r.None? ==> forall k :: FIRST_IMPORT_ROW <= k <= last ==>
      !(IsValidRow(ReadRow(sheet, k)) && FindByEmail(users, ReadRow(sheet, k).userEmail.value) == Some(i))
    decreases last
  {
    if last < FIRST_IMPORT_ROW then None
    else
      var row := ReadRow(sheet, last);
      if IsValidRow(row) && FindByEmail(users, row.userEmail.value) == Some(i) then Some(last)
      else LastMatch(users, sheet, last - 1, i)
  }

  /** Updating twice is updating with the later row. */
  lemma UpdatedUserTwice(u: User, a: ImportRow, b: ImportRow, now: DateTime)
    requires IsValidRow(a) && IsValidRow(b)
    ensures UpdatedUser(UpdatedUser(u, a, now), b, now) == UpdatedUser(u, b, now)
  {
  }

  /** The insertions staged by rows 2 through `last` are the new users of
      the rows that `NewRows` lists, in row order, after those already
      staged. */
  lemma {:induction false} StagedInsertions(
    users: seq<User>, st: Staged, sheet: ImportSheet, last: int, now: DateTime)
    ensures var after := StageRows(users, st, sheet, last, now);
      var rows := NewRows(users, sheet, last);
      && |after.added| == |st.added| + |rows|
      && after.added[..|st.added|] == st.added
      && forall k :: 0 <= k < |rows| ==> after.added[|st.added| + k] == NewUser(rows[k], now)
    decreases last
  {
    if last >= FIRST_IMPORT_ROW {
      StagedInsertions(users, st, sheet, last - 1, now);
      var prev := StageRows(users, st, sheet, last - 1, now);
      var rows := NewRows(users, sheet, last - 1);
      var row := ReadRow(sheet, last);
      if IsValidRow(row) && FindByEmail(users, row.userEmail.value).None? {
        assert NewRows(users, sheet, last) == rows + [row];
      } else {
        assert NewRows(users, sheet, last) == rows;
      }
    }
  }

  /** Stored user `i` is staged as modified exactly when some valid row
      among 2 through `last` leads to it, and then its tracked copy is the
      user updated by the last such row. */
  lemma {:induction false} StagedUpdate(
    users: seq<User>, st: Staged, sheet: ImportSheet, last: int, now: DateTime, i: nat)
    requires i < |users|
    ensures var after := StageRows(users, st, sheet, last, now);
      match LastMatch(users, sheet, last, i)
      case None =>
        Tracked(users, after, i) == Tracked(users, st, i)
      case Some(r) =>
        Tracked(users, after, i) == UpdatedUser(Tracked(users, st, i), ReadRow(sheet, r), now)
    decreases last
  {
    if last >= FIRST_IMPORT_ROW {
      StagedUpdate(users, st, sheet, last - 1, now, i);
      var row := ReadRow(sheet, last);
      if IsValidRow(row) && FindByEmail(users, row.userEmail.value) == Some(i) {
        match LastMatch(users, sheet, last - 1, i)
        case None =>
        case Some(r) =>
          UpdatedUserTwice(Tracked(users, st, i), ReadRow(sheet, r), row, now);
      }
    }
  }

  // ---------------------------------------------------------------------
  // The table after an import

  /** A stored user that no valid row leads to is left as it was. */
  lemma UnmatchedUserUnchanged(users: seq<User>, sheet: ImportSheet, now: DateTime, nextId: int, i: nat)
    requires i < |users|
    requires forall r :: FIRST_IMPORT_ROW <= r <= sheet.lastRow && IsValidRow(ReadRow(sheet, r)) ==>
      ReadRow(sheet, r).userEmail.value != users[i].userEmail
    ensures |ImportTable(users, sheet, now, nextId)| >= |users|
    ensures ImportTable(users, sheet, now, nextId)[i] == users[i]
  {
    StagedUpdate(users, NOTHING_STAGED, sheet, sheet.lastRow, now, i);
  }

  /** A stored user that a valid row leads to keeps its id, email,
      soft-delete flag and modification fields; its name, creator and group
      come from the last such row, and its created date becomes `now`. */
  lemma MatchedUserUpdated(users: seq<User>, sheet: ImportSheet, now: DateTime, nextId: int, i: nat, r: int)
    requires i < |users|
    requires LastMatch(users, sheet, sheet.lastRow, i) == Some(r)
    ensures var row := ReadRow(sheet, r);
      var u := ImportTable(users, sheet, now, nextId)[i];
      && |ImportTable(users, sheet, now, nextId)| >= |users|
      && u.id == users[i].id
      && u.userEmail == users[i].userEmail
      && u.isDeleted == users[i].isDeleted
      && u.modifiedBy == users[i].modifiedBy
      && u.modifiedDate == users[i].modifiedDate
      && Some(u.userName) == row.userName
      && Some(u.createdBy) == row.createdBy
      && u.groupId == Some(row.groupId)
      && u.createdDate == now
  {
    StagedUpdate(users, NOTHING_STAGED, sheet, sheet.lastRow, now, i);
  }

  /** `u` is the user inserted for `row` with id `id`: the row's name,
      email, creator and group, the created date `now`, no modification
      fields and no soft-delete flag. */
  predicate InsertedFrom(u: User, row: ImportRow, now: DateTime, id: int) {
    && u.id == id
    && Some(u.userName) == row.userName
    && Some(u.userEmail) == row.userEmail
    && Some(u.createdBy) == row.createdBy
    && u.groupId == Some(row.groupId)
    && u.createdDate == now
    && u.modifiedBy.None? && u.modifiedDate.None?
    && !u.isDeleted
  }

  /** The table grows by one user per row that `NewRows` lists, and each
      new user is inserted from its row with a fresh id. */
  lemma NewUsersAppended(users: seq<User>, sheet: ImportSheet, now: DateTime, nextId: int)
    ensures var table := ImportTable(users, sheet, now, nextId);
      var rows := NewRows(users, sheet, sheet.lastRow);
      && |table| == |users| + |rows|
      && forall k :: 0 <= k < |rows| ==> InsertedFrom(table[|users| + k], rows[k], now, nextId + k)
  {
    var st := StageRows(users, NOTHING_STAGED, sheet, sheet.lastRow, now);
    var rows := NewRows(users, sheet, sheet.lastRow);
    var table := ImportTable(users, sheet, now, nextId);
    StagedInsertions(users, NOTHING_STAGED, sheet, sheet.lastRow, now);
    forall k | 0 <= k < |rows|
      ensures InsertedFrom(table[|users| + k], rows[k], now, nextId + k)
    {
      assert st.added[k] == NewUser(rows[k], now);
      assert table[|users| + k] == st.added[k].(id := nextId + k);
    }
  }

  // ---------------------------------------------------------------------
  // Identity and uniqueness

  /** Staging rows keeps staged changes fitting the stored table. */
  lemma {:induction false} StageRowsFits(users: seq<User>, st: Staged, sheet: ImportSheet, last: int, now: DateTime)
    requires StagedFor(users, st)
    ensures StagedFor(users, StageRows(users, st, sheet, last, now))
    decreases last
  {
    if last >= FIRST_IMPORT_ROW {
      StageRowsFits(users, st, sheet, last - 1, now);
    }
  }

  /** Every stored user keeps its email through an import. */
  lemma StoredEmailsKept(users: seq<User>, sheet: ImportSheet, now: DateTime, nextId: int)
    ensures var table := ImportTable(users, sheet, now, nextId);
      |table| >= |users| && forall i :: 0 <= i < |users| ==> table[i].userEmail == users[i].userEmail
  {
    StageRowsFits(users, NOTHING_STAGED, sheet, sheet.lastRow, now);
  }

  /** A valid row whose email no stored user has is listed by `NewRows`. */
  lemma {:induction false} NewRowsListsRow(users: seq<User>, sheet: ImportSheet, last: int, r: int)
    requires FIRST_IMPORT_ROW <= r <= last
    requires IsValidRow(ReadRow(sheet, r)) && FindByEmail(users, ReadRow(sheet, r).userEmail.value).None?
    ensures ReadRow(sheet, r) in NewRows(users, sheet, last)
    decreases last
  {
    if r < last {
      NewRowsListsRow(users, sheet, last - 1, r);
    }
  }

  /** When every valid row's email is already stored, nothing is inserted. */
  lemma {:induction false} NewRowsEmptyWhenAllStored(users: seq<User>, sheet: ImportSheet, last: int)
    requires forall r :: FIRST_IMPORT_ROW <= r <= last && IsValidRow(ReadRow(sheet, r)) ==>
      FindByEmail(users, ReadRow(sheet, r).userEmail.value).Some?
    ensures NewRows(users, sheet, last) == []
    decreases last
  {
    if last >= FIRST_IMPORT_ROW {
      NewRowsEmptyWhenAllStored(users, sheet, last - 1);
    }
  }

  /** After an import, every valid row's email belongs to some user. */
  lemma EveryValidRowLands(users: seq<User>, sheet: ImportSheet, now: DateTime, nextId: int, r: int)
    requires FIRST_IMPORT_ROW <= r <= sheet.lastRow && IsValidRow(ReadRow(sheet, r))
    ensures exists u :: u in ImportTable(users, sheet, now, nextId) && Some(u.userEmail) == ReadRow(sheet, r).userEmail
  {
    var table := ImportTable(users, sheet, now, nextId);
    var row := ReadRow(sheet, r);
    StoredEmailsKept(users, sheet, now, nextId);
    match FindByEmail(users, row.userEmail.value)
    case Some(i) =>
      assert table[i] in table;
    case None =>
      NewRowsListsRow(users, sheet, sheet.lastRow, r);
      NewUsersAppended(users, sheet, now, nextId);
      var rows := NewRows(users, sheet, sheet.lastRow);
      var k :| 0 <= k < |rows| && rows[k] == row;
      assert table[|users| + k] in table;
  }

  /** Importing the same sheet a second time inserts nothing: every valid
      row now finds its user by email. */
  lemma ReimportAddsNothing(users: seq<User>, sheet: ImportSheet, now: DateTime, nextId: int,
                            later: DateTime, laterId: int)
    ensures var once := ImportTable(users, sheet, now, nextId);
      |ImportTable(once, sheet, later, laterId)| == |once|
  {
    var once := ImportTable(users, sheet, now, nextId);
    forall r | FIRST_IMPORT_ROW <= r <= sheet.lastRow && IsValidRow(ReadRow(sheet, r))
      ensures FindByEmail(once, ReadRow(sheet, r).userEmail.value).Some?
    {
      EveryValidRowLands(users, sheet, now, nextId, r);
    }
    NewRowsEmptyWhenAllStored(once, sheet, sheet.lastRow);
    NewUsersAppended(once, sheet, later, laterId);
  }

  /** Emails stay unique through an import when they were unique before and
      the sheet does not repeat an email that no stored user has. */
  lemma ImportKeepsEmailsUnique(users: seq<User>, sheet: ImportSheet, now: DateTime, nextId: int)
    requires EmailsUnique(users)
    requires var rows := NewRows(users, sheet, sheet.lastRow);
      forall j, k :: 0 <= j < k < |rows| ==> rows[j].userEmail != rows[k].userEmail
    ensures EmailsUnique(ImportTable(users, sheet, now, nextId))
  {
    var table := ImportTable(users, sheet, now, nextId);
    var rows := NewRows(users, sheet, sheet.lastRow);
    StoredEmailsKept(users, sheet, now, nextId);
    NewUsersAppended(users, sheet, now, nextId);
    forall i, j | 0 <= i < j < |table|
      ensures table[i].userEmail != table[j].userEmail
    {
      if j >= |users| {
        var k := j - |users|;
        assert Some(table[j].userEmail) == rows[k].userEmail;
        if i < |users| {
          assert FindByEmail(users, rows[k].userEmail.value).None?;
          assert users[i].userEmail != rows[k].userEmail.value;
        } else {
          assert Some(table[i].userEmail) == rows[i - |users|].userEmail;
        }
      }
    }
  }

  /** Without that condition emails can repeat: a sheet that lists the same
      new email on two rows inserts two users with that email. */
  lemma RepeatedNewEmailInsertsTwice(now: DateTime, nextId: int)
    ensures var row := ImportRow(Some("Alice"), Some("alice@x.com"), Some("bob"), 3);
      var table := ImportTable([], ImportSheet(3, map[2 := row, 3 := row]), now, nextId);
      |table| == 2 && table[0].userEmail == table[1].userEmail == "alice@x.com"
  {
    var row := ImportRow(Some("Alice"), Some("alice@x.com"), Some("bob"), 3);
    var sheet := ImportSheet(3, map[2 := row, 3 := row]);
    assert NewRows([], sheet, 3) == [row, row];
    NewUsersAppended([], sheet, now, nextId);
  }

  /** One valid row for an unknown email creates exactly that user. */
  lemma SingleNewUserScenario(now: DateTime, nextId: int)
    ensures var row := ImportRow(Some("Alice"), Some("alice@x.com"), Some("bob"), 3);
      ImportTable([], ImportSheet(2, map[2 := row]), now, nextId)
        == [User(nextId, "Alice", "alice@x.com", Some(3), "bob", now, None, None, false)]
  {
    var row := ImportRow(Some("Alice"), Some("alice@x.com"), Some("bob"), 3);
    var sheet := ImportSheet(2, map[2 := row]);
    assert NewRows([], sheet, 2) == [row];
    NewUsersAppended([], sheet, now, nextId);
  }

  /** A row with empty text cells and group id 0 leaves the table as it was. */
  lemma EmptyRowScenario(users: seq<User>, now: DateTime, nextId: int)
    ensures ImportTable(users, ImportSheet(2, map[2 := ImportRow(Some(""), Some(""), None, 0)]), now, nextId) == users
  {
    var sheet := ImportSheet(2, map[2 := ImportRow(Some(""), Some(""), None, 0)]);
    assert StageRows(users, NOTHING_STAGED, sheet, 2, now) == NOTHING_STAGED;
    var table := ImportTable(users, sheet, now, nextId);
    assert |table| == |users|;
    forall i | 0 <= i < |users| ensures table[i] == users[i] {
    }
  }
}
