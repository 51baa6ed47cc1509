# ExcelRepository: export and import of users and groups

A Dafny model of `ExcelRepository`, the part of the ExcelMinimalApi service that moves Users and Groups between the database and spreadsheet files.

- **Export** walks the distinct, non-null group ids of active users (users whose soft-delete flag is unset). For each id that has a Group record, it adds one sheet named after the group. The sheet holds:
  - a three-row label/value header: group name, group owner and the date;
  - a styled title row at row 5;
  - one bordered row per active user of the group, from row 6 on.
- **Import** reads rows 2 through the last row of the first sheet. It skips a row whose name, email or creator is null or empty, or whose group id is 0. For any other row it either updates the stored user with that email or stages a new user. All staged changes are saved as one batch.

The database and the spreadsheet library are replaced by plain data:
- the Users table is a sequence of `User` records;
- the Groups table is a map from group id to `Group`;
- a sheet is a map from (row, column) to a cell value, plus a style flag per styled row;
- the uploaded sheet is given as its last row and the four cells of each row.

Files:
- `models.dfy`: the entities.
- `spreadsheet.dfy`: cells, sheets and the import sheet.
- `export.dfy`: which groups get a sheet and what each sheet holds, with the layout lemmas.
- `tracking.dfy`: the batch of changes the database context stages, the entity it hands out for a stored user, and the table a save produces.
- `import.dfy`: row validation, email lookup, staging and the lemmas about the table after an import.
- `data.dfy`: the database context as a class. It holds the stored table, the identity counter and the staged batch.
- `repository.dfy`: the repository class. Its two methods run the source's loops and are proved equal to the functions above. The body of the export loop for one group is the method `FillGroupSheet`.

The model follows the code, including these behaviours a reader might not expect:
- **Repeated new email.** The lookup at line 144 queries the stored table, so a user added by an earlier row of the same file is not found. At most one user per email after an import is therefore not guaranteed. A file that repeats an unknown email inserts two users with that email (`RepeatedNewEmailInsertsTwice`). Emails stay unique only when the file repeats no new email (`ImportKeepsEmailsUnique`).
- **Whitespace-only cells.** Validation uses null-or-empty, so a cell holding only spaces is not skipped.
- **Soft-deleted users.** The email lookup does not filter on the soft-delete flag. A deleted user can therefore be updated by import, and it stays deleted.
- **Export with no sheet.** When no active user references an existing group, the workbook has no sheet, and the spreadsheet library refuses to save it (line 112). The export then fails (`EmptyWorkbook`).
- **Created date on update.** An update resets the created date to the import time and leaves the modification fields untouched (lines 149-153).

## Model

| member | source | states |
|---|---|---|
| ExportLayout.ActiveGroupIds | ExcelMinimalApi/ExcelApi/Repositories/Repository/ExcelRepository.cs:24-28 | the exported group ids have no duplicates, and g is among them exactly when some active user has group id g |
| ExportLayout.GroupUsers | ExcelMinimalApi/ExcelApi/Repositories/Repository/ExcelRepository.cs:71 | the users queried for a group are, with their multiplicities, exactly the active users of that group; a deleted user or a user of another group is never among them |
| ExportLayout.NewGroupSheet | ExcelMinimalApi/ExcelApi/Repositories/Repository/ExcelRepository.cs:41-68 | a new group sheet is named after the group and holds nothing at or below the first data row |
| ExportLayout.NewGroupSheetDomain | ExcelMinimalApi/ExcelApi/Repositories/Repository/ExcelRepository.cs:44-68 | a new group sheet holds exactly the cells A1..B3 and row 5, columns 1-6 |
| ExportLayout.NewGroupSheetTitles | ExcelMinimalApi/ExcelApi/Repositories/Repository/ExcelRepository.cs:63-68 | row 5 holds "User Name", "User Email", "Created By", "Created Date", "Modified By", "Modified Date" in columns 1-6 |
| ExportLayout.NewGroupSheetLayout | ExcelMinimalApi/ExcelApi/Repositories/Repository/ExcelRepository.cs:41-68 | a new group sheet is named after the group; A1..A3 hold "Group Name:", "Group Owner:", "Date:"; B1..B3 hold group name, creator, date; row 5 holds the six titles in columns 1-6 and carries the title style; nothing else is written |
| ExportLayout.WriteUser | ExcelMinimalApi/ExcelApi/Repositories/Repository/ExcelRepository.cs:76-105 | writing a user keeps the sheet name, and on a row without columns 5 and 6 it makes the row show exactly that user |
| ExportLayout.WriteUserEffect | ExcelMinimalApi/ExcelApi/Repositories/Repository/ExcelRepository.cs:77-105 | writing one user fills columns 1-4 of its row, column 5 or 6 exactly when the modifier or modified date is set, makes the row bordered, and changes no other row |
| ExportLayout.WriteUsers | ExcelMinimalApi/ExcelApi/Repositories/Repository/ExcelRepository.cs:74-108 | writing the users one per row keeps the sheet name |
| ExportLayout.WriteUsersFrame | ExcelMinimalApi/ExcelApi/Repositories/Repository/ExcelRepository.cs:74-108 | writing users below a header keeps the header and writes no cell outside rows 6 .. 5+n and columns 1-6 |
| ExportLayout.WriteUsersLayout | ExcelMinimalApi/ExcelApi/Repositories/Repository/ExcelRepository.cs:74-108 | writing users below a header shows the k-th user on row 6+k |
| ExportLayout.GroupSheet | ExcelMinimalApi/ExcelApi/Repositories/Repository/ExcelRepository.cs:41-108 | the complete sheet of a group is named after the group |
| ExportLayout.GroupSheetLayout | ExcelMinimalApi/ExcelApi/Repositories/Repository/ExcelRepository.cs:41-108 | the complete fixed layout of a group sheet: header block, title row, the k-th member on row 6+k, no cell or style anywhere else |
| ExportLayout.SheetRowsAreActiveMembers | ExcelMinimalApi/ExcelApi/Repositories/Repository/ExcelRepository.cs:71-108 | every data row of a group sheet shows an active user of that group, there are exactly as many data rows as members, and no deleted user is among them |
| ExportLayout.ExistingIds | ExcelMinimalApi/ExcelApi/Repositories/Repository/ExcelRepository.cs:33-38 | the ids kept are exactly the listed ids that have a Group record, without duplicates when the list had none |
| ExportLayout.BuildSheets | ExcelMinimalApi/ExcelApi/Repositories/Repository/ExcelRepository.cs:30-108 | adding the sheets fails only on a duplicate sheet name; on success there is at most one sheet per listed id and no two sheets share a name |
| ExportLayout.BuildSheetsSucceeds | ExcelMinimalApi/ExcelApi/Repositories/Repository/ExcelRepository.cs:30-41 | building the workbook succeeds exactly when the groups that get a sheet have pairwise different names |
| ExportLayout.BuildSheetsContents | ExcelMinimalApi/ExcelApi/Repositories/Repository/ExcelRepository.cs:30-108 | on success there is one sheet per listed id with a Group record, and the j-th sheet is the complete sheet of the j-th such group |
| ExportLayout.BuildSheetsCovers | ExcelMinimalApi/ExcelApi/Repositories/Repository/ExcelRepository.cs:30-41 | on success every listed id with a Group record has its sheet |
| ExportLayout.SheetGroupsListed | ExcelMinimalApi/ExcelApi/Repositories/Repository/ExcelRepository.cs:24-38 | the ids the export walks that have a Group record are exactly the groups referenced by an active user and present in the Groups table, each once |
| ExportLayout.ExportSheetsAreGroupSheets | ExcelMinimalApi/ExcelApi/Repositories/Repository/ExcelRepository.cs:24-41 | every exported sheet is the sheet of a group that an active user references and that has a Group record |
| ExportLayout.Export | ExcelMinimalApi/ExcelApi/Repositories/Repository/ExcelRepository.cs:18-113 | a saved workbook is never empty and is the one the sheets were added to; the empty-workbook failure arises only when no sheet was added |
| ExportLayout.ExportOneSheetPerGroup | ExcelMinimalApi/ExcelApi/Repositories/Repository/ExcelRepository.cs:24-112 | export yields one sheet per group that an active user references and that exists, and no sheet for a missing group; it fails exactly on a repeated sheet name or when no such group exists, and with the empty-workbook error exactly in the latter case |
| Repository.BuildSheetsFailureSticks | ExcelMinimalApi/ExcelApi/Repositories/Repository/ExcelRepository.cs:41 | once adding a sheet fails, the whole export fails with that error |
| Repository.FillGroupSheet | ExcelMinimalApi/ExcelApi/Repositories/Repository/ExcelRepository.cs:41-108 | writing the header, the title row and the members cell by cell yields exactly the complete group sheet |
| Repository.ExcelRepository.ExportExcel | ExcelMinimalApi/ExcelApi/Repositories/Repository/ExcelRepository.cs:18-113 | the export loops build exactly the workbook `Export` describes, or fail with the duplicate sheet name or the empty-workbook error |
| Spreadsheet.ReadRow | ExcelMinimalApi/ExcelApi/Repositories/Repository/ExcelRepository.cs:131-134 | reading a row the sheet holds yields its cells; any row read is either one the sheet holds or the row of empty cells with group id 0 |
| ImportRules.IsValidRow | ExcelMinimalApi/ExcelApi/Repositories/Repository/ExcelRepository.cs:137 | a valid row has name, email and creator present, so an empty row is never valid |
| ImportRules.FindByEmail | ExcelMinimalApi/ExcelApi/Repositories/Repository/ExcelRepository.cs:144 | the lookup returns the first stored user with the email, and none exactly when no stored user has it |
| ChangeTracking.Tracked | ExcelMinimalApi/ExcelApi/Repositories/Repository/ExcelRepository.cs:144 | the entity handed out for a stored user keeps its id and email while the staged changes fit the table, and is the stored user when nothing is modified |
| ImportRules.UpdatedUser | ExcelMinimalApi/ExcelApi/Repositories/Repository/ExcelRepository.cs:149-152 | an update keeps id, email, soft-delete flag and modification fields, sets the created date to now, and takes name, creator and group exactly from the row |
| ImportRules.NewUser | ExcelMinimalApi/ExcelApi/Repositories/Repository/ExcelRepository.cs:158-165 | a new user is active, has no modification fields, has created date now, and carries exactly the row's name, email, creator and group |
| ImportRules.StageRow | ExcelMinimalApi/ExcelApi/Repositories/Repository/ExcelRepository.cs:143-169 | one row stages nothing when malformed, keeps the staged changes fitting the table, never drops a staged change, and adds one insertion exactly when the row is valid and its email is unknown |
| ImportRules.StageRows | ExcelMinimalApi/ExcelApi/Repositories/Repository/ExcelRepository.cs:128-170 | staging rows 2 .. last keeps earlier insertions as a prefix and modifications, and adds at most one insertion per row read |
| ChangeTracking.Commit | ExcelMinimalApi/ExcelApi/Repositories/Repository/ExcelRepository.cs:173 | saving keeps every unmodified stored user as it was, appends the staged insertions in order with ids nextId, nextId+1, ..., and leaves the table unchanged when nothing is staged |
| ImportRules.ImportTable | ExcelMinimalApi/ExcelApi/Repositories/Repository/ExcelRepository.cs:125-173 | an import never shrinks the table and adds at most one user per row read |
| ImportRules.StageRowsDependsOnValidRows | ExcelMinimalApi/ExcelApi/Repositories/Repository/ExcelRepository.cs:128-141 | only the valid rows among rows 2 .. lastRow influence the staged batch |
| ImportRules.HeaderRowNeverRead | ExcelMinimalApi/ExcelApi/Repositories/Repository/ExcelRepository.cs:128 | whatever row 1 holds, the import stages the same changes |
| ImportRules.MalformedRowSkipped | ExcelMinimalApi/ExcelApi/Repositories/Repository/ExcelRepository.cs:131-141 | a row with a null or empty name, email or creator, or group id 0, stages nothing: the import equals that of the sheet without the row |
| ImportRules.NoDataRowsNoChange | ExcelMinimalApi/ExcelApi/Repositories/Repository/ExcelRepository.cs:125-128 | a sheet whose last row is above row 2 leaves the Users table unchanged |
| ImportRules.NewRows | ExcelMinimalApi/ExcelApi/Repositories/Repository/ExcelRepository.cs:155-168 | the rows that insert users are valid rows whose email no stored user has |
| ImportRules.LastMatch | ExcelMinimalApi/ExcelApi/Repositories/Repository/ExcelRepository.cs:144-153 | the last valid row leading to stored user i, or none when no valid row does |
| ImportRules.StagedInsertions | ExcelMinimalApi/ExcelApi/Repositories/Repository/ExcelRepository.cs:155-168 | the staged insertions are the new users of the rows with unknown emails, in row order, after those already staged |
| ImportRules.StagedUpdate | ExcelMinimalApi/ExcelApi/Repositories/Repository/ExcelRepository.cs:144-153 | a stored user's tracked copy changes only if some valid row leads to it, and then it is the user updated by the last such row |
| ImportRules.UnmatchedUserUnchanged | ExcelMinimalApi/ExcelApi/Repositories/Repository/ExcelRepository.cs:170-173 | a stored user whose email no valid row carries is left exactly as it was |
| ImportRules.MatchedUserUpdated | ExcelMinimalApi/ExcelApi/Repositories/Repository/ExcelRepository.cs:144-153 | a matched user keeps id, email, soft-delete flag, modifier and modified date; name, creator and group come from the last matching row; created date becomes now |
| ImportRules.NewUsersAppended | ExcelMinimalApi/ExcelApi/Repositories/Repository/ExcelRepository.cs:155-173 | the table grows by exactly one user per valid row with an unknown email, in row order; each carries the row's name, email, creator and group, created date now, id nextId+k, no modification fields, and is not deleted |
| ImportRules.StageRowsFits | ExcelMinimalApi/ExcelApi/Repositories/Repository/ExcelRepository.cs:144-153 | staging modifies stored positions only and keeps each tracked user's id and email |
| ChangeTracking.CommitKeepsIdsUnique | ExcelMinimalApi/ExcelApi/Repositories/Repository/ExcelRepository.cs:173 | saving keeps user ids unique: inserted users get ids above all ids in use |
| ImportRules.StoredEmailsKept | ExcelMinimalApi/ExcelApi/Repositories/Repository/ExcelRepository.cs:146-153 | no stored user's email changes in an import |
| ImportRules.NewRowsListsRow | ExcelMinimalApi/ExcelApi/Repositories/Repository/ExcelRepository.cs:155-168 | every valid row whose email no stored user has leads to an insertion |
| ImportRules.NewRowsEmptyWhenAllStored | ExcelMinimalApi/ExcelApi/Repositories/Repository/ExcelRepository.cs:144-168 | when every valid row's email is stored, nothing is inserted |
| ImportRules.EveryValidRowLands | ExcelMinimalApi/ExcelApi/Repositories/Repository/ExcelRepository.cs:128-173 | after an import every valid row's email belongs to some user |
| ImportRules.ReimportAddsNothing | ExcelMinimalApi/ExcelApi/Repositories/Repository/ExcelRepository.cs:128-173 | importing the same sheet a second time inserts no user |
| ImportRules.ImportKeepsEmailsUnique | ExcelMinimalApi/ExcelApi/Repositories/Repository/ExcelRepository.cs:144-173 | emails stay unique when they were unique and the sheet repeats no unknown email |
| ImportRules.RepeatedNewEmailInsertsTwice | ExcelMinimalApi/ExcelApi/Repositories/Repository/ExcelRepository.cs:144-168 | a sheet repeating an unknown email on two rows inserts two users with that email |
| ImportRules.SingleNewUserScenario | ExcelMinimalApi/ExcelApi/Repositories/Repository/ExcelRepository.cs:155-173 | one valid row ("Alice", "alice@x.com", "bob", 3) into an empty table yields exactly that user, not deleted, with created date now |
| ImportRules.EmptyRowScenario | ExcelMinimalApi/ExcelApi/Repositories/Repository/ExcelRepository.cs:137-141 | a row with empty cells and group id 0 leaves the table unchanged |
| Data.DbContext.Update | ExcelMinimalApi/ExcelApi/Repositories/Repository/ExcelRepository.cs:149-153 | marking a tracked user modified stages its new value and changes nothing else |
| Data.DbContext.Add | ExcelMinimalApi/ExcelApi/Repositories/Repository/ExcelRepository.cs:168 | adding a user appends it to the staged insertions and changes nothing else |
| Data.DbContext.SaveChanges | ExcelMinimalApi/ExcelApi/Repositories/Repository/ExcelRepository.cs:173 | saving applies the staged batch at once, advances the identity counter by the number of insertions, keeps ids unique and leaves nothing staged |
| Repository.ExcelRepository.ImportExcel | ExcelMinimalApi/ExcelApi/Repositories/Repository/ExcelRepository.cs:115-177 | the import loop leaves the Users table equal to the commit of all rows 2 .. lastRow staged in order; groups are untouched and nothing stays staged |

## Left out

- The HTTP endpoints (`ExcelEndPoints.cs`) and the service set-up (`Program.cs`): routing, file upload and scratch files, content-type checks, error-to-response mapping.
- Reading and writing the spreadsheet file format. `package.SaveAs` and `new ExcelPackage(...)` are not modelled beyond the refusal to save a workbook without a sheet: export returns the workbook value, and import receives its first sheet as a value.
- The clock. `DateTime.Now` is the parameter `now`, and its "yyyy-MM-dd" text is the parameter `today`.
  - One `today` stands for the read at line 51 on every sheet, and one `now` for the reads at lines 151 and 163 on every row. The source reads the clock afresh each time, so dates can differ across sheets or rows when a run crosses midnight or takes time.
- Library failure modes. These are not modelled:
  - the null `sheet.Dimension` of an empty sheet (`lastRow` is an input);
  - `GetValue<int>` throwing on a non-numeric cell (the group id arrives as an integer, 0 when the cell is empty);
  - the text that `GetValue<string>` makes of non-text cells.
- Repository.ExcelRepository.ExportExcel: the library compares sheet names case-insensitively and also rejects empty or over-long names and certain characters. The model fails only on an exactly repeated name.
- Cell styling beyond a per-row flag: the title style (bold, thin borders, light-gray fill) and the bordered data style.
- Order of query results.
  - The database returns distinct group ids in no guaranteed order; the model takes the order of first appearance. Only the order of the sheets depends on this.
  - The per-group user query at line 71 has no ORDER BY. The model takes table order, which is what places the k-th member on row 6+k.
  - The email lookup takes the first match in table order. With unique stored emails, every order gives the same result.
- The database itself:
  - ids are assigned by a counter that stands for the identity sequence;
  - unique constraints, connection failures, transactions and concurrent requests are not modelled;
  - `SaveChanges` applies the staged batch as one step.
- The User and Group model classes are not part of this model. Their fields are taken as non-null except the group id, modifier and modified date.
