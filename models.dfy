/** The two persisted entities the repository reads and writes, and the small
    wrapper types used for nullable columns and for failures. */
module Models {

  /** A nullable value (a nullable column, or a query that may find nothing). */
  datatype Option<+T> = None | Some(value: T)

  /** An outcome that is either a value or the reason the operation aborted. */
  datatype Result<+T, +E> = Ok(value: T) | Failure(error: E)

  /** A point in time; only compared and copied, never computed with. */
  type DateTime = int

  /** A row of the Users table. `groupId`, `modifiedBy` and `modifiedDate` are
      the nullable columns; `isDeleted` is the soft-delete flag. */
  datatype User = User(
    id: int,
    userName: string,
    userEmail: string,
    groupId: Option<int>,
    createdBy: string,
    createdDate: DateTime,
    modifiedBy: Option<string>,
    modifiedDate: Option<DateTime>,
    isDeleted: bool)

  /** A row of the Groups table, keyed by `groupId`. */
  datatype Group = Group(groupId: int, groupName: string, createdBy: string)

  /** An active user is one whose soft-delete flag is unset. */
  predicate IsActive(u: User) {
    !u.isDeleted
  }
}
