/** The database context: the stored Users and Groups tables, the identity
    sequence that numbers inserted users, and the changes staged since the
    last save. */
module Data {
  import opened Models
  import opened ChangeTracking

  class DbContext {
    /** The Users table as stored. */
    var users: seq<User>
    /** The Groups table, by group id. The repository only reads it. */
    var groups: map<int, Group>
    /** The next id the database hands to an inserted user. */
    var nextId: int
    /** Changes tracked by the context and not yet saved. */
    var staged: Staged

    ghost predicate Valid()
      reads this
    {
      && IdsUnique(users)
      && (forall i :: 0 <= i < |users| ==> users[i].id < nextId)
      && (forall g :: g in groups ==> groups[g].groupId == g)
      && StagedFor(users, staged)
    }

    constructor (users: seq<User>, groups: map<int, Group>, nextId: int)
      requires IdsUnique(users) && forall i :: 0 <= i < |users| ==> users[i].id < nextId
      requires forall g :: g in groups ==> groups[g].groupId == g
      ensures Valid()
      ensures this.users == users && this.groups == groups && this.nextId == nextId
      ensures staged == NOTHING_STAGED
    {
      this.users := users;
      this.groups := groups;
      this.nextId := nextId;
      staged := NOTHING_STAGED;
    }

    /** Marks the tracked copy of stored user `i` as modified to `u`. */
    method Update(i: nat, u: User)
      requires Valid() && i < |users|
      requires u.id == users[i].id && u.userEmail == users[i].userEmail
      modifies this
      ensures Valid()
      ensures staged == old(staged).(modified := old(staged.modified)[i := u])
      ensures users == old(users) && groups == old(groups) && nextId == old(nextId)
    {
      staged := staged.(modified := staged.modified[i := u]);
    }

    /** Stages `u` for insertion. */
    method Add(u: User)
      requires Valid()
      modifies this
      ensures Valid()
      ensures staged == old(staged).(added := old(staged.added) + [u])
      ensures users == old(users) && groups == old(groups) && nextId == old(nextId)
    {
      staged := staged.(added := staged.added + [u]);
    }

    /** Applies every staged change as one batch: modified users replace
      their stored rows, added users are inserted with fresh ids. */
    method SaveChanges()
      requires Valid()
      modifies this
      ensures Valid()
      ensures users == Commit(old(users), old(staged), old(nextId))
      ensures nextId == old(nextId) + |old(staged.added)|
      ensures staged == NOTHING_STAGED && groups == old(groups)
    {
      CommitKeepsIdsUnique(users, staged, nextId);
      users, nextId := Commit(users, staged, nextId), nextId + |staged.added|;
      staged := NOTHING_STAGED;
    }
  }
}
