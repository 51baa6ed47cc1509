/** Change tracking in the database context: the batch of changes staged
    since the last save, the entity the context hands out for a stored user,
    and the Users table a save produces. */
module ChangeTracking {
  import opened Models

  /** Changes staged in a database context and not yet saved: the tracked,
      modified copies of stored users by position in the table, and the new
      users to insert, in the order they were added. */
  datatype Staged = Staged(modified: map<nat, User>, added: seq<User>)

  const NOTHING_STAGED := Staged(map[], [])

  /** Staged changes fit the stored table: they modify stored positions
      only, and a tracked copy keeps the stored user's id and email. */
  predicate StagedFor(users: seq<User>, st: Staged) {
    forall i :: i in st.modified ==>
      i < |users| && st.modified[i].id == users[i].id && st.modified[i].userEmail == users[i].userEmail
  }

  /** No two users share an id. */
  predicate IdsUnique(users: seq<User>) {
    forall i, j :: 0 <= i < j < |users| ==> users[i].id != users[j].id
  }

  /** The entity the context hands out for stored user `i`: its staged
      modified copy when there is one, the stored row otherwise. */
  function Tracked(users: seq<User>, st: Staged, i: nat): (u: User)
    requires i < |users|
    ensures StagedFor(users, st) ==> u.id == users[i].id && u.userEmail == users[i].userEmail
    ensures st.modified == map[] ==> u == users[i]
  {
    if i in st.modified then st.modified[i] else users[i]
  }

  /** The Users table after saving the staged batch: every stored user is
      replaced by its tracked copy, and the added users follow with the ids
      `nextId`, `nextId + 1`, ... that the database assigns. */
  function Commit(users: seq<User>, st: Staged, nextId: int): (table: seq<User>)
    ensures |table| == |users| + |st.added|
    ensures forall i :: 0 <= i < |users| && i !in st.modified ==> table[i] == users[i]
    ensures forall k :: 0 <= k < |st.added| ==>
      table[|users| + k].id == nextId + k && table[|users| + k].(id := st.added[k].id) == st.added[k]
    ensures st == NOTHING_STAGED ==> table == users
  {
    seq(|users|, i requires 0 <= i < |users| => Tracked(users, st, i)) +
    seq(|st.added|, k requires 0 <= k < |st.added| => st.added[k].(id := nextId + k))
  }

  /** Saving keeps ids unique: stored users keep theirs, and the added users
      get fresh ones above every id in use. */
  lemma CommitKeepsIdsUnique(users: seq<User>, st: Staged, nextId: int)
    requires StagedFor(users, st)
    requires IdsUnique(users) && forall i :: 0 <= i < |users| ==> users[i].id < nextId
    ensures var table := Commit(users, st, nextId);
      && IdsUnique(table)
      && forall i :: 0 <= i < |table| ==> table[i].id < nextId + |st.added|
  {
    var table := Commit(users, st, nextId);
    forall i | 0 <= i < |table|
      ensures table[i].id == if i < |users| then users[i].id else nextId + (i - |users|)
    {
    }
  }
}
