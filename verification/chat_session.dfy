/** The chat session record of `internal/models/chat_session.go`: one
    session per project, its creation and update hooks, and archiving. */
module ChatSessions {
  import opened Wrappers
  import opened Json
  import opened BuildModel

  datatype ChatSession = ChatSession(
    id: Uuid,
    userId: Uuid,
    projectId: Uuid,
    title: Option<string>,
    modelHint: Option<string>,
    meta: map<string, Json>,
    createdAt: Time,
    updatedAt: Time,
    archivedAt: Option<Time>)

  /** `ChatSession.BeforeCreate`: the ID rule, both times stamped with the
      insertion time, nothing else touched. */
  function BeforeCreate(cs: ChatSession, newId: Uuid, now: Time): (r: ChatSession)
    ensures r.id == AssignId(cs.id, newId)
    ensures r.createdAt == now && r.updatedAt == r.createdAt
    ensures r.(id := cs.id, createdAt := cs.createdAt, updatedAt := cs.updatedAt) == cs
  {
    cs.(id := AssignId(cs.id, newId), createdAt := now, updatedAt := now)
  }

  /** `ChatSession.BeforeUpdate`: only `UpdatedAt` changes. */
  function BeforeUpdate(cs: ChatSession, now: Time): (r: ChatSession)
    ensures r.updatedAt == now
    ensures r.(updatedAt := cs.updatedAt) == cs
  {
    cs.(updatedAt := now)
  }

  /** `ChatSession.IsArchived`. */
  predicate IsArchived(cs: ChatSession) {
    cs.archivedAt.Some?
  }

  /** `ChatSession.Archive`: stamps the archive time, replacing an earlier
      one. */
  function Archive(cs: ChatSession, now: Time): (r: ChatSession)
    ensures IsArchived(r) && r.archivedAt == Some(now)
    ensures r.(archivedAt := cs.archivedAt) == cs
  {
    cs.(archivedAt := Some(now))
  }

  /** `ChatSession.Unarchive`. */
  function Unarchive(cs: ChatSession): (r: ChatSession)
    ensures !IsArchived(r)
    ensures r.(archivedAt := cs.archivedAt) == cs
  {
    cs.(archivedAt := None)
  }

  /** Archiving and unarchiving undo each other: a live session archived
      and restored is the session it was, an archived one unarchived and
      archived again carries the new archive time only, and each operation
      is idempotent up to that time. */
  lemma ArchiveRoundTrip(cs: ChatSession, t1: Time, t2: Time)
    ensures !IsArchived(cs) ==> Unarchive(Archive(cs, t1)) == cs
    ensures IsArchived(cs) ==> Archive(Unarchive(cs), cs.archivedAt.value) == cs
    ensures Unarchive(Unarchive(cs)) == Unarchive(cs)
    ensures Archive(Archive(cs, t1), t2) == Archive(cs, t2)
  {
  }

  /** A session created and later updated keeps its ID and creation time
      and its archive state. */
  lemma CreatedThenUpdated(cs: ChatSession, newId: Uuid, created: Time, updated: Time)
    requires newId != NilUuid && created <= updated
    ensures var c := BeforeCreate(cs, newId, created);
            var u := BeforeUpdate(c, updated);
            u.id == c.id && u.id != NilUuid && u.createdAt == created && u.createdAt <= u.updatedAt &&
            IsArchived(u) == IsArchived(cs)
  {
  }
}
