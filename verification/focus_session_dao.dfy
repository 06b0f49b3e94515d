/** The `focus_sessions` table (`FocusSessionDao`): one row per focus
    session, keyed by a UUID, kept in insertion order. Times are epoch
    seconds as the type converter stores them; the duration is in
    milliseconds. */
module FocusSessions {
  import opened Wrappers
  import opened Rows
  import Uuids

  datatype FocusSession = FocusSession(id: Uuids.Uuid, userId: int, startTime: int, endTime: int, duration: int)

  function SessionIdOf(s: FocusSession): Uuids.Uuid { s.id }

  /** `WHERE userId = :userId` */
  function OfUser(userId: int): FocusSession -> bool {
    (s: FocusSession) => s.userId == userId
  }

  /** `WHERE userId = :userId AND startTime >= :startTime AND endTime < :endTime` */
  function WithinRange(userId: int, start: int, end: int): FocusSession -> bool {
    (s: FocusSession) => s.userId == userId && s.startTime >= start && s.endTime < end
  }

  /** `getFocusSessionsByUserId`. */
  function SessionsByUser(rows: seq<FocusSession>, userId: int): seq<FocusSession> {
    Filter(rows, OfUser(userId))
  }

  /** `getFocusSessionsByUserIdAndTimeRange`. */
  function SessionsInRange(rows: seq<FocusSession>, userId: int, start: int, end: int): seq<FocusSession> {
    Filter(rows, WithinRange(userId, start, end))
  }

  /** The by-user query returns exactly that user's sessions, in table
      order. */
  lemma SessionsByUserExact(rows: seq<FocusSession>, userId: int)
    ensures Subsequence(SessionsByUser(rows, userId), rows)
    ensures forall s :: s in SessionsByUser(rows, userId) <==> s in rows && s.userId == userId
  {
    FilterIsSubsequence(rows, OfUser(userId));
    FilterMembers(rows, OfUser(userId));
  }

  /** The range query returns exactly the user's sessions that start at or
      after `start` and end strictly before `end`: a session straddling
      either bound is left out. It is a sub-sequence of the by-user query. */
  lemma SessionsInRangeExact(rows: seq<FocusSession>, userId: int, start: int, end: int)
    ensures forall s :: (s in SessionsInRange(rows, userId, start, end)
      <==> s in rows && s.userId == userId && start <= s.startTime && s.endTime < end)
    ensures Subsequence(SessionsInRange(rows, userId, start, end), SessionsByUser(rows, userId))
  {
    FilterMembers(rows, WithinRange(userId, start, end));
    var inner := (s: FocusSession) => s.startTime >= start && s.endTime < end;
    FilterFilter(rows, OfUser(userId), inner, WithinRange(userId, start, end));
    FilterIsSubsequence(SessionsByUser(rows, userId), inner);
  }

  class FocusSessionDao {
    var sessions: seq<FocusSession>

    predicate Valid()
      reads this
    {
      UniqueKeys(sessions, SessionIdOf)
    }

    constructor ()
      ensures Valid() && sessions == []
    {
      sessions := [];
    }

    function GetFocusSessionsByUserId(userId: int): (r: seq<FocusSession>)
      reads this
      ensures Subsequence(r, sessions)
      ensures forall s :: s in r <==> s in sessions && s.userId == userId
    {
      SessionsByUserExact(sessions, userId);
      SessionsByUser(sessions, userId)
    }

    function GetFocusSessionsByUserIdAndTimeRange(userId: int, start: int, end: int): (r: seq<FocusSession>)
      reads this
      ensures forall s :: s in r <==> s in sessions && s.userId == userId && start <= s.startTime && s.endTime < end
      ensures Subsequence(r, SessionsByUser(sessions, userId))
    {
      SessionsInRangeExact(sessions, userId, start, end);
      SessionsInRange(sessions, userId, start, end)
    }

    /** `insert` (REPLACE): afterwards the session is the one stored under
        its id, and every other id finds what it found before. */
    method Insert(session: FocusSession)
      requires Valid()
      modifies this
      ensures Valid() && sessions == Upsert(old(sessions), session, SessionIdOf)
      ensures forall id :: (FindBy(sessions, id, SessionIdOf)
        == if id == session.id then Some(session) else FindBy(old(sessions), id, SessionIdOf))
    {
      forall id ensures FindBy(Upsert(sessions, session, SessionIdOf), id, SessionIdOf)
        == if id == session.id then Some(session) else FindBy(sessions, id, SessionIdOf)
      {
        UpsertThenFind(sessions, session, SessionIdOf, id);
      }
      UpsertReplaces(sessions, session, SessionIdOf);
      sessions := Upsert(sessions, session, SessionIdOf);
    }

    /** `update`: the stored session with the same id is rewritten in
        place; without one nothing changes. */
    method Update(session: FocusSession)
      requires Valid()
      modifies this
      ensures Valid() && sessions == Replace(old(sessions), session, SessionIdOf)
      ensures forall id :: (FindBy(sessions, id, SessionIdOf)
        == if id == session.id && FindBy(old(sessions), id, SessionIdOf).Some? then Some(session)
           else FindBy(old(sessions), id, SessionIdOf))
    {
      forall id ensures FindBy(Replace(sessions, session, SessionIdOf), id, SessionIdOf)
        == if id == session.id && FindBy(sessions, id, SessionIdOf).Some? then Some(session)
           else FindBy(sessions, id, SessionIdOf)
      {
        ReplaceThenFind(sessions, session, SessionIdOf, id);
      }
      ReplaceThenFind(sessions, session, SessionIdOf, session.id);
      sessions := Replace(sessions, session, SessionIdOf);
    }
  }
}
