/** `FocusSessionRepository`: starting and stopping the current focus
    session, and the credits a finished session earns. "Now" and the fresh
    random UUID of a new session are parameters; times are epoch seconds. */
module FocusSessionStore {
  import opened Wrappers
  import opened Rows
  import Uuids
  import opened FocusSessions
  import LocalUsers
  import Text

  const MillisPerMinute := 60000

  /** `Duration.between(start, now).toMillis()` at whole-second
      resolution. */
  function DurationMillis(start: int, now: int): int {
    (now - start) * 1000
  }

  /** `(duration / 60000).toInt()`: whole minutes, truncated, narrowed to
      `Int`. */
  function FocusCredits(durationMillis: int): (c: LocalUsers.Int32)
    ensures 0 <= durationMillis ==> 0 <= durationMillis / MillisPerMinute <= LocalUsers.IntMax ==> c == durationMillis / MillisPerMinute
    ensures -MillisPerMinute < durationMillis < MillisPerMinute ==> c == 0
  {
    LocalUsers.Wrap(Text.TruncDiv(durationMillis, MillisPerMinute))
  }

  /** A session earns one credit per whole minute it lasted: `m` full
      minutes and up to 59 seconds more earn exactly `m`. */
  lemma CreditsPerWholeMinute(start: int, minutes: int, extraSeconds: int)
    requires 0 <= minutes <= LocalUsers.IntMax && 0 <= extraSeconds < 60
    ensures FocusCredits(DurationMillis(start, start + minutes * 60 + extraSeconds)) == minutes
  {
    var d := DurationMillis(start, start + minutes * 60 + extraSeconds);
    assert d == minutes * MillisPerMinute + extraSeconds * 1000;
    assert d / MillisPerMinute == minutes;
  }

  /** A freshly started session: it starts and ends now and lasted 0 ms. */
  function NewSession(id: Uuids.Uuid, userId: int, now: int): (s: FocusSession)
    ensures s.id == id && s.userId == userId && s.startTime == now && s.endTime == now && s.duration == 0
  {
    FocusSession(id, userId, now, now, 0)
  }

  /** The session as `stopSession` writes it back. */
  function Stopped(s: FocusSession, now: int): (r: FocusSession)
    ensures r.id == s.id && r.userId == s.userId && r.startTime == s.startTime
    ensures r.endTime == now && r.duration == (now - s.startTime) * 1000
  {
    s.(endTime := now, duration := DurationMillis(s.startTime, now))
  }

  class FocusSessionRepository {
    const dao: FocusSessionDao
    const users: LocalUsers.UserDao
    var currentSession: Option<FocusSession>

    predicate Valid()
      reads this, dao, users
    {
      dao.Valid() && users.Valid()
    }

    constructor (dao: FocusSessionDao, users: LocalUsers.UserDao)
      requires dao.Valid() && users.Valid()
      ensures Valid() && this.dao == dao && this.users == users && currentSession == None
    {
      this.dao := dao;
      this.users := users;
      currentSession := None;
    }

    /** `startSession`: a new session is stored (REPLACE) and becomes
        current. A session that was current is not stopped: its row stays
        as it was, with duration 0. */
    method StartSession(userId: int, now: int, id: Uuids.Uuid)
      requires Valid()
      modifies this, dao
      ensures Valid()
      ensures dao.sessions == Upsert(old(dao.sessions), NewSession(id, userId, now), SessionIdOf)
      ensures currentSession == Some(NewSession(id, userId, now))
      ensures FindBy(dao.sessions, id, SessionIdOf) == Some(NewSession(id, userId, now))
      ensures old(currentSession).Some? && old(currentSession).value.id != id ==>
        FindBy(dao.sessions, old(currentSession).value.id, SessionIdOf)
        == FindBy(old(dao.sessions), old(currentSession).value.id, SessionIdOf)
      ensures users.users == old(users.users)
    {
      var session := NewSession(id, userId, now);
      if currentSession.Some? {
        UpsertThenFind(dao.sessions, session, SessionIdOf, currentSession.value.id);
      }
      dao.Insert(session);
      currentSession := Some(session);
    }

    /** `stopSession`: with no current session nothing happens. Otherwise
        the session is written back ending now, its owner is credited one
        point per whole minute, and there is no current session any more;
        so a second stop right after is a no-op. */
    method StopSession(now: int)
      requires Valid()
      modifies this, dao, users
      ensures Valid() && currentSession == None
      ensures old(currentSession).None? ==>
        dao.sessions == old(dao.sessions) && users.users == old(users.users)
      ensures old(currentSession).Some? ==>
        var s := Stopped(old(currentSession).value, now);
        dao.sessions == Replace(old(dao.sessions), s, SessionIdOf)
        && users.users == LocalUsers.Credited(old(users.users), s.userId, FocusCredits(s.duration))
    {
      if currentSession.None? {
        return;
      }
      var updated := Stopped(currentSession.value, now);
      dao.Update(updated);
      users.AddCredits(updated.userId, FocusCredits(updated.duration));
      currentSession := None;
    }

    function GetFocusSessionsByUserId(userId: int): (r: seq<FocusSession>)
      reads this, dao
      ensures forall s :: s in r <==> s in dao.sessions && s.userId == userId
    {
      dao.GetFocusSessionsByUserId(userId)
    }

    /** `updateCreditsForFocusTime`. */
    method UpdateCreditsForFocusTime(userId: int, minutes: LocalUsers.Int32)
      requires Valid()
      modifies users
      ensures Valid() && users.users == LocalUsers.Credited(old(users.users), userId, minutes)
    {
      users.AddCredits(userId, minutes);
    }
  }
}
