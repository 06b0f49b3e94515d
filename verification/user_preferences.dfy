/** The `user_prefs` preferences store: the session token, the user id and
    the sync cursor `lastSyncTime` (one key shared by every user), each under its own key, with a
    default for a missing key. */
module Preferences {

  const TokenKey := "token"
  const UserIdKey := "user_id"
  const LastSyncTimeKey := "lastSyncTime"

  /** The offline user's values. */
  const DefaultToken := ""
  const DefaultUserId := 0
  const DefaultLastSyncTime := "0001-01-01T00:00:00"

  /** A stored preference: a string or a long. */
  datatype PrefValue = StringValue(s: string) | LongValue(n: int)

  /** Every key this class writes holds the type its getter reads. */
  predicate WellTyped(store: map<string, PrefValue>) {
    (TokenKey in store ==> store[TokenKey].StringValue?)
    && (UserIdKey in store ==> store[UserIdKey].LongValue?)
    && (LastSyncTimeKey in store ==> store[LastSyncTimeKey].StringValue?)
  }

  /** `token`: the stored token, or `""` when the key is absent. */
  function TokenOf(store: map<string, PrefValue>): (r: string)
    requires WellTyped(store)
    ensures TokenKey !in store ==> r == DefaultToken
    ensures TokenKey in store ==> store[TokenKey] == StringValue(r)
  {
    if TokenKey in store then store[TokenKey].s else DefaultToken
  }

  /** `userId`: the stored id, or 0 when the key is absent. */
  function UserIdOf(store: map<string, PrefValue>): (r: int)
    requires WellTyped(store)
    ensures UserIdKey !in store ==> r == DefaultUserId
    ensures UserIdKey in store ==> store[UserIdKey] == LongValue(r)
  {
    if UserIdKey in store then store[UserIdKey].n else DefaultUserId
  }

  /** `lastSyncTime`: the stored cursor, or the sentinel
      `"0001-01-01T00:00:00"` when the key is absent. */
  function LastSyncTimeOf(store: map<string, PrefValue>): (r: string)
    requires WellTyped(store)
    ensures LastSyncTimeKey !in store ==> r == DefaultLastSyncTime
    ensures LastSyncTimeKey in store ==> store[LastSyncTimeKey] == StringValue(r)
  {
    if LastSyncTimeKey in store then store[LastSyncTimeKey].s else DefaultLastSyncTime
  }

  /** What `clear` leaves: the store without the three keys. */
  function Cleared(store: map<string, PrefValue>): (r: map<string, PrefValue>)
    ensures TokenKey !in r && UserIdKey !in r && LastSyncTimeKey !in r
    ensures forall k :: k in r <==> k in store && k != TokenKey && k != UserIdKey && k != LastSyncTimeKey
    ensures forall k :: k in r ==> r[k] == store[k]
  {
    store - {TokenKey, UserIdKey, LastSyncTimeKey}
  }

  /** The three keys are different, so each value has its own slot. */
  lemma KeysDistinct()
    ensures TokenKey != UserIdKey && TokenKey != LastSyncTimeKey && UserIdKey != LastSyncTimeKey
  {
  }

  /** Saving the token is seen by the token getter and by no other. */
  lemma SaveTokenThenRead(store: map<string, PrefValue>, token: string)
    requires WellTyped(store)
    ensures var after := store[TokenKey := StringValue(token)];
      WellTyped(after) && TokenOf(after) == token
      && UserIdOf(after) == UserIdOf(store) && LastSyncTimeOf(after) == LastSyncTimeOf(store)
  {
    KeysDistinct();
  }

  lemma SaveUserIdThenRead(store: map<string, PrefValue>, userId: int)
    requires WellTyped(store)
    ensures var after := store[UserIdKey := LongValue(userId)];
      WellTyped(after) && UserIdOf(after) == userId
      && TokenOf(after) == TokenOf(store) && LastSyncTimeOf(after) == LastSyncTimeOf(store)
  {
    KeysDistinct();
  }

  lemma SaveLastSyncTimeThenRead(store: map<string, PrefValue>, lastSyncTime: string)
    requires WellTyped(store)
    ensures var after := store[LastSyncTimeKey := StringValue(lastSyncTime)];
      WellTyped(after) && LastSyncTimeOf(after) == lastSyncTime
      && TokenOf(after) == TokenOf(store) && UserIdOf(after) == UserIdOf(store)
  {
    KeysDistinct();
  }

  /** After `clear` every getter gives its default, and clearing again
      changes nothing. */
  lemma ClearResets(store: map<string, PrefValue>)
    requires WellTyped(store)
    ensures WellTyped(Cleared(store))
    ensures TokenOf(Cleared(store)) == DefaultToken
    ensures UserIdOf(Cleared(store)) == DefaultUserId
    ensures LastSyncTimeOf(Cleared(store)) == DefaultLastSyncTime
    ensures Cleared(Cleared(store)) == Cleared(store)
  {
  }

  class UserPreferences {
    var store: map<string, PrefValue>

    predicate Valid()
      reads this
    {
      WellTyped(store)
    }

    /** A fresh store: every getter gives its default. */
    constructor ()
      ensures Valid() && store == map[]
      ensures Token() == DefaultToken && UserId() == DefaultUserId
      ensures LastSyncTime() == DefaultLastSyncTime
    {
      store := map[];
    }

    function Token(): (t: string)
      reads this
      requires Valid()
      ensures TokenKey !in store ==> t == DefaultToken
      ensures TokenKey in store ==> store[TokenKey] == StringValue(t)
    {
      TokenOf(store)
    }

    function UserId(): (id: int)
      reads this
      requires Valid()
      ensures UserIdKey !in store ==> id == DefaultUserId
      ensures UserIdKey in store ==> store[UserIdKey] == LongValue(id)
    {
      UserIdOf(store)
    }

    function LastSyncTime(): (cursor: string)
      reads this
      requires Valid()
      ensures LastSyncTimeKey !in store ==> cursor == DefaultLastSyncTime
      ensures LastSyncTimeKey in store ==> store[LastSyncTimeKey] == StringValue(cursor)
    {
      LastSyncTimeOf(store)
    }

    method SaveToken(token: string)
      requires Valid()
      modifies this
      ensures Valid() && store == old(store)[TokenKey := StringValue(token)]
      ensures Token() == token
      ensures UserId() == old(UserId()) && LastSyncTime() == old(LastSyncTime())
    {
      SaveTokenThenRead(store, token);
      store := store[TokenKey := StringValue(token)];
    }

    method SaveUserId(userId: int)
      requires Valid()
      modifies this
      ensures Valid() && store == old(store)[UserIdKey := LongValue(userId)]
      ensures UserId() == userId
      ensures Token() == old(Token()) && LastSyncTime() == old(LastSyncTime())
    {
      SaveUserIdThenRead(store, userId);
      store := store[UserIdKey := LongValue(userId)];
    }

    method SaveLastSyncTime(lastSyncTime: string)
      requires Valid()
      modifies this
      ensures Valid() && store == old(store)[LastSyncTimeKey := StringValue(lastSyncTime)]
      ensures LastSyncTime() == lastSyncTime
      ensures Token() == old(Token()) && UserId() == old(UserId())
    {
      SaveLastSyncTimeThenRead(store, lastSyncTime);
      store := store[LastSyncTimeKey := StringValue(lastSyncTime)];
    }

    /** Removes the three keys (logging out). */
    method Clear()
      requires Valid()
      modifies this
      ensures Valid() && store == Cleared(old(store))
      ensures Token() == DefaultToken && UserId() == DefaultUserId
      ensures LastSyncTime() == DefaultLastSyncTime
    {
      ClearResets(store);
      store := Cleared(store);
    }
  }
}
