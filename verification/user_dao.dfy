/** The local `users` table behind `data/local/dao/UserDao.kt`: one row per
    user id, holding the carbon-credit balance the app awards. */
module LocalUsers {
  import opened Wrappers

  const IntMin := -0x8000_0000
  const IntMax := 0x7FFF_FFFF

  /** A Kotlin `Int`. */
  type Int32 = x: int | IntMin <= x <= IntMax

  const Modulus := 0x1_0000_0000

  /** A mathematical integer narrowed to `Int` (two's complement). */
  function Wrap(x: int): (r: Int32)
    ensures IntMin <= x <= IntMax ==> r == x
  {
    (x - IntMin) % Modulus + IntMin
  }

  /** Kotlin `Int` addition: the exact sum, wrapped into 32 bits. */
  function AddInt32(a: Int32, b: Int32): (r: Int32)
    ensures IntMin <= a + b <= IntMax ==> r == a + b
  {
    Wrap(a + b)
  }

  /** Narrowing ignores whole multiples of 2^32. */
  lemma {:induction false} WrapShift(x: int, q: int)
    ensures Wrap(x + q * Modulus) == Wrap(x)
  {
    var z := x - IntMin;
    var d := z / Modulus;
    var r := z % Modulus;
    assert z == d * Modulus + r;
    assert z + q * Modulus == (d + q) * Modulus + r;
    assert (z + q * Modulus) % Modulus == r;
  }

  /** Narrowing a partial sum first changes nothing. */
  lemma AddAfterAdd(c: Int32, a: Int32, b: Int32, total: int)
    requires total == c + a + b
    ensures AddInt32(AddInt32(c, a), b) == Wrap(total)
  {
    var x := c + a;
    var d := (x - IntMin) / Modulus;
    assert AddInt32(c, a) + b == total + (-d) * Modulus;
    WrapShift(total, -d);
  }

  /** Wrapped additions can be done in either order: the balance after
      two awards does not depend on which came first. */
  lemma AddInt32Commutes(c: Int32, a: Int32, b: Int32)
    ensures AddInt32(AddInt32(c, a), b) == AddInt32(AddInt32(c, b), a)
  {
    AddAfterAdd(c, a, b, c + a + b);
    AddAfterAdd(c, b, a, c + a + b);
  }

  const DefaultNickname := "离线用户"
  const DefaultHeadshot := "android.resource://com.xfei33.quicktodo/drawable/ic_avatar"

  /** A user row (`model/User.kt`). */
  datatype User = User(id: int, nickname: string, headshot: string, credits: Int32)

  /** The offline user: the Kotlin defaults. */
  function OfflineUser(id: int): (u: User)
    ensures u.id == id && u.credits == 0 && u.nickname == DefaultNickname
  {
    User(id, DefaultNickname, DefaultHeadshot, 0)
  }

  /** `User.addCredits`, which is not part of this model's sources: taken
      as adding to the balance with `Int` arithmetic. */
  function WithCredits(u: User, amount: Int32): (r: User)
    ensures r.id == u.id && r.nickname == u.nickname && r.headshot == u.headshot
    ensures IntMin <= u.credits + amount <= IntMax ==> r.credits == u.credits + amount
  {
    u.(credits := AddInt32(u.credits, amount))
  }

  /** Every row is stored under its own id. */
  predicate Keyed(users: map<int, User>) {
    forall id :: id in users ==> users[id].id == id
  }

  /** What `addCredits` leaves: the target user's balance raised, nothing
      else changed; an absent user changes nothing. */
  function Credited(users: map<int, User>, userId: int, amount: Int32): (r: map<int, User>)
    requires Keyed(users)
    ensures Keyed(r) && r.Keys == users.Keys
    ensures forall id :: id in users && id != userId ==> r[id] == users[id]
    ensures userId in users ==> r[userId] == WithCredits(users[userId], amount)
    ensures userId !in users ==> r == users
  {
    if userId in users then users[userId := WithCredits(users[userId], amount)] else users
  }

  /** Awards to one user commute, and awards to different users touch
      different rows. */
  lemma CreditedCommutes(users: map<int, User>, u: int, a: Int32, v: int, b: Int32)
    requires Keyed(users)
    ensures Credited(Credited(users, u, a), v, b) == Credited(Credited(users, v, b), u, a)
  {
    if u == v && u in users {
      AddInt32Commutes(users[u].credits, a, b);
    }
  }

  class UserDao {
    var users: map<int, User>

    predicate Valid()
      reads this
    {
      Keyed(users)
    }

    constructor ()
      ensures Valid() && users == map[]
    {
      users := map[];
    }

    /** `getUserById` / `getUserByIdSync`: the user with that id, or null. */
    function GetUserById(id: int): (r: Option<User>)
      reads this
      requires Valid()
      ensures r.Some? <==> id in users
      ensures r.Some? ==> r.value == users[id] && r.value.id == id
    {
      if id in users then Some(users[id]) else None
    }

    /** `insertUser` (REPLACE): stores the row, replacing one with the same
        id. */
    method InsertUser(user: User)
      requires Valid()
      modifies this
      ensures Valid() && users == old(users)[user.id := user]
      ensures GetUserById(user.id) == Some(user)
      ensures forall id :: id != user.id ==> GetUserById(id) == old(GetUserById(id))
    {
      users := users[user.id := user];
    }

    /** `updateUser`: rewrites the row with the same id; with no such row
        nothing changes. */
    method UpdateUser(user: User)
      requires Valid()
      modifies this
      ensures Valid()
      ensures users == if user.id in old(users) then old(users)[user.id := user] else old(users)
      ensures forall id :: id != user.id ==> GetUserById(id) == old(GetUserById(id))
    {
      if user.id in users {
        users := users[user.id := user];
      }
    }

    /** `deleteAllUsers`. */
    method DeleteAllUsers()
      requires Valid()
      modifies this
      ensures Valid() && users == map[]
      ensures forall id :: GetUserById(id).None?
    {
      users := map[];
    }

    /** `addCredits` (one transaction): look the user up, stop if absent,
        otherwise write the row back with the raised balance. */
    method AddCredits(userId: int, amount: Int32)
      requires Valid()
      modifies this
      ensures Valid() && users == Credited(old(users), userId, amount)
    {
      var user := GetUserById(userId);
      if user.None? {
        return;
      }
      UpdateUser(WithCredits(user.value, amount));
    }
  }
}
