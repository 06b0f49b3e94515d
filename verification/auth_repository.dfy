/** Local accounts: the `users` table of usernames and passwords
    (`data/dao/UserDao.kt`) and the repository that logs in and registers
    against it (`AuthRepository`). The username is the primary key, so the
    table is a map from username to password. */
module Auth {
  import opened Wrappers

  datatype Account = Account(username: string, password: string)

  /** `getUserByUsername`: the account with that name, if any. */
  function Lookup(accounts: map<string, string>, username: string): (r: Option<Account>)
    ensures r.Some? <==> username in accounts
    ensures r.Some? ==> r.value == Account(username, accounts[username])
  {
    if username in accounts then Some(Account(username, accounts[username])) else None
  }

  /** `login`: `user?.password == password`; a missing user compares
      `null` with the password and fails. */
  function CheckLogin(accounts: map<string, string>, username: string, password: string): (ok: bool)
    ensures username !in accounts ==> !ok
    ensures ok <==> username in accounts && accounts[username] == password
  {
    match Lookup(accounts, username)
    case Some(user) => user.password == password
    case None => false
  }

  /** After registering `username` with `password`, logging in as
      `username` succeeds with exactly that password, and every other
      user's logins are as before. */
  lemma LoginAfterRegister(accounts: map<string, string>, username: string, password: string, attempt: string, other: string)
    requires username !in accounts
    ensures CheckLogin(accounts[username := password], username, attempt) <==> attempt == password
    ensures other != username ==>
      CheckLogin(accounts[username := password], other, attempt) == CheckLogin(accounts, other, attempt)
  {
  }

  class AccountDao {
    var accounts: map<string, string>

    constructor ()
      ensures accounts == map[]
    {
      accounts := map[];
    }

    /** `getUserByUsername`. */
    function GetUserByUsername(username: string): (r: Option<Account>)
      reads this
      ensures r.Some? <==> username in accounts
      ensures r.Some? ==> r.value == Account(username, accounts[username])
    {
      Lookup(accounts, username)
    }

    /** `insert` with the default conflict strategy (ABORT): a name already
        taken is refused and the table is unchanged; `inserted` is false
        where Room would throw. */
    method Insert(user: Account) returns (inserted: bool)
      modifies this
      ensures inserted <==> user.username !in old(accounts)
      ensures inserted ==> accounts == old(accounts)[user.username := user.password]
      ensures !inserted ==> accounts == old(accounts)
    {
      if user.username in accounts {
        return false;
      }
      accounts := accounts[user.username := user.password];
      inserted := true;
    }
  }

  class AuthRepository {
    const dao: AccountDao

    constructor (dao: AccountDao)
      ensures this.dao == dao
    {
      this.dao := dao;
    }

    /** `login`. */
    function Login(username: string, password: string): (ok: bool)
      reads dao
      ensures ok <==> username in dao.accounts && dao.accounts[username] == password
    {
      CheckLogin(dao.accounts, username, password)
    }

    /** `register`: a taken name fails and changes nothing, not even that
        user's password; a new name is stored with its password. */
    method Register(username: string, password: string) returns (success: bool)
      modifies dao
      ensures success <==> username !in old(dao.accounts)
      ensures success ==> dao.accounts == old(dao.accounts)[username := password]
      ensures !success ==> dao.accounts == old(dao.accounts)
      ensures success ==> forall attempt :: Login(username, attempt) <==> attempt == password
    {
      var existingUser := dao.GetUserByUsername(username);
      if existingUser.Some? {
        return false;
      }
      var inserted := dao.Insert(Account(username, password));
      success := true;
    }
  }
}
