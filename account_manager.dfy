/** The account store: accounts keyed by user ID, with the seeded `root` account. */
module AccountStore {
  import opened Records

  /** Every record is filed under its own user ID. */
  predicate AccountsKeyed(m: map<string, Account>) {
    forall k :: k in m ==> m[k].userId == k
  }

  class AccountManager {
    var accounts: map<string, Account>

    ghost predicate Valid()
      reads this
    {
      AccountsKeyed(accounts)
    }

    /**
     * `loaded` is what the account file held (empty on a first start); `root`
     * with password `sjtu` and privilege 7 is added when it is missing.
     */
    constructor (loaded: map<string, Account>)
      requires AccountsKeyed(loaded)
      ensures Valid()
      ensures "root" in accounts && accounts["root"] == (if "root" in loaded then loaded["root"] else ROOT_ACCOUNT)
      ensures accounts == if "root" in loaded then loaded else loaded["root" := ROOT_ACCOUNT]
    {
      var m := loaded;
      if "root" !in m {
        m := m["root" := ROOT_ACCOUNT];
      }
      accounts := m;
    }

    /** Adds an account unless the user ID is taken; a taken ID leaves the store unchanged. */
    method AddAccount(userId: string, password: string, privilege: int, username: string) returns (ok: bool)
      requires Valid()
      modifies this
      ensures Valid()
      ensures ok <==> userId !in old(accounts)
      ensures ok ==> accounts == old(accounts)[userId := Account(userId, password, username, privilege)]
      ensures !ok ==> accounts == old(accounts)
    {
      if userId in accounts {
        return false;
      }
      accounts := accounts[userId := Account(userId, password, username, privilege)];
      ok := true;
    }

    /** Removes an existing account; an unknown ID leaves the store unchanged. */
    method DeleteAccount(userId: string) returns (ok: bool)
      requires Valid()
      modifies this
      ensures Valid()
      ensures ok <==> userId in old(accounts)
      ensures accounts == old(accounts) - {userId}
      ensures userId !in accounts && forall k :: k in old(accounts) && k != userId ==> k in accounts && accounts[k] == old(accounts)[k]
    {
      if userId !in accounts {
        return false;
      }
      accounts := accounts - {userId};
      ok := true;
    }

    function Exists(userId: string): (b: bool)
      reads this
      ensures b <==> userId in accounts
    {
      userId in accounts
    }

    /** False for an unknown user ID; otherwise whether the stored password is `password`. */
    function CheckPassword(userId: string, password: string): (ok: bool)
      reads this
      ensures ok <==> userId in accounts && accounts[userId].password == password
    {
      if userId !in accounts then false else accounts[userId].password == password
    }

    /** Replaces the password of an existing account and nothing else. */
    method ChangePassword(userId: string, newPassword: string) returns (ok: bool)
      requires Valid()
      modifies this
      ensures Valid()
      ensures ok <==> userId in old(accounts)
      ensures ok ==> accounts == old(accounts)[userId := old(accounts)[userId].(password := newPassword)]
      ensures !ok ==> accounts == old(accounts)
    {
      if userId !in accounts {
        return false;
      }
      accounts := accounts[userId := accounts[userId].(password := newPassword)];
      ok := true;
    }

    /** The privilege of an account, or -1 for an unknown user ID. */
    function GetPrivilege(userId: string): (p: int)
      reads this
      ensures userId in accounts ==> p == accounts[userId].privilege
      ensures userId !in accounts ==> p == -1
    {
      if userId !in accounts then -1 else accounts[userId].privilege
    }
  }
}
