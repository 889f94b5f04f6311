/** The data-store collaborator the payment service is given: account lookup by number
    and account update. Only its get/update semantics are modelled, over a map. */
module Data {
  import opened Types

  /** The account stored under `accountNumber`, if any. */
  function Find(accounts: map<string, Account>, accountNumber: string): (a: Option<Account>)
    ensures a.Some? <==> accountNumber in accounts
    ensures a.Some? ==> a.value == accounts[accountNumber]
  {
    if accountNumber in accounts then Some(accounts[accountNumber]) else None
  }

  /** Every account is stored under its own account number. */
  ghost predicate KeyedByNumber(accounts: map<string, Account>) {
    forall k :: k in accounts ==> accounts[k].accountNumber == k
  }

  class DataStore {
    var accounts: map<string, Account>
    /** Every account handed to UpdateAccount, in call order. */
    ghost var updates: seq<Account>

    ghost predicate Valid()
      reads this
    {
      KeyedByNumber(accounts)
    }

    constructor (initial: map<string, Account>)
      requires KeyedByNumber(initial)
      ensures Valid()
      ensures accounts == initial && updates == []
    {
      accounts := initial;
      updates := [];
    }

    /** The account with the given number, or None when there is none. */
    method GetAccount(accountNumber: string) returns (account: Option<Account>)
      requires Valid()
      ensures account.Some? <==> accountNumber in accounts
      ensures account.Some? ==> account.value == accounts[accountNumber]
      ensures account.Some? ==> account.value.accountNumber == accountNumber
    {
      if accountNumber in accounts {
        account := Some(accounts[accountNumber]);
      } else {
        account := None;
      }
    }

    /** Persists the account under its own number and records the call. */
    method UpdateAccount(account: Account)
      requires Valid()
      modifies this
      ensures Valid()
      ensures accounts == old(accounts)[account.accountNumber := account]
      ensures updates == old(updates) + [account]
    {
      accounts := accounts[account.accountNumber := account];
      updates := updates + [account];
    }
  }
}
