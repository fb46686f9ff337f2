/** The simulated balance ledger of transaction.py (data/transactions.json):
    per user, the running totals of deposits and withdrawals; a balance is
    their difference. Amounts are exact reals. */
module Transaction {
  import opened Common

  datatype Account = Account(deposits: real, withdrawals: real)

  /** get_user_balance: deposits minus withdrawals, a user with no entry
      counting as 0/0. */
  function BalanceOf(accounts: map<UserId, Account>, user: UserId): real
  {
    var a := if user in accounts then accounts[user] else Account(0.0, 0.0);
    a.deposits - a.withdrawals
  }

  /** send_payment: the simulated payment goes through only for a positive amount. */
  function SendPayment(user: UserId, amount: real, currency: string): bool
  {
    amount > 0.0
  }

  /** The entry update_user_balance starts from for a user it has never seen. */
  const SeedAccount := Account(10.0, 0.0)

  datatype WithdrawResult =
    | NoAccount
    | InsufficientFunds(balance: real)
    | Withdrawn(remaining: real)

  class Ledger {
    var accounts: map<UserId, Account>

    /** load_transactions with no file: no accounts. */
    constructor ()
      ensures accounts == map[]
    {
      accounts := map[];
    }

    function Balance(user: UserId): real
      reads this
    {
      BalanceOf(accounts, user)
    }

    /** deposit_funds: opens a 0/0 entry if needed, then adds `amount` to the
        user's deposits; nothing else changes. */
    method Deposit(user: UserId, amount: real)
      modifies this
      ensures user in accounts
      ensures accounts - {user} == old(accounts) - {user}
      ensures accounts[user].withdrawals == (if user in old(accounts) then old(accounts)[user].withdrawals else 0.0)
      ensures Balance(user) == old(Balance(user)) + amount
    {
      if user !in accounts {
        accounts := accounts[user := Account(0.0, 0.0)];
      }
      var a := accounts[user];
      accounts := accounts[user := a.(deposits := a.deposits + amount)];
    }

    /** withdraw_funds: refused for an unknown user or an amount above the
        balance (the whole balance may be taken); otherwise the amount is
        added to the user's withdrawals. */
    method Withdraw(user: UserId, amount: real) returns (r: WithdrawResult)
      modifies this
      ensures r == NoAccount <==> user !in old(accounts)
      ensures r.InsufficientFunds? <==> user in old(accounts) && amount > old(Balance(user))
      ensures r.InsufficientFunds? ==> r.balance == old(Balance(user))
      ensures !r.Withdrawn? ==> accounts == old(accounts)
      ensures r.Withdrawn? ==>
                && accounts == old(accounts)[user := old(accounts)[user].(withdrawals := old(accounts)[user].withdrawals + amount)]
                && r.remaining == Balance(user) == old(Balance(user)) - amount
                && r.remaining >= 0.0
    {
      if user !in accounts {
        return NoAccount;
      }
      var balance := accounts[user].deposits - accounts[user].withdrawals;
      if amount > balance {
        return InsufficientFunds(balance);
      }
      var a := accounts[user];
      accounts := accounts[user := a.(withdrawals := a.withdrawals + amount)];
      return Withdrawn(accounts[user].deposits - accounts[user].withdrawals);
    }

    /** update_user_balance: opens a 10/0 entry if needed, then moves the
        balance to `newBalance` by growing exactly one of the two totals by
        the difference (neither when there is none). */
    method UpdateBalance(user: UserId, newBalance: real)
      modifies this
      ensures Balance(user) == newBalance
      ensures user in accounts
      ensures accounts - {user} == old(accounts) - {user}
      ensures var s := if user in old(accounts) then old(accounts)[user] else SeedAccount;
              var diff := newBalance - (s.deposits - s.withdrawals);
              && (diff > 0.0 ==> accounts[user] == s.(deposits := s.deposits + diff))
              && (diff < 0.0 ==> accounts[user] == s.(withdrawals := s.withdrawals - diff))
              && (diff == 0.0 ==> accounts[user] == s)
    {
      if user !in accounts {
        accounts := accounts[user := SeedAccount];
      }
      var a := accounts[user];
      var difference := newBalance - (a.deposits - a.withdrawals);
      if difference > 0.0 {
        accounts := accounts[user := a.(deposits := a.deposits + difference)];
      } else if difference < 0.0 {
        accounts := accounts[user := a.(withdrawals := a.withdrawals + -difference)];
      }
    }
  }
}
