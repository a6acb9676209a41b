/** What a caller of the ledger can conclude from the contracts of its operations alone. */
module Scenarios {
  import opened Text
  import opened Accounts
  import opened Bank

  /** The query "ali" matches the owner "Alice", ignoring case. */
  lemma AliMatchesAlice()
    ensures OwnerMatches("Alice", "ali")
  {
  }

  /** Nothing can be done before the service starts; a new account is empty, active, and
      found by a case-insensitive search of its owner. */
  method OpenAccount() {
    var bank := new BankService();
    var early := bank.CreateNewAccount("Alice", "admin", 7);
    assert early == Err(NotRunning);

    bank.Start();
    var created := bank.CreateNewAccount("Alice", "admin", 7);
    assert created == Ok(7);
    var balance := bank.GetBalanceOf(7);
    assert balance == Ok(0);
    var active := bank.IsAccountActive(7);
    assert active == Ok(true);
    var missing := bank.GetBalanceOf(8);
    assert missing == Err(AccountNotFound);

    AliMatchesAlice();
    var found := bank.SearchAccountIdsByOwner("ali");
    assert found.Ok? && 7 in found.value;
  }

  /** Deposit, withdrawal, refused withdrawal and closure of one account. */
  method MoveMoney() {
    var bank := new BankService();
    bank.Start();
    var created := bank.CreateNewAccount("Alice", "admin", 7);
    var after := bank.DepositInto(7, 100, "alice", 1);
    assert after == Ok(100);
    after := bank.WithdrawFrom(7, 40, "alice", 2);
    assert after == Ok(60);
    after := bank.WithdrawFrom(7, 1000, "alice", 3);
    assert after == Err(NotEnoughFunds);

    var released := bank.CloseAccount(7, "admin", 4);
    assert released == Ok(60);
    var active := bank.IsAccountActive(7);
    assert active == Ok(false);
    var history := bank.GetTxHistoryFor(7);
    HistoryViewAt(bank.byId[7].txs, 2);
    assert history.Ok? && |history.value| == 3;
    assert history.value[2] == TxLog(4, -60, "admin");
    after := bank.DepositInto(7, 1, "alice", 5);
    assert after == Err(InactiveAccount);
  }

  /** Disposal forgets every account. */
  method StopService() {
    var bank := new BankService();
    bank.Start();
    var created := bank.CreateNewAccount("Alice", "admin", 7);
    bank.Dispose();
    var count := bank.GetAccountCount();
    assert count == 0;
    var balance := bank.GetBalanceOf(7);
    assert balance == Err(NotRunning);
    bank.Start();
    balance := bank.GetBalanceOf(7);
    assert balance == Err(AccountNotFound);
  }
}
