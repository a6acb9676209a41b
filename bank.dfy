/** The in-memory bank ledger: a running flag, the accounts in creation order and an
    index from id to account that must stay in step with them. */
module Bank {
  import opened Text
  import opened Accounts

  /** An entry of the history shown to callers: deposits positive, withdrawals negative. */
  datatype TxLog = TxLog(date: Instant, amount: int, createdBy: string)

  // ---------------------------------------------------------------------------
  // The list/index correspondence

  /** No two accounts of the list share an id. */
  ghost predicate DistinctIds(s: seq<Account>)
  {
    forall i, j :: 0 <= i < j < |s| ==> s[i].id != s[j].id
  }

  /** The index obtained by putting the accounts of the list into a map one after another. */
  ghost function Index(s: seq<Account>): map<int, Account>
  {
    if s == [] then map[] else Index(s[..|s| - 1])[s[|s| - 1].id := s[|s| - 1]]
  }

  /** An id is a key of the index exactly when some account of the list carries it. */
  lemma {:induction false} IndexKeys(s: seq<Account>, id: int)
    ensures id in Index(s) <==> exists k :: 0 <= k < |s| && s[k].id == id
  {
    if s != [] {
      var p := s[..|s| - 1];
      IndexKeys(p, id);
      if exists k :: 0 <= k < |p| && p[k].id == id {
        var k :| 0 <= k < |p| && p[k].id == id;
        assert s[k].id == id;
      }
      if exists k :: 0 <= k < |s| && s[k].id == id {
        var k :| 0 <= k < |s| && s[k].id == id;
        if k < |s| - 1 {
          assert p[k].id == id;
        }
      }
    }
  }

  /** With distinct ids, each account of the list is what its id maps to. */
  lemma {:induction false} IndexAt(s: seq<Account>, k: int)
    requires DistinctIds(s) && 0 <= k < |s|
    ensures s[k].id in Index(s) && Index(s)[s[k].id] == s[k]
  {
    if k < |s| - 1 {
      var p := s[..|s| - 1];
      assert p[k] == s[k];
      IndexAt(p, k);
    }
  }

  /** With distinct ids, the index has exactly as many entries as the list. */
  lemma {:induction false} IndexSize(s: seq<Account>)
    requires DistinctIds(s)
    ensures |Index(s)| == |s|
  {
    if s != [] {
      var p := s[..|s| - 1];
      IndexSize(p);
      IndexKeys(p, s[|s| - 1].id);
      assert s[|s| - 1].id !in Index(p);
    }
  }

  // ---------------------------------------------------------------------------
  // Owner search

  /** Case-insensitive substring match of a query against an owner name. */
  predicate OwnerMatches(owner: string, query: string)
  {
    Contains(Lower(owner), Lower(query))
  }

  /** The accounts whose owner matches the query, in list order. */
  function Matches(s: seq<Account>, query: string): seq<Account>
  {
    if s == [] then []
    else (if OwnerMatches(s[0].owner, query) then [s[0]] else []) + Matches(s[1..], query)
  }

  /** An account is selected exactly when it is in the list and its owner matches. */
  lemma {:induction false} MatchesMembers(s: seq<Account>, query: string, a: Account)
    ensures a in Matches(s, query) <==> a in s && OwnerMatches(a.owner, query)
  {
    if s != [] {
      MatchesMembers(s[1..], query, a);
      assert s == [s[0]] + s[1..];
    }
  }

  /** Selection distributes over concatenation, so it keeps the list order. */
  lemma {:induction false} MatchesAppend(s: seq<Account>, t: seq<Account>, query: string)
    ensures Matches(s + t, query) == Matches(s, query) + Matches(t, query)
  {
    if s == [] {
      assert s + t == t;
    } else {
      assert (s + t)[0] == s[0] && (s + t)[1..] == s[1..] + t;
      MatchesAppend(s[1..], t, query);
    }
  }

  /** The ids of a list of accounts, in order. */
  function IdsOf(s: seq<Account>): seq<int>
  {
    seq(|s|, k requires 0 <= k < |s| => s[k].id)
  }

  /** With distinct ids, an account's id is among the ids found exactly when its owner
      matches the query. */
  lemma SearchExact(s: seq<Account>, query: string, k: int)
    requires DistinctIds(s) && 0 <= k < |s|
    ensures s[k].id in IdsOf(Matches(s, query)) <==> OwnerMatches(s[k].owner, query)
  {
    var m := Matches(s, query);
    if s[k].id in IdsOf(m) {
      var j :| 0 <= j < |m| && m[j].id == s[k].id;
      MatchesMembers(s, query, m[j]);
      var i :| 0 <= i < |s| && s[i] == m[j];
      assert i == k;
    }
    if OwnerMatches(s[k].owner, query) {
      MatchesMembers(s, query, s[k]);
      var j :| 0 <= j < |m| && m[j] == s[k];
      assert IdsOf(m)[j] == s[k].id;
    }
  }

  // ---------------------------------------------------------------------------
  // History view

  /** The caller-facing entry for one record: date and creator copied, the amount kept for
      a deposit and negated for a withdrawal. */
  function LogOf(tx: Transaction): TxLog
  {
    TxLog(tx.date, Signed(tx), tx.createdBy)
  }

  /** The caller-facing view of a whole history. */
  function HistoryView(txs: seq<Transaction>): seq<TxLog>
  {
    if txs == [] then [] else [LogOf(txs[0])] + HistoryView(txs[1..])
  }

  /** One entry per record, at the same position, deposits positive, withdrawals negative. */
  lemma {:induction false} HistoryViewAt(txs: seq<Transaction>, k: int)
    requires 0 <= k < |txs|
    ensures |HistoryView(txs)| == |txs|
    ensures HistoryView(txs)[k].date == txs[k].date
    ensures HistoryView(txs)[k].createdBy == txs[k].createdBy
    ensures txs[k].kind == Deposit ==> HistoryView(txs)[k].amount == txs[k].amount
    ensures txs[k].kind == Withdrawal ==> HistoryView(txs)[k].amount == -txs[k].amount
  {
    if k > 0 {
      HistoryViewAt(txs[1..], k - 1);
    } else if |txs| > 1 {
      HistoryViewAt(txs[1..], 0);
    }
  }

  /** The sum of the amounts shown in a history view. */
  function Total(logs: seq<TxLog>): int
  {
    if logs == [] then 0 else logs[0].amount + Total(logs[1..])
  }

  /** The signed amounts of the view add up to the sum of the recorded changes, so for an
      account they add up to its balance. */
  lemma {:induction false} HistoryViewTotal(txs: seq<Transaction>)
    ensures Total(HistoryView(txs)) == Net(txs)
  {
    if txs != [] {
      HistoryViewTotal(txs[1..]);
    }
  }

  // ---------------------------------------------------------------------------
  // The service

  class BankService {
    var running: bool
    var accounts: seq<Account>
    var byId: map<int, Account>

    /** The index holds exactly the ids of the list, each mapped to its account; a stopped
        service holds no account; every account keeps its balance equal to its history's
        sum, and a closed account holds nothing. */
    ghost predicate Valid()
      reads this, accounts
    {
      DistinctIds(accounts) && byId == Index(accounts) && (!running ==> accounts == []) &&
      forall a :: a in accounts ==> a.Valid() && (!a.active ==> a.balance == 0)
    }

    /** No account of the ledger is overdrawn. */
    ghost predicate Solvent()
      reads this, accounts
    {
      forall a :: a in accounts ==> a.balance >= 0
    }

    constructor ()
      ensures Valid() && Solvent()
      ensures !running && accounts == [] && byId == map[]
    {
      running, accounts, byId := false, [], map[];
    }

    method Start()
      requires Valid()
      modifies this
      ensures Valid()
      ensures running && accounts == old(accounts) && byId == old(byId)
    {
      running := true;
    }

    /** Stops the service and empties both the list and the index. */
    method Dispose()
      requires Valid()
      modifies this
      ensures Valid() && Solvent()
      ensures !running && accounts == [] && byId == map[]
    {
      running := false;
      byId := map[];
      accounts := [];
    }

    /** Fails with NotRunning exactly when the service is stopped. */
    method AssertServiceState() returns (o: Outcome)
      ensures o.Pass? <==> running
      ensures o.Fail? ==> o.error == NotRunning
    {
      if !running {
        return Fail(NotRunning);
      }
      o := Pass;
    }

    /** The number of accounts, which is also the number of index entries; no guard. */
    method GetAccountCount() returns (n: int)
      requires Valid()
      ensures n == |accounts| && n == |byId|
    {
      IndexSize(accounts);
      n := |accounts|;
    }

    /** Adds one new account, with a fresh id, at the end of the list and to the index. */
    method CreateNewAccount(owner: string, actor: string, freshId: int) returns (r: Result<int>)
      requires Valid()
      requires freshId !in byId
      modifies this
      ensures Valid()
      ensures !old(running) ==> r == Err(NotRunning) && unchanged(this)
      ensures old(running) ==> running && r == Ok(freshId)
      ensures old(running) ==> |accounts| == |old(accounts)| + 1 && accounts[..|old(accounts)|] == old(accounts)
      ensures old(running) ==>
        var a := accounts[|accounts| - 1];
        fresh(a) && a.id == freshId && a.owner == owner && a.createdBy == actor &&
        a.balance == 0 && a.active && a.txs == [] &&
        byId == old(byId)[freshId := a] && byId[freshId] == a
      ensures old(Solvent()) ==> Solvent()
    {
      var g := AssertServiceState();
      if g.Fail? {
        return Err(g.error);
      }
      var a := new Account(freshId, owner, actor);
      IndexKeys(accounts, freshId);
      var prev := accounts;
      accounts := accounts + [a];
      byId := byId[a.id := a];
      assert accounts[..|accounts| - 1] == prev;
      r := Ok(a.id);
    }

    /** Looks an id up in the index; no guard. */
    method SafelyRetrieveAccountForId(id: int) returns (r: Result<Account>)
      requires Valid()
      ensures r.Ok? <==> id in byId
      ensures r.Ok? <==> exists k :: 0 <= k < |accounts| && accounts[k].id == id
      ensures r.Ok? ==> id in byId && r.value == byId[id] && r.value.id == id && r.value in accounts
      ensures r.Err? ==> r.error == AccountNotFound
    {
      IndexKeys(accounts, id);
      if id !in byId {
        return Err(AccountNotFound);
      }
      var k :| 0 <= k < |accounts| && accounts[k].id == id;
      IndexAt(accounts, k);
      r := Ok(byId[id]);
    }

    /** The ids of the accounts whose owner contains the query, ignoring case, in list
        order; an empty result when nothing matches. */
    method SearchAccountIdsByOwner(query: string) returns (r: Result<seq<int>>)
      requires Valid()
      ensures !running ==> r == Err(NotRunning)
      ensures running ==> r == Ok(IdsOf(Matches(accounts, query)))
      ensures running ==> forall k :: 0 <= k < |accounts| ==>
        (accounts[k].id in r.value <==> OwnerMatches(accounts[k].owner, query))
    {
      var g := AssertServiceState();
      if g.Fail? {
        return Err(g.error);
      }
      var found: seq<Account> := [];
      var i := 0;
      while i < |accounts|
        invariant 0 <= i <= |accounts|
        invariant found == Matches(accounts[..i], query)
      {
        var a := accounts[i];
        MatchesAppend(accounts[..i], [a], query);
        assert accounts[..i + 1] == accounts[..i] + [a];
        if OwnerMatches(a.owner, query) {
          found := found + [a];
        }
        i := i + 1;
      }
      assert accounts[..i] == accounts;
      var ids := new int[|found|];
      var index := 0;
      while index < |found|
        invariant 0 <= index <= |found|
        invariant forall j :: 0 <= j < index ==> ids[j] == found[j].id
      {
        ids[index] := found[index].id;
        index := index + 1;
      }
      assert ids[..] == IdsOf(found);
      forall k | 0 <= k < |accounts|
        ensures accounts[k].id in ids[..] <==> OwnerMatches(accounts[k].owner, query)
      {
        SearchExact(accounts, query, k);
      }
      r := Ok(ids[..]);
    }

    method GetOwnerOf(id: int) returns (r: Result<string>)
      requires Valid()
      ensures !running ==> r == Err(NotRunning)
      ensures running && id !in byId ==> r == Err(AccountNotFound)
      ensures running && id in byId ==> r == Ok(byId[id].owner)
    {
      var g := AssertServiceState();
      if g.Fail? {
        return Err(g.error);
      }
      var found := SafelyRetrieveAccountForId(id);
      if found.Err? {
        return Err(found.error);
      }
      r := Ok(found.value.owner);
    }

    method GetBalanceOf(id: int) returns (r: Result<int>)
      requires Valid()
      ensures !running ==> r == Err(NotRunning)
      ensures running && id !in byId ==> r == Err(AccountNotFound)
      ensures running && id in byId ==> r == Ok(byId[id].balance) && r.value == Net(byId[id].txs)
    {
      var g := AssertServiceState();
      if g.Fail? {
        return Err(g.error);
      }
      var found := SafelyRetrieveAccountForId(id);
      if found.Err? {
        return Err(found.error);
      }
      r := Ok(found.value.balance);
    }

    method IsAccountActive(id: int) returns (r: Result<bool>)
      requires Valid()
      ensures !running ==> r == Err(NotRunning)
      ensures running && id !in byId ==> r == Err(AccountNotFound)
      ensures running && id in byId ==> r == Ok(byId[id].active)
      ensures r == Ok(false) ==> byId[id].balance == 0
    {
      var g := AssertServiceState();
      if g.Fail? {
        return Err(g.error);
      }
      var found := SafelyRetrieveAccountForId(id);
      if found.Err? {
        return Err(found.error);
      }
      r := Ok(found.value.active);
    }

    /** Deposits into an account and returns the new balance. An insufficient-funds refusal
        of a deposit would be a defect and becomes Internal; it cannot happen. */
    method DepositInto(id: int, amount: int, actor: string, now: Instant) returns (r: Result<int>)
      requires Valid()
      modifies if id in byId then {byId[id]} else {}
      ensures Valid()
      ensures !running ==> r == Err(NotRunning)
      ensures running && id !in byId ==> r == Err(AccountNotFound)
      ensures running && id in byId && !old(byId[id].active) ==>
        r == Err(InactiveAccount) && unchanged(byId[id])
      ensures running && id in byId && old(byId[id].active) ==>
        var a := byId[id];
        r == Ok(a.balance) && a.active && a.balance == old(a.balance) + amount &&
        a.txs == old(a.txs) + [Transaction(id, Deposit, amount, now, actor)]
      ensures r != Err(NotEnoughFunds) && r != Err(Internal)
      ensures old(Solvent()) && amount >= 0 ==> Solvent()
    {
      var g := AssertServiceState();
      if g.Fail? {
        return Err(g.error);
      }
      var found := SafelyRetrieveAccountForId(id);
      if found.Err? {
        return Err(found.error);
      }
      var a := found.value;
      var tx := Transaction(id, Deposit, amount, now, actor);
      var o := a.ApplyTransaction(tx);
      match o
      case Pass => r := Ok(a.balance);
      case Fail(NotEnoughFunds) => r := Err(Internal);
      case Fail(e) => r := Err(e);
    }

    /** Withdraws from an account and returns the new balance; an inactive account or an
        amount over the balance is refused and changes nothing. */
    method WithdrawFrom(id: int, amount: int, actor: string, now: Instant) returns (r: Result<int>)
      requires Valid()
      modifies if id in byId then {byId[id]} else {}
      ensures Valid()
      ensures !running ==> r == Err(NotRunning)
      ensures running && id !in byId ==> r == Err(AccountNotFound)
      ensures running && id in byId && !old(byId[id].active) ==>
        r == Err(InactiveAccount) && unchanged(byId[id])
      ensures running && id in byId && old(byId[id].active) && amount > old(byId[id].balance) ==>
        r == Err(NotEnoughFunds) && unchanged(byId[id])
      ensures running && id in byId && old(byId[id].active) && amount <= old(byId[id].balance) ==>
        var a := byId[id];
        r == Ok(a.balance) && a.active && a.balance == old(a.balance) - amount &&
        a.txs == old(a.txs) + [Transaction(id, Withdrawal, amount, now, actor)]
      ensures old(Solvent()) ==> Solvent()
    {
      var g := AssertServiceState();
      if g.Fail? {
        return Err(g.error);
      }
      var found := SafelyRetrieveAccountForId(id);
      if found.Err? {
        return Err(found.error);
      }
      var a := found.value;
      var tx := Transaction(id, Withdrawal, amount, now, actor);
      var o := a.ApplyTransaction(tx);
      if o.Fail? {
        return Err(o.error);
      }
      r := Ok(a.balance);
    }

    /** The history of an account as shown to callers, one entry per record in order. */
    method GetTxHistoryFor(id: int) returns (r: Result<seq<TxLog>>)
      requires Valid()
      ensures !running ==> r == Err(NotRunning)
      ensures running && id !in byId ==> r == Err(AccountNotFound)
      ensures running && id in byId ==> r == Ok(HistoryView(byId[id].txs))
      ensures running && id in byId ==> Total(r.value) == byId[id].balance
    {
      var g := AssertServiceState();
      if g.Fail? {
        return Err(g.error);
      }
      var found := SafelyRetrieveAccountForId(id);
      if found.Err? {
        return Err(found.error);
      }
      var a := found.value;
      var txs := new TxLog[|a.txs|];
      var index := 0;
      while index < |a.txs|
        invariant 0 <= index <= |a.txs|
        invariant forall j :: 0 <= j < index ==> txs[j] == LogOf(a.txs[j])
      {
        var tx := a.txs[index];
        if tx.kind == Deposit {
          txs[index] := TxLog(tx.date, tx.amount, tx.createdBy);
        } else {
          txs[index] := TxLog(tx.date, -tx.amount, tx.createdBy);
        }
        index := index + 1;
      }
      forall j | 0 <= j < |a.txs| ensures |HistoryView(a.txs)| == |a.txs| && txs[j] == HistoryView(a.txs)[j] {
        HistoryViewAt(a.txs, j);
      }
      if |a.txs| == 0 {
        assert HistoryView(a.txs) == [];
      } else {
        HistoryViewAt(a.txs, 0);
      }
      assert txs[..] == HistoryView(a.txs);
      HistoryViewTotal(a.txs);
      r := Ok(txs[..]);
    }

    /** Closes an active account: withdraws its whole balance, deactivates it and returns
        the amount released. Closing a closed account is refused and changes nothing. */
    method CloseAccount(id: int, actor: string, now: Instant) returns (r: Result<int>)
      requires Valid()
      modifies if id in byId then {byId[id]} else {}
      ensures Valid()
      ensures !running ==> r == Err(NotRunning)
      ensures running && id !in byId ==> r == Err(AccountNotFound)
      ensures running && id in byId && !old(byId[id].active) ==>
        r == Err(InactiveAccount) && unchanged(byId[id])
      ensures running && id in byId && old(byId[id].active) ==>
        var a := byId[id];
        r == Ok(old(a.balance)) && !a.active && a.balance == 0 &&
        a.txs == old(a.txs) + [Transaction(id, Withdrawal, old(a.balance), now, actor)]
      ensures old(Solvent()) ==> Solvent()
    {
      var g := AssertServiceState();
      if g.Fail? {
        return Err(g.error);
      }
      var found := SafelyRetrieveAccountForId(id);
      if found.Err? {
        return Err(found.error);
      }
      var a := found.value;
      if !a.active {
        return Err(InactiveAccount);
      }
      var tx := Transaction(a.id, Withdrawal, a.balance, now, actor);
      var o := a.ApplyTransaction(tx);
      match o
      case Pass =>
        a.SetActive(false);
        r := Ok(tx.amount);
      case Fail(NotEnoughFunds) => r := Err(Internal);
      case Fail(e) => r := Err(e);
    }
  }
}
