/** An account of the bank ledger: the records applied to it and the single primitive
    that applies one. */
module Accounts {

  /** The creation instant of a transaction record; its encoding is not modelled. */
  type Instant = int

  datatype TxType = Deposit | Withdrawal

  /** An immutable transaction record; `amount` is a magnitude, the direction is `kind`. */
  datatype Transaction = Transaction(
    accountId: int, kind: TxType, amount: int, date: Instant, createdBy: string)

  /** The error kinds raised by the service and by its accounts. `Internal` stands for the
      "should never happen" illegal-state error the service raises on a defect. */
  datatype Failure = NotRunning | AccountNotFound | InactiveAccount | NotEnoughFunds | Internal

  datatype Outcome = Pass | Fail(error: Failure)

  datatype Result<T> = Ok(value: T) | Err(error: Failure)

  /** The change a record makes to the balance. */
  function Signed(tx: Transaction): int
  {
    if tx.kind == Deposit then tx.amount else -tx.amount
  }

  /** The sum of the changes made by a history of records, oldest first. */
  function Net(txs: seq<Transaction>): int
  {
    if txs == [] then 0 else Signed(txs[0]) + Net(txs[1..])
  }

  /** Appending a record to a history adds exactly that record's change to its sum. */
  lemma {:induction false} NetAppend(txs: seq<Transaction>, tx: Transaction)
    ensures Net(txs + [tx]) == Net(txs) + Signed(tx)
  {
    if txs != [] {
      assert (txs + [tx])[1..] == txs[1..] + [tx];
      NetAppend(txs[1..], tx);
    }
  }

  class Account {
    const id: int
    const owner: string
    const createdBy: string
    var balance: int
    var active: bool
    var txs: seq<Transaction>

    /** The balance is always the sum of the changes recorded in the history. */
    ghost predicate Valid()
      reads this
    {
      balance == Net(txs)
    }

    constructor (id: int, owner: string, createdBy: string)
      ensures Valid()
      ensures this.id == id && this.owner == owner && this.createdBy == createdBy
      ensures balance == 0 && active && txs == []
    {
      this.id, this.owner, this.createdBy := id, owner, createdBy;
      balance, active, txs := 0, true, [];
    }

    /** Applies one record as a unit: an inactive account refuses any record, a withdrawal
        over the balance is refused, and otherwise the balance moves by the record's change
        and the record is appended to the history. A refusal changes nothing. */
    method ApplyTransaction(tx: Transaction) returns (o: Outcome)
      requires Valid()
      modifies this
      ensures Valid()
      ensures !old(active) ==> o == Fail(InactiveAccount)
      ensures old(active) && tx.kind == Withdrawal && tx.amount > old(balance) ==> o == Fail(NotEnoughFunds)
      ensures o.Fail? ==> unchanged(this)
      ensures o.Pass? <==> old(active) && (tx.kind == Withdrawal ==> tx.amount <= old(balance))
      ensures o.Pass? ==> active && balance == old(balance) + Signed(tx) && txs == old(txs) + [tx]
      ensures old(balance) >= 0 && (tx.kind == Deposit ==> tx.amount >= 0) ==> balance >= 0
    {
      if !active {
        return Fail(InactiveAccount);
      }
      if tx.kind == Withdrawal && tx.amount > balance {
        return Fail(NotEnoughFunds);
      }
      NetAppend(txs, tx);
      balance := balance + Signed(tx);
      txs := txs + [tx];
      o := Pass;
    }

    /** Sets the active flag and nothing else. */
    method SetActive(value: bool)
      requires Valid()
      modifies this`active
      ensures Valid() && active == value
    {
      active := value;
    }
  }
}
