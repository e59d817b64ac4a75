/** The ledger: an append-only list of transactions and the totals over its most recent entries. */
module FinanceStore {
  import opened Records

  /** The sum of the income amounts in `ts`. */
  function Income(ts: seq<Transaction>): nat
    decreases |ts|
  {
    if ts == [] then 0
    else Income(ts[..|ts| - 1]) + (if ts[|ts| - 1].isIncome then ts[|ts| - 1].amount else 0)
  }

  /** The sum of the expenditure amounts in `ts`. */
  function Expenditure(ts: seq<Transaction>): nat
    decreases |ts|
  {
    if ts == [] then 0
    else Expenditure(ts[..|ts| - 1]) + (if ts[|ts| - 1].isIncome then 0 else ts[|ts| - 1].amount)
  }

  /** The sum of all amounts in `ts`, whatever their direction. */
  function Total(ts: seq<Transaction>): nat
    decreases |ts|
  {
    if ts == [] then 0 else Total(ts[..|ts| - 1]) + ts[|ts| - 1].amount
  }

  /**
   * The index the totals start from: a count of -1 means every transaction,
   * otherwise the last `count` ones (none for a negative count, all of them when
   * `count` exceeds the ledger).
   */
  function WindowStart(size: nat, count: int): (start: nat)
    ensures start <= size
  {
    var c := if count == -1 then size else count;
    var s := if size - c > 0 then size - c else 0;
    if s > size then size else s
  }

  function Window(ts: seq<Transaction>, count: int): seq<Transaction> {
    ts[WindowStart(|ts|, count)..]
  }

  /** The window holds the last min(count, size) entries, all of them for -1, none for other negatives. */
  lemma WindowShape(ts: seq<Transaction>, count: int)
    ensures count == -1 ==> Window(ts, count) == ts
    ensures 0 <= count <= |ts| ==> |Window(ts, count)| == count
    ensures count >= |ts| ==> Window(ts, count) == ts
    ensures count < -1 ==> Window(ts, count) == []
    ensures Window(ts, count) == ts[|ts| - |Window(ts, count)|..]
  {
  }

  /** Every amount counts once, as income or as expenditure. */
  lemma {:induction false} IncomePlusExpenditure(ts: seq<Transaction>)
    ensures Income(ts) + Expenditure(ts) == Total(ts)
    decreases |ts|
  {
    if ts != [] {
      IncomePlusExpenditure(ts[..|ts| - 1]);
    }
  }

  lemma AppendOne(ts: seq<Transaction>, t: Transaction)
    ensures Income(ts + [t]) == Income(ts) + (if t.isIncome then t.amount else 0)
    ensures Expenditure(ts + [t]) == Expenditure(ts) + (if t.isIncome then 0 else t.amount)
  {
    assert (ts + [t])[..|ts|] == ts;
  }

  /** The totals over the last entry alone are that entry's amount on its side. */
  lemma LatestWindow(ts: seq<Transaction>, t: Transaction)
    ensures Window(ts + [t], 1) == [t]
    ensures Income(Window(ts + [t], 1)) == (if t.isIncome then t.amount else 0)
    ensures Expenditure(Window(ts + [t], 1)) == (if t.isIncome then 0 else t.amount)
  {
    assert Window(ts + [t], 1) == [t];
    AppendOne([], t);
  }

  /** Appending an entry adds its amount to the all-time totals on its side. */
  lemma AppendAllTime(ts: seq<Transaction>, t: Transaction)
    ensures Income(Window(ts + [t], -1)) == Income(Window(ts, -1)) + (if t.isIncome then t.amount else 0)
    ensures Expenditure(Window(ts + [t], -1)) == Expenditure(Window(ts, -1)) + (if t.isIncome then 0 else t.amount)
  {
    assert Window(ts + [t], -1) == ts + [t];
    assert Window(ts, -1) == ts;
    AppendOne(ts, t);
  }

  class FinanceManager {
    var transactions: seq<Transaction>

    /** `loaded` is what the ledger file held (empty on a first start). */
    constructor (loaded: seq<Transaction>)
      ensures transactions == loaded
    {
      transactions := loaded;
    }

    /** Appends one entry; earlier entries are never changed. */
    method AddTransaction(amount: nat, isIncome: bool)
      modifies this
      ensures transactions == old(transactions) + [Transaction(amount, isIncome)]
    {
      transactions := transactions + [Transaction(amount, isIncome)];
    }

    /** Income and expenditure over the window, accumulated from its first entry to the end. */
    method GetFinance(count: int) returns (income: nat, expenditure: nat)
      ensures income == Income(Window(transactions, count))
      ensures expenditure == Expenditure(Window(transactions, count))
    {
      income, expenditure := 0, 0;
      var n := count;
      if n == -1 {
        n := |transactions|;
      }
      var start := if |transactions| - n > 0 then |transactions| - n else 0;
      if start >= |transactions| {
        // a count of 0, or one below -1, leaves no entry to add
        assert Window(transactions, count) == [];
        return;
      }
      assert start == WindowStart(|transactions|, count);
      var i := start;
      while i < |transactions|
        invariant start <= i <= |transactions|
        invariant income == Income(transactions[start..i])
        invariant expenditure == Expenditure(transactions[start..i])
      {
        var t := transactions[i];
        assert transactions[start..i + 1] == transactions[start..i] + [t];
        AppendOne(transactions[start..i], t);
        if t.isIncome {
          income := income + t.amount;
        } else {
          expenditure := expenditure + t.amount;
        }
        i := i + 1;
      }
      assert transactions[start..i] == Window(transactions, count);
    }

    function TransactionCount(): (n: nat)
      reads this
      ensures n == |transactions|
    {
      |transactions|
    }
  }
}
