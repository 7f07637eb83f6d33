/** The accounts table and the guarded updates the services make to it. */
module Ledger {
  import opened Types
  import Decimal

  datatype Key = Key(user: string, currency: string)

  datatype Row = Row(balance: int, frozen: int, version: int)

  type Accounts = map<Key, Row>

  /** The row an insert creates when the account is missing. */
  const NEW_ROW := Row(0, 0, 1)

  function RowOf(a: Accounts, k: Key): Row {
    if k in a then a[k] else NEW_ROW
  }

  // ---------- Statements ----------

  /** Whether the guarded update that moves an amount from balance to frozen balance finds its row. */
  predicate CanFreeze(a: Accounts, k: Key, amount: int) {
    k in a && a[k].balance >= amount
  }

  function Freeze(a: Accounts, k: Key, amount: int): Accounts {
    if CanFreeze(a, k, amount) then
      a[k := a[k].(balance := a[k].balance - amount, frozen := a[k].frozen + amount)]
    else a
  }

  predicate CanUnfreeze(a: Accounts, k: Key, amount: int) {
    k in a && a[k].frozen >= amount
  }

  function Unfreeze(a: Accounts, k: Key, amount: int): Accounts {
    if CanUnfreeze(a, k, amount) then
      a[k := a[k].(balance := a[k].balance + amount, frozen := a[k].frozen - amount)]
    else a
  }

  /** Settlement's balance update: None when the balance would go negative. */
  function Update(a: Accounts, k: Key, delta: int): Option<Accounts> {
    var r := RowOf(a, k);
    if r.balance + delta < 0 then None
    else
      var frozen := Decimal.Max(r.frozen + (if delta < 0 then delta else 0), 0);
      Some(a[k := Row(r.balance + delta, frozen, r.version + 1)])
  }

  function Credit(a: Accounts, k: Key, amount: int): Accounts {
    if k in a then a[k := a[k].(balance := a[k].balance + amount)] else a[k := Row(amount, 0, 1)]
  }

  predicate CanWithdraw(a: Accounts, k: Key, total: int) {
    k in a && a[k].balance >= total
  }

  function Withdraw(a: Accounts, k: Key, total: int): Accounts {
    if CanWithdraw(a, k, total) then a[k := a[k].(balance := a[k].balance - total)] else a
  }

  // ---------- Totals ----------

  /** A row's balance if it is in the currency. */
  function BalanceIn(k: Key, r: Row, c: string): int {
    if k.currency == c then r.balance else 0
  }

  ghost function TotalOver(a: Accounts, ks: set<Key>, c: string): int
    requires ks <= a.Keys
  {
    if ks == {} then 0
    else
      var k :| k in ks;
      BalanceIn(k, a[k], c) + TotalOver(a, ks - {k}, c)
  }

  /** The sum of the balance column in one currency. */
  ghost function Total(a: Accounts, c: string): int {
    TotalOver(a, a.Keys, c)
  }

  lemma {:induction false} TotalPick(a: Accounts, ks: set<Key>, c: string, k: Key)
    requires ks <= a.Keys && k in ks
    ensures TotalOver(a, ks, c) == BalanceIn(k, a[k], c) + TotalOver(a, ks - {k}, c)
    decreases ks
  {
    var j :| j in ks && TotalOver(a, ks, c) == BalanceIn(j, a[j], c) + TotalOver(a, ks - {j}, c);
    if j != k {
      TotalPick(a, ks - {j}, c, k);
      TotalPick(a, ks - {k}, c, j);
      assert ks - {j} - {k} == ks - {k} - {j};
    }
  }

  lemma {:induction false} TotalSame(a: Accounts, b: Accounts, ks: set<Key>, c: string)
    requires ks <= a.Keys && ks <= b.Keys && forall k :: k in ks ==> BalanceIn(k, a[k], c) == BalanceIn(k, b[k], c)
    ensures TotalOver(a, ks, c) == TotalOver(b, ks, c)
    decreases ks
  {
    if ks != {} {
      var k :| k in ks;
      TotalPick(a, ks, c, k);
      TotalPick(b, ks, c, k);
      TotalSame(a, b, ks - {k}, c);
    }
  }

  /** Writing one row changes the total by the change of that row's balance. */
  lemma TotalWrite(a: Accounts, k: Key, r: Row, c: string)
    ensures Total(a[k := r], c) == Total(a, c) + BalanceIn(k, r, c) - (if k in a then BalanceIn(k, a[k], c) else 0)
  {
    var b := a[k := r];
    TotalPick(b, b.Keys, c, k);
    assert b.Keys - {k} == a.Keys - {k};
    TotalSame(a, b, a.Keys - {k}, c);
    if k in a {
      TotalPick(a, a.Keys, c, k);
    } else {
      assert a.Keys - {k} == a.Keys;
    }
  }

  lemma UpdateTotal(a: Accounts, k: Key, delta: int, c: string)
    requires Update(a, k, delta).Some?
    ensures Total(Update(a, k, delta).value, c) == Total(a, c) + if k.currency == c then delta else 0
  {
    var r := RowOf(a, k);
    TotalWrite(a, k, Update(a, k, delta).value[k], c);
  }

  /** No balance and no frozen balance is negative. */
  ghost predicate NonNegative(a: Accounts) {
    forall k :: k in a ==> a[k].balance >= 0 && a[k].frozen >= 0
  }

  /** A move of something takes place exactly when its account exists and is not overdrawn by it. */
  lemma MovesIff(a: Accounts, k: Key, amount: int)
    requires amount > 0
    ensures Freeze(a, k, amount) != a <==> k in a && a[k].balance - amount >= 0
    ensures Unfreeze(a, k, amount) != a <==> k in a && a[k].frozen - amount >= 0
    ensures Withdraw(a, k, amount) != a <==> k in a && a[k].balance - amount >= 0
  {
    assert Freeze(a, k, amount) != a <==> k in a && Freeze(a, k, amount)[k].balance != a[k].balance;
    assert Unfreeze(a, k, amount) != a <==> k in a && Unfreeze(a, k, amount)[k].balance != a[k].balance;
    assert Withdraw(a, k, amount) != a <==> k in a && Withdraw(a, k, amount)[k].balance != a[k].balance;
  }

  // ---------- The table ----------

  datatype Error = NoError | DatabaseError | InsufficientBalance

  /** The table the services share. A statement, or a transaction, that meets a database error changes nothing. */
  class AccountsTable {
    var rows: Accounts

    constructor ()
      ensures rows == map[]
    {
      rows := map[];
    }

    /** Move an amount from balance to frozen balance; refused when no row has that much. */
    method FreezeBalance(user: string, currency: string, amount: int, dbError: bool) returns (err: Error)
      modifies this
      ensures rows == if dbError then old(rows) else Freeze(old(rows), Key(user, currency), amount)
      ensures err == if dbError then DatabaseError
        else if CanFreeze(old(rows), Key(user, currency), amount) then NoError else InsufficientBalance
    {
      if dbError {
        return DatabaseError;
      }
      var k := Key(user, currency);
      if k !in rows || rows[k].balance < amount {
        return InsufficientBalance;
      }
      rows := rows[k := rows[k].(balance := rows[k].balance - amount, frozen := rows[k].frozen + amount)];
      return NoError;
    }

    /** Move an amount back; a row without that much frozen is silently left alone. */
    method UnfreezeBalance(user: string, currency: string, amount: int, dbError: bool) returns (err: Error)
      modifies this
      ensures rows == if dbError then old(rows) else Unfreeze(old(rows), Key(user, currency), amount)
      ensures err == if dbError then DatabaseError else NoError
    {
      if dbError {
        return DatabaseError;
      }
      var k := Key(user, currency);
      if k in rows && rows[k].frozen >= amount {
        rows := rows[k := rows[k].(balance := rows[k].balance + amount, frozen := rows[k].frozen - amount)];
      }
      return NoError;
    }

    /** Debit amount and fee in one transaction with the withdrawal record. */
    method RequestWithdrawal(user: string, currency: string, amount: int, fee: int, dbError: bool) returns (err: Error)
      modifies this
      ensures rows == if dbError then old(rows) else Withdraw(old(rows), Key(user, currency), amount + fee)
      ensures err == NoError <==> !dbError && CanWithdraw(old(rows), Key(user, currency), amount + fee)
    {
      var k := Key(user, currency);
      if k !in rows {
        return DatabaseError;
      }
      var tx := rows;
      var total := amount + fee;
      if tx[k].balance < total {
        return InsufficientBalance;
      }
      tx := tx[k := tx[k].(balance := tx[k].balance - total)];
      if dbError {
        return DatabaseError;
      }
      rows := tx;
      return NoError;
    }
  }
}
