/** The ledger over any interleaving of freezes, releases, settlements, deposits and withdrawals. */
module LedgerHistory {
  import opened Types
  import opened Ledger
  import opened Settlement

  /** One committed step of some service; steps that meet a database error change nothing and are left out. */
  datatype Op =
    | FreezeOp(key: Key, amount: int)
    | UnfreezeOp(key: Key, amount: int)
    | SettleOp(trade: Trade, rates: Rates)
    | DepositOp(key: Key, amount: int)
    | WithdrawOp(key: Key, amount: int, fee: int)

  function Apply(a: Accounts, op: Op): Accounts {
    match op
    case FreezeOp(k, x) => Freeze(a, k, x)
    case UnfreezeOp(k, x) => Unfreeze(a, k, x)
    case SettleOp(t, r) => Settled(a, t, r)
    case DepositOp(k, x) => Credit(a, k, x)
    case WithdrawOp(k, x, f) => Withdraw(a, k, x + f)
  }

  function Run(a: Accounts, ops: seq<Op>): Accounts {
    if ops == [] then a else Apply(Run(a, ops[..|ops| - 1]), ops[|ops| - 1])
  }

  /** No service is asked to move a negative amount. */
  predicate AmountsOk(ops: seq<Op>) {
    forall i :: 0 <= i < |ops| ==>
      match ops[i]
      case FreezeOp(_, x) => x >= 0
      case UnfreezeOp(_, x) => x >= 0
      case SettleOp(_, _) => true
      case DepositOp(_, x) => x >= 0
      case WithdrawOp(_, x, f) => x >= 0 && f >= 0
  }

  /** The guards of the statements do not look at signs; this is what they leave open. */
  predicate Safe(a: Accounts, op: Op) {
    match op
    case FreezeOp(k, x) => CanFreeze(a, k, x) ==> a[k].frozen + x >= 0
    case UnfreezeOp(k, x) => CanUnfreeze(a, k, x) ==> a[k].balance + x >= 0
    case SettleOp(_, _) => true
    case DepositOp(k, x) => RowOf(a, k).balance + x >= 0
    case WithdrawOp(_, _, _) => true
  }

  /** Every step of the run is safe when it is taken. */
  predicate SafeRun(a: Accounts, ops: seq<Op>) {
    forall i :: 0 <= i < |ops| ==> Safe(Run(a, ops[..i]), ops[i])
  }

  /** What a step moves from a key's balance to its frozen balance, if anything. */
  function Moved(a: Accounts, op: Op, k: Key): int {
    match op
    case FreezeOp(j, x) => if j == k && CanFreeze(a, j, x) then x else 0
    case UnfreezeOp(j, x) => if j == k && CanUnfreeze(a, j, x) then -x else 0
    case _ => 0
  }

  /** The same per currency. */
  function MovedIn(a: Accounts, op: Op, c: string): int {
    if (op.FreezeOp? || op.UnfreezeOp?) && op.key.currency == c then Moved(a, op, op.key) else 0
  }

  function DepositedIn(op: Op, c: string): int {
    if op.DepositOp? && op.key.currency == c then op.amount else 0
  }

  function WithdrawnIn(a: Accounts, op: Op, c: string): int {
    if op.WithdrawOp? && op.key.currency == c && CanWithdraw(a, op.key, op.amount + op.fee) then
      op.amount + op.fee
    else 0
  }

  function NetMoved(a: Accounts, ops: seq<Op>, k: Key): int {
    if ops == [] then 0
    else NetMoved(a, ops[..|ops| - 1], k) + Moved(Run(a, ops[..|ops| - 1]), ops[|ops| - 1], k)
  }

  /** Net moves to frozen balances, minus deposits, plus withdrawals with their fees, in one currency. */
  function NetOut(a: Accounts, ops: seq<Op>, c: string): int {
    if ops == [] then 0
    else
      var b, op := Run(a, ops[..|ops| - 1]), ops[|ops| - 1];
      NetOut(a, ops[..|ops| - 1], c) + MovedIn(b, op, c) - DepositedIn(op, c) + WithdrawnIn(b, op, c)
  }

  // ---------- One step ----------

  function FrozenOf(a: Accounts, k: Key): int {
    if k in a then a[k].frozen else 0
  }

  lemma UpdateKeeps(a: Accounts, k: Key, delta: int, j: Key)
    requires NonNegative(a) && Update(a, k, delta).Some?
    ensures NonNegative(Update(a, k, delta).value)
    ensures FrozenOf(Update(a, k, delta).value, j) <= FrozenOf(a, j)
  {
  }

  lemma {:induction false} PostAllKeeps(a: Accounts, ps: seq<Posting>, j: Key)
    requires NonNegative(a) && PostAll(a, ps).Some?
    ensures NonNegative(PostAll(a, ps).value)
    ensures FrozenOf(PostAll(a, ps).value, j) <= FrozenOf(a, j)
  {
    if ps != [] {
      var n := |ps| - 1;
      PostAllKeeps(a, ps[..n], j);
      UpdateKeeps(PostAll(a, ps[..n]).value, ps[n].key, ps[n].delta, j);
    }
  }

  /** A step keeps balances and frozen balances non-negative exactly when it is safe. */
  lemma ApplyKeepsIff(a: Accounts, op: Op)
    requires NonNegative(a)
    ensures NonNegative(Apply(a, op)) <==> Safe(a, op)
  {
    match op
    case FreezeOp(k, _) =>
      assert k in Apply(a, op) <==> k in a;
    case UnfreezeOp(k, _) =>
      assert k in Apply(a, op) <==> k in a;
    case SettleOp(t, r) =>
      if PostAll(a, Postings(t, r)).Some? {
        PostAllKeeps(a, Postings(t, r), Key("", ""));
      }
    case DepositOp(k, _) =>
      assert k in Apply(a, op);
    case WithdrawOp(k, _, _) =>
      assert k in Apply(a, op) <==> k in a;
  }

  lemma ApplyFrozen(a: Accounts, op: Op, j: Key)
    requires NonNegative(a)
    ensures FrozenOf(Apply(a, op), j) <= FrozenOf(a, j) + Moved(a, op, j)
  {
    if op.SettleOp? && PostAll(a, Postings(op.trade, op.rates)).Some? {
      PostAllKeeps(a, Postings(op.trade, op.rates), j);
    }
  }

  lemma ApplyTotal(a: Accounts, op: Op, c: string)
    ensures Total(Apply(a, op), c) == Total(a, c) - MovedIn(a, op, c) + DepositedIn(op, c) - WithdrawnIn(a, op, c)
  {
    hide Total;
    match op
    case FreezeOp(k, x) =>
      if CanFreeze(a, k, x) {
        TotalWrite(a, k, Apply(a, op)[k], c);
      }
    case UnfreezeOp(k, x) =>
      if CanUnfreeze(a, k, x) {
        TotalWrite(a, k, Apply(a, op)[k], c);
      }
    case SettleOp(t, r) =>
      SettlementConserves(a, t, r, c);
    case DepositOp(k, x) =>
      TotalWrite(a, k, Apply(a, op)[k], c);
    case WithdrawOp(k, x, f) =>
      if CanWithdraw(a, k, x + f) {
        TotalWrite(a, k, Apply(a, op)[k], c);
      }
  }

  // ---------- Any history ----------

  /** At every moment of the run all balances and frozen balances are non-negative. */
  ghost predicate AlwaysNonNegative(a: Accounts, ops: seq<Op>) {
    forall i :: 0 <= i <= |ops| ==> NonNegative(Run(a, ops[..i]))
  }

  lemma RunPrefix(a: Accounts, ops: seq<Op>, i: nat)
    requires i < |ops|
    ensures Run(a, ops[..i + 1]) == Apply(Run(a, ops[..i]), ops[i])
  {
    assert ops[..i + 1][..i] == ops[..i];
  }

  lemma {:induction false} SafeUpTo(a: Accounts, ops: seq<Op>, n: nat)
    requires NonNegative(a) && SafeRun(a, ops) && n <= |ops|
    ensures NonNegative(Run(a, ops[..n]))
  {
    hide NonNegative;
    hide Apply;
    hide Safe;
    if n == 0 {
      assert ops[..0] == [];
    } else {
      SafeUpTo(a, ops, n - 1);
      RunPrefix(a, ops, n - 1);
      ApplyKeepsIff(Run(a, ops[..n - 1]), ops[n - 1]);
    }
  }

  /** Balances and frozen balances stay non-negative throughout exactly when every step is safe when it is taken. */
  lemma HistoryNonNegativeIff(a: Accounts, ops: seq<Op>)
    requires NonNegative(a)
    ensures AlwaysNonNegative(a, ops) <==> SafeRun(a, ops)
  {
    hide NonNegative;
    hide Apply;
    hide Run;
    hide Safe;
    if SafeRun(a, ops) {
      forall i | 0 <= i <= |ops|
        ensures NonNegative(Run(a, ops[..i]))
      {
        SafeUpTo(a, ops, i);
      }
    }
    if AlwaysNonNegative(a, ops) {
      forall i | 0 <= i < |ops|
        ensures Safe(Run(a, ops[..i]), ops[i])
      {
        RunPrefix(a, ops, i);
        assert NonNegative(Run(a, ops[..i])) && NonNegative(Run(a, ops[..i + 1]));
        ApplyKeepsIff(Run(a, ops[..i]), ops[i]);
      }
    }
  }

  lemma AmountOkIsSafe(a: Accounts, ops: seq<Op>, i: nat)
    requires NonNegative(a) && AmountsOk(ops) && i < |ops|
    ensures Safe(a, ops[i])
  {
  }

  /** Non-negative amounts are always safe. */
  lemma {:induction false} AmountsOkIsSafe(a: Accounts, ops: seq<Op>, n: nat)
    requires NonNegative(a) && AmountsOk(ops) && n <= |ops|
    ensures SafeRun(a, ops[..n]) && NonNegative(Run(a, ops[..n]))
  {
    hide Apply;
    hide Safe;
    hide NonNegative;
    hide AmountsOk;
    if n > 0 {
      AmountsOkIsSafe(a, ops, n - 1);
      RunPrefix(a, ops, n - 1);
      var b, op := Run(a, ops[..n - 1]), ops[n - 1];
      AmountOkIsSafe(b, ops, n - 1);
      ApplyKeepsIff(b, op);
      forall i | 0 <= i < n
        ensures Safe(Run(a, ops[..n][..i]), ops[..n][i])
      {
        assert ops[..n][..i] == ops[..i] == ops[..n - 1][..if i < n - 1 then i else n - 1];
        if i < n - 1 {
          assert Safe(Run(a, ops[..n - 1][..i]), ops[..n - 1][i]);
        }
      }
    } else {
      assert ops[..0] == [];
    }
  }

  /** In a safe run no more is frozen for anybody than freezing has moved there on balance. */
  lemma {:induction false} FrozenWithinMoves(a: Accounts, ops: seq<Op>, k: Key)
    requires NonNegative(a) && AlwaysNonNegative(a, ops)
    ensures FrozenOf(Run(a, ops), k) <= FrozenOf(a, k) + NetMoved(a, ops, k)
  {
    hide Apply;
    hide NonNegative;
    if ops != [] {
      var n := |ops| - 1;
      forall i | 0 <= i <= n
        ensures NonNegative(Run(a, ops[..n][..i]))
      {
        assert ops[..n][..i] == ops[..i];
      }
      FrozenWithinMoves(a, ops[..n], k);
      ApplyFrozen(Run(a, ops[..n]), ops[n], k);
    }
  }

  /** So with non-negative amounts both hold in every interleaving of the services. */
  lemma HistoryNonNegative(a: Accounts, ops: seq<Op>, k: Key)
    requires NonNegative(a) && AmountsOk(ops)
    ensures AlwaysNonNegative(a, ops)
    ensures FrozenOf(Run(a, ops), k) <= FrozenOf(a, k) + NetMoved(a, ops, k)
  {
    hide Run;
    hide NonNegative;
    hide Safe;
    AmountsOkIsSafe(a, ops, |ops|);
    assert ops[..|ops|] == ops;
    HistoryNonNegativeIff(a, ops);
    FrozenWithinMoves(a, ops, k);
  }

  /** In each currency, balances plus net moves to frozen minus deposits plus withdrawals with fees never change. */
  lemma {:induction false} HistoryConserves(a: Accounts, ops: seq<Op>, c: string)
    ensures Total(Run(a, ops), c) + NetOut(a, ops, c) == Total(a, c)
  {
    hide Apply;
    hide Total;
    if ops != [] {
      var n := |ops| - 1;
      HistoryConserves(a, ops[..n], c);
      ApplyTotal(Run(a, ops[..n]), ops[n], c);
    }
  }
}
