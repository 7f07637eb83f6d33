/** Crediting on-chain deposits: any number of duplicated, reordered and interleaved deliveries. */
module Deposits {
  import opened Types
  import opened Ledger

  /** What the blockchain monitor reports about one transfer. */
  datatype Delivery = Delivery(txHash: string, currency: string, chain: string, to: string, amount: int,
                               confirmations: nat, required: nat)

  /** Deposits are unique per transaction and address. */
  datatype DepositKey = DepositKey(txHash: string, to: string)

  datatype DepositStatus = Pending | Confirmed

  /** Where one call of ProcessDeposit has got to. */
  datatype Phase = Lookup | Insert(user: string) | Confirm(user: string) | Done(ok: bool)

  datatype Call = Call(delivery: Delivery, phase: Phase)

  datatype AddressKey = AddressKey(address: string, chain: string)

  /** A credit that was made. */
  datatype CreditEntry = CreditEntry(deposit: DepositKey, account: Key, amount: int)

  datatype State = State(addresses: map<AddressKey, string>, deposits: map<DepositKey, DepositStatus>,
                         accounts: Accounts, calls: seq<Call>, credits: seq<CreditEntry>)

  function DepositOf(d: Delivery): DepositKey {
    DepositKey(d.txHash, d.to)
  }

  // ---------- The atomic steps of a call ----------

  function LookupStep(s: State, d: Delivery): Phase {
    if AddressKey(d.to, d.chain) in s.addresses then Insert(s.addresses[AddressKey(d.to, d.chain)]) else Done(false)
  }

  /** The insert does nothing when the deposit is known already. */
  function InsertStep(s: State, d: Delivery): map<DepositKey, DepositStatus> {
    if DepositOf(d) in s.deposits then s.deposits else s.deposits[DepositOf(d) := Pending]
  }

  function AfterInsert(d: Delivery, user: string): Phase {
    if d.confirmations >= d.required then Confirm(user) else Done(true)
  }

  /** Flip the deposit and credit the account in one transaction, if the deposit is still pending. */
  function ConfirmStep(s: State, d: Delivery, user: string): State {
    if DepositOf(d) in s.deposits && s.deposits[DepositOf(d)] == Pending then
      s.(deposits := s.deposits[DepositOf(d) := Confirmed],
         accounts := Credit(s.accounts, Key(user, d.currency), d.amount),
         credits := s.credits + [CreditEntry(DepositOf(d), Key(user, d.currency), d.amount)])
    else s
  }

  /** Call i takes its next step; a database error ends the call and changes nothing else. */
  function Step(s: State, i: nat, dbError: bool): State
    requires i < |s.calls|
  {
    var d, ph := s.calls[i].delivery, s.calls[i].phase;
    if ph.Done? then s
    else if dbError then s.(calls := s.calls[i := Call(d, Done(false))])
    else match ph
      case Lookup => s.(calls := s.calls[i := Call(d, LookupStep(s, d))])
      case Insert(u) => s.(deposits := InsertStep(s, d), calls := s.calls[i := Call(d, AfterInsert(d, u))])
      case Confirm(u) => ConfirmStep(s, d, u).(calls := s.calls[i := Call(d, Done(true))])
  }

  /** A scheduling decision: which call moves, and whether the database fails it. */
  datatype Move = Move(call: nat, dbError: bool)

  function Start(addresses: map<AddressKey, string>, accounts: Accounts, ds: seq<Delivery>): State {
    State(addresses, map[], accounts, seq(|ds|, i requires 0 <= i < |ds| => Call(ds[i], Lookup)), [])
  }

  /** Any interleaving of the calls. */
  function Run(s: State, ms: seq<Move>): (r: State)
    requires forall i :: 0 <= i < |ms| ==> ms[i].call < |s.calls|
    ensures |r.calls| == |s.calls|
  {
    if ms == [] then s else Step(Run(s, ms[..|ms| - 1]), ms[|ms| - 1].call, ms[|ms| - 1].dbError)
  }

  // ---------- Exactly once ----------

  function CreditsOf(cs: seq<CreditEntry>, k: DepositKey): nat {
    if cs == [] then 0 else CreditsOf(cs[..|cs| - 1], k) + if cs[|cs| - 1].deposit == k then 1 else 0
  }

  /** A deposit has been credited once when it is confirmed, and not at all before. */
  ghost predicate CreditedByStatus(s: State) {
    forall k :: CreditsOf(s.credits, k) == if k in s.deposits && s.deposits[k] == Confirmed then 1 else 0
  }

  /**
   A call past its insert finds its deposit; one that finished without error after enough confirmations has it
   confirmed.
   */
  ghost predicate CallsConsistent(s: State) {
    forall i :: 0 <= i < |s.calls| ==>
      var d, ph := s.calls[i].delivery, s.calls[i].phase;
      && (ph.Confirm? ==> DepositOf(d) in s.deposits)
      && (ph == Done(true) && d.confirmations >= d.required ==>
            DepositOf(d) in s.deposits && s.deposits[DepositOf(d)] == Confirmed)
  }

  /** No step turns a deposit back. */
  ghost predicate Advances(a: map<DepositKey, DepositStatus>, b: map<DepositKey, DepositStatus>) {
    forall k :: k in a ==> k in b && (a[k] == Confirmed ==> b[k] == Confirmed)
  }

  lemma CreditsAppend(cs: seq<CreditEntry>, e: CreditEntry)
    ensures forall k :: CreditsOf(cs + [e], k) == CreditsOf(cs, k) + if e.deposit == k then 1 else 0
  {
    assert (cs + [e])[..|cs|] == cs;
  }

  lemma ConfirmKeeps(s: State, d: Delivery, user: string)
    requires CreditedByStatus(s) && DepositOf(d) in s.deposits
    ensures CreditedByStatus(ConfirmStep(s, d, user))
    ensures var t := ConfirmStep(s, d, user);
      DepositOf(d) in t.deposits && t.deposits[DepositOf(d)] == Confirmed && Advances(s.deposits, t.deposits)
  {
    CreditsAppend(s.credits, CreditEntry(DepositOf(d), Key(user, d.currency), d.amount));
  }

  lemma StepKeeps(s: State, i: nat, dbError: bool)
    requires i < |s.calls| && CreditedByStatus(s) && CallsConsistent(s)
    ensures CreditedByStatus(Step(s, i, dbError)) && CallsConsistent(Step(s, i, dbError))
    ensures Advances(s.deposits, Step(s, i, dbError).deposits)
  {
    hide CreditsOf;
    var d, ph := s.calls[i].delivery, s.calls[i].phase;
    if !dbError && ph.Confirm? {
      ConfirmKeeps(s, d, ph.user);
    }
  }

  lemma StartOk(addresses: map<AddressKey, string>, accounts: Accounts, ds: seq<Delivery>)
    ensures CreditedByStatus(Start(addresses, accounts, ds)) && CallsConsistent(Start(addresses, accounts, ds))
  {
  }

  lemma {:induction false} RunKeeps(s: State, ms: seq<Move>)
    requires forall i :: 0 <= i < |ms| ==> ms[i].call < |s.calls|
    requires CreditedByStatus(s) && CallsConsistent(s)
    ensures CreditedByStatus(Run(s, ms)) && CallsConsistent(Run(s, ms))
  {
    hide CreditedByStatus;
    hide CallsConsistent;
    hide Step;
    if ms != [] {
      var n := |ms| - 1;
      RunKeeps(s, ms[..n]);
      StepKeeps(Run(s, ms[..n]), ms[n].call, ms[n].dbError);
    }
  }

  /** However deliveries are duplicated, reordered and interleaved, each deposit is credited at most once. */
  lemma {:induction false} CreditedAtMostOnce(addresses: map<AddressKey, string>, accounts: Accounts,
                                              ds: seq<Delivery>, ms: seq<Move>, k: DepositKey)
    requires forall i :: 0 <= i < |ms| ==> ms[i].call < |ds|
    ensures CreditsOf(Run(Start(addresses, accounts, ds), ms).credits, k) <= 1
  {
    StartOk(addresses, accounts, ds);
    RunKeeps(Start(addresses, accounts, ds), ms);
  }

  /**
   Once a delivery with enough confirmations has been processed without a database error, its deposit is credited
   exactly once.
   */
  lemma {:induction false} CreditedOnceConfirmed(addresses: map<AddressKey, string>, accounts: Accounts,
                                                 ds: seq<Delivery>, ms: seq<Move>, i: nat)
    requires forall j :: 0 <= j < |ms| ==> ms[j].call < |ds|
    requires i < |ds|
    requires var c := Run(Start(addresses, accounts, ds), ms).calls[i];
      c.phase == Done(true) && c.delivery.confirmations >= c.delivery.required
    ensures var s := Run(Start(addresses, accounts, ds), ms);
      CreditsOf(s.credits, DepositOf(s.calls[i].delivery)) == 1
  {
    StartOk(addresses, accounts, ds);
    RunKeeps(Start(addresses, accounts, ds), ms);
  }

  // ---------- The right account is credited ----------

  /** The credit belongs to delivery d, which is confirmed: its deposit, its amount, and the owner of its address. */
  predicate Rightful(addresses: map<AddressKey, string>, d: Delivery, e: CreditEntry) {
    && e.deposit == DepositOf(d)
    && e.amount == d.amount
    && d.confirmations >= d.required
    && AddressKey(d.to, d.chain) in addresses
    && e.account == Key(addresses[AddressKey(d.to, d.chain)], d.currency)
  }

  /** Calls carry the owner they looked up, and every credit so far belongs to some delivery. */
  ghost predicate AllRightful(s: State) {
    && (forall i :: 0 <= i < |s.calls| ==> OwnerKnown(s.addresses, s.calls[i]))
    && (forall j :: 0 <= j < |s.credits| ==>
          exists i :: 0 <= i < |s.calls| && Rightful(s.addresses, s.calls[i].delivery, s.credits[j]))
  }

  predicate OwnerKnown(addresses: map<AddressKey, string>, c: Call) {
    var k := AddressKey(c.delivery.to, c.delivery.chain);
    match c.phase
    case Insert(u) => k in addresses && addresses[k] == u
    case Confirm(u) => k in addresses && addresses[k] == u && c.delivery.confirmations >= c.delivery.required
    case _ => true
  }

  lemma StepKeepsRightful(s: State, i: nat, dbError: bool)
    requires i < |s.calls| && AllRightful(s)
    ensures AllRightful(Step(s, i, dbError))
    ensures Step(s, i, dbError).addresses == s.addresses && |Step(s, i, dbError).calls| == |s.calls|
    ensures forall j :: 0 <= j < |s.calls| ==> Step(s, i, dbError).calls[j].delivery == s.calls[j].delivery
  {
    hide Rightful;
    hide DepositOf;
    var t := Step(s, i, dbError);
    forall j | 0 <= j < |t.calls|
      ensures OwnerKnown(t.addresses, t.calls[j])
    {
      assert OwnerKnown(s.addresses, s.calls[j]);
    }
    forall j | 0 <= j < |t.credits|
      ensures exists c :: 0 <= c < |t.calls| && Rightful(t.addresses, t.calls[c].delivery, t.credits[j])
    {
      if j < |s.credits| {
        var c :| 0 <= c < |s.calls| && Rightful(s.addresses, s.calls[c].delivery, s.credits[j]);
        assert t.calls[c].delivery == s.calls[c].delivery;
      } else {
        NewCreditRightful(s, s.calls[i]);
        assert t.calls[i].delivery == s.calls[i].delivery;
      }
    }
    assert forall i :: 0 <= i < |t.calls| ==> OwnerKnown(t.addresses, t.calls[i]);
    assert forall j :: 0 <= j < |t.credits| ==>
      exists i :: 0 <= i < |t.calls| && Rightful(t.addresses, t.calls[i].delivery, t.credits[j]);
  }

  lemma NewCreditRightful(s: State, c: Call)
    requires OwnerKnown(s.addresses, c) && c.phase.Confirm?
    ensures var d := c.delivery;
      Rightful(s.addresses, d, CreditEntry(DepositOf(d), Key(c.phase.user, d.currency), d.amount))
  {
  }

  lemma {:induction false} RunKeepsRightful(s: State, ms: seq<Move>)
    requires forall i :: 0 <= i < |ms| ==> ms[i].call < |s.calls|
    requires AllRightful(s)
    ensures var t := Run(s, ms);
      && AllRightful(t) && t.addresses == s.addresses
      && forall j :: 0 <= j < |s.calls| ==> t.calls[j].delivery == s.calls[j].delivery
  {
    hide AllRightful;
    hide Step;
    if ms != [] {
      var n := |ms| - 1;
      RunKeepsRightful(s, ms[..n]);
      StepKeepsRightful(Run(s, ms[..n]), ms[n].call, ms[n].dbError);
    }
  }

  /**
   Every credit a run makes is for a delivered transfer with enough confirmations, in its amount and currency, to the
   owner of its address.
   */
  lemma {:induction false} CreditsAreRightful(addresses: map<AddressKey, string>, accounts: Accounts,
                                              ds: seq<Delivery>, ms: seq<Move>, j: nat)
    requires forall i :: 0 <= i < |ms| ==> ms[i].call < |ds|
    requires j < |Run(Start(addresses, accounts, ds), ms).credits|
    ensures exists i :: 0 <= i < |ds| && Rightful(addresses, ds[i], Run(Start(addresses, accounts, ds), ms).credits[j])
  {
    hide Rightful;
    hide Run;
    var s := Start(addresses, accounts, ds);
    RunKeepsRightful(s, ms);
    var t := Run(s, ms);
    var i :| 0 <= i < |t.calls| && Rightful(t.addresses, t.calls[i].delivery, t.credits[j]);
    assert t.calls[i].delivery == s.calls[i].delivery == ds[i];
  }

  // ---------- Deliveries complete ----------

  /** How often call i has been moved. */
  function MovesOf(ms: seq<Move>, i: nat): nat {
    if ms == [] then 0 else MovesOf(ms[..|ms| - 1], i) + if ms[|ms| - 1].call == i then 1 else 0
  }

  /** The database fails none of call i's statements. */
  predicate Undisturbed(ms: seq<Move>, i: nat) {
    forall j :: 0 <= j < |ms| && ms[j].call == i ==> !ms[j].dbError
  }

  /** Where an undisturbed call is after n of its moves, whatever the others do. */
  function PhaseAfter(addresses: map<AddressKey, string>, d: Delivery, n: nat): Phase {
    var k := AddressKey(d.to, d.chain);
    if n == 0 then Lookup
    else if k !in addresses then Done(false)
    else if n == 1 then Insert(addresses[k])
    else if n == 2 && d.confirmations >= d.required then Confirm(addresses[k])
    else Done(true)
  }

  lemma MovedOnce(s: State, i: nat, dbError: bool, j: nat, n: nat)
    requires i < |s.calls| && j < |s.calls|
    requires s.calls[j].phase == PhaseAfter(s.addresses, s.calls[j].delivery, n) && (i == j ==> !dbError)
    ensures Step(s, i, dbError).calls[j].phase ==
      PhaseAfter(s.addresses, s.calls[j].delivery, if i == j then n + 1 else n)
  {
  }

  /** A call whose statements all succeed gets on with every move, and is done after three. */
  lemma {:induction false} CallProgresses(addresses: map<AddressKey, string>, accounts: Accounts, ds: seq<Delivery>,
                                          ms: seq<Move>, i: nat)
    requires (forall j :: 0 <= j < |ms| ==> ms[j].call < |ds|) && i < |ds| && Undisturbed(ms, i)
    ensures var c := Run(Start(addresses, accounts, ds), ms).calls[i];
      c.delivery == ds[i] && c.phase == PhaseAfter(addresses, ds[i], MovesOf(ms, i))
  {
    hide Step;
    hide PhaseAfter;
    hide AllRightful;
    NobodyMoved(addresses, ds[i]);
    var s := Start(addresses, accounts, ds);
    StartRightful(addresses, accounts, ds);
    RunKeepsRightful(s, ms);
    if ms != [] {
      var n := |ms| - 1;
      CallProgresses(addresses, accounts, ds, ms[..n], i);
      RunKeepsRightful(s, ms[..n]);
      MovedOnce(Run(s, ms[..n]), ms[n].call, ms[n].dbError, i, MovesOf(ms[..n], i));
    }
  }

  lemma NobodyMoved(addresses: map<AddressKey, string>, d: Delivery)
    ensures PhaseAfter(addresses, d, 0) == Lookup
  {
  }

  lemma StartRightful(addresses: map<AddressKey, string>, accounts: Accounts, ds: seq<Delivery>)
    ensures AllRightful(Start(addresses, accounts, ds))
  {
  }

  /** Somebody's address has received the deposit with enough confirmations. */
  predicate Deserved(addresses: map<AddressKey, string>, ds: seq<Delivery>, k: DepositKey) {
    exists i :: 0 <= i < |ds| && Confirms(addresses, ds[i], k)
  }

  predicate Confirms(addresses: map<AddressKey, string>, d: Delivery, k: DepositKey) {
    DepositKey(d.txHash, d.to) == k && AddressKey(d.to, d.chain) in addresses && d.confirmations >= d.required
  }

  lemma {:induction false} CreditedMeansEntry(cs: seq<CreditEntry>, k: DepositKey)
    requires CreditsOf(cs, k) > 0
    ensures exists j :: 0 <= j < |cs| && cs[j].deposit == k
  {
    var n := |cs| - 1;
    if cs[n].deposit != k {
      CreditedMeansEntry(cs[..n], k);
      var j :| 0 <= j < n && cs[..n][j].deposit == k;
      assert cs[j].deposit == k;
    }
  }

  /** Whatever is delivered and in whatever order: only deposits that some delivery confirms are ever credited. */
  lemma {:induction false} OnlyDeservedIsCredited(addresses: map<AddressKey, string>, accounts: Accounts,
                                                  ds: seq<Delivery>, ms: seq<Move>, k: DepositKey)
    requires forall j :: 0 <= j < |ms| ==> ms[j].call < |ds|
    ensures CreditsOf(Run(Start(addresses, accounts, ds), ms).credits, k) > 0 ==> Deserved(addresses, ds, k)
  {
    hide Run;
    var cs := Run(Start(addresses, accounts, ds), ms).credits;
    if CreditsOf(cs, k) > 0 {
      CreditedMeansEntry(cs, k);
      var j :| 0 <= j < |cs| && cs[j].deposit == k;
      CreditsAreRightful(addresses, accounts, ds, ms, j);
      var i :| 0 <= i < |ds| && Rightful(addresses, ds[i], cs[j]);
      assert Confirms(addresses, ds[i], k);
    }
  }

  /**
   When every delivery is processed to its end without database errors, in any interleaving, exactly the deposits that
   some delivery confirms are credited, each exactly once.
   */
  lemma {:induction false} CreditedIffDeserved(addresses: map<AddressKey, string>, accounts: Accounts,
                                               ds: seq<Delivery>, ms: seq<Move>, k: DepositKey)
    requires forall j :: 0 <= j < |ms| ==> ms[j].call < |ds|
    requires forall i :: 0 <= i < |ds| ==> Undisturbed(ms, i) && MovesOf(ms, i) >= 3
    ensures CreditsOf(Run(Start(addresses, accounts, ds), ms).credits, k) ==
      if Deserved(addresses, ds, k) then 1 else 0
  {
    hide Run;
    hide CreditsOf;
    hide Undisturbed;
    hide MovesOf;
    if Deserved(addresses, ds, k) {
      var i :| 0 <= i < |ds| && Confirms(addresses, ds[i], k);
      CallProgresses(addresses, accounts, ds, ms, i);
      CreditedOnceConfirmed(addresses, accounts, ds, ms, i);
    } else {
      OnlyDeservedIsCredited(addresses, accounts, ds, ms, k);
    }
  }

  // ---------- The money follows the credits ----------

  /** The sum of the credits to one account. */
  function CreditedTo(cs: seq<CreditEntry>, k: Key): int {
    if cs == [] then 0
    else CreditedTo(cs[..|cs| - 1], k) + if cs[|cs| - 1].account == k then cs[|cs| - 1].amount else 0
  }

  lemma StepPays(s: State, i: nat, dbError: bool, k: Key)
    requires i < |s.calls|
    ensures var t := Step(s, i, dbError);
      RowOf(t.accounts, k).balance - RowOf(s.accounts, k).balance == CreditedTo(t.credits, k) - CreditedTo(s.credits, k)
  {
    var d, ph := s.calls[i].delivery, s.calls[i].phase;
    if !dbError && ph.Confirm? {
      var e := CreditEntry(DepositOf(d), Key(ph.user, d.currency), d.amount);
      assert (s.credits + [e])[..|s.credits|] == s.credits;
    }
  }

  /** Every account grows by exactly the credits made to it. */
  lemma {:induction false} CreditsArePaid(s: State, ms: seq<Move>, k: Key)
    requires forall i :: 0 <= i < |ms| ==> ms[i].call < |s.calls|
    ensures var t := Run(s, ms);
      RowOf(t.accounts, k).balance - RowOf(s.accounts, k).balance == CreditedTo(t.credits, k) - CreditedTo(s.credits, k)
  {
    hide RowOf;
    hide Step;
    hide CreditedTo;
    if ms != [] {
      var n := |ms| - 1;
      CreditsArePaid(s, ms[..n], k);
      StepPays(Run(s, ms[..n]), ms[n].call, ms[n].dbError, k);
    }
  }

  // ---------- The service ----------

  /** The wallet service's database: the address, deposit and account tables. */
  class WalletService {
    const addresses: map<AddressKey, string>
    const table: AccountsTable
    var deposits: map<DepositKey, DepositStatus>
    ghost var credits: seq<CreditEntry>

    constructor (addresses: map<AddressKey, string>, table: AccountsTable)
      ensures this.addresses == addresses && this.table == table && deposits == map[] && credits == []
    {
      this.addresses, this.table, deposits, credits := addresses, table, map[], [];
    }

    ghost function View(calls: seq<Call>): State
      reads this, table
    {
      State(addresses, deposits, table.rows, calls, credits)
    }

    /** The first statement of ProcessDeposit. */
    method LookupUser(d: Delivery, dbError: bool) returns (user: Option<string>)
      ensures user == if dbError then None
        else match LookupStep(View([]), d)
          case Insert(u) => Some(u)
          case _ => None
    {
      var k := AddressKey(d.to, d.chain);
      if dbError || k !in addresses {
        return None;
      }
      return Some(addresses[k]);
    }

    /** The second: record the deposit unless it is known. */
    method InsertDeposit(d: Delivery, dbError: bool) returns (ok: bool)
      modifies this`deposits
      ensures ok == !dbError
      ensures deposits == if dbError then old(deposits) else InsertStep(old(View([])), d)
    {
      if dbError {
        return false;
      }
      if DepositOf(d) !in deposits {
        deposits := deposits[DepositOf(d) := Pending];
      }
      return true;
    }

    /** The transaction that flips the deposit and credits the user. */
    method ConfirmDeposit(d: Delivery, user: string, dbError: bool) returns (ok: bool)
      modifies this`deposits, this`credits, table
      ensures ok == !dbError
      ensures View([]) == if dbError then old(View([])) else ConfirmStep(old(View([])), d, user)
    {
      if dbError {
        return false;
      }
      if DepositOf(d) !in deposits || deposits[DepositOf(d)] != Pending {
        return true;
      }
      var k := Key(user, d.currency);
      deposits := deposits[DepositOf(d) := Confirmed];
      if k in table.rows {
        table.rows := table.rows[k := table.rows[k].(balance := table.rows[k].balance + d.amount)];
      } else {
        table.rows := table.rows[k := Row(d.amount, 0, 1)];
      }
      credits := credits + [CreditEntry(DepositOf(d), k, d.amount)];
      return true;
    }
  }
}
