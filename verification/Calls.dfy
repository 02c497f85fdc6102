/** What a contract call leaves in the tables (src/chain.rs, src/contracts.rs): the
    contract's storage and everyone's balance, as if the run had updated them in place. */
module Calls {
  import opened Base
  import opened Types
  import opened Tables
  import opened Ledger
  import opened Frames
  import opened Books
  import opened Conservation
  import opened Effects
  import Host

  // ---- storage ----

  lemma InStorage(rows: Rows, d: Bytes, slot: Bytes)
    ensures var k := StorageK(d, slot);
            Host.Get(ContractStorage(rows, d), slot) == if k in rows && rows[k].BytesV? then Some(rows[k].bytes) else None
  {
    var k := StorageK(d, slot);
    assert slot in ContractStorage(rows, d) <==> k in rows && rows[k].BytesV?;
  }

  lemma SameReadsSameStorage(x: Host.Storage, y: Host.Storage)
    requires forall slot :: Host.Get(x, slot) == Host.Get(y, slot)
    ensures x == y
  {
    forall slot
      ensures slot in x <==> slot in y
      ensures slot in x ==> x[slot] == y[slot]
    {
      assert Host.Get(x, slot) == Host.Get(y, slot);
    }
  }

  lemma StorageAfterSet(rows: Rows, c: Bytes, slot: Bytes, value: Option<Bytes>, d: Bytes)
    ensures ContractStorage(SetStorage(rows, c, slot, value), d)
         == if d == c then Host.Put(ContractStorage(rows, d), slot, value) else ContractStorage(rows, d)
  {
    hide ContractStorage;
    var x, y := ContractStorage(SetStorage(rows, c, slot, value), d), ContractStorage(rows, d);
    var z := if d == c then Host.Put(y, slot, value) else y;
    forall s
      ensures Host.Get(x, s) == Host.Get(z, s)
    {
      InStorage(rows, d, s);
      InStorage(SetStorage(rows, c, slot, value), d, s);
    }
    SameReadsSameStorage(x, z);
  }

  lemma {:induction false} StorageAfterWrites(rows: Rows, c: Bytes, writes: seq<(Bytes, Option<Bytes>)>, d: Bytes)
    ensures ContractStorage(CommitWrites(rows, c, writes), d)
         == if d == c then Host.ApplyWrites(ContractStorage(rows, d), writes) else ContractStorage(rows, d)
  {
    hide ContractStorage, SetStorage;
    if writes != [] {
      var last := |writes| - 1;
      StorageAfterWrites(rows, c, writes[..last], d);
      StorageAfterSet(CommitWrites(rows, c, writes[..last]), c, writes[last].0, writes[last].1, d);
    }
  }

  lemma StorageSame(rows: Rows, rows': Rows, d: Bytes)
    requires forall slot :: Same(rows, rows', StorageK(d, slot))
    ensures ContractStorage(rows', d) == ContractStorage(rows, d)
  {
    hide ContractStorage;
    forall slot
      ensures Host.Get(ContractStorage(rows', d), slot) == Host.Get(ContractStorage(rows, d), slot)
    {
      assert Same(rows, rows', StorageK(d, slot));
      InStorage(rows, d, slot);
      InStorage(rows', d, slot);
    }
    SameReadsSameStorage(ContractStorage(rows', d), ContractStorage(rows, d));
  }

  lemma StorageOutside(rows: Rows, rows': Rows, touched: set<Table>, d: Bytes)
    requires Frame(rows, rows', touched) && Contracts !in touched
    ensures ContractStorage(rows', d) == ContractStorage(rows, d)
  {
    hide ContractStorage;
    forall slot
      ensures Same(rows, rows', StorageK(d, slot))
    {
      FrameSame(rows, rows', touched, StorageK(d, slot));
    }
    StorageSame(rows, rows', d);
  }

  lemma StorageAfterPut(rows: Rows, k: Key, v: Value, d: Bytes)
    requires !k.StorageK?
    ensures ContractStorage(rows[k := v], d) == ContractStorage(rows, d)
  {
    hide ContractStorage;
    StorageSame(rows, rows[k := v], d);
  }

  // ---- payments ----

  function PaidTo(payments: seq<(Bytes, nat)>, a: Bytes): nat {
    if payments == [] then 0 else
      var last := |payments| - 1;
      PaidTo(payments[..last], a) + if payments[last].0 == a then payments[last].1 else 0
  }

  /** Paying out moves each payment from the contract to its payee, and nothing else. */
  lemma {:induction false} TransfersMove(rows: Rows, c: Bytes, payments: seq<(Bytes, nat)>, a: Bytes)
    requires CommitTransfers(rows, c, payments).Ok?
    ensures var x, y := GetAccount(rows, a), GetAccount(CommitTransfers(rows, c, payments).value, a);
      && y.balance + (if a == c then Host.Paid(payments) else 0) == x.balance + PaidTo(payments, a)
      && y == x.(balance := y.balance)
  {
    hide SetAccount, Credit, GetAccount;
    if payments != [] {
      var last := |payments| - 1;
      var (to, amount) := payments[last];
      TransfersMove(rows, c, payments[..last], a);
      var rows1 := CommitTransfers(rows, c, payments[..last]).value;
      var acct := GetAccount(rows1, c);
      var less := acct.(balance := acct.balance - amount);
      GetAfterSet(rows1, c, less, a);
      AfterCredit(SetAccount(rows1, c, less), to, amount, a);
    }
  }

  lemma RefundMoves(rows: Rows, c: Bytes, sender: Bytes, amount: nat, a: Bytes)
    requires amount <= GetAccount(rows, c).balance
    ensures var x, y := GetAccount(rows, a), GetAccount(RefundCall(rows, c, sender, amount), a);
      && y.balance + (if a == c then amount else 0) == x.balance + (if a == sender then amount else 0)
      && y == x.(balance := y.balance)
  {
    hide SetAccount, Credit, GetAccount;
    if amount > 0 {
      var acct := GetAccount(rows, c);
      var less := acct.(balance := acct.balance - amount);
      GetAfterSet(rows, c, less, a);
      AfterCredit(SetAccount(rows, c, less), sender, amount, a);
    }
  }

  // ---- one call ----

  /** The engine's run for a call on these tables: the code stored for the contract, its
      storage, and its balance with the attached value. */
  function CallInput(env: Env, rows: Rows, sender: Bytes, tx: Transaction, height: nat): Option<VmInput> {
    match (GetContract(rows, tx.to), env.decodeArgs(tx.payload))
    case (Some(c), Some(input)) =>
      (match GetBytes(rows, CodeK(c.codeHash))
       case None => None
       case Some(code) =>
         Some(VmInput(tx.to, sender, code, input, tx.amount, height, FuelForFee(tx.fee), ContractStorage(rows, tx.to),
                      GetAccount(rows, tx.to).balance + tx.amount)))
    case _ => None
  }

  /** The same run with storage and balance updated in place. */
  function InPlace(env: Env, input: VmInput): Host.DirectTrace {
    Host.DirectRun(env.validAddress, Host.Direct(input.storage, {}, [], input.balance), env.vm(input).calls)
  }

  predicate RanOk(env: Env, input: VmInput) {
    env.vm(input).ok && !InPlace(env, input).trapped
  }

  /** What `Execute` hands over is the in-place run. */
  lemma ExecuteIsInPlace(env: Env, rows: Rows, input: VmInput)
    requires input.storage == ContractStorage(rows, input.contract) && input.balance == GetAccount(rows, input.contract).balance
    ensures var o := Execute(env, rows, input.contract, input.caller, input.code, input.input, input.value, input.height, input.fuel);
      && o.ok == RanOk(env, input)
      && (o.ok ==> Host.ApplyWrites(input.storage, o.writes) == InPlace(env, input).state.storage
                   && o.transfers == InPlace(env, input).state.payments)
  {
    hide ContractStorage, GetAccount, Host.DirectRun, Host.Run, Host.ApplyWrites, Host.Paid;
    Host.OverlayIsInPlace(env.validAddress, input.storage, input.balance, env.vm(input).calls);
  }

  /** Storage and accounts after a call, against the tables it ran on. */
  ghost predicate CallOutcome(env: Env, rows: Rows, rows': Rows, sender: Bytes, tx: Transaction, input: VmInput) {
    var run, ok := InPlace(env, input).state, RanOk(env, input);
    && (forall d :: ContractStorage(rows', d) == if ok && d == tx.to then run.storage else ContractStorage(rows, d))
    && (forall a :: var x, y := GetAccount(rows, a), GetAccount(rows', a);
          && y == x.(balance := y.balance)
          && if ok then
               y.balance + (if a == tx.to then Host.Paid(run.payments) else 0)
               == x.balance + (if a == tx.to then tx.amount else 0) + PaidTo(run.payments, a)
             else y.balance == x.balance + (if a == sender then tx.amount else 0))
  }

  lemma AfterWrites(rows: Rows, c: Bytes, writes: seq<(Bytes, Option<Bytes>)>, a: Bytes)
    ensures GetAccount(CommitWrites(rows, c, writes), a) == GetAccount(rows, a)
  {
    hide Frame, CommitWrites;
    FrameCommitWrites(rows, c, writes);
    AccountsOutside(rows, CommitWrites(rows, c, writes), {Contracts}, a);
  }

  /** A successful run: `rows` becomes what `Execute` handed over. */
  lemma CommitStores(rows: Rows, c: Bytes, o: Outcome, d: Bytes)
    requires CommitTransfers(CommitWrites(rows, c, o.writes), c, o.transfers).Ok?
    ensures ContractStorage(CommitTransfers(CommitWrites(rows, c, o.writes), c, o.transfers).value, d)
         == if d == c then Host.ApplyWrites(ContractStorage(rows, d), o.writes) else ContractStorage(rows, d)
  {
    hide ContractStorage, CommitWrites, CommitTransfers, Frame, Host.ApplyWrites;
    var rows3 := CommitWrites(rows, c, o.writes);
    StorageAfterWrites(rows, c, o.writes, d);
    FrameCommitTransfers(rows3, c, o.transfers);
    StorageOutside(rows3, CommitTransfers(rows3, c, o.transfers).value, {Accounts}, d);
  }

  lemma CommitPays(rows: Rows, c: Bytes, o: Outcome, a: Bytes)
    requires CommitTransfers(CommitWrites(rows, c, o.writes), c, o.transfers).Ok?
    ensures var x := GetAccount(rows, a);
            var y := GetAccount(CommitTransfers(CommitWrites(rows, c, o.writes), c, o.transfers).value, a);
      && y.balance + (if a == c then Host.Paid(o.transfers) else 0) == x.balance + PaidTo(o.transfers, a)
      && y == x.(balance := y.balance)
  {
    hide CommitWrites, CommitTransfers, GetAccount, Host.Paid, PaidTo;
    AfterWrites(rows, c, o.writes, a);
    TransfersMove(CommitWrites(rows, c, o.writes), c, o.transfers, a);
  }

  /** The tables between the attached value landing and the outcome. */
  function Landed(env: Env, rows: Rows, sender: Bytes, tx: Transaction, height: nat, ok: bool): Rows {
    var rows1 := if tx.amount > 0 then Credit(rows, tx.to, tx.amount) else rows;
    rows1[ReceiptK(env.txHash(tx)) := ReceiptV(Receipt(tx.to, sender, ok, height))]
  }

  lemma LandedIs(env: Env, rows: Rows, sender: Bytes, tx: Transaction, height: nat, ok: bool, a: Bytes)
    ensures var x := GetAccount(rows, a);
            GetAccount(Landed(env, rows, sender, tx, height, ok), a)
            == if a == tx.to then x.(balance := x.balance + tx.amount) else x
    ensures ContractStorage(Landed(env, rows, sender, tx, height, ok), a) == ContractStorage(rows, a)
  {
    hide ContractStorage, Credit, GetAccount, Frame;
    AfterCredit(rows, tx.to, tx.amount, a);
    FrameCredit(rows, tx.to, tx.amount, {Accounts});
    StorageOutside(rows, Credit(rows, tx.to, tx.amount), {Accounts}, a);
    var rows1 := if tx.amount > 0 then Credit(rows, tx.to, tx.amount) else rows;
    var k, v := ReceiptK(env.txHash(tx)), ReceiptV(Receipt(tx.to, sender, ok, height));
    AfterPut(rows1, k, v, a);
    StorageAfterPut(rows1, k, v, a);
  }

  lemma ApplyCallShape(env: Env, rows: Rows, sender: Bytes, tx: Transaction, height: nat)
    requires ApplyCall(env, rows, sender, tx, height).Ok?
    ensures CallInput(env, rows, sender, tx, height).Some?
    ensures var input, c := CallInput(env, rows, sender, tx, height).value, GetContract(rows, tx.to).value;
            var rows1 := if tx.amount > 0 then Credit(rows, tx.to, tx.amount) else rows;
            var o := Execute(env, rows1, tx.to, sender, input.code, input.input, tx.amount, height, FuelForFee(tx.fee));
            var rows2 := Landed(env, rows, sender, tx, height, o.ok);
            if !o.ok then ApplyCall(env, rows, sender, tx, height).value == CountCall(RefundCall(rows2, tx.to, sender, tx.amount), c)
            else && CommitTransfers(CommitWrites(rows2, tx.to, o.writes), tx.to, o.transfers).Ok?
                 && ApplyCall(env, rows, sender, tx, height).value
                    == CountCall(CommitTransfers(CommitWrites(rows2, tx.to, o.writes), tx.to, o.transfers).value, c)
  {
    hide Execute, CommitTransfers, CommitWrites, RefundCall, Credit, ContractStorage, FuelForFee;
  }

  lemma ApplyCallOutcome(env: Env, rows: Rows, sender: Bytes, tx: Transaction, height: nat)
    requires ApplyCall(env, rows, sender, tx, height).Ok?
    ensures CallInput(env, rows, sender, tx, height).Some?
    ensures CallOutcome(env, rows, ApplyCall(env, rows, sender, tx, height).value, sender, tx,
                        CallInput(env, rows, sender, tx, height).value)
  {
    hide Execute, CommitTransfers, CommitWrites, RefundCall, Credit, ContractStorage, FuelForFee, ApplyCall,
         GetAccount, InPlace, RanOk, Landed, Host.ApplyWrites, Host.Paid, PaidTo;
    ApplyCallShape(env, rows, sender, tx, height);
    var input, c := CallInput(env, rows, sender, tx, height).value, GetContract(rows, tx.to).value;
    var rows' := ApplyCall(env, rows, sender, tx, height).value;
    var rows1 := if tx.amount > 0 then Credit(rows, tx.to, tx.amount) else rows;
    CreditedInput(rows, tx.to, tx.amount);
    ExecuteIsInPlace(env, rows1, input);
    var o := Execute(env, rows1, tx.to, sender, input.code, input.input, tx.amount, height, FuelForFee(tx.fee));
    var rows2 := Landed(env, rows, sender, tx, height, o.ok);
    LandedIs(env, rows, sender, tx, height, o.ok, tx.to);
    var counted := ContractV(c.(calls := c.calls + 1));
    forall d
      ensures ContractStorage(rows', d) == if o.ok && d == tx.to then InPlace(env, input).state.storage else ContractStorage(rows, d)
    {
      LandedIs(env, rows, sender, tx, height, o.ok, d);
      if o.ok {
        CommitStores(rows2, tx.to, o, d);
        StorageAfterPut(CommitTransfers(CommitWrites(rows2, tx.to, o.writes), tx.to, o.transfers).value, ContractK(c.address), counted, d);
      } else {
        RefundStores(rows2, tx.to, sender, tx.amount, d);
        StorageAfterPut(RefundCall(rows2, tx.to, sender, tx.amount), ContractK(c.address), counted, d);
      }
    }
    forall a
      ensures var x, y := GetAccount(rows, a), GetAccount(rows', a);
          && y == x.(balance := y.balance)
          && if o.ok then
               y.balance + (if a == tx.to then Host.Paid(o.transfers) else 0)
               == x.balance + (if a == tx.to then tx.amount else 0) + PaidTo(o.transfers, a)
             else y.balance == x.balance + (if a == sender then tx.amount else 0)
    {
      LandedIs(env, rows, sender, tx, height, o.ok, a);
      if o.ok {
        CommitPays(rows2, tx.to, o, a);
        AfterPut(CommitTransfers(CommitWrites(rows2, tx.to, o.writes), tx.to, o.transfers).value, ContractK(c.address), counted, a);
      } else {
        RefundMoves(rows2, tx.to, sender, tx.amount, a);
        AfterPut(RefundCall(rows2, tx.to, sender, tx.amount), ContractK(c.address), counted, a);
      }
    }
  }

  lemma CreditedInput(rows: Rows, c: Bytes, amount: nat)
    ensures var rows1 := if amount > 0 then Credit(rows, c, amount) else rows;
      && ContractStorage(rows1, c) == ContractStorage(rows, c)
      && GetAccount(rows1, c).balance == GetAccount(rows, c).balance + amount
  {
    hide ContractStorage, Credit, GetAccount, Frame;
    AfterCredit(rows, c, amount, c);
    FrameCredit(rows, c, amount, {Accounts});
    StorageOutside(rows, Credit(rows, c, amount), {Accounts}, c);
  }

  lemma RefundStores(rows: Rows, c: Bytes, sender: Bytes, amount: nat, d: Bytes)
    ensures ContractStorage(RefundCall(rows, c, sender, amount), d) == ContractStorage(rows, d)
  {
    hide ContractStorage, RefundCall, Frame;
    FrameRefund(rows, c, sender, amount);
    StorageOutside(rows, RefundCall(rows, c, sender, amount), {Accounts}, d);
  }

  // ---- the whole transaction ----

  function ChargedFor(rows: Rows, sender: Bytes, tx: Transaction): Rows
    requires Debit(tx) <= GetAccount(rows, sender).balance
  {
    SetAccount(rows, sender, Charged(GetAccount(rows, sender), Debit(tx)))
  }

  lemma ChargedIs(rows: Rows, sender: Bytes, tx: Transaction, a: Bytes)
    requires Debit(tx) <= GetAccount(rows, sender).balance
    ensures GetAccount(ChargedFor(rows, sender, tx), a)
         == if a == sender then Charged(GetAccount(rows, a), Capped(Cost(tx))) else GetAccount(rows, a)
    ensures ContractStorage(ChargedFor(rows, sender, tx), a) == ContractStorage(rows, a)
  {
    hide ContractStorage, GetAccount, Frame, SetAccount, Debit, Cost;
    DebitIsCost(tx);
    var from := Charged(GetAccount(rows, sender), Debit(tx));
    GetAfterSet(rows, sender, from, a);
    FrameSetAccount(rows, sender, from, {Accounts});
    StorageOutside(rows, SetAccount(rows, sender, from), {Accounts}, a);
  }

  /** The contract `d` holds the run's storage if it was called and ran to the end, and what
      it held before otherwise. */
  ghost predicate StorageMoves(env: Env, tx: Transaction, input: VmInput, rows: Rows, rows': Rows, d: Bytes) {
    ContractStorage(rows', d)
    == if RanOk(env, input) && d == tx.to then InPlace(env, input).state.storage else ContractStorage(rows, d)
  }

  /** A run that ended moves the attached value to the contract and each payment from it to
      its payee; one that failed takes the cost and gives the attached value back. */
  ghost predicate CallPays(env: Env, tx: Transaction, input: VmInput, sender: Bytes, a: Bytes, x: Account, y: Account) {
    var ok, payments := RanOk(env, input), InPlace(env, input).state.payments;
    && y.balance + (if a == sender then Capped(Cost(tx)) else 0) + (if ok && a == tx.to then Host.Paid(payments) else 0)
       == x.balance + (if ok then (if a == tx.to then tx.amount else 0) + PaidTo(payments, a)
                       else if a == sender then tx.amount else 0)
    && y.nonce == x.nonce + (if a == sender then 1 else 0)
    && y == x.(balance := y.balance, nonce := y.nonce)
  }

  lemma CallRan(env: Env, rows: Rows, tx: Transaction, height: nat)
    requires tx.kind.CallContract? && ApplyTx(env, rows, tx, height).Ok?
    ensures SenderOf(env, tx).Some?
    ensures var sender := SenderOf(env, tx).value;
      && Debit(tx) <= GetAccount(rows, sender).balance
      && ApplyCall(env, ChargedFor(rows, sender, tx), sender, tx, height) == Ok(ApplyTx(env, rows, tx, height).value.0)
  {
    hide ApplyCall, SetAccount, GetAccount, Debit;
  }

  /** An accepted call runs the contract's stored code on its storage and on its balance
      with the attached value. If the run ends well, the contract's storage and every balance
      are what updating them in place gives; if not, all storage is as before and only the
      fee is gone. No other contract's storage and no bond moves either way. */
  lemma CallMoves(env: Env, rows: Rows, tx: Transaction, height: nat)
    requires tx.kind.CallContract? && ApplyTx(env, rows, tx, height).Ok?
    ensures SenderOf(env, tx).Some?
    ensures var sender, rows' := SenderOf(env, tx).value, ApplyTx(env, rows, tx, height).value.0;
      && Debit(tx) <= GetAccount(rows, sender).balance
      && CallInput(env, ChargedFor(rows, sender, tx), sender, tx, height).Some?
      && var input := CallInput(env, ChargedFor(rows, sender, tx), sender, tx, height).value;
         && input.storage == ContractStorage(rows, tx.to)
         && input.balance + (if tx.to == sender then Capped(Cost(tx)) else 0) == GetAccount(rows, tx.to).balance + tx.amount
         && (forall d :: StorageMoves(env, tx, input, rows, rows', d))
         && (forall a :: CallPays(env, tx, input, sender, a, GetAccount(rows, a), GetAccount(rows', a)))
         && (!RanOk(env, input) && Cost(tx) <= U128_MAX ==>
              GetAccount(rows', sender).balance + tx.fee == GetAccount(rows, sender).balance)
  {
    hide ApplyTx, ApplyCall, ChargedFor, ContractStorage, GetAccount, InPlace, RanOk, Debit, Host.Paid, PaidTo,
         FuelForFee, Cost;
    CallRan(env, rows, tx, height);
    var sender, rows' := SenderOf(env, tx).value, ApplyTx(env, rows, tx, height).value.0;
    var charged := ChargedFor(rows, sender, tx);
    ApplyCallOutcome(env, charged, sender, tx, height);
    var input := CallInput(env, charged, sender, tx, height).value;
    ChargedIs(rows, sender, tx, tx.to);
    forall d
      ensures StorageMoves(env, tx, input, rows, rows', d)
    {
      ChargedIs(rows, sender, tx, d);
    }
    forall a
      ensures CallPays(env, tx, input, sender, a, GetAccount(rows, a), GetAccount(rows', a))
    {
      ChargedIs(rows, sender, tx, a);
    }
    if !RanOk(env, input) && Cost(tx) <= U128_MAX {
      assert CallPays(env, tx, input, sender, sender, GetAccount(rows, sender), GetAccount(rows', sender));
      CallCost(tx);
    }
  }

  lemma CallCost(tx: Transaction)
    requires tx.kind.CallContract?
    ensures Cost(tx) == tx.amount + tx.fee
  {
  }

  /** The fuel a fee buys: 400 per rai, never below a million nor above two billion. */
  lemma FuelIs(fee: nat)
    ensures 1_000_000 <= FuelForFee(fee) <= 2_000_000_000
    ensures 2_500 <= fee <= 5_000_000 ==> FuelForFee(fee) == 400 * fee
    ensures fee <= 2_500 ==> FuelForFee(fee) == 1_000_000
    ensures fee >= 5_000_000 ==> FuelForFee(fee) == 2_000_000_000
  {
  }

  /** No other kind of transaction writes any contract's storage. */
  lemma OnlyCallsWriteStorage(env: Env, rows: Rows, tx: Transaction, height: nat, d: Bytes)
    requires !tx.kind.CallContract? && ApplyTx(env, rows, tx, height).Ok?
    ensures ContractStorage(ApplyTx(env, rows, tx, height).value.0, d) == ContractStorage(rows, d)
  {
    hide ContractStorage, ApplyTx, Frame;
    var rows' := ApplyTx(env, rows, tx, height).value.0;
    if tx.kind.DeployContract? {
      DeployKeepsStorage(env, rows, tx, height, d);
    } else {
      FrameApplyTx(env, rows, tx, height);
      StorageOutside(rows, rows', TouchedBy(tx.kind), d);
    }
  }

  /** A deploy stores the code under its hash and the contract under its address, and leaves
      every storage alone. */
  lemma DeployKeepsStorage(env: Env, rows: Rows, tx: Transaction, height: nat, d: Bytes)
    requires tx.kind.DeployContract? && ApplyTx(env, rows, tx, height).Ok?
    ensures ContractStorage(ApplyTx(env, rows, tx, height).value.0, d) == ContractStorage(rows, d)
  {
    hide ContractStorage, SetAccount, Credit, Frame, GetAccount, Debit;
    var sender := SenderOf(env, tx).value;
    var from := Charged(GetAccount(rows, sender), Debit(tx));
    FrameSetAccount(rows, sender, from, {Accounts});
    var rows1 := SetAccount(rows, sender, from);
    StorageOutside(rows, rows1, {Accounts}, d);
    var code := env.decodeCode(tx.payload).value;
    var hash := env.codeHash(code);
    var at := env.contractAddress(sender, tx.nonce, hash);
    StorageAfterPut(rows1, CodeK(hash), BytesV(code), d);
    var rows2 := rows1[CodeK(hash) := BytesV(code)];
    var c := Contract(at, hash, |code|, sender, height, 0);
    StorageAfterPut(rows2, ContractK(at), ContractV(c), d);
    var rows3 := SetContract(rows2, c);
    FrameCredit(rows3, at, tx.amount, {Accounts});
    StorageOutside(rows3, Credit(rows3, at, tx.amount), {Accounts}, d);
  }

  /** The registry after a deploy: the code is stored, the contract is its creator's, and no
      other contract is touched. */
  lemma DeployFiles(env: Env, rows: Rows, tx: Transaction, height: nat, other: Bytes)
    requires tx.kind.DeployContract? && ApplyTx(env, rows, tx, height).Ok?
    ensures SenderOf(env, tx).Some? && DeployedAt(env, tx, SenderOf(env, tx).value).Some?
    ensures var rows', sender := ApplyTx(env, rows, tx, height).value.0, SenderOf(env, tx).value;
            var at, code := DeployedAt(env, tx, sender).value, env.decodeCode(tx.payload).value;
      && env.validWasm(code) && GetContract(rows, at).None?
      && GetBytes(rows', CodeK(env.codeHash(code))) == Some(code)
      && GetContract(rows', at) == Some(Contract(at, env.codeHash(code), |code|, sender, height, 0))
      && (other != at ==> GetContract(rows', other) == GetContract(rows, other))
  {
    hide GetAccount, Debit;
  }

  /** A call counts itself on the contract's record and files a receipt saying how it ended;
      codes and other contracts are untouched. */
  lemma CallFiles(env: Env, rows: Rows, tx: Transaction, height: nat, other: Bytes, hash: Bytes)
    requires tx.kind.CallContract? && ApplyTx(env, rows, tx, height).Ok?
    ensures SenderOf(env, tx).Some? && GetContract(rows, tx.to).Some?
    ensures var rows', sender, c := ApplyTx(env, rows, tx, height).value.0, SenderOf(env, tx).value, GetContract(rows, tx.to).value;
      && Debit(tx) <= GetAccount(rows, sender).balance
      && CallInput(env, ChargedFor(rows, sender, tx), sender, tx, height).Some?
      && GetReceipt(rows', env.txHash(tx))
         == Some(Receipt(tx.to, sender, RanOk(env, CallInput(env, ChargedFor(rows, sender, tx), sender, tx, height).value), height))
      && GetContract(rows', c.address) == Some(c.(calls := c.calls + 1))
      && (other != c.address ==> GetContract(rows', other) == GetContract(rows, other))
      && GetBytes(rows', CodeK(hash)) == GetBytes(rows, CodeK(hash))
  {
    hide ApplyTx, ApplyCall, ContractStorage, InPlace, RanOk, Debit, FuelForFee, Cost, Execute, CommitTransfers,
         CommitWrites, RefundCall, Credit, Frame, SetAccount;
    CallRan(env, rows, tx, height);
    var sender := SenderOf(env, tx).value;
    var charged := ChargedFor(rows, sender, tx);
    ApplyCallShape(env, charged, sender, tx, height);
    var from := Charged(GetAccount(rows, sender), Debit(tx));
    FrameSetAccount(rows, sender, from, {Accounts});
    var input, c := CallInput(env, charged, sender, tx, height).value, GetContract(charged, tx.to).value;
    FrameCredit(charged, tx.to, tx.amount, {Accounts});
    var rows1 := if tx.amount > 0 then Credit(charged, tx.to, tx.amount) else charged;
    CreditedInput(charged, tx.to, tx.amount);
    ExecuteIsInPlace(env, rows1, input);
    var o := Execute(env, rows1, tx.to, sender, input.code, input.input, tx.amount, height, FuelForFee(tx.fee));
    var rows2 := Landed(env, charged, sender, tx, height, o.ok);
    FiledSame(rows, charged, tx.to, hash);
    FiledSame(rows, charged, other, hash);
    FiledSame(charged, Credit(charged, tx.to, tx.amount), other, hash);
    if o.ok {
      WritesKeepFiles(rows2, tx.to, o.writes, other, hash, env.txHash(tx));
      var rows3 := CommitWrites(rows2, tx.to, o.writes);
      FrameCommitTransfers(rows3, tx.to, o.transfers);
      FiledSame(rows3, CommitTransfers(rows3, tx.to, o.transfers).value, other, hash);
      FrameSame(rows3, CommitTransfers(rows3, tx.to, o.transfers).value, {Accounts}, ReceiptK(env.txHash(tx)));
    } else {
      FrameRefund(rows2, tx.to, sender, tx.amount);
      FiledSame(rows2, RefundCall(rows2, tx.to, sender, tx.amount), other, hash);
      FrameSame(rows2, RefundCall(rows2, tx.to, sender, tx.amount), {Accounts}, ReceiptK(env.txHash(tx)));
    }
  }

  function GetReceipt(rows: Rows, hash: Bytes): Option<Receipt> {
    if ReceiptK(hash) in rows && rows[ReceiptK(hash)].ReceiptV? then Some(rows[ReceiptK(hash)].receipt) else None
  }

  lemma FiledSame(rows: Rows, rows': Rows, other: Bytes, hash: Bytes)
    requires Frame(rows, rows', {Accounts})
    ensures GetContract(rows', other) == GetContract(rows, other) && GetBytes(rows', CodeK(hash)) == GetBytes(rows, CodeK(hash))
  {
    FrameSame(rows, rows', {Accounts}, ContractK(other));
    FrameSame(rows, rows', {Accounts}, CodeK(hash));
  }

  lemma {:induction false} WritesKeepFiles(
      rows: Rows, c: Bytes, writes: seq<(Bytes, Option<Bytes>)>, other: Bytes, hash: Bytes, receipt: Bytes)
    ensures var rows' := CommitWrites(rows, c, writes);
      && GetContract(rows', other) == GetContract(rows, other) && GetBytes(rows', CodeK(hash)) == GetBytes(rows, CodeK(hash))
      && GetReceipt(rows', receipt) == GetReceipt(rows, receipt)
  {
    if writes != [] {
      WritesKeepFiles(rows, c, writes[..|writes| - 1], other, hash, receipt);
    }
  }
}
