/** The contract host (src/contracts.rs): storage writes collect in an overlay
    and transfers in a list, and only a successful call hands them over. */
module Host {
  import opened Base

  const MAX_KEY_BYTES: nat := 128
  const MAX_VALUE_BYTES: nat := 8 * 1024
  const MAX_WRITES: nat := 512
  const MAX_TRANSFERS: nat := 32
  const MAX_ADDRESS_BYTES: nat := 64

  type Storage = map<Bytes, Bytes>

  /** The host calls with an effect, as the guest makes them: `len` is the length of the
      raw key or address, `key` and `to` the text it decodes to. */
  datatype Call =
    | Read(len: int, key: Bytes)
    | Write(len: int, key: Bytes, value: Bytes)
    | Transfer(len: int, to: Bytes, amount: int)

  /** What the guest gets back. */
  datatype Reply = Value(value: Option<Bytes>) | Code(code: int)

  datatype HostState = HostState(
    overlay: map<Bytes, Option<Bytes>>, order: seq<Bytes>,
    transfers: seq<(Bytes, nat)>, spendable: nat)

  function Start(balance: nat): HostState {
    HostState(map[], [], [], balance)
  }

  function Get(storage: Storage, key: Bytes): Option<Bytes> {
    if key in storage then Some(storage[key]) else None
  }

  function Put(storage: Storage, key: Bytes, value: Option<Bytes>): Storage {
    match value
    case None => storage - {key}
    case Some(v) => storage[key := v]
  }

  function ReadKey(h: HostState, storage: Storage, key: Bytes): Option<Bytes> {
    if key in h.overlay then h.overlay[key] else Get(storage, key)
  }

  /** Storage holds no empty values. */
  function Written(value: Bytes): Option<Bytes> {
    if value == "" then None else Some(value)
  }

  predicate BadLength(len: int, max: nat) {
    len < 0 || len > max
  }

  /** One host call; `Err` is a trap that aborts the whole run. */
  function Step(valid: Bytes -> bool, storage: Storage, h: HostState, call: Call): Result<(HostState, Reply)> {
    match call
    case Read(len, key) =>
      if BadLength(len, MAX_KEY_BYTES) then Err("bad length")
      else Ok((h, Value(ReadKey(h, storage, key))))
    case Write(len, key, value) =>
      if BadLength(len, MAX_KEY_BYTES) then Err("bad length")
      else if key == "" then Err("empty storage key")
      else if |value| > MAX_VALUE_BYTES then Err("bad length")
      else if key !in h.overlay && |h.order| >= MAX_WRITES then Err("too many storage writes")
      else
        var order := if key in h.overlay then h.order else h.order + [key];
        Ok((h.(order := order, overlay := h.overlay[key := Written(value)]), Code(0)))
    case Transfer(len, to, amount) =>
      if amount < 0 then Err("negative amount")
      else if BadLength(len, MAX_ADDRESS_BYTES) then Err("bad length")
      else if !valid(to) then Ok((h, Code(-1)))
      else if |h.transfers| >= MAX_TRANSFERS then Err("too many transfers")
      else if amount > h.spendable then Ok((h, Code(-2)))
      else Ok((h.(spendable := h.spendable - amount, transfers := h.transfers + [(to, amount)]), Code(0)))
  }

  datatype Trace = Trace(state: HostState, replies: seq<Reply>, trapped: bool)

  /** A whole run: the calls the guest makes, up to the first trap. */
  function Run(valid: Bytes -> bool, storage: Storage, h: HostState, calls: seq<Call>): Trace
    decreases |calls|
  {
    if calls == [] then Trace(h, [], false) else
      match Step(valid, storage, h, calls[0])
      case Err(_) => Trace(h, [], true)
      case Ok((h', reply)) =>
        var rest := Run(valid, storage, h', calls[1..]);
        Trace(rest.state, [reply] + rest.replies, rest.trapped)
  }

  ghost predicate NoDuplicates(order: seq<Bytes>) {
    forall i, j :: 0 <= i < j < |order| ==> order[i] != order[j]
  }

  /** `order` lists every overlaid key once. */
  ghost predicate OrderMatches(h: HostState) {
    && NoDuplicates(h.order)
    && (forall k :: k in h.order <==> k in h.overlay)
  }

  /** The writes handed over, in first-write order, each with its last value. */
  function Collected(h: HostState): seq<(Bytes, Option<Bytes>)>
    requires forall k :: k in h.order ==> k in h.overlay
  {
    seq(|h.order|, (i: int) requires 0 <= i < |h.order| => (h.order[i], h.overlay[h.order[i]]))
  }

  function ApplyWrites(storage: Storage, writes: seq<(Bytes, Option<Bytes>)>): Storage {
    if writes == [] then storage else
      var last := |writes| - 1;
      Put(ApplyWrites(storage, writes[..last]), writes[last].0, writes[last].1)
  }

  function Paid(transfers: seq<(Bytes, nat)>): nat {
    if transfers == [] then 0 else
      var last := |transfers| - 1;
      Paid(transfers[..last]) + transfers[last].1
  }

  // ---- the specification: storage and balance updated in place ----

  datatype Direct = Direct(storage: Storage, touched: set<Bytes>, payments: seq<(Bytes, nat)>, balance: nat)

  function DirectStep(valid: Bytes -> bool, d: Direct, call: Call): Result<(Direct, Reply)> {
    match call
    case Read(len, key) =>
      if BadLength(len, MAX_KEY_BYTES) then Err("bad length")
      else Ok((d, Value(Get(d.storage, key))))
    case Write(len, key, value) =>
      if BadLength(len, MAX_KEY_BYTES) then Err("bad length")
      else if key == "" then Err("empty storage key")
      else if |value| > MAX_VALUE_BYTES then Err("bad length")
      else if key !in d.touched && |d.touched| >= MAX_WRITES then Err("too many storage writes")
      else Ok((d.(storage := Put(d.storage, key, Written(value)), touched := d.touched + {key}), Code(0)))
    case Transfer(len, to, amount) =>
      if amount < 0 then Err("negative amount")
      else if BadLength(len, MAX_ADDRESS_BYTES) then Err("bad length")
      else if !valid(to) then Ok((d, Code(-1)))
      else if |d.payments| >= MAX_TRANSFERS then Err("too many transfers")
      else if amount > d.balance then Ok((d, Code(-2)))
      else Ok((d.(payments := d.payments + [(to, amount)], balance := d.balance - amount), Code(0)))
  }

  datatype DirectTrace = DirectTrace(state: Direct, replies: seq<Reply>, trapped: bool)

  function DirectRun(valid: Bytes -> bool, d: Direct, calls: seq<Call>): DirectTrace
    decreases |calls|
  {
    if calls == [] then DirectTrace(d, [], false) else
      match DirectStep(valid, d, calls[0])
      case Err(_) => DirectTrace(d, [], true)
      case Ok((d', reply)) =>
        var rest := DirectRun(valid, d', calls[1..]);
        DirectTrace(rest.state, [reply] + rest.replies, rest.trapped)
  }

  /** The overlay over `storage` is the directly updated storage; the rest agrees. */
  ghost predicate Refines(storage: Storage, balance: nat, h: HostState, d: Direct) {
    && OrderMatches(h)
    && d.touched == h.overlay.Keys && |h.order| == |d.touched|
    && SameReads(storage, h, d.storage)
    && d.payments == h.transfers && d.balance == h.spendable
    && Paid(h.transfers) + h.spendable == balance
  }

  ghost predicate SameReads(storage: Storage, h: HostState, direct: Storage) {
    forall k :: Get(direct, k) == ReadKey(h, storage, k)
  }

  lemma WriteKeepsOrder(h: HostState, h': HostState, key: Bytes, value: Option<Bytes>)
    requires OrderMatches(h) && h'.overlay == h.overlay[key := value]
    requires h'.order == if key in h.overlay then h.order else h.order + [key]
    ensures OrderMatches(h')
    ensures h'.overlay.Keys == h.overlay.Keys + {key}
  {
  }

  lemma WriteKeepsReads(storage: Storage, h: HostState, direct: Storage, h': HostState, key: Bytes, value: Option<Bytes>)
    requires SameReads(storage, h, direct) && h'.overlay == h.overlay[key := value]
    ensures SameReads(storage, h', Put(direct, key, value))
  {
    forall k
      ensures Get(Put(direct, key, value), k) == ReadKey(h', storage, k)
    {
      assert Get(direct, k) == ReadKey(h, storage, k);
    }
  }

  lemma StepRefines(valid: Bytes -> bool, storage: Storage, balance: nat, h: HostState, d: Direct, call: Call)
    requires Refines(storage, balance, h, d)
    ensures var x, y := Step(valid, storage, h, call), DirectStep(valid, d, call);
            && x.Ok? == y.Ok?
            && (x.Ok? ==> x.value.1 == y.value.1 && Refines(storage, balance, x.value.0, y.value.0))
  {
    hide OrderMatches, SameReads, Paid;
    match call
    case Read(len, key) =>
      ReadsAgree(storage, h, d.storage, key);
    case Write(len, key, value) =>
      var x := Step(valid, storage, h, call);
      if x.Ok? {
        var h' := x.value.0;
        WriteKeepsOrder(h, h', key, Written(value));
        WriteKeepsReads(storage, h, d.storage, h', key, Written(value));
        assert key in h.overlay ==> d.touched + {key} == d.touched;
      }
    case Transfer(len, to, amount) =>
      if amount >= 0 {
        PaidMore(h.transfers, to, amount);
        var x := Step(valid, storage, h, call);
        if x.Ok? {
          MoneyKeepsStorage(storage, h, x.value.0, d.storage);
        }
      }
  }

  lemma ReadsAgree(storage: Storage, h: HostState, direct: Storage, key: Bytes)
    requires SameReads(storage, h, direct)
    ensures Get(direct, key) == ReadKey(h, storage, key)
  {
  }

  lemma MoneyKeepsStorage(storage: Storage, h: HostState, h': HostState, direct: Storage)
    requires h'.overlay == h.overlay && h'.order == h.order
    ensures OrderMatches(h) ==> OrderMatches(h')
    ensures SameReads(storage, h, direct) ==> SameReads(storage, h', direct)
  {
    if SameReads(storage, h, direct) {
      forall k
        ensures Get(direct, k) == ReadKey(h', storage, k)
      {
        assert Get(direct, k) == ReadKey(h, storage, k);
      }
    }
  }

  lemma PaidMore(transfers: seq<(Bytes, nat)>, to: Bytes, amount: nat)
    ensures Paid(transfers + [(to, amount)]) == Paid(transfers) + amount
  {
    var t := transfers + [(to, amount)];
    assert t[..|t| - 1] == transfers;
  }

  lemma {:induction false} RunRefines(
      valid: Bytes -> bool, storage: Storage, balance: nat, h: HostState, d: Direct, calls: seq<Call>)
    requires Refines(storage, balance, h, d)
    ensures var x, y := Run(valid, storage, h, calls), DirectRun(valid, d, calls);
            && x.replies == y.replies && x.trapped == y.trapped
            && Refines(storage, balance, x.state, y.state)
    decreases |calls|
  {
    hide Refines, Step, DirectStep;
    if calls != [] {
      StepRefines(valid, storage, balance, h, d, calls[0]);
      var x, y := Step(valid, storage, h, calls[0]), DirectStep(valid, d, calls[0]);
      if x.Ok? {
        RunRefines(valid, storage, balance, x.value.0, y.value.0, calls[1..]);
      }
    }
  }

  lemma {:induction false} CollectedWrites(storage: Storage, h: HostState, n: nat, k: Bytes)
    requires OrderMatches(h) && n <= |h.order|
    ensures Get(ApplyWrites(storage, Collected(h)[..n]), k)
         == if k in h.order[..n] then h.overlay[k] else Get(storage, k)
  {
    if n > 0 {
      var w := Collected(h)[..n];
      assert w[..n - 1] == Collected(h)[..n - 1];
      assert h.order[..n] == h.order[..n - 1] + [h.order[n - 1]];
      CollectedWrites(storage, h, n - 1, k);
    }
  }

  /** For any run of host calls: every reply is what updating storage in place would
      give, the handed-over writes rebuild exactly that storage, and the handed-over
      transfers plus what is left spend exactly the starting balance. */
  lemma OverlayIsInPlace(valid: Bytes -> bool, storage: Storage, balance: nat, calls: seq<Call>)
    ensures
      var run := Run(valid, storage, Start(balance), calls);
      var direct := DirectRun(valid, Direct(storage, {}, [], balance), calls);
      && run.replies == direct.replies && run.trapped == direct.trapped
      && OrderMatches(run.state)
      && ApplyWrites(storage, Collected(run.state)) == direct.state.storage
      && run.state.transfers == direct.state.payments
      && Paid(run.state.transfers) + run.state.spendable == balance
  {
    RunRefines(valid, storage, balance, Start(balance), Direct(storage, {}, [], balance), calls);
    var h := Run(valid, storage, Start(balance), calls).state;
    var d := DirectRun(valid, Direct(storage, {}, [], balance), calls).state;
    var n := |h.order|;
    assert Collected(h)[..n] == Collected(h) && h.order[..n] == h.order;
    SameStorage(ApplyWrites(storage, Collected(h)), d.storage, storage, h);
  }

  lemma SameStorage(a: Storage, b: Storage, storage: Storage, h: HostState)
    requires OrderMatches(h) && a == ApplyWrites(storage, Collected(h))
    requires SameReads(storage, h, b)
    ensures a == b
  {
    var n := |h.order|;
    assert Collected(h)[..n] == Collected(h) && h.order[..n] == h.order;
    forall k
      ensures k in a <==> k in b
      ensures k in a ==> a[k] == b[k]
    {
      CollectedWrites(storage, h, n, k);
      assert Get(b, k) == ReadKey(h, storage, k);
      assert Get(a, k) == Get(b, k);
    }
  }

  // ---- the host object the guest calls into ----

  class ContractHost {
    const storage: Storage
    var overlay: map<Bytes, Option<Bytes>>
    var order: seq<Bytes>
    var transfers: seq<(Bytes, nat)>
    var spendable: nat

    ghost function View(): HostState
      reads this
    {
      HostState(overlay, order, transfers, spendable)
    }

    constructor (storage: Storage, balance: nat)
      ensures this.storage == storage && View() == Start(balance)
    {
      this.storage := storage;
      overlay, order, transfers, spendable := map[], [], [], balance;
    }

    method ReadStorage(ghost valid: Bytes -> bool, len: int, key: Bytes) returns (r: Result<Reply>)
      ensures var s := Step(valid, storage, View(), Read(len, key));
              if s.Ok? then r == Ok(s.value.1) else r.Err?
    {
      if BadLength(len, MAX_KEY_BYTES) {
        return Err("bad length");
      }
      if key in overlay {
        return Ok(Value(overlay[key]));
      }
      r := Ok(Value(Get(storage, key)));
    }

    method WriteStorage(ghost valid: Bytes -> bool, len: int, key: Bytes, value: Bytes) returns (r: Result<Reply>)
      modifies this`overlay, this`order
      ensures var s := Step(valid, storage, old(View()), Write(len, key, value));
              if s.Ok? then View() == s.value.0 && r == Ok(s.value.1) else View() == old(View()) && r.Err?
    {
      if BadLength(len, MAX_KEY_BYTES) || key == "" {
        return Err("bad key");
      }
      if |value| > MAX_VALUE_BYTES {
        return Err("bad length");
      }
      if key !in overlay {
        if |order| >= MAX_WRITES {
          return Err("too many storage writes");
        }
        order := order + [key];
      }
      overlay := overlay[key := if value == "" then None else Some(value)];
      r := Ok(Code(0));
    }

    method Pay(valid: Bytes -> bool, len: int, to: Bytes, amount: int) returns (r: Result<Reply>)
      modifies this`transfers, this`spendable
      ensures var s := Step(valid, storage, old(View()), Transfer(len, to, amount));
              if s.Ok? then View() == s.value.0 && r == Ok(s.value.1) else View() == old(View()) && r.Err?
    {
      if amount < 0 {
        return Err("negative amount");
      }
      if BadLength(len, MAX_ADDRESS_BYTES) {
        return Err("bad length");
      }
      if !valid(to) {
        return Ok(Code(-1));
      }
      if |transfers| >= MAX_TRANSFERS {
        return Err("too many transfers");
      }
      if amount > spendable {
        return Ok(Code(-2));
      }
      spendable := spendable - amount;
      transfers := transfers + [(to, amount)];
      r := Ok(Code(0));
    }
  }
}
