/** Transaction and block execution (src/chain.rs, src/staking.rs, src/slashing.rs,
    src/tokens.rs) as functions from tables to tables. An error means the caller
    throws the tables away: every partial write is undone by the journal. */
module Ledger {
  import opened Base
  import opened Types
  import opened Decimal
  import opened Evidence
  import opened Election
  import opened Order
  import opened Tables
  import Fees
  import Host
  import NoteTree

  const RAI_PER_INAZ: nat := 1_000_000_000
  const MIN_STAKE: nat := 1_000 * RAI_PER_INAZ
  const UNBONDING_BLOCKS: nat := 300
  const TOKEN_CREATION_FEE: nat := 10 * RAI_PER_INAZ
  const DEPLOY_FEE: nat := 5 * RAI_PER_INAZ
  const MAX_DECIMALS: nat := 18
  const MAX_NAME_LEN: nat := 40
  const BLOCK_REWARD: nat := RAI_PER_INAZ / 100
  const LEADER_COMMISSION_PCT: nat := 20
  const MAX_VALIDATORS: nat := 100
  const VALIDATOR_CAP_ACTIVATION_HEIGHT: nat := 2_000_000
  const MAX_LEADER_ATTEMPTS: nat := 4096
  const EQUIVOCATION_MIN_BURN_PCT: nat := 5
  const EQUIVOCATION_CORRELATION_FACTOR: nat := 3
  const REPORTER_BOUNTY_PCT: nat := 10
  const DOWNTIME_JAIL_STREAK: nat := 50
  const DOWNTIME_JAIL_BLOCKS: nat := 10_000
  const DOWNTIME_REPEAT_BURN_BPS: nat := 10
  const EVIDENCE_MAX_AGE_BLOCKS: nat := 100_000
  const TOMBSTONE_HEIGHT: nat := U64_MAX
  const NO_DOWNTIME_JAIL_HEIGHT: nat := 1_400_000
  const INACTIVITY_LEAK_ACTIVATION_HEIGHT: nat := 2_000_000
  const INACTIVITY_LEAK_STREAK: nat := 50
  const INACTIVITY_LEAK_BPS: nat := 5
  const FUEL_PER_RAI: nat := 400
  const MAX_FUEL: nat := 2_000_000_000
  const MAX_PROOF_LEN: nat := 512

  /** One contract call as the engine sees it. */
  datatype VmInput = VmInput(
    contract: Bytes, caller: Bytes, code: Bytes, input: Bytes, value: nat, height: nat, fuel: nat,
    storage: map<Bytes, Bytes>, balance: nat)

  /** What the engine did: the host calls it made, and whether `invoke` returned zero. */
  datatype VmRun = VmRun(calls: seq<Host.Call>, ok: bool)

  /** Everything outside the state machine: cryptography, decoders, the contract
      engine, and the activation heights a chain is configured with. */
  datatype Env = Env(
    crypto: Crypto,
    txHash: Transaction -> Bytes,
    validAddress: Bytes -> bool,
    draw: (nat, Bytes, nat) -> nat,
    decodeEvidence: Option<Payload> -> Option<Evidence>,
    trim: Bytes -> Bytes,
    normalizeSymbol: Bytes -> Option<Bytes>,
    tokenId: (Bytes, nat, Bytes) -> Bytes,
    decodeCode: Option<Payload> -> Option<Bytes>,
    validWasm: Bytes -> bool,
    decodeArgs: Option<Payload> -> Option<Bytes>,
    codeHash: Bytes -> Bytes,
    contractAddress: (Bytes, nat, Bytes) -> Bytes,
    vm: VmInput -> VmRun,
    hash2: NoteTree.Hash2,
    frFromHex: Bytes -> Option<NoteTree.Fr>,
    frToHex: NoteTree.Fr -> Bytes,
    parseAmount: Bytes -> Option<U128>,
    proofDecodes: Bytes -> bool,
    keyDecodes: Bytes -> bool,
    devnetKey: Bytes,
    spendVerifies: (Bytes, Bytes, seq<NoteTree.Fr>) -> bool,
    nullsDigest: map<Bytes, nat> -> Bytes,
    slashingActivation: nat,
    shieldedActivation: nat)

  function SatAdd(x: nat, y: nat): nat {
    if x + y > U128_MAX then U128_MAX else x + y
  }

  function SatMul(x: nat, y: nat): nat {
    if x * y > U128_MAX then U128_MAX else x * y
  }

  predicate DowntimeJailEnabled(height: nat) {
    height < NO_DOWNTIME_JAIL_HEIGHT
  }

  predicate IsActiveValidator(acct: Account, height: nat) {
    && acct.staked >= MIN_STAKE
    && !acct.penalties.tombstoned
    && if DowntimeJailEnabled(height) then acct.penalties.jailedUntil <= height
       else acct.penalties.jailedUntil != TOMBSTONE_HEIGHT
  }

  // ---- validator set ----

  /** Bonded accounts allowed to seal and vote at `height`. */
  function Active(rows: Rows, height: nat): set<Bytes> {
    set a | a in Stakers(rows) && IsActiveValidator(GetAccount(rows, a), height)
  }

  /** Higher stake first, lower address first on equal stake. */
  predicate Outranks(rows: Rows, a: Bytes, b: Bytes) {
    var x, y := GetAccount(rows, a).staked, GetAccount(rows, b).staked;
    x > y || (x == y && Lt(a, b))
  }

  /** Above the cap only the highest-ranked accounts stay electable. */
  function Electable(rows: Rows, height: nat): set<Bytes> {
    var active := Active(rows, height);
    if height >= VALIDATOR_CAP_ACTIVATION_HEIGHT && |active| > MAX_VALIDATORS then
      set a | a in active && |(set b | b in active && Outranks(rows, b, a))| < MAX_VALIDATORS
    else active
  }

  function AsValidators(rows: Rows, addresses: seq<Bytes>): seq<Validator> {
    seq(|addresses|, (i: int) requires 0 <= i < |addresses| =>
      Validator(addresses[i], GetAccount(rows, addresses[i]).staked))
  }

  ghost function ValidatorSetAt(rows: Rows, height: nat): seq<Validator> {
    AsValidators(rows, SortedKeys(Electable(rows, height)))
  }

  /** Stake of every bonded account, jailed or not. */
  ghost function TotalStaked(rows: Rows): nat {
    TotalStake(AsValidators(rows, StakerList(rows)))
  }

  // ---- equivocation slashes ----

  function BurnPct(offenderStake: nat, totalStake: nat): nat {
    if totalStake == 0 then EQUIVOCATION_MIN_BURN_PCT else
      var share := SatMul(offenderStake, 100) / totalStake;
      var correlated := SatMul(share, EQUIVOCATION_CORRELATION_FACTOR);
      if correlated < EQUIVOCATION_MIN_BURN_PCT then EQUIVOCATION_MIN_BURN_PCT
      else if correlated > 100 then 100
      else correlated
  }

  function CheckReport(env: Env, rows: Rows, height: nat, payload: Option<Payload>): Result<Evidence> {
    match env.decodeEvidence(payload)
    case None => Err("report carries no evidence")
    case Some(e) =>
      var offender :- Verify(env.crypto, e);
      if e.Height() > height then Err("evidence is from the future")
      else if height - e.Height() > EVIDENCE_MAX_AGE_BLOCKS then Err("evidence is too old to punish")
      else if SlashKnown(rows, EvidenceId(env.crypto, e)) then Err("this offence has already been slashed")
      else
        var acct := GetAccount(rows, offender);
        if acct.penalties.tombstoned then Err("validator is already tombstoned")
        else if acct.staked == 0 && UnbondingTotal(acct.unbonding) == 0 then
          Err("offender has no stake left to slash")
        else Ok(e)
  }

  function CutAmount(x: nat, pct: nat): nat {
    Mul128(x, pct) / 100
  }

  /** Every locked entry loses its share. */
  function CutUnbonding(us: seq<Unbond>, pct: nat): seq<Unbond>
    requires pct <= 100
    ensures |CutUnbonding(us, pct)| == |us|
  {
    if us == [] then [] else
      var last := |us| - 1;
      CutUnbonding(us[..last], pct) + [us[last].(amount := us[last].amount - Cut(us[last].amount, pct))]
  }

  function Cut(x: nat, pct: nat): (c: nat)
    requires pct <= 100
    ensures c <= x
  {
    CutBounded(x, pct);
    CutAmount(x, pct)
  }

  lemma CutBounded(x: nat, pct: nat)
    requires pct <= 100
    ensures CutAmount(x, pct) <= x
  {
    assert x * pct <= x * 100;
  }

  /** Whatever the stakes, a slash takes between five and a hundred percent. */
  lemma BurnPctBounded(offender: nat, total: nat)
    ensures EQUIVOCATION_MIN_BURN_PCT <= BurnPct(offender, total) <= 100
  {
  }

  function KeepPositive(us: seq<Unbond>): seq<Unbond> {
    if us == [] then [] else
      var last := |us| - 1;
      KeepPositive(us[..last]) + if us[last].amount > 0 then [us[last]] else []
  }

  /** The offender's account after losing `pct` percent of bonded and unbonding stake. */
  function Slashed(acct: Account, pct: nat): Account
    requires pct <= 100
  {
    var us := KeepPositive(CutUnbonding(acct.unbonding, pct));
    var burned := Confiscated(acct, pct);
    acct.(staked := acct.staked - Cut(acct.staked, pct), unbonding := us,
          penalties := acct.penalties.(tombstoned := true, jailedUntil := TOMBSTONE_HEIGHT,
                                       jailFault := true, slashed := acct.penalties.slashed + burned))
  }

  function CutTotal(us: seq<Unbond>, pct: nat): nat
    requires pct <= 100
  {
    if us == [] then 0 else
      var last := |us| - 1;
      CutTotal(us[..last], pct) + Cut(us[last].amount, pct)
  }

  function Confiscated(acct: Account, pct: nat): nat
    requires pct <= 100
  {
    Cut(acct.staked, pct) + CutTotal(acct.unbonding, pct)
  }

  function Bounty(burned: nat, reporter: Bytes, offender: Bytes): (b: nat)
    ensures b <= burned
  {
    if reporter == offender then 0 else
      CutBounded(burned, REPORTER_BOUNTY_PCT);
      CutAmount(burned, REPORTER_BOUNTY_PCT)
  }

  function EquivocationRecord(env: Env, e: Evidence, offender: Bytes, height: nat, burned: nat, bounty: nat,
                              reporter: Bytes): SlashRecord
    requires bounty <= burned
  {
    SlashRecord(EvidenceId(env.crypto, e), e.Label(), offender, e.Height(), height,
                burned - bounty, bounty, reporter, true, TOMBSTONE_HEIGHT)
  }

  function Credit(rows: Rows, a: Bytes, amount: nat): Rows {
    var acct := GetAccount(rows, a);
    SetAccount(rows, a, acct.(balance := acct.balance + amount))
  }

  ghost function ApplyReport(env: Env, rows: Rows, height: nat, reporter: Bytes, e: Evidence): Result<Rows> {
    var offender :- Verify(env.crypto, e);
    if SlashKnown(rows, EvidenceId(env.crypto, e)) then Err("this offence has already been slashed") else
      var acct := GetAccount(rows, offender);
      if acct.penalties.tombstoned then Err("validator is already tombstoned") else
        var pct := BurnPct(acct.staked, TotalStaked(rows));
        var burned := Confiscated(acct, pct);
        var rows1 := SetAccount(rows, offender, Slashed(acct, pct));
        var bounty := Bounty(burned, reporter, offender);
        var rows2 := if bounty > 0 then Credit(rows1, reporter, bounty) else rows1;
        Ok(PutSlash(rows2, EquivocationRecord(env, e, offender, height, burned, bounty, reporter)))
  }

  // ---- leaving jail ----

  function Released(acct: Account): Account {
    acct.(penalties := acct.penalties.(jailedUntil := 0, missedStreak := 0))
  }

  function ApplyUnjail(rows: Rows, height: nat, a: Bytes): Result<Rows> {
    var acct := GetAccount(rows, a);
    if acct.penalties.tombstoned then Err("tombstoned validators can never rejoin")
    else if acct.penalties.jailedUntil == 0 then Err("validator is not jailed")
    else if acct.penalties.jailFault then Err("this jail came from a provable fault and cannot be lifted")
    else if acct.penalties.jailedUntil > height && DowntimeJailEnabled(height) then Err("still jailed")
    else Ok(SetAccount(rows, a, Released(acct)))
  }

  // ---- tokens ----

  function CheckCreate(env: Env, rows: Rows, sender: Bytes, nonce: nat, payload: Option<Payload>): Result<()> {
    match payload
    case None => Err("token transaction missing payload")
    case Some(p) =>
      match env.normalizeSymbol(p.symbol)
      case None => Err("bad symbol")
      case Some(symbol) =>
        if env.trim(p.name) == "" || |p.name| > MAX_NAME_LEN then Err("bad name")
        else if p.decimals > MAX_DECIMALS then Err("bad decimals")
        else if GetToken(rows, env.tokenId(sender, nonce, symbol)).Some? then Err("token already exists")
        else Ok(())
  }

  function CheckMint(env: Env, rows: Rows, sender: Bytes, to: Bytes, amount: nat, payload: Option<Payload>): Result<()> {
    match payload
    case None => Err("token transaction missing payload")
    case Some(p) =>
      match GetToken(rows, p.token)
      case None => Err("unknown token")
      case Some(t) =>
        if t.creator != sender then Err("only the token creator can mint")
        else if !t.mintable then Err("token supply is fixed")
        else if amount == 0 then Err("mint amount must be positive")
        else if !env.validAddress(to) then Err("invalid recipient address")
        else Ok(())
  }

  function CheckTokenTransfer(env: Env, rows: Rows, sender: Bytes, to: Bytes, amount: nat, payload: Option<Payload>): Result<()> {
    match payload
    case None => Err("token transaction missing payload")
    case Some(p) =>
      match GetToken(rows, p.token)
      case None => Err("unknown token")
      case Some(t) =>
        if amount == 0 then Err("amount must be positive")
        else if !env.validAddress(to) then Err("invalid recipient address")
        else if TokenBalance(rows, t.id, sender) < amount then Err("insufficient token balance")
        else Ok(())
  }

  function CheckBurn(rows: Rows, sender: Bytes, amount: nat, payload: Option<Payload>): Result<()> {
    match payload
    case None => Err("token transaction missing payload")
    case Some(p) =>
      match GetToken(rows, p.token)
      case None => Err("unknown token")
      case Some(t) =>
        if amount == 0 then Err("amount must be positive")
        else if TokenBalance(rows, t.id, sender) < amount then Err("insufficient token balance")
        else Ok(())
  }

  function ApplyCreate(env: Env, rows: Rows, sender: Bytes, nonce: nat, supply: nat, height: nat,
                       payload: Option<Payload>): Result<Rows>
  {
    match payload
    case None => Err("token transaction missing payload")
    case Some(p) =>
      match env.normalizeSymbol(p.symbol)
      case None => Err("bad symbol")
      case Some(symbol) =>
        if p.decimals > MAX_DECIMALS then Err("decimals too large") else
          var id := env.tokenId(sender, nonce, symbol);
          if GetToken(rows, id).Some? then Err("token already exists") else
            var token := Token(id, symbol, env.trim(p.name), p.decimals, 0, sender, p.mintable, height, 0);
            var rows1 := SetToken(rows, token);
            if supply > 0 then CreditToken(rows1, id, sender, supply) else Ok(rows1)
  }

  function ApplyMint(rows: Rows, sender: Bytes, to: Bytes, amount: nat, payload: Option<Payload>): Result<Rows> {
    match payload
    case None => Err("token transaction missing payload")
    case Some(p) =>
      match GetToken(rows, p.token)
      case None => Err("unknown token")
      case Some(t) =>
        if t.creator != sender || !t.mintable then Err("not allowed to mint this token")
        else CreditToken(rows, t.id, to, amount)
  }

  function ApplyTokenTransfer(rows: Rows, sender: Bytes, to: Bytes, amount: nat, payload: Option<Payload>): Result<Rows> {
    match payload
    case None => Err("token transaction missing payload")
    case Some(p) =>
      match GetToken(rows, p.token)
      case None => Err("unknown token")
      case Some(t) =>
        if sender == to then Ok(rows) else
          var rows1 :- DebitToken(rows, t.id, sender, amount);
          CreditToken(rows1, t.id, to, amount)
  }

  function ApplyBurn(rows: Rows, sender: Bytes, amount: nat, payload: Option<Payload>): Result<Rows> {
    match payload
    case None => Err("token transaction missing payload")
    case Some(p) =>
      match GetToken(rows, p.token)
      case None => Err("unknown token")
      case Some(t) => DebitToken(rows, t.id, sender, amount)
  }

  // ---- contracts ----

  function CheckDeploy(env: Env, payload: Option<Payload>): Result<Bytes> {
    match env.decodeCode(payload)
    case None => Err("code must be hex-encoded wasm")
    case Some(code) => if env.validWasm(code) then Ok(code) else Err("invalid wasm")
  }

  function CheckCall(env: Env, rows: Rows, a: Bytes): Result<Contract> {
    if !env.validAddress(a) then Err("invalid contract address") else
      match GetContract(rows, a)
      case None => Err("no contract at address")
      case Some(c) => Ok(c)
  }

  function ApplyDeploy(env: Env, rows: Rows, sender: Bytes, tx: Transaction, height: nat): Result<Rows> {
    match env.decodeCode(tx.payload)
    case None => Err("code must be hex-encoded wasm")
    case Some(code) =>
      var hash := env.codeHash(code);
      var a := env.contractAddress(sender, tx.nonce, hash);
      if GetContract(rows, a).Some? then Err("contract already exists") else
        var rows1 := rows[CodeK(hash) := BytesV(code)];
        var rows2 := SetContract(rows1, Contract(a, hash, |code|, sender, height, 0));
        Ok(if tx.amount > 0 then Credit(rows2, a, tx.amount) else rows2)
  }

  function FuelForFee(fee: nat): nat {
    var raw := SatMul(fee, FUEL_PER_RAI);
    var capped := if raw > MAX_FUEL then MAX_FUEL else raw;
    if capped < 1_000_000 then 1_000_000 else capped
  }

  datatype Outcome = Outcome(ok: bool, writes: seq<(Bytes, Option<Bytes>)>, transfers: seq<(Bytes, nat)>)

  /** Run the engine against an overlay; nothing is written here. */
  function Execute(env: Env, rows: Rows, contract: Bytes, caller: Bytes, code: Bytes, input: Bytes,
                   value: nat, height: nat, fuel: nat): Outcome
  {
    var storage, balance := ContractStorage(rows, contract), GetAccount(rows, contract).balance;
    var run := env.vm(VmInput(contract, caller, code, input, value, height, fuel, storage, balance));
    var trace := Host.Run(env.validAddress, storage, Host.Start(balance), run.calls);
    if trace.trapped || !run.ok then Outcome(false, [], []) else
      Host.OverlayIsInPlace(env.validAddress, storage, balance, run.calls);
      Outcome(true, Host.Collected(trace.state), trace.state.transfers)
  }

  function CommitWrites(rows: Rows, contract: Bytes, writes: seq<(Bytes, Option<Bytes>)>): Rows {
    if writes == [] then rows else
      var last := |writes| - 1;
      SetStorage(CommitWrites(rows, contract, writes[..last]), contract, writes[last].0, writes[last].1)
  }

  function CommitTransfers(rows: Rows, contract: Bytes, transfers: seq<(Bytes, nat)>): Result<Rows> {
    if transfers == [] then Ok(rows) else
      var last := |transfers| - 1;
      var (to, amount) := transfers[last];
      var rows1 :- CommitTransfers(rows, contract, transfers[..last]);
      var acct := GetAccount(rows1, contract);
      if acct.balance < amount then Err("contract overspent") else
        var rows2 := SetAccount(rows1, contract, acct.(balance := acct.balance - amount));
        Ok(Credit(rows2, to, amount))
  }

  function CountCall(rows: Rows, c: Contract): Rows {
    SetContract(rows, c.(calls := c.calls + 1))
  }

  /** Undo the value attached to a failed call; only the fee stays charged. */
  function RefundCall(rows: Rows, contract: Bytes, sender: Bytes, amount: nat): Rows {
    if amount == 0 then rows else
      var acct := GetAccount(rows, contract);
      var rows1 := SetAccount(rows, contract, acct.(balance := Minus(acct.balance, amount)));
      Credit(rows1, sender, amount)
  }

  function ApplyCall(env: Env, rows: Rows, sender: Bytes, tx: Transaction, height: nat): Result<Rows> {
    var c :- CheckCall(env, rows, tx.to);
    match GetBytes(rows, CodeK(c.codeHash))
    case None => Err("contract code missing")
    case Some(code) =>
      match env.decodeArgs(tx.payload)
      case None => Err("args must be hex")
      case Some(input) =>
        var rows1 := if tx.amount > 0 then Credit(rows, tx.to, tx.amount) else rows;
        var outcome := Execute(env, rows1, tx.to, sender, code, input, tx.amount, height, FuelForFee(tx.fee));
        var rows2 := rows1[ReceiptK(env.txHash(tx)) := ReceiptV(Receipt(tx.to, sender, outcome.ok, height))];
        if !outcome.ok then
          Ok(CountCall(RefundCall(rows2, tx.to, sender, tx.amount), c))
        else
          var rows3 :- CommitTransfers(CommitWrites(rows2, tx.to, outcome.writes), tx.to, outcome.transfers);
          Ok(CountCall(rows3, c))
  }

  // ---- shielded pool ----

  predicate FieldOk(env: Env, f: Bytes) {
    f == "" || env.frFromHex(f).Some?
  }

  function PublicUnshield(env: Env, d: ShieldedData): Option<U128> {
    if d.publicUnshield == "" then Some(0) else env.parseAmount(d.publicUnshield)
  }

  function CheckShape(env: Env, tx: Transaction): Result<()> {
    match tx.shielded
    case None => Err("missing shielded payload")
    case Some(d) =>
      if |d.proof| > MAX_PROOF_LEN then Err("shielded proof field too large")
      else if !(forall f :: f in d.commitments ==> FieldOk(env, f)) || !(forall f :: f in d.nullifiers ==> FieldOk(env, f))
              || !FieldOk(env, d.anchor) then
        Err("shielded payload has a non-field element")
      else
        match PublicUnshield(env, d)
        case None => Err("bad public unshield amount")
        case Some(out) =>
          match tx.kind
          case Shield =>
            if |d.commitments| != 1 || d.nullifiers != [] || d.proof != "" || out != 0 then
              Err("shield: exactly one commitment, no nullifiers, no proof")
            else if tx.amount == 0 then Err("shield: amount must be positive")
            else Ok(())
          case PrivateTransfer =>
            if |d.nullifiers| != 2 || |d.commitments| != 2 || d.proof == "" then
              Err("private transfer: two nullifiers, two commitments, one proof")
            else if tx.amount != 0 || out != 0 then Err("private transfer: amount fields must be zero")
            else if d.nullifiers[0] == d.nullifiers[1] then Err("private transfer: duplicate nullifier")
            else if d.anchor == "" then Err("spend: missing anchor")
            else Ok(())
          case Unshield =>
            if |d.nullifiers| != 2 || |d.commitments| != 2 || d.proof == "" then
              Err("unshield: two nullifiers, two commitments, one proof")
            else if tx.amount != 0 then Err("unshield: amount field must be zero")
            else if out == 0 then Err("unshield: public amount must be positive")
            else if d.nullifiers[0] == d.nullifiers[1] then Err("unshield: duplicate nullifier")
            else if d.anchor == "" then Err("spend: missing anchor")
            else Ok(())
          case _ => Err("not a shielded transaction")
  }

  function ApplyShield(env: Env, rows: Rows, d: ShieldedData, amount: nat): Result<Rows>
    requires |d.commitments| == 1
  {
    match env.frFromHex(d.commitments[0])
    case None => Err("shield: bad commitment field")
    case Some(cm) =>
      if cm == 0 then Err("shield: zero commitment") else
        var rows1 := AppendLeaf(rows, d.commitments[0]);
        if PoolBalance(rows1) + amount > U128_MAX then Err("pool balance overflow")
        else Ok(rows1[PoolK := AmountV(PoolBalance(rows1) + amount)])
  }

  /** The verifying key to use, installing the devnet one on the first spend. */
  function InstallKey(env: Env, rows: Rows): Rows {
    if GetBytes(rows, VerifyingKeyK).Some? then rows else rows[VerifyingKeyK := BytesV(env.devnetKey)]
  }

  function SpendInputs(env: Env, d: ShieldedData, out: nat): Option<seq<NoteTree.Fr>>
    requires |d.nullifiers| == 2 && |d.commitments| == 2
  {
    match (env.frFromHex(d.anchor), env.frFromHex(d.nullifiers[0]), env.frFromHex(d.nullifiers[1]),
           env.frFromHex(d.commitments[0]), env.frFromHex(d.commitments[1]))
    case (Some(a), Some(n0), Some(n1), Some(c0), Some(c1)) => Some([a, n0, n1, c0, c1, out])
    case _ => None
  }

  function ApplySpend(env: Env, rows: Rows, tx: Transaction, d: ShieldedData, out: nat, height: nat): Result<Rows>
    requires |d.nullifiers| == 2 && |d.commitments| == 2
  {
    if out > 0 && !env.validAddress(tx.to) then Err("unshield: invalid recipient address")
    else if out > 0 && PoolBalance(rows) < out then Err("unshield: pool underflow")
    else if !RootKnown(rows, d.anchor) then Err("spend: anchor is not a sealed tree root")
    else if !env.proofDecodes(d.proof) then Err("spend: bad proof encoding")
    else
      var rows1 := InstallKey(env, rows);
      var key := GetBytes(rows1, VerifyingKeyK).value;
      if !env.keyDecodes(key) then Err("stored verifying key is corrupt") else
        match SpendInputs(env, d, out)
        case None => Err("spend: bad field")
        case Some(inputs) =>
          if !env.spendVerifies(key, d.proof, inputs) then Err("spend: invalid proof")
          else if NullifierSeen(rows1, d.nullifiers[0]) then Err("spend: nullifier already spent")
          else
            var rows2 := BurnNullifier(rows1, d.nullifiers[0], height);
            if NullifierSeen(rows2, d.nullifiers[1]) then Err("spend: nullifier already spent") else
              var rows3 := BurnNullifier(rows2, d.nullifiers[1], height);
              var rows4 := AppendLeaf(AppendLeaf(rows3, d.commitments[0]), d.commitments[1]);
              assert PoolBalance(rows4) == PoolBalance(rows);
              if out > 0 then
                Ok(Credit(rows4[PoolK := AmountV(PoolBalance(rows4) - out)], tx.to, out))
              else Ok(rows4)
  }

  function ApplyShielded(env: Env, rows: Rows, tx: Transaction, height: nat): Result<Rows> {
    if height < env.shieldedActivation then Err("shielded pool is not active at this height") else
      var _ :- CheckShape(env, tx);
      var d := tx.shielded.value;
      match tx.kind
      case Shield => ApplyShield(env, rows, d, tx.amount)
      case PrivateTransfer => ApplySpend(env, rows, tx, d, 0, height)
      case Unshield =>
        (match env.parseAmount(d.publicUnshield)
         case None => Err("bad public unshield amount")
         case Some(out) => ApplySpend(env, rows, tx, d, out, height))
      case _ => Err("not a shielded transaction")
  }

  // ---- one transaction ----

  /** Rules re-checked against live tables before anything is written. */
  function Precheck(env: Env, rows: Rows, tx: Transaction, sender: Bytes): Result<()> {
    match tx.kind
    case CreateToken => CheckCreate(env, rows, sender, tx.nonce, tx.payload)
    case MintToken => CheckMint(env, rows, sender, tx.to, tx.amount, tx.payload)
    case TokenTransfer => CheckTokenTransfer(env, rows, sender, tx.to, tx.amount, tx.payload)
    case BurnToken => CheckBurn(rows, sender, tx.amount, tx.payload)
    case DeployContract => var _ :- CheckDeploy(env, tx.payload); Ok(())
    case CallContract =>
      var _ :- CheckCall(env, rows, tx.to);
      if env.decodeArgs(tx.payload).Some? then Ok(()) else Err("args must be hex")
    case _ => Ok(())
  }

  function Debit(tx: Transaction): nat {
    match tx.kind
    case Unstake => tx.fee
    case ReportEquivocation => tx.fee
    case Unjail => tx.fee
    case CreateToken => SatAdd(tx.fee, TOKEN_CREATION_FEE)
    case MintToken => tx.fee
    case TokenTransfer => tx.fee
    case BurnToken => tx.fee
    case DeployContract => SatAdd(SatAdd(tx.fee, DEPLOY_FEE), tx.amount)
    case PrivateTransfer => tx.fee
    case Unshield => tx.fee
    case _ => SatAdd(tx.amount, tx.fee)
  }

  function Collected(tx: Transaction): nat {
    match tx.kind
    case CreateToken => SatAdd(tx.fee, TOKEN_CREATION_FEE)
    case DeployContract => SatAdd(tx.fee, DEPLOY_FEE)
    case _ => tx.fee
  }

  /** What the transaction does once its sender `from` has been charged. */
  ghost function Effect(env: Env, rows: Rows, tx: Transaction, height: nat, sender: Bytes, from: Account): Result<Rows> {
    match tx.kind
    case Transfer =>
      if tx.to == sender then Ok(SetAccount(rows, sender, from.(balance := from.balance + tx.amount)))
      else Ok(Credit(SetAccount(rows, sender, from), tx.to, tx.amount))
    case Stake => Ok(SetAccount(rows, sender, from.(staked := from.staked + tx.amount)))
    case Unstake =>
      if from.staked < tx.amount then Err("not enough staked")
      else Ok(SetAccount(rows, sender, from.(staked := from.staked - tx.amount,
             unbonding := from.unbonding + [Unbond(tx.amount, height + UNBONDING_BLOCKS)])))
    case ReportEquivocation =>
      var rows1 := SetAccount(rows, sender, from);
      var e :- CheckReport(env, rows1, height, tx.payload);
      ApplyReport(env, rows1, height, sender, e)
    case Unjail => ApplyUnjail(SetAccount(rows, sender, from), height, sender)
    case CreateToken => ApplyCreate(env, SetAccount(rows, sender, from), sender, tx.nonce, tx.amount, height, tx.payload)
    case MintToken => ApplyMint(SetAccount(rows, sender, from), sender, tx.to, tx.amount, tx.payload)
    case TokenTransfer => ApplyTokenTransfer(SetAccount(rows, sender, from), sender, tx.to, tx.amount, tx.payload)
    case BurnToken => ApplyBurn(SetAccount(rows, sender, from), sender, tx.amount, tx.payload)
    case DeployContract => ApplyDeploy(env, SetAccount(rows, sender, from), sender, tx, height)
    case CallContract => ApplyCall(env, SetAccount(rows, sender, from), sender, tx, height)
    case Shield => ApplyShielded(env, SetAccount(rows, sender, from), tx, height)
    case PrivateTransfer => ApplyShielded(env, SetAccount(rows, sender, from), tx, height)
    case Unshield => ApplyShielded(env, SetAccount(rows, sender, from), tx, height)
  }

  function Charged(acct: Account, debit: nat): Account
    requires debit <= acct.balance
  {
    acct.(balance := acct.balance - debit, nonce := acct.nonce + 1)
  }

  /** The tables and the collected fee after one transaction. */
  ghost function ApplyTx(env: Env, rows: Rows, tx: Transaction, height: nat): Result<(Rows, nat)> {
    match env.crypto.addressOf(tx.fromPubkey)
    case None => Err("bad sender")
    case Some(sender) =>
      var _ :- Precheck(env, rows, tx, sender);
      var acct := GetAccount(rows, sender);
      if tx.nonce != acct.nonce then Err("stale nonce")
      else if acct.balance < Debit(tx) then Err("insufficient balance")
      else
        var rows' :- Effect(env, rows, tx, height, sender, Charged(acct, Debit(tx)));
        Ok((rows', Collected(tx)))
  }

  // ---- end of block ----

  function Matured(us: seq<Unbond>, height: nat): seq<Unbond> {
    if us == [] then [] else
      var last := |us| - 1;
      Matured(us[..last], height) + if us[last].releaseHeight <= height then [us[last]] else []
  }

  function Locked(us: seq<Unbond>, height: nat): seq<Unbond> {
    if us == [] then [] else
      var last := |us| - 1;
      Locked(us[..last], height) + if us[last].releaseHeight <= height then [] else [us[last]]
  }

  function ReleaseOne(rows: Rows, a: Bytes, height: nat): Rows {
    var acct := GetAccount(rows, a);
    if Matured(acct.unbonding, height) == [] then rows else
      SetAccount(rows, a, acct.(unbonding := Locked(acct.unbonding, height),
                                balance := acct.balance + UnbondingTotal(Matured(acct.unbonding, height))))
  }

  function ReleaseAll(rows: Rows, addresses: seq<Bytes>, height: nat): Rows {
    if addresses == [] then rows else
      var last := |addresses| - 1;
      ReleaseOne(ReleaseAll(rows, addresses[..last], height), addresses[last], height)
  }

  ghost function ReleaseUnbonded(rows: Rows, height: nat): Rows {
    ReleaseAll(rows, StakerList(rows), height)
  }

  /** Leader of one attempt at this height. */
  function AttemptLeader(env: Env, vals: seq<Validator>, height: nat, parentHash: Bytes, attempt: nat): Option<Bytes> {
    Leader(vals, env.draw(height, parentHash, attempt))
  }

  /** The least attempt from `attempt` on that elects `producer`. */
  function UsedAttempt(env: Env, vals: seq<Validator>, height: nat, parentHash: Bytes, producer: Bytes,
                       attempt: nat): Option<nat>
    decreases MAX_LEADER_ATTEMPTS - attempt
  {
    if attempt >= MAX_LEADER_ATTEMPTS then None
    else if AttemptLeader(env, vals, height, parentHash, attempt) == Some(producer) then Some(attempt)
    else UsedAttempt(env, vals, height, parentHash, producer, attempt + 1)
  }

  /** The distinct leaders of the first `used` attempts, in the order they were first elected. */
  function Missed(env: Env, vals: seq<Validator>, height: nat, parentHash: Bytes, producer: Bytes, used: nat): seq<Bytes> {
    if used == 0 then [] else
      var before := Missed(env, vals, height, parentHash, producer, used - 1);
      match AttemptLeader(env, vals, height, parentHash, used - 1)
      case None => before
      case Some(leader) => if leader != producer && leader !in before then before + [leader] else before
  }

  function DowntimeId(height: nat, a: Bytes): Bytes {
    "downtime:" + Dec(height) + ":" + a
  }

  function OneMiss(acct: Account): Account {
    acct.(penalties := acct.penalties.(missedSlots := acct.penalties.missedSlots + 1,
                                       missedStreak := acct.penalties.missedStreak + 1))
  }

  function Share(x: nat, bps: nat): (s: nat)
    requires bps <= 10_000
    ensures s <= x
  {
    ShareBounded(x, bps);
    Mul128(x, bps) / 10_000
  }

  lemma ShareBounded(x: nat, bps: nat)
    requires bps <= 10_000
    ensures Mul128(x, bps) / 10_000 <= x
  {
    assert x * bps <= x * 10_000;
  }

  /** A sustained absence decays the bond once the leak is active. */
  function Leaked(acct: Account, height: nat): Account {
    if height >= INACTIVITY_LEAK_ACTIVATION_HEIGHT
       && acct.penalties.missedStreak >= INACTIVITY_LEAK_STREAK && !acct.penalties.tombstoned then
      var decay := Share(acct.staked, INACTIVITY_LEAK_BPS);
      acct.(staked := acct.staked - decay,
            penalties := acct.penalties.(leaked := acct.penalties.leaked + decay,
                                         slashed := acct.penalties.slashed + decay))
    else acct
  }

  function RepeatBurn(acct: Account): (b: nat)
    ensures b <= acct.staked
  {
    if acct.penalties.downtimeJails > 0 then Share(acct.staked, DOWNTIME_REPEAT_BURN_BPS) else 0
  }

  function Jailed(acct: Account, height: nat): Account {
    acct.(staked := acct.staked - RepeatBurn(acct),
          penalties := acct.penalties.(missedStreak := 0, downtimeJails := acct.penalties.downtimeJails + 1,
                                       jailedUntil := height + DOWNTIME_JAIL_BLOCKS, jailFault := false,
                                       slashed := acct.penalties.slashed + RepeatBurn(acct)))
  }

  /** Charge one missed slot: leak after the liveness fork, jail before it. */
  function ChargeMiss(rows: Rows, height: nat, a: Bytes): Rows {
    var acct := OneMiss(GetAccount(rows, a));
    if !DowntimeJailEnabled(height) then
      SetAccount(rows, a, Leaked(acct, height))
    else if acct.penalties.missedStreak >= DOWNTIME_JAIL_STREAK && !acct.penalties.tombstoned then
      PutSlash(SetAccount(rows, a, Jailed(acct, height)),
               SlashRecord(DowntimeId(height, a), "downtime", a, height, height, RepeatBurn(acct), 0, "", false,
                           height + DOWNTIME_JAIL_BLOCKS))
    else SetAccount(rows, a, acct)
  }

  function ChargeAll(rows: Rows, height: nat, missed: seq<Bytes>): Rows {
    if missed == [] then rows else
      var last := |missed| - 1;
      ChargeMiss(ChargeAll(rows, height, missed[..last]), height, missed[last])
  }

  predicate ForgivesJail(p: Penalties, height: nat) {
    !DowntimeJailEnabled(height) && p.jailedUntil != 0 && !p.jailFault && !p.tombstoned
    && p.jailedUntil != TOMBSTONE_HEIGHT
  }

  /** The producer's record once its block is in: no streak, and past the fork no jail for absence. */
  function ClearStreak(rows: Rows, height: nat, producer: Bytes): Rows {
    var acct := GetAccount(rows, producer);
    var p := acct.penalties;
    if p.missedStreak != 0 || ForgivesJail(p, height) then
      SetAccount(rows, producer, acct.(penalties := p.(missedStreak := 0,
        jailedUntil := if ForgivesJail(p, height) then 0 else p.jailedUntil)))
    else rows
  }

  /** Who is charged a miss at this height; none when the producer won no attempt. */
  ghost function Absent(env: Env, rows: Rows, height: nat, parentHash: Bytes, producer: Bytes): Option<seq<Bytes>> {
    var vals := ValidatorSetAt(rows, height);
    if height < env.slashingActivation || |vals| < 2 then None else
      match UsedAttempt(env, vals, height, parentHash, producer, 0)
      case None => None
      case Some(used) => Some(Missed(env, vals, height, parentHash, producer, used))
  }

  ghost function RecordLiveness(env: Env, rows: Rows, height: nat, parentHash: Bytes, producer: Bytes): Rows {
    match Absent(env, rows, height, parentHash, producer)
    case None => rows
    case Some(missed) => ClearStreak(ChargeAll(rows, height, missed), height, producer)
  }

  /** Credit a cut of the reward. */
  function Reward(rows: Rows, a: Bytes, amount: nat): Rows {
    var acct := GetAccount(rows, a);
    SetAccount(rows, a, acct.(balance := acct.balance + amount, rewards := acct.rewards + amount))
  }

  const COMMISSION: nat := BLOCK_REWARD * LEADER_COMMISSION_PCT / 100
  const SHARED: nat := BLOCK_REWARD - COMMISSION

  function RewardCut(stake: nat, total: nat): nat
    requires total > 0
  {
    Mul128(SHARED, stake) / total
  }

  function RewardAll(rows: Rows, vals: seq<Validator>, total: nat): Rows
    requires total > 0
  {
    if vals == [] then rows else
      var v, before := vals[|vals| - 1], RewardAll(rows, vals[..|vals| - 1], total);
      if RewardCut(v.stake, total) == 0 then before else Reward(before, v.address, RewardCut(v.stake, total))
  }

  function Distributed(vals: seq<Validator>, total: nat): nat
    requires total > 0
  {
    if vals == [] then 0 else
      Distributed(vals[..|vals| - 1], total) + RewardCut(vals[|vals| - 1].stake, total)
  }

  lemma {:induction false} StakeSnoc(vals: seq<Validator>)
    requires vals != []
    ensures TotalStake(vals) == TotalStake(vals[..|vals| - 1]) + vals[|vals| - 1].stake
  {
    PrefixStake(vals, |vals| - 1);
    assert vals[..|vals|] == vals;
  }

  lemma CutScaled(stake: nat, total: nat)
    requires total > 0
    ensures RewardCut(stake, total) * total <= SHARED * stake
  {
  }

  lemma ScaleStep(d: nat, c: nat, total: nat, a: nat, b: nat)
    requires d * total <= SHARED * a && c * total <= SHARED * b
    ensures (d + c) * total <= SHARED * (a + b)
  {
    assert (d + c) * total == d * total + c * total;
  }

  lemma MulStrict(x: nat, y: nat, total: nat)
    requires x > y && total > 0
    ensures x * total > y * total
  {
    MulMonotone(y + 1, x, total, total);
    assert (y + 1) * total == y * total + total;
  }

  lemma {:induction false} DistributedScaled(vals: seq<Validator>, total: nat)
    requires total > 0
    ensures Distributed(vals, total) * total <= SHARED * TotalStake(vals)
  {
    if vals != [] {
      hide TotalStake, RewardCut;
      var last := |vals| - 1;
      DistributedScaled(vals[..last], total);
      StakeSnoc(vals);
      CutScaled(vals[last].stake, total);
      ScaleStep(Distributed(vals[..last], total), RewardCut(vals[last].stake, total), total,
                TotalStake(vals[..last]), vals[last].stake);
    }
  }

  /** Rounded-down shares never add up to more than the pot. */
  lemma DistributedBounded(vals: seq<Validator>, total: nat)
    requires total > 0 && total == TotalStake(vals)
    ensures Distributed(vals, total) <= SHARED
  {
    DistributedScaled(vals, total);
    if Distributed(vals, total) > SHARED {
      MulStrict(Distributed(vals, total), SHARED, total);
    }
  }

  /** The sealed block's leader takes `amount`, of which `reward` is newly issued. */
  function PayLeader(rows: Rows, leader: Bytes, amount: nat, reward: nat): Rows {
    var acct := GetAccount(rows, leader);
    SetAccount(rows, leader, acct.(balance := acct.balance + amount, rewards := acct.rewards + reward,
                                   blocksProduced := acct.blocksProduced + 1))
  }

  ghost function PayRewards(rows: Rows, leader: Bytes, fees: nat): Rows {
    var vals := ValidatorSetAt(rows, NextHeight(rows));
    var total := TotalStake(vals);
    if total == 0 then PayLeader(rows, leader, fees + BLOCK_REWARD, BLOCK_REWARD) else
      DistributedBounded(vals, total);
      var dust := SHARED - Distributed(vals, total);
      PayLeader(RewardAll(rows, vals, total), leader, fees + COMMISSION + dust, COMMISSION + dust)
  }

  function FieldLeaves(env: Env, leaves: seq<Bytes>): seq<NoteTree.Fr> {
    if leaves == [] then [] else
      var last := |leaves| - 1;
      FieldLeaves(env, leaves[..last]) +
      match env.frFromHex(leaves[last])
      case None => []
      case Some(f) => [f]
  }

  function ShieldedRoot(env: Env, rows: Rows): Bytes {
    env.frToHex(NoteTree.Root(env.hash2, FieldLeaves(env, ShieldedLeaves(rows))))
  }

  /** What the shielded leaves of the Merkle tree should hold for these tables. */
  function CurrentSeal(env: Env, rows: Rows): Value {
    SealV(ShieldedRoot(env, rows), PoolBalance(rows), env.nullsDigest(Nullifiers(rows)))
  }

  function SealShieldedRoot(env: Env, rows: Rows, height: nat): Rows {
    var count := LeafCount(rows);
    if height < env.shieldedActivation then rows
    else if count == GetAmount(rows, SealedCountK) && count > 0 then rows
    else
      rows[RootK(ShieldedRoot(env, rows)) := AmountV(height)][SealedCountK := AmountV(count)]
          [SealK := CurrentSeal(env, rows)]
  }

  ghost function FinishBlock(env: Env, rows: Rows, height: nat, parentHash: Bytes, producer: Bytes, fees: nat): Rows {
    var rows1 := ReleaseUnbonded(rows, height);
    var rows2 := RecordLiveness(env, rows1, height, parentHash, producer);
    var rows3 := PayRewards(rows2, producer, fees);
    SealShieldedRoot(env, rows3, height)
  }

  // ---- whole blocks ----

  /** Execute a block's transactions; the first failure rejects the block. */
  ghost function ApplyTxs(env: Env, rows: Rows, txs: seq<Transaction>, height: nat): Result<(Rows, nat)> {
    if txs == [] then Ok((rows, 0)) else
      var last := |txs| - 1;
      var (rows1, fees) :- ApplyTxs(env, rows, txs[..last], height);
      var (rows2, fee) :- ApplyTx(env, rows1, txs[last], height);
      Ok((rows2, fees + fee))
  }

  function BaseFee(rows: Rows): nat {
    if BaseFeeK in rows && rows[BaseFeeK].AmountV? then rows[BaseFeeK].amount else Fees.MIN_FEE
  }

  function StoreBlock(env: Env, rows: Rows, b: Block): Rows {
    PutBlock(rows, env.txHash, b)[BaseFeeK := AmountV(Fees.NextBaseFee(BaseFee(rows), |b.transactions|))]
  }

  /** The tables after executing and storing a whole block on top of the tip. */
  ghost function ExecBlock(env: Env, rows: Rows, b: Block): Result<Rows> {
    var h := b.header;
    if Tip(rows) != Some(h.height - 1) then Err("out of order")
    else if h.hash != HeaderHash(env.crypto, h) then Err("bad producer signature")
    else
      var (rows1, fees) :- ApplyTxs(env, rows, b.transactions, h.height);
      Ok(StoreBlock(env, FinishBlock(env, rows1, h.height, h.parentHash, h.producer, fees), b))
  }

  ghost function RunBlocks(env: Env, rows: Rows, blocks: seq<Block>): Result<Rows> {
    if blocks == [] then Ok(rows) else
      var last := |blocks| - 1;
      var rows1 :- RunBlocks(env, rows, blocks[..last]);
      ExecBlock(env, rows1, blocks[last])
  }

  // ---- genesis ----

  datatype Alloc = Alloc(address: Bytes, balance: nat, stake: nat)

  function GenesisAccounts(alloc: seq<Alloc>): Rows {
    if alloc == [] then map[] else
      var last := |alloc| - 1;
      var a, rows := alloc[last], GenesisAccounts(alloc[..last]);
      var acct := GetAccount(rows, a.address);
      SetAccount(rows, a.address, acct.(balance := acct.balance + a.balance, staked := acct.staked + a.stake))
  }

  function Genesis(env: Env, alloc: seq<Alloc>, block: Block): Rows {
    PutBlock(GenesisAccounts(alloc), env.txHash, block)
  }

  function Allocated(alloc: seq<Alloc>): nat {
    if alloc == [] then 0 else
      var last := |alloc| - 1;
      Allocated(alloc[..last]) + alloc[last].balance + alloc[last].stake
  }
}
