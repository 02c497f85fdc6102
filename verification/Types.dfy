/** Transactions as they travel and are signed (src/types.rs). */
module Types {
  import opened Base

  datatype TxKind =
    | Transfer | Stake | Unstake | ReportEquivocation | Unjail
    | CreateToken | MintToken | TokenTransfer | BurnToken
    | DeployContract | CallContract
    | Shield | PrivateTransfer | Unshield
  {
    function Tag(): Bytes {
      match this
      case Transfer => "transfer"
      case Stake => "stake"
      case Unstake => "unstake"
      case ReportEquivocation => "reportequivocation"
      case Unjail => "unjail"
      case CreateToken => "createtoken"
      case MintToken => "minttoken"
      case TokenTransfer => "tokentransfer"
      case BurnToken => "burntoken"
      case DeployContract => "deploycontract"
      case CallContract => "callcontract"
      case Shield => "shield"
      case PrivateTransfer => "privatetransfer"
      case Unshield => "unshield"
    }
  }

  datatype Payload = Payload(
    token: Bytes, symbol: Bytes, name: Bytes, decimals: U8, mintable: bool, code: Bytes, args: Bytes)

  datatype ShieldedData = ShieldedData(
    anchor: Bytes, nullifiers: seq<Bytes>, commitments: seq<Bytes>, proof: Bytes, publicUnshield: Bytes)

  datatype Transaction = Transaction(
    kind: TxKind, fromPubkey: Bytes, to: Bytes, amount: U128, fee: U128, nonce: U64, chainId: U64,
    payload: Option<Payload>, shielded: Option<ShieldedData>, signature: Bytes)
}
