/**
 Plain data shared by every module: identifiers, enumerations and messages.
 Amounts are integers counting ten-thousandths of a unit, without a bound.
 */
module Domain {

  type ClientId = x: int | 0 <= x < 0x1_0000

  type TransactionId = x: int | 0 <= x < 0x1_0000_0000

  datatype Option<+T> = None | Some(value: T)

  datatype TransactionType = Deposit | Withdrawal | Dispute | Resolve | Chargeback

  /** The lifecycle of a recorded deposit or withdrawal. */
  datatype TransactionState = Normal | Disputed | Resolved | ChargedBack

  datatype InputMessage = InputMessage(
    chronoOrder: nat,
    transactionType: TransactionType,
    clientId: ClientId,
    transactionId: TransactionId,
    amount: int)

  datatype TransactionError =
    | InsufficientBalance
    | AccountLocked
    | TransactionNotDisputed
    | InvalidTransaction
    | DuplicateTransaction
    | CannotRevertToNormal
    | AmountNegative
    | TransactionTerminalState
    | AlreadyDisputed

  /** The `Result<(), TransactionError>` every account operation returns. */
  datatype Outcome = Accepted | Rejected(error: TransactionError)
}
