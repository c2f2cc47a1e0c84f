# Payments engine: a verified model

The engine reads transactions from a CSV file, buffers them in a heap, applies them in batches to
per-client accounts, reports every outcome on a callback, and prints one row per account. This
project models that engine in Dafny, from the text of a row to the text of the printed balances,
and proves what its accounts keep over every run, that batching is invisible, that the engine and
the reference machine of `payments.qnt` simulate each other, and what the amount texts denote.

Check it with `dafny verify dfyconfig.toml`.

## How the model is laid out

| file | what it models |
|---|---|
| `Domain.dfy` | identifiers, messages, lifecycle states, errors |
| `Sums.dfy` | sums over finite maps |
| `Ledger.dfy` | the account state machine on its least state, the transaction map; balances, lock and ID sets are computed from it |
| `LedgerLaws.dfy` | invariants over runs, the exact set of reachable ledgers, the lock, rejections |
| `Resolution.dfy`, `Confluence.dfy` | dispute and resolve leave no trace; when calls on different transactions commute |
| `Account.dfy` | the account object with its redundant fields updated in place, and its self-check with its loops |
| `Engine.dfy` | the sequential engine: a left fold over messages, one ledger per client; the exact set of books it can reach |
| `Quint.dfy`, `Refinement.dfy` | the reference machine of `payments.qnt`, and the simulation both ways |
| `Ordering.dfy`, `Batching.dfy` | the reversed comparison; how a stream is cut into windows and in what order windows are drained |
| `Service.dfy` | the heap by its contract and the service with its loops |
| `Sequential.dfy`, `ClientOrder.dfy` | the service compared with the sequential engine, on the whole and client by client |
| `Amount.dfy`, `AmountLaws.dfy` | parsing and printing amounts; what the texts denote |
| `CsvReader.dfy`, `Snapshot.dfy`, `Pipeline.dfy` | reading rows, writing rows, and a file run from end to end |

The state machine is defined once, as `Ledger.Step` on a map from transaction IDs to entries.
Everything the account stores besides that map is redundant, and `Accounts.Account` is proved, method by
method, to keep it in step. An entry also notes whether a deposit or a withdrawal recorded it.
The source has no such field, and none of the modelled code reads it; it is what lets the balances be
stated as sums. The operation called is kept apart from the type field of the message, because the
`process_*` methods do not compare the two.

What happens to the service from outside is an input of the model: which sends find their receiver
(`Service.Receivers`, one answer for each send of an outcome or an acknowledgement), and after how
many messages, if at all, the cancellation token fires. The heap may pop any of several equal messages.
In a debug build a failing self-check would stop the program; the account methods return its
verdict as `checked` and are proved to return true.

Where the documentation disagrees with the code, the model follows the code. The comments at
`src/domain/account.rs:200-201`, `225-226` and `243-244` and rows 5 and 9 to 15 of `ASSUMPTIONS.md` describe
disputes that are capped, partial or repeatable after a resolve. The code moves the full recorded
amount every time, ignores the amount of the lifecycle message, and treats `Resolved` as terminal.

## Properties that needed a condition

- A printed amount can be parsed again only if it fits 64 bits; otherwise it is refused, never read
  as something else (`AmountLaws.RoundTrip`, `AmountLaws.TooLargeToReread`). Two deposits that a file can hold
  already print such a total (`Snapshot.UnreadableTotal`).
- An amount without a dot is scaled by an unchecked 64-bit multiplication. The result is right
  exactly for at most 922337203685477 units either way (`AmountLaws.ScaleExactIffInBounds`). Beyond
  that and up to the 64-bit limit the dotted and the dotless form of one number differ
  (`AmountLaws.DotMatters`): the dotted form is refused, while the dotless one panics in a debug
  build and wraps around in a release build. `1844674407370956` panics or is read as 0.8384
  (`AmountLaws.OverflowWitness`), also in a row of a file (`CsvReader.OverflowingRow`).
- Interleavings of the same per-transaction calls agree whenever none is a withdrawal or a chargeback
  (`Confluence.DepositsDisputesResolvesConfluent`). With these, call a stream covered if, judging each call
  by the earlier calls on its own transaction, every withdrawal allowed is within the funds at its
  place and no chargeback allowed comes before the last call. This can be told before the run, and
  holds exactly if the run meets no refusal for the lock or for lack of funds
  (`Confluence.UnhinderedIffCovered`). An interleaving agrees with a covered stream if and only if it is
  covered too (`Confluence.InterleavingsAgree`). Any two streams, covered or not, agree if and only if the
  account refuses the same calls of each transaction for those reasons (`Confluence.AgreeIffSameRefusals`).
  `Confluence.WithdrawalsDoNotCommute` and `Confluence.ChargebacksDoNotCommute` are streams that disagree.
- Messages that arrive out of order are applied in the order of their sequence numbers exactly if none of
  them arrives after a younger one's window has been flushed (`Sequential.ShuffledApplication`); the same
  holds for any part of the messages by itself (`ClientOrder.OrderKept`). For the accounts and for what
  each client is told it is enough, though not necessary, that this holds among the messages of each
  client (`ClientOrder.ShuffledClients`). If it holds among the messages on each transaction, the order of
  application is an interleaving: with a covered stream, accounts and outcomes are those of the stream in
  order if and only if the order of application is covered too, and always without withdrawals and
  chargebacks (`ClientOrder.ShuffledTransactions`, `ClientOrder.ShuffledAccounts`). If it does not even hold
  there, two covered orders still end in the same account exactly if each transaction's own messages do
  (`Confluence.CoveredEnds`). `ClientOrder.LateArrival` shows a withdrawal refused for arriving early, and
  `ClientOrder.LateDispute` a dispute.
- A dispute followed by its resolve is invisible exactly to the continuations that make no lifecycle
  call on that transaction while the account is unlocked (`Resolution.DisputeResolveInvisible`); another dispute
  is such a call (`Resolution.ResolvedIsTerminal`).
- The service succeeds exactly if, for every message it takes from the inbox, one more receiver is still there
  (`Service.Service.ServerForever`).

## Model

| member | source | states |
|---|---|---|
| Ledger.BalancesAfterUpdate | src/domain/account.rs:163-260 | What one change of one map entry does to the sums the balances are made of |
| LedgerLaws.StepKeepsGood | src/domain/account.rs:163-260 | Every call keeps: recorded amounts positive and filed under their own ID, at most one chargeback, withdrawals at most deposits |
| LedgerLaws.RunKeepsGood | src/domain/account.rs:163-260 | So does every run of any calls |
| LedgerLaws.ReachableIffGood | src/domain/account.rs:142-260 | Conservation and its converse: a ledger is reachable from a fresh account if and only if it has these invariants |
| LedgerLaws.ShortestRun | src/domain/account.rs:142-260 | Every good ledger is reached by a run of exactly as many calls as its states record accepted work |
| LedgerLaws.WorkNeeded | src/domain/account.rs:53-93 | No run from a fresh account that ends in the ledger has fewer calls |
| LedgerLaws.BalanceBounds | src/domain/account.rs:202-241 | Held is never negative, and an unlocked total is deposits minus withdrawals alone, however often entries were disputed |
| LedgerLaws.RunWork | src/domain/account.rs:53-93 | The number of accepted calls of a run is the growth of the recorded work, from any ledger |
| LedgerLaws.StateCounts | src/domain/account.rs:107-139 | The work recorded is normal + 2 disputed + 3 (resolved + charged back), and the four sets' sizes add up to the map's |
| LedgerLaws.AcceptedCount | src/domain/account.rs:53-139 | Exact work count from a fresh account, and its bounds by the number of recorded transactions |
| LedgerLaws.LockCharacterization | src/domain/account.rs:245-260 | A reachable account is locked iff it has exactly one chargeback; unlocked gives total at least 0 and available at least minus held; locked gives total at least minus the charged-back amount |
| LedgerLaws.ReachableBalances | src/domain/account.rs:142-260 | Which held, total and lock a reachable account can show: held is non-negative, and total is non-negative or the account is locked; all of these occur |
| LedgerLaws.LockIsFinal | src/domain/account.rs:151-159 | After the lock every continuation answers AccountLocked throughout and changes nothing |
| LedgerLaws.LockedByChargeback | src/domain/account.rs:245-260 | A run locks an unlocked account iff it contains an accepted chargeback |
| LedgerLaws.RejectionSources | src/domain/account.rs:72-92 | The lock is the only source of AccountLocked, CannotRevertToNormal is never answered, the table's row for charged-back transactions is never consulted, a rejected call changes nothing |
| LedgerLaws.TransitionTable | src/domain/account.rs:72-92 | For all sixteen pairs of states: allowed, or exactly which error |
| LedgerLaws.LifecycleAnswers | src/domain/account.rs:202-273 | A dispute, resolve or chargeback on an unlocked account: accepted, InvalidTransaction, AlreadyDisputed, TransactionNotDisputed or TransactionTerminalState, each iff the entry is missing or in a stated state |
| LedgerLaws.RecordAnswers | src/domain/account.rs:163-198 | A deposit or withdrawal on an unlocked account: AmountNegative, then DuplicateTransaction, then InsufficientBalance, or accepted, each iff stated by amount, entry and available funds |
| LedgerLaws.AcceptedEffect | src/domain/account.rs:163-260 | An accepted call changes one entry only: recorded as normal with its message, or moved to the state of the operation with everything else kept |
| LedgerLaws.RejectedCallsErasable | src/domain/account.rs:151-260 | Replaying only the accepted calls of any run accepts all of them and reaches the same ledger |
| LedgerLaws.LifecycleAmountsIgnored | src/domain/account.rs:202-260 | Runs that differ only in what lifecycle messages say beyond their transaction ID end alike with the same outcomes |
| Resolution.TwinsIndistinguishable | src/domain/account.rs:163-260 | A continuation sees the same outcomes with t normal or resolved iff it makes no lifecycle call on t while unlocked |
| Resolution.DisputeResolveInvisible | src/domain/account.rs:202-241 | A dispute and its resolve are accepted, leave later outcomes as they were iff t is not touched, and then balances and lock agree after every later call |
| Resolution.ResolvedIsTerminal | src/domain/account.rs:77 | A normal transaction can be disputed; after a dispute and its resolve, disputing it again is TransactionTerminalState |
| Confluence.DecidedPerTransaction | src/domain/account.rs:163-260 | In every run, each transaction's entry and outcomes are decided by its own calls and by which of them the account refused for the lock or lack of funds |
| Confluence.AgreeIffSameRefusals | src/domain/account.rs:163-260 | Any two interleavings of the same per-transaction calls agree, up to chrono_order, iff the account refuses the same calls in both |
| Confluence.FundsForeseen | src/domain/account.rs:163-260 | As long as nothing is refused, the funds are those computed from each transaction's own history |
| Confluence.UnhinderedIffCovered | src/domain/account.rs:155-157 | A run meets no refusal for the lock or lack of funds iff, before the run, the account is unlocked, each withdrawal allowed by its own history is within the foreseen funds, and no chargeback so allowed comes before the last call |
| Confluence.InterleavingsAgree | src/domain/account.rs:163-260 | An interleaving agrees with a covered stream, withdrawals and a final chargeback included, iff it is covered itself |
| Confluence.AgreeingBalances | src/domain/account.rs:163-260 | Interleavings that agree end with equal balances, lock and ID sets |
| Confluence.AgreeExactly | src/domain/account.rs:163-260 | Agreeing interleavings of the very same messages end in the very same ledger |
| Confluence.CoveredEnds | src/domain/account.rs:163-260 | Two covered streams of any calls end in the same ledger iff each transaction's own calls, judged by themselves, end alike |
| Confluence.DepositsDisputesResolvesConfluent | src/domain/account.rs:163-241 | From every account, all interleavings of deposits, disputes and resolves agree: same outcome for each call, same map up to chrono_order, same balances, lock and sets |
| Confluence.WithdrawalsDoNotCommute | src/domain/account.rs:189-191 | A deposit of 5 and a withdrawal of 5, in either order on a fresh account: accepted, or refused for lack of funds |
| Confluence.ChargebacksDoNotCommute | src/domain/account.rs:155-157 | A chargeback and a deposit of another transaction, in either order: accepted, or locked out |
| Accounts.IndexedIffPartitioned | src/domain/account.rs:305-362 | For arbitrary fields, the per-entry check with the containment check holds iff the four sets are the index of the map by state |
| Accounts.SizeAndDisjointnessRedundant | src/domain/account.rs:366-439 | For arbitrary fields, those two checks imply the size assertion, all six disjointness assertions and the re-check of the disputes set |
| Accounts.GoodFieldsConsistent | src/domain/account.rs:279-466 | Fields that stand for a ledger with the invariants pass the self-check |
| Accounts.Replay | tests/fuzz_single_account.rs:51-92 | Any calls whatever on a new account object: it ends with the ledger and the outcomes of the run, and the self-check passes before and after every call |
| Accounts.AllRecorded | src/domain/account.rs:335-341 | The containment loop decides whether a set lies within the map's keys |
| Accounts.AllEntriesIndexed | src/domain/account.rs:305-332 | The loop over the map decides whether each entry is in exactly one set, the one of its state |
| Accounts.AllDisputesDisputed | src/domain/account.rs:431-439 | The loop over the disputes set decides whether all its IDs are recorded as disputed |
| Accounts.PendingSum | src/domain/account.rs:452-459 | The fold computes the sum of the disputed amounts, in whatever order the map is walked |
| Accounts.CheckInvariants | src/domain/account.rs:279-466 | All assertions together hold iff total is non-negative or locked, total = available + held, the sets are the index, locked implies a chargeback, and held is the disputed sum |
| Accounts.ConsistentSpelledOut | src/domain/account.rs:285-464 | For arbitrary fields the self-check passes iff each assertion holds, written out one by one |
| Accounts.Account.constructor | src/domain/account.rs:144-149 | A new account is sound and has recorded nothing |
| Accounts.Account.SharedPrestep | src/domain/account.rs:151-159 | The verdict of the self-check is true, and the answer is AccountLocked iff the ledger is locked |
| Accounts.Account.ProcessDeposit | src/domain/account.rs:163-177 | The in-place updates keep balances, lock and sets equal to those of the new ledger, which with the answer is the state machine's step |
| Accounts.Account.ProcessWithdrawal | src/domain/account.rs:181-198 | Likewise, with funds checked after duplicates and those after the sign |
| Accounts.Account.ProcessDispute | src/domain/account.rs:202-223 | Likewise; the second lookup cannot miss |
| Accounts.Account.ProcessResolve | src/domain/account.rs:227-241 | Likewise; the second lookup cannot miss |
| Accounts.Account.ProcessChargeback | src/domain/account.rs:245-260 | Likewise, and the lock flag is raised exactly when the ledger becomes locked |
| Accounts.Account.Execute | src/domain/account.rs:107-139 | The ID leaves the set of its old state and joins that of its new one, the other sets stay, the map is updated |
| Engine.ClientProjection | src/service/mod.rs:121-136 | After any multi-client run each client's ledger and outcomes are those of its own messages alone; it has an account iff it was mentioned, accepted or not |
| Engine.ReachableIffSound | src/service/mod.rs:121-136 | Books are reachable by some run of messages iff every account has the invariants and every entry was filed by a message of its client typed as the deposit or withdrawal it is |
| Refinement.CallMatchesAction | payments.qnt:118-248 | A call is accepted iff the action of its name is enabled, and then changes account and record as the action does, and no other record |
| Refinement.StepRefines | payments.qnt:118-264 | An accepted message is a step of the reference machine; for a rejected one the action is disabled and the engine's state is unchanged |
| Refinement.EngineRunIsReferenceRun | payments.qnt:107-264 | The accepted messages of any engine run are a run of the reference machine to the corresponding state |
| Refinement.ActionAccepted | payments.qnt:118-264 | Conversely an action taken is accepted by the engine to the same effect |
| Refinement.ReferenceRunIsEngineRun | payments.qnt:107-264 | Every run of the reference machine is followed by the engine, which accepts every action |
| Refinement.EngineSafe | payments.qnt:271-314 | All five safety invariants hold of the state after any engine run |
| Refinement.ReferenceSafe | payments.qnt:271-314 | Hence they hold in every state of every run of the reference machine, for all sets of clients, IDs and amounts |
| Refinement.LockedStaysLocked | payments.qnt:321-324 | A locked account keeps its balances, its lock and its records for the rest of the run |
| Ordering.CompareIsReversed | src/message.rs:25-36 | The comparison is the exact reverse of the lexicographic order by chrono_order, client and transaction, and equality is equality of these keys |
| Ordering.SortedUnique | src/service/pending_transaction.rs:15-33 | With distinct keys a collection has only one oldest-first order |
| Batching.WindowsPartition | src/service/mod.rs:76-101 | The windows in sequence are the received stream: nothing lost, duplicated or moved |
| Batching.WindowSizes | src/service/mod.rs:87-95 | Without completions every flushed window has exactly max(1, batch_size) transactions, with them at most that many; the buffer stays below, and is empty after a completion |
| Batching.InOrderDrainsAll | src/service/mod.rs:83-121 | Windows of an in-order stream, drained one after another, give the stream back |
| Batching.InOrderDrainsPrefix | src/service/mod.rs:121-168 | Interrupted anywhere, what was applied is a prefix of the stream |
| Batching.DrainsAllPermutes | src/service/mod.rs:121-168 | Draining applies each received transaction exactly once |
| Batching.WindowOrderIrrelevant | src/service/mod.rs:83-121 | With distinct keys, two arrivals that differ only within windows are applied in the same order |
| Batching.ChronologicalIffWindowsOrdered | src/service/mod.rs:83-121 | The applied order is oldest first throughout iff no window holds a transaction older than one of an earlier window |
| Batching.ShuffledArrival | src/service/mod.rs:83-121 | A shuffled in-order stream is applied as that stream iff its windows are so ordered |
| Service.BinaryHeap.Pop | src/service/mod.rs:121 | Takes out one message that no other is older than; ties are open; None iff empty |
| Service.Process | src/service/mod.rs:130-137 | The operation named by the message is performed, and the self-checks before and after it pass |
| Service.Service.Dispatch | src/service/mod.rs:125-137 | Finding or creating the account and processing the message changes the account map as the sequential engine does, with the same answer; other clients' accounts stay |
| Service.DeliveryAt | src/service/mod.rs:125-165 | The i-th delivery goes to the i-th transaction's callback, names its client and transaction, and tells what that client's account answered after its own earlier messages |
| Service.Service.Apply | src/service/mod.rs:121-137 | The accounts remain those of the fold over all applied transactions, now with this one |
| Service.Service.ApplyAndSend | src/service/mod.rs:121-167 | The transaction is applied even if its receiver is gone, in which case exactly the last outcome is missing |
| Service.Service.FlushOldest | src/service/mod.rs:121-168 | One turn of the loop applies and reports an oldest message of the buffer, or finds it empty |
| Service.Service.DrainBuffer | src/service/mod.rs:121-168 | The loop applies transactions of the window oldest first, one send each; if no send fails it applies all of them, otherwise the failed send is the last |
| Service.Service.HandleBuffer | src/service/mod.rs:108-180 | A flush leaves an empty buffer and one more drained window, or stops inside it with the outcome of the last applied transaction unsent |
| Service.Service.Receive | src/service/mod.rs:82-91 | Buffering cuts the stream as the window function does; afterwards fewer than max(1, batch_size) messages are buffered |
| Service.Service.Iteration | src/service/mod.rs:76-101 | Every service message advances the windows, with buffer, accounts, callbacks and number of sends to match, or a failed send interrupts the work |
| Service.Service.Listen | src/service/mod.rs:57-70 | The loop takes messages up to cancellation or the end, with the windows drained so far and the rest buffered, or stops at the first failed send |
| Service.Service.ServerForever | src/service/mod.rs:51-73 | From any accounts: the run succeeds iff as many receivers are there as messages are taken before cancellation or the end; then all of these are received and all windows, the last included, are drained and delivered; otherwise the first receiver gone ended it within a window or on its acknowledgement |
| Sequential.InOrderApplication | src/service/mod.rs:51-168 | For every batch size and every placement of completions, an in-order stream is applied in arrival order, all of it |
| Sequential.InOrderInterruption | src/service/mod.rs:51-168 | After a failed send, a prefix of an in-order stream has been applied |
| Sequential.ArrivalWithinWindows | src/service/mod.rs:83-121 | Shuffling within windows changes neither accounts nor deliveries |
| Sequential.ShuffledApplication | src/service/mod.rs:83-121 | Out-of-order arrival is repaired iff no transaction comes after its window |
| ClientOrder.OrderKept | src/service/mod.rs:83-121 | The messages selected by any criterion, such as a client or a transaction, are applied in the order of the shuffled stream iff none comes in a later window than a younger one of them |
| ClientOrder.ShuffledClients | src/service/mod.rs:83-136 | Every client's messages keep their order iff every client's windows are ordered, and then accounts and every client's outcomes are those of the fold over the stream in order |
| ClientOrder.ShuffledTransactions | src/service/mod.rs:83-136 | If only each transaction's messages keep their order, a client's account and outcomes are those of the stream in order iff the same messages are refused for lock or funds; with a covered stream iff the order of application is covered; always without withdrawals and chargebacks |
| ClientOrder.ShuffledAccounts | src/service/mod.rs:83-136 | The same for all clients of a batched run at once, with all accounts equal |
| ClientOrder.Unbuffered | src/service/mod.rs:87-89 | With batch size zero or one, transactions are applied as they arrive |
| ClientOrder.LateArrival | src/service/mod.rs:87-89 | With batch size one, a withdrawal that arrives before its older deposit is refused |
| ClientOrder.LateDispute | src/service/mod.rs:87-89 | With batch size one, a dispute that arrives before its deposit is refused as invalid |
| Sequential.Serve | src/service/mod.rs:51-168 | A run on an in-order stream, from any accounts, succeeds iff each message taken finds a receiver, and then equals the left fold over all taken, in accounts and in callback sequence; otherwise the first receiver gone ended it, with the fold over a prefix and at most one outcome undelivered |
| Amount.DecimalDigits | src/domain/amount.rs:68-75 | The printed digits of a number denote it |
| AmountLaws.ParseDotted | src/domain/amount.rs:33-46 | A decimal with a dot and any number of places, with any white space around, reads as its truncation toward zero at four places if that fits 64 bits, and is refused otherwise |
| AmountLaws.TruncationExists | src/domain/amount.rs:38-43 | Every decimal, whatever its number of places, has a truncation toward zero at four places |
| AmountLaws.TruncationUnique | src/domain/amount.rs:38-43 | No decimal has two |
| AmountLaws.ParseDotless | src/domain/amount.rs:47-50 | A decimal without a dot is refused iff its units do not fit 64 bits, and otherwise scaled unchecked |
| AmountLaws.IntegerTexts | src/domain/amount.rs:44-48 | An integer is read from exactly the texts of an optional sign and digits that denote it, within 64 bits; all others are refused |
| AmountLaws.JunkRefused | src/domain/amount.rs:33-51 | A text that is empty after trimming, or has a character other than digits, signs and the first dot before the fifth place, is refused |
| AmountLaws.BlanksIgnored | src/domain/amount.rs:34 | Spaces, tabs and line ends around a decimal are ignored |
| AmountLaws.WhitespaceCharacters | src/domain/amount.rs:34 | The characters trimmed are Unicode white space and no others |
| AmountLaws.ScaleExactIffInBounds | src/domain/amount.rs:22-24 | The unchecked product is the exact one iff the units are within 922337203685477 either way |
| AmountLaws.ScaleOutOfBounds | src/domain/amount.rs:48-49 | Any units beyond the bounds panic in a debug build and become the 64-bit value congruent to the product in a release build |
| AmountLaws.DotMatters | src/domain/amount.rs:33-51 | The dotted and the dotless form of whole units read alike iff the units are within those bounds or do not fit 64 bits at all |
| AmountLaws.OverflowWitness | src/domain/amount.rs:48-49 | 1844674407370956 panics in a debug build and reads as 0.8384 in a release build; with four zeros after a dot it is refused |
| AmountLaws.TooLargeToReread | src/domain/amount.rs:33-77 | The amount one beyond 64 bits is printed but cannot be read again |
| AmountLaws.DisplayExact | src/domain/amount.rs:59-77 | The printed text is a well-formed decimal that denotes the amount exactly, with four places, a whole part, and a minus iff negative |
| AmountLaws.DisplayIsTheOnlyText | src/domain/amount.rs:59-77 | The printed text is the only one made of a minus iff negative, a whole part without needless zeros, a dot and four digits that denotes the amount |
| AmountLaws.RoundTrip | src/domain/amount.rs:33-77 | Parsing a printed amount gives it back iff it fits 64 bits, and is refused otherwise |
| AmountLaws.DisplayInjective | src/domain/amount.rs:59-77 | Different amounts of any size are printed differently |
| CsvReader.DecodeInvertsEncode | src/infrastructure/csv_reader.rs:74-97 | A message written as a row is read back whole if its amount fits 64 bits, and fails otherwise |
| CsvReader.FiveWords | src/domain/transaction.rs:26-35 | Each operation is named by its word alone, and no other text names one |
| CsvReader.ParseUnsignedSpells | src/infrastructure/csv_reader.rs:77-80 | An identifier is read from exactly the texts of digits, or a plus sign and digits, that denote it below the bound |
| CsvReader.RowsOfMessages | src/infrastructure/csv_reader.rs:64-97 | A row is a given message iff its word names the operation, its texts spell the identifiers in range, its amount is empty and zero or is read as the amount, and the number is the one due |
| CsvReader.RowsWithoutMessage | src/infrastructure/csv_reader.rs:64-97 | Exactly which rows fail and which crash; none passes for the end of the file |
| CsvReader.EmptyAmount | src/infrastructure/csv_reader.rs:82-86 | With an empty amount every operation is the message with amount zero |
| CsvReader.OverflowingRow | src/infrastructure/csv_reader.rs:82-97 | A deposit row with that amount stops a debug build and becomes a deposit of 0.8384 in a release build |
| CsvReader.LoadDecodesRows | src/infrastructure/csv_reader.rs:53-100 | The messages are the first rows in order, each decoded with its own number |
| CsvReader.LoadEnds | src/main.rs:146-149 | Reading ends with the file iff all rows decode, and otherwise at the first that fails, with its failure |
| CsvReader.NumberedFromZero | src/infrastructure/csv_reader.rs:88-89 | The sequence numbers count the rows from zero, so they are distinct and increasing |
| CsvReader.CsvReader.Next | src/infrastructure/csv_reader.rs:53-100 | Consumes one row and uses up a number only if the row decodes; once the end was seen it stays the end |
| CsvReader.ReadAll | src/main.rs:146-149 | The loop over the reader collects what the remaining rows decode to, up to the first failure |
| CsvReader.LoadedFromUnique | src/main.rs:146-149 | What a file must load as is unique |
| CsvReader.LoadFile | src/main.rs:134-159 | Loading delivers the first rows, each decoded with its own number from zero; it ends after the last row, or at the first row that is no message with that row's failure |
| CsvReader.FileRoundTrip | src/infrastructure/csv_reader.rs:53-100 | Messages numbered from zero and written as rows load as themselves iff all amounts fit 64 bits |
| Snapshot.WriteMessage | src/infrastructure/csv_writer.rs:28-41 | The row shows the client, the three stored balances and the stored lock flag, and is that of the ledger |
| Snapshot.WriteSnapshot | src/service/mod.rs:183-213 | Exactly one row for every account, whatever the iteration order |
| Snapshot.ColumnsOf | src/message.rs:83-93 | In a snapshot each client has one row; it shows locked iff the client's ledger has a charged-back entry, and the printed available, held and total of that ledger |
| Snapshot.RowsReread | src/infrastructure/csv_writer.rs:28-41 | The printed balances can be parsed again iff all three fit 64 bits; they are then the account's, and total = available + held |
| Snapshot.UnreadableTotal | src/infrastructure/csv_writer.rs:28-41 | A reachable account of two deposits, each within 64 bits, prints a total that cannot be parsed |
| Snapshot.RowsFaithful | src/message.rs:83-93 | Accounts with the same row have the same balances and lock, of any size |
| Pipeline.FileArrivesInOrder | src/main.rs:146-157 | A file reaches the service in order, each message once, and the completion signal then leaves nothing buffered for any batch size |
| Pipeline.RunFile | src/main.rs:40-113 | End to end: there is a snapshot iff every row is a message, cancellation does not come before the completion signal, and the outcomes and the acknowledgement all find their receivers; its rows are those of the left fold over these messages, for every batch size, locked iff a chargeback of the client was accepted |
| Pipeline.SnapshotOfClients | src/service/mod.rs:193-201 | Exactly the mentioned clients have rows, with the balances their own messages alone produce, locked iff one of their chargebacks was accepted, held non-negative, and total non-negative unless locked |

## Left out

- `history_changes` of an account (`src/domain/account.rs:33`, `153-154`), a debug-only log that nothing reads; "unchanged" does not cover it.
- Metrics, tracing, timing and the counters that feed them.
- Command-line arguments, task spawning and shutdown in `src/main.rs`; the loader, the service and the snapshot run one after another in the model, which is the order the completion signal enforces.
- The interplay of the cancellation token with messages ready at the same moment: the model is given the number of messages taken before the token is seen, which covers every choice the runtime can make.
- CSV tokenizing, trimming of fields and file I/O: a row arrives as four trimmed texts or as unreadable. The header row of the snapshot and write errors are not modelled.
- DashMap: one task writes accounts, so a plain map stands for it; the iteration order of the snapshot is left open.
- Internals of BinaryHeap and BigInt: the heap is a multiset with extract-greatest, amounts are integers.
- Tokio channels: an inbox is the sequence of messages the loop would receive, and each send is told whether its receiver is still there.
- Overflow of the 64-bit `chrono_order` counter: sequence numbers are natural numbers here.
- Malformed amount texts that are not refused, such as a sign right after a leading dot or anything after the fourth place: `Amount.Parse` treats them as the code does, but no theorem says what they are read as.
- `Neg`, `Add`, `Sub` and the assigning operators of amounts, which are the integer operations.
- The command-line layer and the test code of the repository.
