# A verified model of the toy UTXO ledger in `Database/`

The repository keeps a minimal ledger in three SQL tables: wallets (an address and a
mint flag), UTXOs (an amount owned by a wallet, created by a transaction) and
transactions (the ids of the UTXOs they consume, their outputs, signatures and a mint
flag). Nothing is ever deleted or marked. A UTXO is meant to be spent when some
transaction lists its id among its inputs, and the model defines it so. The query the
code issues for this, `Transaction.inputs.contains([utxo_id])` on a generic `JSON`
column, may instead match only transactions whose inputs are exactly `[id]`. That
reading is modelled separately, under "Findings". The ledger exists twice:

- `Database/wallet.py`, class `WalletManager`: creates wallets, grants the mint flag,
  mints, computes available UTXOs and balances, lets the operator pick UTXOs at a
  checkbox prompt and runs `transfer_money`.
- `Database/models.py`: the same store operations spread over the ORM classes, plus a
  lazily created "used UTXO" list and two read-only validators,
  `verify_create_money_inputs` and `validate_transfer`.

The Dafny project has four modules:

- `Ledger` (`ledger.dfy`): the records and the queries both files share: lookup by
  address (first match), a wallet's UTXOs, spent-ness, available UTXOs, balances,
  the wallets table after a mint authorization, and the mint gate.
- `Selection` (`selection.dfy`): what the selection code does with the checkbox
  answers. It zips the answers with the offered UTXOs into a dictionary and looks each
  answer up in it. So the selection is always the first `k` offered UTXOs, `k` being
  the number of answers, whichever ids were ticked.
- `WalletManagerModel` (`wallet_manager.dfy`): class `WalletManager`. Its tables are
  `seq` fields that the methods append to or update.
  - `TransferMoney` is proved equal to the specification function `Transfer`. The
    lemmas beside it state what a transfer does: its three checks, the failure paths
    that leave the store unchanged, the transaction it records, the UTXOs it creates,
    and that value is conserved. Further lemmas state how the source's available
    balance changes, and that a transfer never spends a UTXO a second time.
- `OrmModels` (`models.dfy`): class `Session` for the store operations of
  `Database/models.py`, and the two validators as a function and a method.

Ids are row positions: the first row has id 0 where SQLite would give 1. This is a
renumbering only. Amounts are integers in minor units.

Where the intended design and the code part ways, the model follows the code:

- `transfer_money` never checks that destinations exist. Before the first unknown one
  it has already committed the transaction and the earlier UTXOs; then `None.id`
  raises. The model ends with `DestinationNotFound(i)` and keeps what was committed.
- When a selection falls short, `show_utxos_and_select` in `Database/wallet.py` asks
  again. It returns only a selection that covers the amount. The one in
  `Database/models.py` asks once and returns whatever was selected.
- In `Database/wallet.py` the `used_utxos` list never grows. It keeps a UTXO when
  `utxo.id in selected_utxos_ids`, which compares an integer with strings and is never
  true. `WalletManager.Valid()` records that the list stays empty.
- In `Database/models.py` `_add_used_utxo` is handed a generator object, not a UTXO.
  The list is cleared at the start of every selection. After a selection it holds
  exactly that one generator, so it never filters anything out.
- In `Database/models.py` the method `authorize_address_to_create_money` has the same
  name as the flag's column and replaces it in the class. The flag is therefore a
  plain attribute of the wallet object, which the model keeps as the `canMint` field.

## Model

| member | source | states |
|---|---|---|
| `Ledger.WalletIndex` | Database/wallet.py:94 | a position found holds a wallet with the address |
| `Ledger.WalletIndexIsFirst` | Database/wallet.py:92-94 | the lookup returns the first wallet with the address, and finds none exactly when no wallet has it |
| `Ledger.FindWallet` | Database/wallet.py:92-94 | `fetch_wallet_by_address` (also Database/models.py:44-47): a found wallet is in the table and has the address |
| `Ledger.FindWalletNone` | Database/wallet.py:92-94 | the lookup is empty iff no wallet has the address |
| `Ledger.FoundWalletAtItsId` | Database/wallet.py:104-107 | in a well-formed store the wallet found for an address is the row at its own id, so updating that row updates the found wallet |
| `Ledger.FindAppended` | Database/wallet.py:57-61 | a wallet appended under an unused address is the one found for it afterwards |
| `Ledger.SpendingCountPositive` | Database/wallet.py:134-136 | the count of transactions whose inputs hold the id is positive iff some transaction lists it |
| `Ledger.SpendingCount` | Database/wallet.py:136 | the `.count()` of transactions whose inputs hold the id, never more than the number of transactions |
| `Ledger.IsSpent` | Database/wallet.py:134-136 | `is_utxo_spent` as intended (also Database/models.py:219-222): true iff some stored transaction lists the id among its inputs; the query as issued may differ, see `Ledger.QueriedSpendMissesSharedInput` |
| `Ledger.IsSpentAppend` | Database/wallet.py:134-136 | after one more transaction is stored, an id is spent iff it was spent before or the new transaction lists it |
| `Ledger.IsSpentAsQueried` | Database/wallet.py:136 | `is_utxo_spent` as the query is issued (also Database/models.py:222): some row's serialized inputs contain the text `[id]`; the as-written half of the second Findings row, whose behaviour `Ledger.QueriedSpendMissesSharedInput` states |
| `Ledger.QueriedSpendMissesSharedInput` | Database/wallet.py:136 | read as a substring test of the serialized `[id]` against each row's serialized inputs, the query finds a transaction whose inputs are `[0]` but not one whose inputs are `[0, 1]`, which `IsSpent` counts as spending UTXO 0 |
| `Ledger.Filter` | Database/wallet.py:142 | a list comprehension keeps exactly the elements passing the test, in order (a subsequence) |
| `Ledger.FilterAppend` | Database/wallet.py:142 | filtering a concatenation concatenates the filtered parts |
| `Ledger.FilterKeepsIncreasing` | Database/wallet.py:142 | a filtered list of rows in id order is still in id order |
| `Ledger.UtxosOf` | Database/wallet.py:97-99 | `fetch_utxos_by_wallet` (also Database/models.py:71-74): exactly the wallet's UTXOs, in store order |
| `Ledger.Available` | Database/wallet.py:139-142 | `fetch_available_utxos` (also Database/models.py:76-80): exactly the wallet's unspent UTXOs, a subsequence of its UTXOs |
| `Ledger.AvailableFor` | Database/wallet.py:208-218 | `fetch_available_utxos(fetch_wallet_by_address(address))`, what the prompt is offered: empty for an unknown address, otherwise `Available` for the found wallet, whose laws are its own row's |
| `Ledger.Balance` | Database/wallet.py:145-147 | `calculate_total_balance` (also Database/models.py:82-85): the sum of the amounts; its laws are the two rows below |
| `Ledger.BalanceAppend` | Database/wallet.py:145-147 | the sum of amounts (0 for no UTXOs; also Database/models.py:82-85) is additive over concatenation |
| `Ledger.BalanceSplit` | Database/wallet.py:145-147 | the sum over a list is the sum over its first `n` elements plus the sum over the rest |
| `Ledger.OutputsTotal` | Database/wallet.py:215 | `transfer_amount`, the sum of the detail amounts; its law is the row below |
| `Ledger.OutputsTotalAppend` | Database/wallet.py:215 | the transfer amount, the sum of the detail amounts, is additive over concatenation |
| `Ledger.Authorized` | Database/wallet.py:102-110 | the wallets table after authorization: same length, ids and addresses; an unknown address changes nothing; the found wallet gets the flag; wallets with other addresses are unchanged |
| `Ledger.WalletIndexOnlyReadsAddresses` | Database/wallet.py:104 | the lookup reads only addresses, so setting a flag does not move it |
| `Ledger.AuthorizeIdempotent` | Database/wallet.py:102-110 | authorizing twice is authorizing once |
| `Ledger.Ids` | Database/wallet.py:76 | `[utxo.id for utxo in inputs]` (also Database/models.py:170): one id per UTXO, the i-th id being the i-th UTXO's |
| `Ledger.MintAllowed` | Database/wallet.py:118 | the mint gate: the minter's wallet exists and is flagged, and the destination's wallet exists; `AuthorizeEnablesMint` and `CreateMoney` state what it decides |
| `Ledger.AuthorizeEnablesMint` | Database/wallet.py:113-118 | after authorizing `m`, the mint gate for `m` holds exactly when `m` and the destination exist |
| `WalletManagerModel.IdAmongAnswers` | Database/wallet.py:184 | `utxo.id in selected_utxos_ids`, false for every id and answer list because an integer never equals a string; its consequence, that `used_utxos` never grows, is stated by `WalletManager.Valid()` (the list stays empty), which `ShowUtxosAndSelect` keeps |
| `Selection.ZipDict` | Database/wallet.py:187 | every key of the zipped dictionary is one of the answers |
| `Selection.ZipDictAt` | Database/wallet.py:187 | with distinct answers, the i-th answer maps to the i-th offered UTXO |
| `Selection.SelectByAnswers` | Database/wallet.py:187-189 | the selection is the first `len(answers)` offered UTXOs, whatever the answers name (also Database/models.py:142-145) |
| `WalletManagerModel.SelectRounds` | Database/wallet.py:197-201 | the recursive prompt settles on the first answer whose selection covers the target; a result covers it; there is none iff no answer covers it |
| `WalletManagerModel.PayeeUtxos` | Database/wallet.py:232-240 | one UTXO per detail, in order, numbered from the first free id, of the detail's amount, owned by the destination's wallet and linked to the transaction |
| `WalletManagerModel.PayeeUtxosExtend` | Database/wallet.py:232-240 | one more loop iteration appends exactly the next detail's UTXO |
| `WalletManagerModel.PayeeUtxosTotal` | Database/wallet.py:232-240 | the payee UTXOs hold exactly the transfer amount |
| `WalletManagerModel.ChangeUtxos` | Database/wallet.py:242-245 | at most one UTXO, holding the change when it is positive and nothing otherwise, owned by the source, with the given id, linked to the transaction |
| `WalletManagerModel.TransferOutputs` | Database/wallet.py:232-245 | the UTXOs a completed transfer creates, the payees' then the change; `TransferOutputsLayout`, `TransferConservesValue` and `TransferOutputsForSource` state their laws |
| `WalletManagerModel.TransferConservesValue` | Database/wallet.py:232-245 | the payee UTXOs plus the change UTXO hold exactly the selected total |
| `WalletManagerModel.TransferLayout` | Database/wallet.py:232-246 | the payee step followed by the change step appends one block of new UTXOs |
| `WalletManagerModel.FirstMissing` | Database/wallet.py:232-237 | the position of the first detail whose address has no wallet, every earlier one having one; none iff all exist |
| `WalletManagerModel.TransferUtxos` | Database/wallet.py:232-246 | the payee loop then the change step, stopping at the first unknown destination with the earlier payee UTXOs; `TransferUtxosNumbered`, `CommitPaysDetails` and `CommitStopsAtMissing` state their laws |
| `WalletManagerModel.FirstMissingAt` | Database/wallet.py:237 | an unknown address after known ones is the first missing one |
| `WalletManagerModel.Commit` | Database/wallet.py:222-246 | the commit half keeps every stored row of both tables and appends exactly one transaction |
| `WalletManagerModel.Transfer` | Database/wallet.py:207-252 | `transfer_money` never removes or rewrites a stored row of either table; the lemmas below state the rest |
| `WalletManagerModel.TransferReachesCommit` | Database/wallet.py:208-222 | once the source exists, its balance covers the amount and a selection is made, the transfer is its commit half |
| `WalletManagerModel.TransferOutputsLayout` | Database/wallet.py:232-246 | a completed transfer creates one UTXO per detail, then a change UTXO for the source exactly when the change is positive |
| `WalletManagerModel.CommitPaysDetails` | Database/wallet.py:222-246 | with all destinations known the commit completes, keeps the old rows, appends the payee and change UTXOs, and they hold exactly the selected total |
| `WalletManagerModel.CommitStopsAtMissing` | Database/wallet.py:232-240 | with detail `i` the first unknown destination, the commit stops there, keeping the UTXOs of details before `i` |
| `WalletManagerModel.CommitKeepsWellFormed` | Database/wallet.py:222-246 | the commit keeps ids equal to row positions |
| `WalletManagerModel.TransferChecks` | Database/wallet.py:207-217 | the transfer reports a missing source iff the lookup fails, insufficient funds (with the available balance) iff the available balance is below the amount, and an abandoned selection iff no answer covers the amount |
| `WalletManagerModel.TransferFailureChangesNothing` | Database/wallet.py:249-252 | a transfer that stops at a check leaves both tables unchanged |
| `WalletManagerModel.TransferSpendsSelection` | Database/wallet.py:218-230 | past its checks a transfer appends one transaction with the selected ids as inputs, the details as outputs, the source as signature and no mint flag; the selection covers the amount, was owned by the source and unspent, and afterwards is spent and no longer available |
| `WalletManagerModel.TransferPaysDetails` | Database/wallet.py:232-246 | a transfer whose destinations exist completes with one UTXO per detail, a change UTXO iff the selection exceeds the amount, and new UTXOs worth exactly the selection |
| `WalletManagerModel.TransferStopsAtMissing` | Database/wallet.py:232-240 | a transfer stops at the first unknown destination, keeping its transaction and the earlier UTXOs |
| `WalletManagerModel.TransferUtxosNumbered` | Database/wallet.py:236-245 | the UTXOs a transfer creates take the next ids |
| `WalletManagerModel.TransferKeepsWellFormed` | Database/wallet.py:207-252 | `transfer_money` keeps ids equal to row positions |
| `WalletManagerModel.PayeeUtxosPaidTo` | Database/wallet.py:232-240 | the payee UTXOs a wallet receives hold exactly the amounts the details send to its address |
| `WalletManagerModel.TransferOutputsForSource` | Database/wallet.py:232-245 | the source's share of the UTXOs a completed transfer creates is its change plus what the details send to itself |
| `WalletManagerModel.OldRowsAfterSpend` | Database/wallet.py:139-142 | once a transaction spends the first `n` available UTXOs of a wallet, its old UTXOs still available are exactly the remaining ones, in order |
| `WalletManagerModel.NewRowsAfterSpend` | Database/wallet.py:139-142 | UTXOs created after the stored rows are all unspent after a transaction that spends only stored rows |
| `WalletManagerModel.AvailableAfterSpend` | Database/wallet.py:139-147 | spending the first `n` available UTXOs and storing new rows changes the available balance by minus the spent total plus the wallet's share of the new rows |
| `WalletManagerModel.CommitCompletes` | Database/wallet.py:222-246 | with every destination known, the commit completes with the old rows, the payee and change UTXOs, and one transaction spending the selection |
| `WalletManagerModel.SpendAndStoreOutputs` | Database/wallet.py:222-246 | spending the selection and storing a completed transfer's UTXOs changes the source's available balance by minus the selection plus its change and what it pays itself |
| `WalletManagerModel.CommitAvailableBalance` | Database/wallet.py:222-246 | the commit half lowers the source's available balance by the transfer amount, less what the details send back to the source |
| `WalletManagerModel.TransferAvailableBalance` | Database/wallet.py:207-252 | a completed transfer lowers the source's available balance by the transfer amount, less what the details send back to the source, in any store whose transactions spend only stored UTXOs |
| `WalletManagerModel.CommitKeepsInputsKnown` | Database/wallet.py:222-230 | when the selection is stored, the commit keeps every transaction input the id of a stored UTXO |
| `WalletManagerModel.TransferKeepsInputsKnown` | Database/wallet.py:207-252 | `transfer_money` keeps every transaction input the id of a stored UTXO |
| `WalletManagerModel.TransferNoDoubleSpend` | Database/wallet.py:207-252 | if no UTXO is spent by two stored transactions, none is after a transfer: it spends only available UTXOs |
| `WalletManagerModel.WalletManager.constructor` | Database/wallet.py:48-53 | the store starts with three empty tables |
| `WalletManagerModel.WalletManager.CreateWallet` | Database/wallet.py:57-61 | appends one wallet with the flag cleared, which the lookup then finds |
| `WalletManagerModel.WalletManager.CreateUtxo` | Database/wallet.py:65-71 | appends exactly one UTXO with the next id and returns it |
| `WalletManagerModel.WalletManager.CreateTransaction` | Database/wallet.py:74-88 | appends exactly one transaction whose inputs are the given UTXOs' ids in order; each of them is then spent |
| `WalletManagerModel.WalletManager.AuthorizeAddressToCreateMoney` | Database/wallet.py:102-110 | the wallets table becomes `Authorized(old, address)`; UTXOs and transactions are untouched |
| `WalletManagerModel.WalletManager.CreateMoney` | Database/wallet.py:113-131 | mints iff the minter exists and is flagged and the destination exists; then one mint transaction and one UTXO of the amount for the destination; otherwise nothing changes |
| `WalletManagerModel.WalletManager.ShowUtxosAndSelect` | Database/wallet.py:154-201 | returns the selection `SelectRounds` settles on, with its total, or none when the answers run out |
| `WalletManagerModel.WalletManager.CreatePayeeUtxos` | Database/wallet.py:232-240 | the payee loop reports the first unknown destination and leaves exactly the payee UTXOs before it, or all of them |
| `WalletManagerModel.WalletManager.CreateChangeUtxo` | Database/wallet.py:241-245 | appends a change UTXO for the source iff the change is positive |
| `WalletManagerModel.WalletManager.CreateTransferUtxos` | Database/wallet.py:232-246 | the payee loop then the change step create the UTXOs `TransferUtxos` describes |
| `WalletManagerModel.WalletManager.RecordTransfer` | Database/wallet.py:222-246 | the commit half leaves the outcome and tables `Commit` describes |
| `WalletManagerModel.WalletManager.TransferMoney` | Database/wallet.py:207-252 | the outcome and new tables are those of `Transfer`, whose properties the lemmas above state |
| `OrmModels.IsValidWalletAddress` | Database/models.py:201-203 | the count of wallets with the address is non-zero exactly when the lookup finds one |
| `OrmModels.IsValidWalletAddressAtMostOne` | Database/models.py:14 | with unique addresses the count is 0 or 1 |
| `OrmModels.Truthy` | Database/models.py:20-24 | `if address:` and `if not self.address:`: the address is present and non-empty; `NewWallet` and `Create` state what it decides |
| `OrmModels.VerifyCreateMoneyInputs` | Database/models.py:184-199 | as written, the "not authorized" failure is never reported |
| `OrmModels.VerifyCreateMoneyInputsAccepts` | Database/models.py:184-199 | as written, the inputs pass iff both wallets exist and the amount is positive; an invalid authorized address, an invalid destination address and an invalid amount are each reported iff that check is the first to fail |
| `OrmModels.VerifyMintInputs` | Database/models.py:184-199 | the check with the flag read: it passes only when the mint gate holds and the amount is positive |
| `OrmModels.VerifyCreateMoneyInputsSkipsFlag` | Database/models.py:184-199 | the check as written returns what the corrected check returns, except that it accepts where the corrected one reports "not authorized" |
| `OrmModels.VerifyCreateMoneyInputsIgnoresFlag` | Database/models.py:196-198 | an existing minter without the mint flag passes the check, though the mint gate refuses it |
| `OrmModels.VerifyMintInputsAgreesWithMint` | Database/models.py:184-199 | with the flag checked, the inputs pass iff the mint gate holds and the amount is positive, and each failure is reported iff it is the first check that fails |
| `OrmModels.VerifyMintInputsAfterAuthorize` | Database/models.py:33-42 | after authorizing the minter, the corrected check passes iff both wallets exist and the amount is positive |
| `OrmModels.DetailError` | Database/models.py:228-239 | a detail passes iff its source is listed, its destination is a wallet and its amount is present and positive; an unknown source (with the source), an unknown destination (with the destination) and a bad amount (with destination and amount) are each reported iff that check is the first to fail |
| `OrmModels.ValidateTransfer` | Database/models.py:225-241 | accepts iff every detail passes; otherwise reports the failure of the first detail that fails |
| `OrmModels.Session.constructor` | Database/models.py:244-252 | three empty tables, and no used-UTXO list yet |
| `OrmModels.Session.Create` | Database/models.py:23-31 | an empty or missing address inserts nothing; otherwise exactly one wallet with that address and the flag cleared |
| `OrmModels.Session.NewWallet` | Database/models.py:18-21 | `Wallet(address)` inserts a wallet iff the address is truthy |
| `OrmModels.Session.AuthorizeAddressToCreateMoney` | Database/models.py:33-42 | the wallets table becomes `Authorized(old, address)`: only the found wallet's flag changes |
| `OrmModels.Session.CreateUtxo` | Database/models.py:62-69 | appends exactly one UTXO with the next id and returns it |
| `OrmModels.Session.CreateTransaction` | Database/models.py:167-182 | appends exactly one transaction whose inputs are the given UTXOs' ids in order; each of them is then spent |
| `OrmModels.Session.GetUsedUtxos` | Database/models.py:88-92 | creates the list empty when it does not exist yet, and returns it |
| `OrmModels.Session.AddUsedUtxo` | Database/models.py:95-97 | appends exactly one entry |
| `OrmModels.Session.ClearUsedUtxos` | Database/models.py:100-102 | empties the list |
| `OrmModels.Session.ShowUtxosAndSelect` | Database/models.py:105-149 | every available UTXO is offered; returns the first `len(answers)` of them and their total, without checking coverage; the list then holds the one generator |

## Left out

- The SQLAlchemy engine, session, `create_all` and `commit`: each commit is one atomic append to, or update of, a `seq` field.
- The `inquirer` prompt and every `print`: the prompt's answers are an input. In `Database/wallet.py` they are a finite list of rounds. When the rounds run out without covering the amount, the model ends with `SelectionAbandoned`, where the source would keep asking.
- `WalletManagerModel.WalletManager.CreateWallet` and `OrmModels.Session.Create`: a duplicate address would make the database's unique constraint raise at commit. The model requires an unused address instead of modelling that exception.
- `Float` amounts: amounts are integers, so rounding in sums is not modelled.
- `isinstance(amount, (int, float))` in `verify_create_money_inputs` and `validate_transfer`: a typed amount leaves only the `> 0` test. In `validate_transfer`, a missing amount (`None`) is kept.
- `validate_transfer` takes `source_addresses` as a list of strings, so the case of a `None` inside that list is not modelled.
- `sign_transaction` and `verify_signature` (Database/models.py:205-217): wrappers over `ecdsa`, which no ledger flow calls.
- The demo calls at the end of `Database/wallet.py`, and `Bitcoin_parsing/read0.py` (a hash of a fixed hex string): `Bitcoin_parsing/read0.py` is not part of this model.
- Concurrency: the source is single-threaded.
- The order of query results: `.first()` and `.all()` (Database/wallet.py:94, 99 and 142, Database/models.py:71-74) carry no `ORDER BY`, so the database may return rows in any order. The model fixes it to insertion order. Which UTXOs a selection spends depends on that order, because the selection takes the first offered UTXOs.
- `Ledger.IsSpent` models `is_utxo_spent` as list membership, its evident intent. What SQLAlchemy generates for `.contains` on a generic `JSON` column is not certain, and is modelled only in `Ledger.IsSpentAsQueried`, as a substring test of the serialized `[id]`. Every other member uses `IsSpent`.
- Aliasing of the Python list `_get_used_utxos` returns: the model copies it by value. The only caller that mutates it does so through the class attribute itself.

## Findings

| source | as written | input that shows it | evidently intended | confidence | as-written member | corrected member |
|---|---|---|---|---|---|---|
| Database/models.py:196 | the last check of `verify_create_money_inputs` counts the wallets with the minter's address again, which the first check already ensured, so it never fails and the mint flag is never read | one wallet `m` without the mint flag; `verify_create_money_inputs("m", "m", 1)` returns `(True, None)`, although `create_money` would refuse `m` | reject a minter whose mint flag is not set, as the message "is not authorized to create money" says | high; not executed | `OrmModels.VerifyCreateMoneyInputsIgnoresFlag` | `OrmModels.VerifyMintInputsAgreesWithMint` |
| Database/wallet.py:136 | `inputs` is a generic `JSON` column (Database/wallet.py:39), on which `.contains([utxo_id])` is a `LIKE` substring test of the serialized argument `[id]` against each row's serialized inputs; it matches only a transaction whose inputs are exactly `[id]` (same at Database/models.py:222) | one transaction with inputs `[0, 1]`: UTXO 0 is spent, but the query finds no row, so UTXO 0 stays available and can be selected and spent again | a UTXO is spent iff some transaction lists its id among its inputs, so that no UTXO is spent twice | medium; depends on how the ORM compiles `contains` for this column type; not executed | `Ledger.QueriedSpendMissesSharedInput` | `Ledger.IsSpent` |
