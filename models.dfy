/**
 * The ORM variant of the ledger in Database/models.py: the same three tables, with the store
 * operations spread over the `Wallet`, `Utxo` and `Transaction` classes, a lazily created
 * "used UTXO" list, and two read-only validators. The queries it shares with
 * Database/wallet.py (`fetch_wallet_by_address`, `fetch_utxos_by_wallet`,
 * `fetch_available_utxos`, `calculate_total_balance`, `is_utxo_spent`) are those of `Ledger`.
 */
module OrmModels {
  import opened Ledger
  import opened Selection

  /** The two-valued `(ok, error)` pair the validators return: `(True, None)` or `(False, error)`. */
  datatype Verdict<E> = Accepted | Rejected(error: E)

  /** The failures `verify_create_money_inputs` reports, with the value its message names. */
  datatype MintInputError =
    | InvalidAuthorizedAddress(address: string)
    | InvalidDestinationAddress(address: string)
    | InvalidAmount(amount: int)
    | NotAuthorized(address: string)

  /** One transfer-details dictionary; a key it lacks reads as `None` through `.get`. */
  datatype TransferDetail = TransferDetail(source: Option<string>, destination: Option<string>, amount: Option<int>)

  /** The failures `validate_transfer` reports, with the values its message names. */
  datatype TransferError =
    | UnknownSource(source: Option<string>)
    | UnknownDestination(destination: Option<string>)
    | BadAmount(destination: Option<string>, amount: Option<int>)

  /** An entry of `_used_utxos`: a UTXO, or the generator object `show_utxos_and_select` passes in. */
  datatype UsedEntry =
    | UsedUtxo(utxo: Utxo)
    | SelectionGenerator(candidates: seq<Utxo>, answers: seq<string>)

  /** Python truthiness of an optional string: neither `None` nor empty. */
  predicate Truthy(address: Option<string>) {
    address.Some? && |address.value| > 0
  }

  /**
   * `is_valid_wallet_address`: the number of wallets with `address`, which the callers read as
   * a truth value. It is non-zero exactly when the lookup by address finds a wallet.
   */
  function IsValidWalletAddress(ws: seq<Wallet>, address: string): (count: nat)
    ensures count > 0 <==> FindWallet(ws, address).Some?
    ensures count <= |ws|
  {
    if |ws| == 0 then 0
    else (if ws[0].address == address then 1 else 0) + IsValidWalletAddress(ws[1..], address)
  }

  /** With unique addresses (`unique=True`) the count is 0 or 1. */
  lemma {:induction false} IsValidWalletAddressAtMostOne(ws: seq<Wallet>, address: string)
    requires forall i, j :: 0 <= i < j < |ws| ==> ws[i].address != ws[j].address
    ensures IsValidWalletAddress(ws, address) <= 1
  {
    if |ws| > 0 {
      var rest := ws[1..];
      assert forall j :: 0 <= j < |rest| ==> rest[j] == ws[j + 1];
      if ws[0].address == address {
        WalletIndexIsFirst(rest, address);
      } else {
        IsValidWalletAddressAtMostOne(rest, address);
      }
    }
  }

  /**
   * `verify_create_money_inputs` as written: minter row exists, destination row exists, amount
   * positive, then the minter row exists once more, where the mint flag was meant.
   */
  function VerifyCreateMoneyInputs(ws: seq<Wallet>, authorizedAddress: string, destinationAddress: string, amount: int)
    : (v: Verdict<MintInputError>)
    ensures v.Rejected? ==> !v.error.NotAuthorized?
  {
    if IsValidWalletAddress(ws, authorizedAddress) == 0 then Rejected(InvalidAuthorizedAddress(authorizedAddress))
    else if IsValidWalletAddress(ws, destinationAddress) == 0 then Rejected(InvalidDestinationAddress(destinationAddress))
    else if amount <= 0 then Rejected(InvalidAmount(amount))
    else if IsValidWalletAddress(ws, authorizedAddress) == 0 then Rejected(NotAuthorized(authorizedAddress))
    else Accepted
  }

  /**
   * As written, the check accepts exactly when both wallets exist and the amount is positive,
   * and otherwise reports the first of its first three checks that fails.
   */
  lemma {:induction false} VerifyCreateMoneyInputsAccepts(ws: seq<Wallet>, authorizedAddress: string, destinationAddress: string, amount: int)
    ensures VerifyCreateMoneyInputs(ws, authorizedAddress, destinationAddress, amount).Accepted?
        <==> FindWallet(ws, authorizedAddress).Some? && FindWallet(ws, destinationAddress).Some? && amount > 0
    ensures VerifyCreateMoneyInputs(ws, authorizedAddress, destinationAddress, amount) == Rejected(InvalidAuthorizedAddress(authorizedAddress))
        <==> FindWallet(ws, authorizedAddress).None?
    ensures VerifyCreateMoneyInputs(ws, authorizedAddress, destinationAddress, amount) == Rejected(InvalidDestinationAddress(destinationAddress))
        <==> FindWallet(ws, authorizedAddress).Some? && FindWallet(ws, destinationAddress).None?
    ensures VerifyCreateMoneyInputs(ws, authorizedAddress, destinationAddress, amount) == Rejected(InvalidAmount(amount))
        <==> FindWallet(ws, authorizedAddress).Some? && FindWallet(ws, destinationAddress).Some? && amount <= 0
  {
  }

  /** As written, an existing minter without the mint flag passes the check that `create_money` would refuse. */
  lemma {:induction false} VerifyCreateMoneyInputsIgnoresFlag()
    ensures VerifyCreateMoneyInputs([Wallet(0, "m", false)], "m", "m", 1).Accepted?
    ensures !MintAllowed([Wallet(0, "m", false)], "m", "m")
  {
    var ws := [Wallet(0, "m", false)];
    assert ws[1..] == [];
    assert WalletIndex(ws, "m") == Some(0);
  }

  /**
   * `verify_create_money_inputs` with its last check reading the mint flag, as its message
   * ("is not authorized to create money") says it should.
   */
  function VerifyMintInputs(ws: seq<Wallet>, authorizedAddress: string, destinationAddress: string, amount: int)
    : (v: Verdict<MintInputError>)
    ensures v.Accepted? ==> MintAllowed(ws, authorizedAddress, destinationAddress) && amount > 0
  {
    if IsValidWalletAddress(ws, authorizedAddress) == 0 then Rejected(InvalidAuthorizedAddress(authorizedAddress))
    else if IsValidWalletAddress(ws, destinationAddress) == 0 then Rejected(InvalidDestinationAddress(destinationAddress))
    else if amount <= 0 then Rejected(InvalidAmount(amount))
    else if !FindWallet(ws, authorizedAddress).value.canMint then Rejected(NotAuthorized(authorizedAddress))
    else Accepted
  }

  /**
   * The corrected check accepts exactly the mints `create_money` performs, with a positive
   * amount, and otherwise reports the first of its four checks that fails.
   */
  lemma {:induction false} VerifyMintInputsAgreesWithMint(ws: seq<Wallet>, authorizedAddress: string, destinationAddress: string, amount: int)
    ensures VerifyMintInputs(ws, authorizedAddress, destinationAddress, amount).Accepted?
        <==> MintAllowed(ws, authorizedAddress, destinationAddress) && amount > 0
    ensures VerifyMintInputs(ws, authorizedAddress, destinationAddress, amount) == Rejected(InvalidAuthorizedAddress(authorizedAddress))
        <==> FindWallet(ws, authorizedAddress).None?
    ensures VerifyMintInputs(ws, authorizedAddress, destinationAddress, amount) == Rejected(InvalidDestinationAddress(destinationAddress))
        <==> FindWallet(ws, authorizedAddress).Some? && FindWallet(ws, destinationAddress).None?
    ensures VerifyMintInputs(ws, authorizedAddress, destinationAddress, amount) == Rejected(InvalidAmount(amount))
        <==> FindWallet(ws, authorizedAddress).Some? && FindWallet(ws, destinationAddress).Some? && amount <= 0
    ensures VerifyMintInputs(ws, authorizedAddress, destinationAddress, amount) == Rejected(NotAuthorized(authorizedAddress))
        <==> FindWallet(ws, authorizedAddress).Some? && FindWallet(ws, destinationAddress).Some? && amount > 0
             && !FindWallet(ws, authorizedAddress).value.canMint
  {
  }

  /**
   * The check as written and the corrected one differ only where the corrected one refuses an
   * existing minter without the mint flag: the check as written accepts that call.
   */
  lemma {:induction false} VerifyCreateMoneyInputsSkipsFlag(ws: seq<Wallet>, authorizedAddress: string, destinationAddress: string, amount: int)
    ensures VerifyCreateMoneyInputs(ws, authorizedAddress, destinationAddress, amount)
      == (if VerifyMintInputs(ws, authorizedAddress, destinationAddress, amount) == Rejected(NotAuthorized(authorizedAddress))
          then Accepted
          else VerifyMintInputs(ws, authorizedAddress, destinationAddress, amount))
  {
    VerifyCreateMoneyInputsAccepts(ws, authorizedAddress, destinationAddress, amount);
    VerifyMintInputsAgreesWithMint(ws, authorizedAddress, destinationAddress, amount);
  }

  /** Once the minter is authorized, the corrected check accepts any positive amount to an existing wallet. */
  lemma {:induction false} VerifyMintInputsAfterAuthorize(ws: seq<Wallet>, authorizedAddress: string, destinationAddress: string, amount: int)
    ensures VerifyMintInputs(Authorized(ws, authorizedAddress), authorizedAddress, destinationAddress, amount).Accepted?
        <==> FindWallet(ws, authorizedAddress).Some? && FindWallet(ws, destinationAddress).Some? && amount > 0
  {
    AuthorizeEnablesMint(ws, authorizedAddress, destinationAddress);
    VerifyMintInputsAgreesWithMint(Authorized(ws, authorizedAddress), authorizedAddress, destinationAddress, amount);
  }

  /**
   * The three checks `validate_transfer` applies to one detail, in order: its source is one of
   * `sourceAddresses`, its destination is a wallet, its amount is a positive number.
   */
  function DetailError(sourceAddresses: seq<string>, ws: seq<Wallet>, d: TransferDetail): (r: Option<TransferError>)
    ensures r.None? <==>
      && d.source.Some? && d.source.value in sourceAddresses
      && d.destination.Some? && FindWallet(ws, d.destination.value).Some?
      && d.amount.Some? && d.amount.value > 0
    ensures r == Some(UnknownSource(d.source)) <==> d.source.None? || d.source.value !in sourceAddresses
    ensures r == Some(UnknownDestination(d.destination)) <==>
      && d.source.Some? && d.source.value in sourceAddresses
      && (d.destination.None? || FindWallet(ws, d.destination.value).None?)
    ensures r == Some(BadAmount(d.destination, d.amount)) <==>
      && d.source.Some? && d.source.value in sourceAddresses
      && d.destination.Some? && FindWallet(ws, d.destination.value).Some?
      && (d.amount.None? || d.amount.value <= 0)
  {
    if d.source.None? || d.source.value !in sourceAddresses then Some(UnknownSource(d.source))
    else if d.destination.None? || IsValidWalletAddress(ws, d.destination.value) == 0 then Some(UnknownDestination(d.destination))
    else if d.amount.None? || d.amount.value <= 0 then Some(BadAmount(d.destination, d.amount))
    else None
  }

  /**
   * `validate_transfer`: scans the details in order and reports the first failing check;
   * accepts exactly when every detail passes, so an empty list is accepted.
   */
  method ValidateTransfer(sourceAddresses: seq<string>, ws: seq<Wallet>, details: seq<TransferDetail>)
    returns (v: Verdict<TransferError>)
    ensures v.Accepted? <==> forall k :: 0 <= k < |details| ==> DetailError(sourceAddresses, ws, details[k]).None?
    ensures v.Rejected? ==>
      exists i :: (&& 0 <= i < |details|
                   && DetailError(sourceAddresses, ws, details[i]) == Some(v.error)
                   && forall k :: 0 <= k < i ==> DetailError(sourceAddresses, ws, details[k]).None?)
  {
    for i := 0 to |details|
      invariant forall k :: 0 <= k < i ==> DetailError(sourceAddresses, ws, details[k]).None?
    {
      var error := DetailError(sourceAddresses, ws, details[i]);
      if error.Some? {
        return Rejected(error.value);
      }
    }
    return Accepted;
  }

  /** The session store of Database/models.py and the `Utxo` class attribute `_used_utxos`. */
  class Session {
    var wallets: seq<Wallet>
    var utxos: seq<Utxo>
    var transactions: seq<Transaction>
    /** `None` until `_get_used_utxos` first creates the list. */
    var usedUtxos: Option<seq<UsedEntry>>

    ghost predicate Valid()
      reads this
    {
      WellFormed(wallets, utxos, transactions)
    }

    constructor ()
      ensures Valid()
      ensures wallets == [] && utxos == [] && transactions == [] && usedUtxos == None
    {
      wallets, utxos, transactions, usedUtxos := [], [], [], None;
    }

    /** The list `_get_used_utxos` would hand back now. */
    function UsedList(): seq<UsedEntry>
      reads this
    {
      if usedUtxos.Some? then usedUtxos.value else []
    }

    /**
     * `Wallet.create`: a wallet without an address is refused; otherwise one row is appended
     * with the mint flag cleared.
     */
    method Create(address: Option<string>) returns (inserted: bool)
      requires Valid()
      requires Truthy(address) ==> FindWallet(wallets, address.value).None?
      modifies this`wallets
      ensures Valid()
      ensures inserted <==> Truthy(address)
      ensures !inserted ==> wallets == old(wallets)
      ensures inserted ==> wallets == old(wallets) + [Wallet(|old(wallets)|, address.value, false)]
      ensures inserted ==> FindWallet(wallets, address.value) == Some(Wallet(|old(wallets)|, address.value, false))
    {
      if !Truthy(address) {
        return false;
      }
      FindAppended(wallets, Wallet(|wallets|, address.value, false));
      wallets := wallets + [Wallet(|wallets|, address.value, false)];
      inserted := true;
    }

    /** `Wallet(address)`: the constructor calls `create` only for a truthy address. */
    method NewWallet(address: Option<string>) returns (inserted: bool)
      requires Valid()
      requires Truthy(address) ==> FindWallet(wallets, address.value).None?
      modifies this`wallets
      ensures Valid()
      ensures inserted <==> Truthy(address)
      ensures !inserted ==> wallets == old(wallets)
      ensures inserted ==> wallets == old(wallets) + [Wallet(|old(wallets)|, address.value, false)]
    {
      inserted := false;
      if Truthy(address) {
        inserted := Create(address);
      }
    }

    /** `Wallet.authorize_address_to_create_money`: flags the wallet found for `address`, if any. */
    method AuthorizeAddressToCreateMoney(address: string)
      requires Valid()
      modifies this`wallets
      ensures Valid()
      ensures wallets == Authorized(old(wallets), address)
    {
      var wallet := FindWallet(wallets, address);
      if wallet.Some? {
        FoundWalletAtItsId(wallets, utxos, transactions, address);
        wallets := wallets[wallet.value.id := wallet.value.(canMint := true)];
      }
    }

    /** `Utxo.create_utxo`: appends one UTXO and returns it. */
    method CreateUtxo(walletId: nat, transactionId: nat, amount: int) returns (u: Utxo)
      requires Valid()
      modifies this`utxos
      ensures Valid()
      ensures u == Utxo(|old(utxos)|, amount, walletId, transactionId)
      ensures utxos == old(utxos) + [u]
    {
      u := Utxo(|utxos|, amount, walletId, transactionId);
      utxos := utxos + [u];
    }

    /** `Transaction.create_transaction`: appends one transaction whose inputs are the ids of `inputs`, in order. */
    method CreateTransaction(inputs: seq<Utxo>, outputs: seq<Output>, signatures: seq<string>, createMoney: bool)
      returns (t: Transaction)
      requires Valid()
      modifies this`transactions
      ensures Valid()
      ensures t == Transaction(|old(transactions)|, Ids(inputs), outputs, signatures, createMoney)
      ensures transactions == old(transactions) + [t]
      ensures forall u :: u in inputs ==> IsSpent(transactions, u.id)
    {
      t := Transaction(|transactions|, Ids(inputs), outputs, signatures, createMoney);
      transactions := transactions + [t];
      forall u | u in inputs ensures IsSpent(transactions, u.id) {
        var i :| 0 <= i < |inputs| && inputs[i] == u;
        assert transactions[|transactions| - 1].inputs[i] == u.id;
      }
    }

    /** `_get_used_utxos`: creates the list empty on first use, then returns it. */
    method GetUsedUtxos() returns (used: seq<UsedEntry>)
      modifies this`usedUtxos
      ensures used == old(UsedList())
      ensures usedUtxos == Some(used)
    {
      if usedUtxos.None? {
        usedUtxos := Some([]);
      }
      used := usedUtxos.value;
    }

    /** `_add_used_utxo`: appends exactly one entry to the list. */
    method AddUsedUtxo(entry: UsedEntry)
      modifies this`usedUtxos
      ensures usedUtxos == Some(old(UsedList()) + [entry])
    {
      var used := GetUsedUtxos();
      usedUtxos := Some(used + [entry]);
    }

    /** `_clear_used_utxos`: empties the list. */
    method ClearUsedUtxos()
      modifies this`usedUtxos
      ensures usedUtxos == Some([])
    {
      var _ := GetUsedUtxos();
      usedUtxos := Some([]);
    }

    /**
     * `Utxo.show_utxos_and_select` for one checkbox answer: the list is cleared first, so every
     * available UTXO is offered; the selection is the first |answers| of them, whatever the
     * answers name, with its total. Coverage of `transferAmount` is not checked. The list then
     * holds the one generator object passed to `_add_used_utxo`.
     */
    method ShowUtxosAndSelect(available: seq<Utxo>, transferAmount: int, answers: seq<string>)
      returns (selected: seq<Utxo>, totalSelected: int)
      requires Distinct(answers) && |answers| <= |available|
      modifies this`usedUtxos
      ensures selected == available[..|answers|]
      ensures totalSelected == Balance(selected)
      ensures usedUtxos == Some([SelectionGenerator(available, answers)])
    {
      ClearUsedUtxos();
      var used := GetUsedUtxos();
      var unused := (u: Utxo) => UsedUtxo(u) !in used;
      var filtered := Filter(available, unused);
      FilterKeepsAll(available, unused);
      AddUsedUtxo(SelectionGenerator(filtered, answers));
      assert usedUtxos.value == [SelectionGenerator(available, answers)];
      selected := SelectByAnswers(answers, filtered);
      totalSelected := Balance(selected);
    }
  }
}
