/**
 * `WalletManager` of Database/wallet.py: the full ledger. The session's three tables are
 * fields the methods append to or update; every failure path leaves them as they were,
 * except the missing-destination crash of `transfer_money`, which leaves what it had
 * already committed.
 */
module WalletManagerModel {
  import opened Ledger
  import opened Selection

  /** How `transfer_money` ends; the source reports each of these with a print. */
  datatype TransferOutcome =
    | Transferred
    | SourceWalletNotFound
    | InsufficientFunds(available: int)
      /** The prompt answers ran out before one covered the amount; the source would keep asking. */
    | SelectionAbandoned
      /** Detail `index` names an address with no wallet: `None.id` raises after earlier commits. */
    | DestinationNotFound(index: nat)

  /** Every prompt answer is a checkbox answer over `offered` UTXOs: distinct, at most that many. */
  predicate AnswersFit(rounds: seq<seq<string>>, offered: nat) {
    forall k :: 0 <= k < |rounds| ==> Distinct(rounds[k]) && |rounds[k]| <= offered
  }

  /**
   * The selection the recursive prompt of `show_utxos_and_select` settles on: the first answer
   * whose UTXOs cover `target`; `None` when no answer does.
   */
  function SelectRounds(offered: seq<Utxo>, target: int, rounds: seq<seq<string>>): (r: Option<seq<Utxo>>)
    requires AnswersFit(rounds, |offered|)
    ensures r.Some? ==> Balance(r.value) >= target
    ensures r.Some? ==> exists k :: 0 <= k < |rounds| && r.value == offered[..|rounds[k]|]
                          && forall j :: 0 <= j < k ==> Balance(offered[..|rounds[j]|]) < target
    ensures r.None? <==> forall k :: 0 <= k < |rounds| ==> Balance(offered[..|rounds[k]|]) < target
  {
    if |rounds| == 0 then None
    else
      var selected := SelectByAnswers(rounds[0], offered);
      if Balance(selected) >= target then Some(selected)
      else
        var r := SelectRounds(offered, target, rounds[1..]);
        assert forall k :: 1 <= k < |rounds| ==> rounds[k] == rounds[1..][k - 1];
        r
  }

  /** `utxo.id in selected_utxos_ids`: the ids are integers, the answers strings, and `==` between them is false. */
  predicate IdAmongAnswers(id: nat, answers: seq<string>) {
    false
  }

  /**
   * The UTXOs the `for detail in transfer_details` loop creates, numbered from `firstId`: one
   * per detail, of its amount, owned by its destination's wallet and linked to `txId`.
   */
  function PayeeUtxos(ws: seq<Wallet>, ds: seq<Output>, txId: nat, firstId: nat): (r: seq<Utxo>)
    requires forall k :: 0 <= k < |ds| ==> FindWallet(ws, ds[k].address).Some?
    ensures |r| == |ds|
    ensures forall k :: 0 <= k < |ds| ==>
      r[k] == Utxo(firstId + k, ds[k].amount, FindWallet(ws, ds[k].address).value.id, txId)
  {
    if |ds| == 0 then []
    else
      var last := ds[|ds| - 1];
      PayeeUtxos(ws, ds[..|ds| - 1], txId, firstId)
        + [Utxo(firstId + |ds| - 1, last.amount, FindWallet(ws, last.address).value.id, txId)]
  }

  /** One more detail adds its payee UTXO at the end. */
  lemma {:induction false} PayeeUtxosExtend(ws: seq<Wallet>, ds: seq<Output>, i: nat, txId: nat, firstId: nat)
    requires i < |ds|
    requires forall k :: 0 <= k <= i ==> FindWallet(ws, ds[k].address).Some?
    ensures PayeeUtxos(ws, ds[..i + 1], txId, firstId)
      == PayeeUtxos(ws, ds[..i], txId, firstId) + [Utxo(firstId + i, ds[i].amount, FindWallet(ws, ds[i].address).value.id, txId)]
  {
    assert ds[..i + 1][..i] == ds[..i];
  }

  /** The payee UTXOs carry exactly the amounts the details ask for. */
  lemma {:induction false} PayeeUtxosTotal(ws: seq<Wallet>, ds: seq<Output>, txId: nat, firstId: nat)
    requires forall k :: 0 <= k < |ds| ==> FindWallet(ws, ds[k].address).Some?
    ensures Balance(PayeeUtxos(ws, ds, txId, firstId)) == OutputsTotal(ds)
  {
    if |ds| > 0 {
      var init, last := ds[..|ds| - 1], ds[|ds| - 1];
      assert forall k :: 0 <= k < |init| ==> init[k] == ds[k];
      var u := Utxo(firstId + |ds| - 1, last.amount, FindWallet(ws, last.address).value.id, txId);
      var rest := PayeeUtxos(ws, init, txId, firstId);
      assert PayeeUtxos(ws, ds, txId, firstId) == rest + [u];
      PayeeUtxosTotal(ws, init, txId, firstId);
      BalanceAppend(rest, [u]);
      assert init + [last] == ds;
      OutputsTotalAppend(init, [last]);
    }
  }

  /** The change UTXO `transfer_money` returns to the source, if the selection exceeds the amount. */
  function ChangeUtxos(sourceId: nat, txId: nat, id: nat, change: int): (r: seq<Utxo>)
    ensures |r| <= 1 && Balance(r) == (if change > 0 then change else 0)
    ensures forall u :: u in r ==> u.id == id && u.walletId == sourceId && u.transactionId == txId
  {
    if change > 0 then [Utxo(id, change, sourceId, txId)] else []
  }

  /** The UTXOs a completed transfer creates after the old rows: the payees', then the change. */
  function TransferOutputs(ws: seq<Wallet>, ds: seq<Output>, txId: nat, firstId: nat, sourceId: nat, change: int): seq<Utxo>
    requires forall k :: 0 <= k < |ds| ==> FindWallet(ws, ds[k].address).Some?
  {
    PayeeUtxos(ws, ds, txId, firstId) + ChangeUtxos(sourceId, txId, firstId + |ds|, change)
  }

  /**
   * A successful transfer creates UTXOs worth exactly the selected total: the payees' amounts
   * plus the change.
   */
  lemma {:induction false} TransferConservesValue(ws: seq<Wallet>, ds: seq<Output>, txId: nat, firstId: nat, sourceId: nat, selected: int)
    requires forall k :: 0 <= k < |ds| ==> FindWallet(ws, ds[k].address).Some?
    requires selected >= OutputsTotal(ds)
    ensures Balance(TransferOutputs(ws, ds, txId, firstId, sourceId, selected - OutputsTotal(ds))) == selected
  {
    var payees := PayeeUtxos(ws, ds, txId, firstId);
    PayeeUtxosTotal(ws, ds, txId, firstId);
    BalanceAppend(payees, ChangeUtxos(sourceId, txId, firstId + |ds|, selected - OutputsTotal(ds)));
  }

  /** The UTXO table after the payee step and the change step, laid out as one block after the old rows. */
  lemma {:induction false} TransferLayout(before: seq<Utxo>, withPayees: seq<Utxo>, after: seq<Utxo>, ws: seq<Wallet>, ds: seq<Output>,
                       txId: nat, sourceId: nat, change: int)
    requires forall k :: 0 <= k < |ds| ==> FindWallet(ws, ds[k].address).Some?
    requires withPayees == before + PayeeUtxos(ws, ds, txId, |before|)
    requires after == withPayees + ChangeUtxos(sourceId, txId, |withPayees|, change)
    ensures after == before + TransferOutputs(ws, ds, txId, |before|, sourceId, change)
    ensures after[|before|..] == TransferOutputs(ws, ds, txId, |before|, sourceId, change)
  {
    assert after == before + (PayeeUtxos(ws, ds, txId, |before|) + ChangeUtxos(sourceId, txId, |before| + |ds|, change));
  }

  /** Position of the first detail whose address has no wallet: where the payee loop raises. */
  function FirstMissing(ws: seq<Wallet>, ds: seq<Output>): (r: Option<nat>)
    ensures r.Some? ==> r.value < |ds| && FindWallet(ws, ds[r.value].address).None?
    ensures r.Some? ==> forall k :: 0 <= k < r.value ==> FindWallet(ws, ds[k].address).Some?
    ensures r.None? ==> forall k :: 0 <= k < |ds| ==> FindWallet(ws, ds[k].address).Some?
  {
    if |ds| == 0 then None
    else if FindWallet(ws, ds[0].address).None? then Some(0)
    else
      var rest := FirstMissing(ws, ds[1..]);
      assert forall k :: 1 <= k < |ds| ==> ds[k] == ds[1..][k - 1];
      match rest
      case None => None
      case Some(i) => Some(i + 1)
  }

  /** A detail whose address is unknown, after only known ones, is the first missing one. */
  lemma {:induction false} FirstMissingAt(ws: seq<Wallet>, ds: seq<Output>, i: nat)
    requires i < |ds| && FindWallet(ws, ds[i].address).None?
    requires forall k :: 0 <= k < i ==> FindWallet(ws, ds[k].address).Some?
    ensures FirstMissing(ws, ds) == Some(i)
  {
  }

  /** The state `transfer_money` leaves: how it ended, and the two tables it appends to. */
  datatype TransferResult = TransferResult(outcome: TransferOutcome, utxos: seq<Utxo>, transactions: seq<Transaction>)

  /**
   * What `transfer_money` creates after its transaction: the payee UTXOs up to the first
   * unknown destination, where it stops, or else all of them and the change UTXO.
   */
  function TransferUtxos(ws: seq<Wallet>, ds: seq<Output>, txId: nat, firstId: nat, sourceId: nat, change: int)
    : (TransferOutcome, seq<Utxo>)
  {
    match FirstMissing(ws, ds)
    case Some(i) =>
      assert forall k :: 0 <= k < i ==> ds[..i][k] == ds[k];
      (DestinationNotFound(i), PayeeUtxos(ws, ds[..i], txId, firstId))
    case None => (Transferred, TransferOutputs(ws, ds, txId, firstId, sourceId, change))
  }

  /**
   * The commit half of `transfer_money` on a store `(ws, us, ts)`: the transaction spending
   * `selected`, then the UTXOs, with a change UTXO for what `selected` holds beyond `amount`.
   */
  function Commit(ws: seq<Wallet>, us: seq<Utxo>, ts: seq<Transaction>, sourceAddress: string,
                  details: seq<Output>, sourceId: nat, selected: seq<Utxo>, amount: int): (r: TransferResult)
    ensures |r.utxos| >= |us| && r.utxos[..|us|] == us
    ensures |r.transactions| == |ts| + 1 && r.transactions[..|ts|] == ts
  {
    var created := TransferUtxos(ws, details, |ts|, |us|, sourceId, Balance(selected) - amount);
    TransferResult(created.0, us + created.1, ts + [Transaction(|ts|, Ids(selected), details, [sourceAddress], false)])
  }

  /**
   * `transfer_money` on a store `(ws, us, ts)`, with `rounds` the operator's successive answers
   * to the selection prompt.
   */
  function Transfer(ws: seq<Wallet>, us: seq<Utxo>, ts: seq<Transaction>, sourceAddress: string,
                    details: seq<Output>, rounds: seq<seq<string>>): (r: TransferResult)
    requires AnswersFit(rounds, |AvailableFor(ws, us, ts, sourceAddress)|)
    ensures |r.utxos| >= |us| && r.utxos[..|us|] == us
    ensures |r.transactions| >= |ts| && r.transactions[..|ts|] == ts
  {
    match FindWallet(ws, sourceAddress)
    case None => TransferResult(SourceWalletNotFound, us, ts)
    case Some(source) =>
      var available := Available(us, ts, source.id);
      var amount := OutputsTotal(details);
      if Balance(available) < amount then TransferResult(InsufficientFunds(Balance(available)), us, ts)
      else
        match SelectRounds(available, amount, rounds)
        case None => TransferResult(SelectionAbandoned, us, ts)
        case Some(selected) => Commit(ws, us, ts, sourceAddress, details, source.id, selected, amount)
  }

  /** Once the source is found, its balance covers the details and a selection covers them too, the transfer commits. */
  lemma {:induction false} TransferReachesCommit(ws: seq<Wallet>, us: seq<Utxo>, ts: seq<Transaction>, sourceAddress: string,
                                                 details: seq<Output>, rounds: seq<seq<string>>, source: Wallet, selected: seq<Utxo>)
    requires AnswersFit(rounds, |AvailableFor(ws, us, ts, sourceAddress)|)
    requires FindWallet(ws, sourceAddress) == Some(source)
    requires Balance(Available(us, ts, source.id)) >= OutputsTotal(details)
    requires SelectRounds(Available(us, ts, source.id), OutputsTotal(details), rounds) == Some(selected)
    ensures Transfer(ws, us, ts, sourceAddress, details, rounds)
      == Commit(ws, us, ts, sourceAddress, details, source.id, selected, OutputsTotal(details))
  {
  }

  /** The UTXOs of a completed transfer: one per detail, then the change if positive. */
  lemma {:induction false} TransferOutputsLayout(ws: seq<Wallet>, ds: seq<Output>, txId: nat, firstId: nat, sourceId: nat, change: int)
    requires forall k :: 0 <= k < |ds| ==> FindWallet(ws, ds[k].address).Some?
    ensures |TransferOutputs(ws, ds, txId, firstId, sourceId, change)| == |ds| + (if change > 0 then 1 else 0)
    ensures forall k :: 0 <= k < |ds| ==>
      TransferOutputs(ws, ds, txId, firstId, sourceId, change)[k]
        == Utxo(firstId + k, ds[k].amount, FindWallet(ws, ds[k].address).value.id, txId)
    ensures change > 0 ==> TransferOutputs(ws, ds, txId, firstId, sourceId, change)[|ds|] == Utxo(firstId + |ds|, change, sourceId, txId)
  {
    var payees := PayeeUtxos(ws, ds, txId, firstId);
    assert forall k :: 0 <= k < |ds| ==> TransferOutputs(ws, ds, txId, firstId, sourceId, change)[k] == payees[k];
  }

  /** The store after the commit half, when every destination exists. */
  lemma {:induction false} CommitPaysDetails(ws: seq<Wallet>, us: seq<Utxo>, ts: seq<Transaction>, sourceAddress: string,
                                             details: seq<Output>, sourceId: nat, selected: seq<Utxo>, amount: int)
    requires forall k :: 0 <= k < |details| ==> FindWallet(ws, details[k].address).Some?
    requires amount == OutputsTotal(details) && Balance(selected) >= amount
    ensures Commit(ws, us, ts, sourceAddress, details, sourceId, selected, amount).outcome == Transferred
    ensures Commit(ws, us, ts, sourceAddress, details, sourceId, selected, amount).utxos[..|us|] == us
    ensures |Commit(ws, us, ts, sourceAddress, details, sourceId, selected, amount).utxos|
      == |us| + |details| + (if Balance(selected) > amount then 1 else 0)
    ensures forall k :: 0 <= k < |details| ==>
      Commit(ws, us, ts, sourceAddress, details, sourceId, selected, amount).utxos[|us| + k]
        == Utxo(|us| + k, details[k].amount, FindWallet(ws, details[k].address).value.id, |ts|)
    ensures Balance(selected) > amount ==>
      Commit(ws, us, ts, sourceAddress, details, sourceId, selected, amount).utxos[|us| + |details|]
        == Utxo(|us| + |details|, Balance(selected) - amount, sourceId, |ts|)
    ensures Balance(Commit(ws, us, ts, sourceAddress, details, sourceId, selected, amount).utxos[|us|..]) == Balance(selected)
  {
    var change := Balance(selected) - amount;
    var created := TransferOutputs(ws, details, |ts|, |us|, sourceId, change);
    var after := Commit(ws, us, ts, sourceAddress, details, sourceId, selected, amount).utxos;
    assert after == us + created;
    assert after[|us|..] == created;
    TransferOutputsLayout(ws, details, |ts|, |us|, sourceId, change);
    TransferConservesValue(ws, details, |ts|, |us|, sourceId, Balance(selected));
  }

  /** The store after the commit half, when detail `i` is the first whose address has no wallet. */
  lemma {:induction false} CommitStopsAtMissing(ws: seq<Wallet>, us: seq<Utxo>, ts: seq<Transaction>, sourceAddress: string,
                                                details: seq<Output>, sourceId: nat, selected: seq<Utxo>, amount: int, i: nat)
    requires i < |details| && FindWallet(ws, details[i].address).None?
    requires forall k :: 0 <= k < i ==> FindWallet(ws, details[k].address).Some?
    ensures Commit(ws, us, ts, sourceAddress, details, sourceId, selected, amount).outcome == DestinationNotFound(i)
    ensures Commit(ws, us, ts, sourceAddress, details, sourceId, selected, amount).utxos[..|us|] == us
    ensures |Commit(ws, us, ts, sourceAddress, details, sourceId, selected, amount).utxos| == |us| + i
    ensures forall k :: 0 <= k < i ==>
      Commit(ws, us, ts, sourceAddress, details, sourceId, selected, amount).utxos[|us| + k]
        == Utxo(|us| + k, details[k].amount, FindWallet(ws, details[k].address).value.id, |ts|)
  {
    FirstMissingAt(ws, details, i);
    assert forall k :: 0 <= k < i ==> details[..i][k] == details[k];
    var created := PayeeUtxos(ws, details[..i], |ts|, |us|);
    var after := Commit(ws, us, ts, sourceAddress, details, sourceId, selected, amount).utxos;
    assert after == us + created;
  }

  /** The commit half keeps the store well formed: the rows it adds take the next ids. */
  lemma {:induction false} CommitKeepsWellFormed(ws: seq<Wallet>, us: seq<Utxo>, ts: seq<Transaction>, sourceAddress: string,
                                                 details: seq<Output>, sourceId: nat, selected: seq<Utxo>, amount: int)
    requires WellFormed(ws, us, ts)
    ensures WellFormed(ws, Commit(ws, us, ts, sourceAddress, details, sourceId, selected, amount).utxos,
                       Commit(ws, us, ts, sourceAddress, details, sourceId, selected, amount).transactions)
  {
    var change := Balance(selected) - amount;
    var created := TransferUtxos(ws, details, |ts|, |us|, sourceId, change).1;
    var after := Commit(ws, us, ts, sourceAddress, details, sourceId, selected, amount).utxos;
    TransferUtxosNumbered(ws, details, |ts|, |us|, sourceId, change);
    assert after == us + created;
    forall j | 0 <= j < |after| ensures after[j].id == j {
      if j >= |us| {
        assert after[j] == created[j - |us|];
      }
    }
  }

  /** How `transfer_money` ends before it commits anything: its three checks, in order, and what each reports. */
  lemma {:induction false} TransferChecks(ws: seq<Wallet>, us: seq<Utxo>, ts: seq<Transaction>, sourceAddress: string,
                                          details: seq<Output>, rounds: seq<seq<string>>)
    requires AnswersFit(rounds, |AvailableFor(ws, us, ts, sourceAddress)|)
    ensures Transfer(ws, us, ts, sourceAddress, details, rounds).outcome == SourceWalletNotFound
        <==> FindWallet(ws, sourceAddress).None?
    ensures Transfer(ws, us, ts, sourceAddress, details, rounds).outcome.InsufficientFunds?
        <==> FindWallet(ws, sourceAddress).Some? && Balance(AvailableFor(ws, us, ts, sourceAddress)) < OutputsTotal(details)
    ensures Transfer(ws, us, ts, sourceAddress, details, rounds).outcome.InsufficientFunds? ==>
      Transfer(ws, us, ts, sourceAddress, details, rounds).outcome.available == Balance(AvailableFor(ws, us, ts, sourceAddress))
    ensures Transfer(ws, us, ts, sourceAddress, details, rounds).outcome == SelectionAbandoned
        <==> && FindWallet(ws, sourceAddress).Some?
             && Balance(AvailableFor(ws, us, ts, sourceAddress)) >= OutputsTotal(details)
             && SelectRounds(AvailableFor(ws, us, ts, sourceAddress), OutputsTotal(details), rounds).None?
  {
  }

  /** A transfer that stops at one of its checks leaves both tables as they were. */
  lemma {:induction false} TransferFailureChangesNothing(ws: seq<Wallet>, us: seq<Utxo>, ts: seq<Transaction>, sourceAddress: string,
                                                         details: seq<Output>, rounds: seq<seq<string>>)
    requires AnswersFit(rounds, |AvailableFor(ws, us, ts, sourceAddress)|)
    requires !Transfer(ws, us, ts, sourceAddress, details, rounds).outcome.Transferred?
    requires !Transfer(ws, us, ts, sourceAddress, details, rounds).outcome.DestinationNotFound?
    ensures Transfer(ws, us, ts, sourceAddress, details, rounds).utxos == us
    ensures Transfer(ws, us, ts, sourceAddress, details, rounds).transactions == ts
  {
  }

  /**
   * Past its checks, a transfer records one transaction signed by the source that spends the
   * selection: UTXOs the source owned and had not spent, worth at least the amount. Afterwards
   * none of them is available to the source any more.
   */
  lemma {:induction false} TransferSpendsSelection(ws: seq<Wallet>, us: seq<Utxo>, ts: seq<Transaction>, sourceAddress: string,
                                                   details: seq<Output>, rounds: seq<seq<string>>, selected: seq<Utxo>)
    requires AnswersFit(rounds, |AvailableFor(ws, us, ts, sourceAddress)|)
    requires FindWallet(ws, sourceAddress).Some?
    requires Balance(AvailableFor(ws, us, ts, sourceAddress)) >= OutputsTotal(details)
    requires SelectRounds(AvailableFor(ws, us, ts, sourceAddress), OutputsTotal(details), rounds) == Some(selected)
    ensures Transfer(ws, us, ts, sourceAddress, details, rounds).outcome.Transferred?
         || Transfer(ws, us, ts, sourceAddress, details, rounds).outcome.DestinationNotFound?
    ensures Transfer(ws, us, ts, sourceAddress, details, rounds).transactions
      == ts + [Transaction(|ts|, Ids(selected), details, [sourceAddress], false)]
    ensures Balance(selected) >= OutputsTotal(details)
    ensures forall u :: u in selected ==>
      u in us && u.walletId == FindWallet(ws, sourceAddress).value.id && !IsSpent(ts, u.id)
    ensures forall u :: u in selected ==> IsSpent(Transfer(ws, us, ts, sourceAddress, details, rounds).transactions, u.id)
    ensures forall u :: u in selected ==>
      u !in AvailableFor(ws, Transfer(ws, us, ts, sourceAddress, details, rounds).utxos,
                         Transfer(ws, us, ts, sourceAddress, details, rounds).transactions, sourceAddress)
  {
    var source := FindWallet(ws, sourceAddress).value;
    var available := Available(us, ts, source.id);
    TransferReachesCommit(ws, us, ts, sourceAddress, details, rounds, source, selected);
    var r := Transfer(ws, us, ts, sourceAddress, details, rounds);
    var k :| 0 <= k < |rounds| && selected == available[..|rounds[k]|];
    forall u | u in selected
      ensures u in available && IsSpent(r.transactions, u.id)
    {
      var i :| 0 <= i < |selected| && selected[i] == u;
      assert available[i] == u;
      assert r.transactions[|ts|].inputs[i] == u.id;
    }
  }

  /**
   * A transfer whose destinations all exist completes: after the old rows come one UTXO per
   * detail, for its destination and amount, then a change UTXO for the source when the
   * selection exceeds the amount; together they hold exactly what the selection held.
   */
  lemma {:induction false} TransferPaysDetails(ws: seq<Wallet>, us: seq<Utxo>, ts: seq<Transaction>, sourceAddress: string,
                                               details: seq<Output>, rounds: seq<seq<string>>, selected: seq<Utxo>)
    requires AnswersFit(rounds, |AvailableFor(ws, us, ts, sourceAddress)|)
    requires FindWallet(ws, sourceAddress).Some?
    requires Balance(AvailableFor(ws, us, ts, sourceAddress)) >= OutputsTotal(details)
    requires SelectRounds(AvailableFor(ws, us, ts, sourceAddress), OutputsTotal(details), rounds) == Some(selected)
    requires forall k :: 0 <= k < |details| ==> FindWallet(ws, details[k].address).Some?
    ensures Transfer(ws, us, ts, sourceAddress, details, rounds).outcome == Transferred
    ensures Transfer(ws, us, ts, sourceAddress, details, rounds).utxos[..|us|] == us
    ensures |Transfer(ws, us, ts, sourceAddress, details, rounds).utxos|
      == |us| + |details| + (if Balance(selected) > OutputsTotal(details) then 1 else 0)
    ensures forall k :: 0 <= k < |details| ==>
      Transfer(ws, us, ts, sourceAddress, details, rounds).utxos[|us| + k]
        == Utxo(|us| + k, details[k].amount, FindWallet(ws, details[k].address).value.id, |ts|)
    ensures Balance(selected) > OutputsTotal(details) ==>
      Transfer(ws, us, ts, sourceAddress, details, rounds).utxos[|us| + |details|]
        == Utxo(|us| + |details|, Balance(selected) - OutputsTotal(details), FindWallet(ws, sourceAddress).value.id, |ts|)
    ensures Balance(Transfer(ws, us, ts, sourceAddress, details, rounds).utxos[|us|..]) == Balance(selected)
  {
    var source := FindWallet(ws, sourceAddress).value;
    TransferReachesCommit(ws, us, ts, sourceAddress, details, rounds, source, selected);
    CommitPaysDetails(ws, us, ts, sourceAddress, details, source.id, selected, OutputsTotal(details));
  }

  /**
   * A transfer stops at the first detail whose address has no wallet, after the transaction
   * and the UTXOs of the details before it: those stay committed.
   */
  lemma {:induction false} TransferStopsAtMissing(ws: seq<Wallet>, us: seq<Utxo>, ts: seq<Transaction>, sourceAddress: string,
                                                  details: seq<Output>, rounds: seq<seq<string>>, selected: seq<Utxo>, i: nat)
    requires AnswersFit(rounds, |AvailableFor(ws, us, ts, sourceAddress)|)
    requires FindWallet(ws, sourceAddress).Some?
    requires Balance(AvailableFor(ws, us, ts, sourceAddress)) >= OutputsTotal(details)
    requires SelectRounds(AvailableFor(ws, us, ts, sourceAddress), OutputsTotal(details), rounds) == Some(selected)
    requires i < |details| && FindWallet(ws, details[i].address).None?
    requires forall k :: 0 <= k < i ==> FindWallet(ws, details[k].address).Some?
    ensures Transfer(ws, us, ts, sourceAddress, details, rounds).outcome == DestinationNotFound(i)
    ensures Transfer(ws, us, ts, sourceAddress, details, rounds).utxos[..|us|] == us
    ensures |Transfer(ws, us, ts, sourceAddress, details, rounds).utxos| == |us| + i
    ensures forall k :: 0 <= k < i ==>
      Transfer(ws, us, ts, sourceAddress, details, rounds).utxos[|us| + k]
        == Utxo(|us| + k, details[k].amount, FindWallet(ws, details[k].address).value.id, |ts|)
  {
    var source := FindWallet(ws, sourceAddress).value;
    TransferReachesCommit(ws, us, ts, sourceAddress, details, rounds, source, selected);
    CommitStopsAtMissing(ws, us, ts, sourceAddress, details, source.id, selected, OutputsTotal(details), i);
  }

  /** The UTXOs a transfer creates take the next ids and point at its transaction. */
  lemma {:induction false} TransferUtxosNumbered(ws: seq<Wallet>, ds: seq<Output>, txId: nat, firstId: nat, sourceId: nat, change: int)
    ensures forall k :: 0 <= k < |TransferUtxos(ws, ds, txId, firstId, sourceId, change).1| ==>
      TransferUtxos(ws, ds, txId, firstId, sourceId, change).1[k].id == firstId + k
  {
    var created := TransferUtxos(ws, ds, txId, firstId, sourceId, change).1;
    match FirstMissing(ws, ds)
    case Some(i) =>
      assert forall k :: 0 <= k < i ==> ds[..i][k] == ds[k];
    case None =>
      assert forall k :: 0 <= k < |ds| ==> created[k] == PayeeUtxos(ws, ds, txId, firstId)[k];
  }

  /** `transfer_money` keeps the store well formed: the rows it adds take the next ids. */
  lemma {:induction false} TransferKeepsWellFormed(ws: seq<Wallet>, us: seq<Utxo>, ts: seq<Transaction>, sourceAddress: string,
                                                   details: seq<Output>, rounds: seq<seq<string>>)
    requires AnswersFit(rounds, |AvailableFor(ws, us, ts, sourceAddress)|)
    requires WellFormed(ws, us, ts)
    ensures WellFormed(ws, Transfer(ws, us, ts, sourceAddress, details, rounds).utxos,
                       Transfer(ws, us, ts, sourceAddress, details, rounds).transactions)
  {
    var r := Transfer(ws, us, ts, sourceAddress, details, rounds);
    var available := AvailableFor(ws, us, ts, sourceAddress);
    var amount := OutputsTotal(details);
    if FindWallet(ws, sourceAddress).Some? && Balance(available) >= amount && SelectRounds(available, amount, rounds).Some? {
      var source, selected := FindWallet(ws, sourceAddress).value, SelectRounds(available, amount, rounds).value;
      TransferReachesCommit(ws, us, ts, sourceAddress, details, rounds, source, selected);
      CommitKeepsWellFormed(ws, us, ts, sourceAddress, details, source.id, selected, amount);
    }
  }

  /**
   * The amount the details send to the wallet `walletId`: the sum of the amounts of the
   * details whose address is that wallet's.
   */
  function PaidTo(ws: seq<Wallet>, ds: seq<Output>, walletId: nat): int
    requires forall k :: 0 <= k < |ds| ==> FindWallet(ws, ds[k].address).Some?
  {
    if |ds| == 0 then 0
    else
      var last := ds[|ds| - 1];
      PaidTo(ws, ds[..|ds| - 1], walletId) + (if FindWallet(ws, last.address).value.id == walletId then last.amount else 0)
  }

  /** The payee UTXOs a wallet receives hold what the details send to it. */
  lemma {:induction false} PayeeUtxosPaidTo(ws: seq<Wallet>, ds: seq<Output>, txId: nat, firstId: nat, walletId: nat)
    requires forall k :: 0 <= k < |ds| ==> FindWallet(ws, ds[k].address).Some?
    ensures Balance(UtxosOf(PayeeUtxos(ws, ds, txId, firstId), walletId)) == PaidTo(ws, ds, walletId)
  {
    if |ds| > 0 {
      var init, last := ds[..|ds| - 1], ds[|ds| - 1];
      assert forall k :: 0 <= k < |init| ==> init[k] == ds[k];
      var u := Utxo(firstId + |ds| - 1, last.amount, FindWallet(ws, last.address).value.id, txId);
      var rest := PayeeUtxos(ws, init, txId, firstId);
      assert PayeeUtxos(ws, ds, txId, firstId) == rest + [u];
      PayeeUtxosPaidTo(ws, init, txId, firstId, walletId);
      FilterAppend(rest, [u], OwnedBy(walletId));
      assert [u][1..] == [];
      BalanceAppend(UtxosOf(rest, walletId), UtxosOf([u], walletId));
    }
  }

  /** The UTXOs of a completed transfer that the source owns hold the change plus what it pays itself. */
  lemma {:induction false} TransferOutputsForSource(ws: seq<Wallet>, ds: seq<Output>, txId: nat, firstId: nat, sourceId: nat, change: int)
    requires forall k :: 0 <= k < |ds| ==> FindWallet(ws, ds[k].address).Some?
    requires change >= 0
    ensures Balance(UtxosOf(TransferOutputs(ws, ds, txId, firstId, sourceId, change), sourceId)) == change + PaidTo(ws, ds, sourceId)
  {
    var payees := PayeeUtxos(ws, ds, txId, firstId);
    var changes := ChangeUtxos(sourceId, txId, firstId + |ds|, change);
    FilterAppend(payees, changes, OwnedBy(sourceId));
    PayeeUtxosPaidTo(ws, ds, txId, firstId, sourceId);
    if change > 0 {
      assert changes[1..] == [];
    }
    BalanceAppend(UtxosOf(payees, sourceId), UtxosOf(changes, sourceId));
  }

  /** A test that rejects the ids of the first `n` UTXOs rejects each of them. */
  lemma {:induction false} DropPrefix(a: seq<Utxo>, n: nat, keep: Utxo -> bool)
    requires n <= |a|
    requires forall x :: x in a ==> keep(x) == (x.id !in Ids(a[..n]))
    ensures Filter(a[..n], keep) == []
  {
    forall x | x in a[..n] ensures !keep(x) {
      var i :| 0 <= i < n && a[..n][i] == x;
      assert Ids(a[..n])[i] == x.id;
    }
    FilterKeepsNone(a[..n], keep);
  }

  /** With increasing ids, that test keeps every later UTXO. */
  lemma {:induction false} KeepSuffix(a: seq<Utxo>, n: nat, keep: Utxo -> bool)
    requires IncreasingIds(a) && n <= |a|
    requires forall x :: x in a ==> keep(x) == (x.id !in Ids(a[..n]))
    ensures Filter(a[n..], keep) == a[n..]
  {
    forall x | x in a[n..] ensures keep(x) {
      var i :| 0 <= i < |a[n..]| && a[n..][i] == x;
      assert a[n + i] == x;
      forall m | 0 <= m < n ensures Ids(a[..n])[m] != x.id {
        assert Ids(a[..n])[m] == a[m].id && a[m].id < a[n + i].id;
      }
    }
    FilterKeepsAll(a[n..], keep);
  }

  /** Dropping the first `n` UTXOs of a sequence with increasing ids by their ids leaves the rest. */
  lemma {:induction false} DropByIds(a: seq<Utxo>, n: nat, keep: Utxo -> bool)
    requires IncreasingIds(a) && n <= |a|
    requires forall x :: x in a ==> keep(x) == (x.id !in Ids(a[..n]))
    ensures Filter(a, keep) == a[n..]
  {
    assert a == a[..n] + a[n..];
    FilterAppend(a[..n], a[n..], keep);
    DropPrefix(a, n, keep);
    KeepSuffix(a, n, keep);
  }

  /**
   * After a transaction spending the first `n` available UTXOs of a wallet, the wallet's old
   * UTXOs still available are the rest of them.
   */
  lemma {:induction false} OldRowsAfterSpend(us: seq<Utxo>, ts: seq<Transaction>, t: Transaction, walletId: nat, n: nat)
    requires IncreasingIds(us)
    requires n <= |Available(us, ts, walletId)|
    requires t.inputs == Ids(Available(us, ts, walletId)[..n])
    ensures Filter(UtxosOf(us, walletId), UnspentIn(ts + [t])) == Available(us, ts, walletId)[n..]
  {
    var owned, a := UtxosOf(us, walletId), Available(us, ts, walletId);
    var notSelected := (u: Utxo) => u.id !in Ids(a[..n]);
    forall x | x in owned ensures UnspentIn(ts + [t])(x) == (UnspentIn(ts)(x) && notSelected(x)) {
      IsSpentAppend(ts, t, x.id);
    }
    FilterFilter(owned, UnspentIn(ts), notSelected, UnspentIn(ts + [t]));
    FilterKeepsIncreasing(us, OwnedBy(walletId));
    FilterKeepsIncreasing(owned, UnspentIn(ts));
    DropByIds(a, n, notSelected);
  }

  /** UTXOs created after the old rows are unspent after a transaction that consumes only old rows. */
  lemma {:induction false} NewRowsAfterSpend(us: seq<Utxo>, ts: seq<Transaction>, t: Transaction, created: seq<Utxo>, walletId: nat)
    requires InputsKnown(us, ts)
    requires forall id :: id in t.inputs ==> id < |us|
    requires forall u :: u in created ==> u.id >= |us|
    ensures Filter(UtxosOf(created, walletId), UnspentIn(ts + [t])) == UtxosOf(created, walletId)
  {
    forall x | x in UtxosOf(created, walletId) ensures UnspentIn(ts + [t])(x) {
      IsSpentAppend(ts, t, x.id);
    }
    FilterKeepsAll(UtxosOf(created, walletId), UnspentIn(ts + [t]));
  }

  /** With every destination known, the commit half appends its transaction and all the UTXOs of a completed transfer. */
  lemma {:induction false} CommitCompletes(ws: seq<Wallet>, us: seq<Utxo>, ts: seq<Transaction>, sourceAddress: string,
                                           details: seq<Output>, sourceId: nat, selected: seq<Utxo>, amount: int)
    requires forall k :: 0 <= k < |details| ==> FindWallet(ws, details[k].address).Some?
    ensures Commit(ws, us, ts, sourceAddress, details, sourceId, selected, amount)
      == TransferResult(Transferred, us + TransferOutputs(ws, details, |ts|, |us|, sourceId, Balance(selected) - amount),
                        ts + [Transaction(|ts|, Ids(selected), details, [sourceAddress], false)])
  {
  }

  /** The commit half keeps every transaction input the id of a stored UTXO, when the selection is stored. */
  lemma {:induction false} CommitKeepsInputsKnown(ws: seq<Wallet>, us: seq<Utxo>, ts: seq<Transaction>, sourceAddress: string,
                                                  details: seq<Output>, sourceId: nat, selected: seq<Utxo>, amount: int)
    requires WellFormed(ws, us, ts) && InputsKnown(us, ts)
    requires forall u :: u in selected ==> u in us
    ensures InputsKnown(Commit(ws, us, ts, sourceAddress, details, sourceId, selected, amount).utxos,
                        Commit(ws, us, ts, sourceAddress, details, sourceId, selected, amount).transactions)
  {
    var r := Commit(ws, us, ts, sourceAddress, details, sourceId, selected, amount);
    var t := Transaction(|ts|, Ids(selected), details, [sourceAddress], false);
    assert r.transactions == ts + [t];
    assert |r.utxos| >= |us|;
    forall k, id | 0 <= k < |r.transactions| && id in r.transactions[k].inputs ensures id < |r.utxos| {
      if k < |ts| {
        assert r.transactions[k] == ts[k];
      } else {
        assert r.transactions[k] == t;
        var m :| 0 <= m < |selected| && Ids(selected)[m] == id;
        assert selected[m] in selected;
        var i :| 0 <= i < |us| && us[i] == selected[m];
      }
    }
  }

  /**
   * Spending a prefix of a wallet's available UTXOs and appending new rows leaves it the rest
   * of that list and its own new rows.
   */
  lemma {:induction false} AvailableAfterSpend(us: seq<Utxo>, ts: seq<Transaction>, t: Transaction, created: seq<Utxo>,
                                               walletId: nat, n: nat)
    requires forall i :: 0 <= i < |us| ==> us[i].id == i
    requires InputsKnown(us, ts)
    requires n <= |Available(us, ts, walletId)| && t.inputs == Ids(Available(us, ts, walletId)[..n])
    requires forall u :: u in created ==> u.id >= |us|
    ensures Balance(Available(us + created, ts + [t], walletId))
      == Balance(Available(us, ts, walletId)) - Balance(Available(us, ts, walletId)[..n]) + Balance(UtxosOf(created, walletId))
  {
    var a := Available(us, ts, walletId);
    assert IncreasingIds(us);
    assert forall id :: id in t.inputs ==> id < |us| by {
      forall id | id in t.inputs ensures id < |us| {
        var i :| 0 <= i < n && Ids(a[..n])[i] == id;
        assert a[i] in a;
      }
    }
    assert Available(us + created, ts + [t], walletId) == a[n..] + UtxosOf(created, walletId) by {
      FilterAppend(us, created, OwnedBy(walletId));
      FilterAppend(UtxosOf(us, walletId), UtxosOf(created, walletId), UnspentIn(ts + [t]));
      OldRowsAfterSpend(us, ts, t, walletId, n);
      NewRowsAfterSpend(us, ts, t, created, walletId);
    }
    BalanceSplit(a, n);
    BalanceAppend(a[n..], UtxosOf(created, walletId));
  }

  /**
   * Spending the first `n` of a wallet's available UTXOs in transaction `t` and storing a
   * completed transfer's outputs takes that wallet's available balance down by what was spent,
   * and up by its change and what the details pay to it.
   */
  lemma {:induction false} SpendAndStoreOutputs(ws: seq<Wallet>, us: seq<Utxo>, ts: seq<Transaction>, t: Transaction,
                                                details: seq<Output>, sourceId: nat, change: int, n: nat)
    requires forall i :: 0 <= i < |us| ==> us[i].id == i
    requires InputsKnown(us, ts)
    requires forall k :: 0 <= k < |details| ==> FindWallet(ws, details[k].address).Some?
    requires change >= 0
    requires n <= |Available(us, ts, sourceId)| && t.inputs == Ids(Available(us, ts, sourceId)[..n])
    ensures Balance(Available(us + TransferOutputs(ws, details, |ts|, |us|, sourceId, change), ts + [t], sourceId))
      == Balance(Available(us, ts, sourceId)) - Balance(Available(us, ts, sourceId)[..n])
         + change + PaidTo(ws, details, sourceId)
  {
    var created := TransferOutputs(ws, details, |ts|, |us|, sourceId, change);
    assert forall u :: u in created ==> u.id >= |us| by {
      TransferUtxosNumbered(ws, details, |ts|, |us|, sourceId, change);
    }
    TransferOutputsForSource(ws, details, |ts|, |us|, sourceId, change);
    AvailableAfterSpend(us, ts, t, created, sourceId, n);
  }

  /**
   * The commit half takes the source's available balance down by the transfer amount, less
   * what the details send back to the source itself.
   */
  lemma {:induction false} CommitAvailableBalance(ws: seq<Wallet>, us: seq<Utxo>, ts: seq<Transaction>, sourceAddress: string,
                                                  details: seq<Output>, sourceId: nat, selected: seq<Utxo>, amount: int, n: nat)
    requires WellFormed(ws, us, ts) && InputsKnown(us, ts)
    requires forall k :: 0 <= k < |details| ==> FindWallet(ws, details[k].address).Some?
    requires amount == OutputsTotal(details) && Balance(selected) >= amount
    requires n <= |Available(us, ts, sourceId)| && selected == Available(us, ts, sourceId)[..n]
    ensures Balance(Available(Commit(ws, us, ts, sourceAddress, details, sourceId, selected, amount).utxos,
                              Commit(ws, us, ts, sourceAddress, details, sourceId, selected, amount).transactions, sourceId))
      == Balance(Available(us, ts, sourceId)) - amount + PaidTo(ws, details, sourceId)
  {
    CommitCompletes(ws, us, ts, sourceAddress, details, sourceId, selected, amount);
    SpendAndStoreOutputs(ws, us, ts, Transaction(|ts|, Ids(selected), details, [sourceAddress], false),
                         details, sourceId, Balance(selected) - amount, n);
  }

  /**
   * A completed transfer takes the source's available balance down by the transfer amount,
   * less what the details send back to the source: the selection is spent, the change and any
   * payment to itself are new and unspent, and the rest of its UTXOs stay available. This
   * holds of any store whose transactions spend only stored UTXOs.
   */
  lemma {:induction false} TransferAvailableBalance(ws: seq<Wallet>, us: seq<Utxo>, ts: seq<Transaction>, sourceAddress: string,
                                                    details: seq<Output>, rounds: seq<seq<string>>, selected: seq<Utxo>)
    requires AnswersFit(rounds, |AvailableFor(ws, us, ts, sourceAddress)|)
    requires WellFormed(ws, us, ts) && InputsKnown(us, ts)
    requires FindWallet(ws, sourceAddress).Some?
    requires Balance(AvailableFor(ws, us, ts, sourceAddress)) >= OutputsTotal(details)
    requires SelectRounds(AvailableFor(ws, us, ts, sourceAddress), OutputsTotal(details), rounds) == Some(selected)
    requires forall k :: 0 <= k < |details| ==> FindWallet(ws, details[k].address).Some?
    ensures Balance(AvailableFor(ws, Transfer(ws, us, ts, sourceAddress, details, rounds).utxos,
                                 Transfer(ws, us, ts, sourceAddress, details, rounds).transactions, sourceAddress))
      == Balance(AvailableFor(ws, us, ts, sourceAddress)) - OutputsTotal(details)
         + PaidTo(ws, details, FindWallet(ws, sourceAddress).value.id)
  {
    var source := FindWallet(ws, sourceAddress).value;
    var a := Available(us, ts, source.id);
    TransferReachesCommit(ws, us, ts, sourceAddress, details, rounds, source, selected);
    var k :| 0 <= k < |rounds| && selected == a[..|rounds[k]|];
    CommitAvailableBalance(ws, us, ts, sourceAddress, details, source.id, selected, OutputsTotal(details), |rounds[k]|);
  }

  /** A transfer spends only UTXOs no earlier transaction spent, so nothing is ever spent twice. */
  lemma {:induction false} TransferNoDoubleSpend(ws: seq<Wallet>, us: seq<Utxo>, ts: seq<Transaction>, sourceAddress: string,
                                                 details: seq<Output>, rounds: seq<seq<string>>)
    requires AnswersFit(rounds, |AvailableFor(ws, us, ts, sourceAddress)|)
    requires NoDoubleSpend(ts)
    ensures NoDoubleSpend(Transfer(ws, us, ts, sourceAddress, details, rounds).transactions)
  {
    var available := AvailableFor(ws, us, ts, sourceAddress);
    var amount := OutputsTotal(details);
    if FindWallet(ws, sourceAddress).Some? && Balance(available) >= amount && SelectRounds(available, amount, rounds).Some? {
      var selected := SelectRounds(available, amount, rounds).value;
      TransferSpendsSelection(ws, us, ts, sourceAddress, details, rounds, selected);
      var t := Transaction(|ts|, Ids(selected), details, [sourceAddress], false);
      var ts' := ts + [t];
      forall i, j, id | 0 <= i < j < |ts'| && id in ts'[i].inputs ensures id !in ts'[j].inputs {
        assert ts'[i] == ts[i];
        if j == |ts| {
          assert IsSpent(ts, id);
          forall m | 0 <= m < |selected| ensures Ids(selected)[m] != id {
            assert selected[m] in selected;
          }
        } else {
          assert ts'[j] == ts[j];
        }
      }
    } else {
      TransferChecks(ws, us, ts, sourceAddress, details, rounds);
      TransferFailureChangesNothing(ws, us, ts, sourceAddress, details, rounds);
    }
  }

  /** A transfer keeps every transaction input the id of a stored UTXO. */
  lemma {:induction false} TransferKeepsInputsKnown(ws: seq<Wallet>, us: seq<Utxo>, ts: seq<Transaction>, sourceAddress: string,
                                                    details: seq<Output>, rounds: seq<seq<string>>)
    requires AnswersFit(rounds, |AvailableFor(ws, us, ts, sourceAddress)|)
    requires WellFormed(ws, us, ts) && InputsKnown(us, ts)
    ensures InputsKnown(Transfer(ws, us, ts, sourceAddress, details, rounds).utxos,
                        Transfer(ws, us, ts, sourceAddress, details, rounds).transactions)
  {
    var available := AvailableFor(ws, us, ts, sourceAddress);
    var amount := OutputsTotal(details);
    if FindWallet(ws, sourceAddress).Some? && Balance(available) >= amount && SelectRounds(available, amount, rounds).Some? {
      var source, selected := FindWallet(ws, sourceAddress).value, SelectRounds(available, amount, rounds).value;
      TransferSpendsSelection(ws, us, ts, sourceAddress, details, rounds, selected);
      TransferReachesCommit(ws, us, ts, sourceAddress, details, rounds, source, selected);
      CommitKeepsInputsKnown(ws, us, ts, sourceAddress, details, source.id, selected, amount);
    }
  }

  class WalletManager {
    var wallets: seq<Wallet>
    var utxos: seq<Utxo>
    var transactions: seq<Transaction>
    /** The class-level `used_utxos` list. */
    var usedUtxos: seq<Utxo>

    /** The store is well formed, and `used_utxos` stays empty: nothing ever matches the int/str test. */
    ghost predicate Valid()
      reads this
    {
      WellFormed(wallets, utxos, transactions) && usedUtxos == []
    }

    constructor ()
      ensures Valid()
      ensures wallets == [] && utxos == [] && transactions == []
    {
      wallets, utxos, transactions, usedUtxos := [], [], [], [];
    }

    /** `create_wallet`: appends a wallet with the flag cleared (the column default). */
    method CreateWallet(address: string)
      requires Valid()
      requires FindWallet(wallets, address).None?
      modifies this`wallets
      ensures Valid()
      ensures wallets == old(wallets) + [Wallet(|old(wallets)|, address, false)]
      ensures FindWallet(wallets, address) == Some(Wallet(|old(wallets)|, address, false))
    {
      FindAppended(wallets, Wallet(|wallets|, address, false));
      wallets := wallets + [Wallet(|wallets|, address, false)];
    }

    /** `create_utxo`: appends one UTXO and returns it. */
    method CreateUtxo(walletId: nat, transactionId: nat, amount: int) returns (u: Utxo)
      requires Valid()
      modifies this`utxos
      ensures Valid()
      ensures u == Utxo(|old(utxos)|, amount, walletId, transactionId)
      ensures utxos == old(utxos) + [u]
    {
      u := Utxo(|utxos|, amount, walletId, transactionId);
      utxos := utxos + [u];
    }

    /** `create_transaction`: appends one transaction whose inputs are the ids of `inputs`, in order. */
    method CreateTransaction(inputs: seq<Utxo>, outputs: seq<Output>, signatures: seq<string>, createMoney: bool)
      returns (t: Transaction)
      requires Valid()
      modifies this`transactions
      ensures Valid()
      ensures t == Transaction(|old(transactions)|, Ids(inputs), outputs, signatures, createMoney)
      ensures transactions == old(transactions) + [t]
      ensures forall u :: u in inputs ==> IsSpent(transactions, u.id)
    {
      t := Transaction(|transactions|, Ids(inputs), outputs, signatures, createMoney);
      transactions := transactions + [t];
      forall u | u in inputs ensures IsSpent(transactions, u.id) {
        var i :| 0 <= i < |inputs| && inputs[i] == u;
        assert transactions[|transactions| - 1].inputs[i] == u.id;
      }
    }

    /** `authorize_address_to_create_money`: flags the wallet found for `address`, if any. */
    method AuthorizeAddressToCreateMoney(address: string)
      requires Valid()
      modifies this`wallets
      ensures Valid()
      ensures wallets == Authorized(old(wallets), address)
    {
      var wallet := FindWallet(wallets, address);
      if wallet.Some? {
        FoundWalletAtItsId(wallets, utxos, transactions, address);
        wallets := wallets[wallet.value.id := wallet.value.(canMint := true)];
      }
    }

    /**
     * `create_money`: when the minter exists and is flagged and the destination exists, one
     * mint transaction and one UTXO of `amount` for the destination; otherwise nothing.
     */
    method CreateMoney(authorizedAddress: string, destinationAddress: string, amount: int) returns (minted: bool)
      requires Valid()
      modifies this`utxos, this`transactions
      ensures Valid()
      ensures minted <==> MintAllowed(wallets, authorizedAddress, destinationAddress)
      ensures !minted ==> utxos == old(utxos) && transactions == old(transactions)
      ensures minted ==>
        transactions == old(transactions)
          + [Transaction(|old(transactions)|, [], [Output(destinationAddress, amount)], [authorizedAddress], true)]
      ensures minted ==>
        utxos == old(utxos)
          + [Utxo(|old(utxos)|, amount, FindWallet(wallets, destinationAddress).value.id, |old(transactions)|)]
    {
      var authorizedWallet := FindWallet(wallets, authorizedAddress);
      var destinationWallet := FindWallet(wallets, destinationAddress);
      minted := authorizedWallet.Some? && authorizedWallet.value.canMint && destinationWallet.Some?;
      if minted {
        var t := CreateTransaction([], [Output(destinationAddress, amount)], [authorizedAddress], true);
        assert Ids([]) == [];
        var _ := CreateUtxo(destinationWallet.value.id, t.id, amount);
      }
    }

    /**
     * `show_utxos_and_select`: offers the UTXOs not in `used_utxos`, takes the next prompt
     * answer, and returns its selection and total if it covers `transferAmount`; otherwise it
     * asks again.
     */
    method ShowUtxosAndSelect(available: seq<Utxo>, transferAmount: int, rounds: seq<seq<string>>)
      returns (selection: Option<(seq<Utxo>, int)>)
      requires Valid()
      requires AnswersFit(rounds, |available|)
      modifies this`usedUtxos
      ensures Valid()
      ensures selection.None? <==> SelectRounds(available, transferAmount, rounds).None?
      ensures selection.Some? ==> selection.value.0 == SelectRounds(available, transferAmount, rounds).value
      ensures selection.Some? ==> selection.value.1 == Balance(selection.value.0)
      decreases |rounds|
    {
      if |rounds| == 0 {
        return None;
      }
      var used := usedUtxos;
      var filtered := Filter(available, (u: Utxo) => u !in used);
      FilterKeepsAll(available, (u: Utxo) => u !in used);
      var answers := rounds[0];
      var marked := Filter(filtered, (u: Utxo) => IdAmongAnswers(u.id, answers));
      FilterKeepsNone(filtered, (u: Utxo) => IdAmongAnswers(u.id, answers));
      usedUtxos := usedUtxos + marked;
      var selected := SelectByAnswers(answers, filtered);
      var total := Balance(selected);
      if total >= transferAmount {
        return Some((selected, total));
      }
      assert AnswersFit(rounds[1..], |available|) by {
        forall k | 0 <= k < |rounds[1..]| ensures Distinct(rounds[1..][k]) && |rounds[1..][k]| <= |available| {
          assert rounds[1..][k] == rounds[k + 1];
        }
      }
      selection := ShowUtxosAndSelect(available, transferAmount, rounds[1..]);
    }

    /**
     * The `for detail in transfer_details` loop of `transfer_money`: one UTXO per detail; a
     * destination without a wallet stops it, keeping the UTXOs already created.
     */
    method CreatePayeeUtxos(details: seq<Output>, txId: nat) returns (missing: Option<nat>)
      requires Valid()
      modifies this`utxos
      ensures Valid()
      ensures missing == FirstMissing(wallets, details)
      ensures missing.None? ==> utxos == old(utxos) + PayeeUtxos(wallets, details, txId, |old(utxos)|)
      ensures missing.Some? ==>
        utxos == old(utxos) + PayeeUtxos(wallets, details[..missing.value], txId, |old(utxos)|)
    {
      var i := 0;
      while i < |details|
        invariant 0 <= i <= |details|
        invariant Valid()
        invariant forall k :: 0 <= k < i ==> FindWallet(wallets, details[k].address).Some?
        invariant utxos == old(utxos) + PayeeUtxos(wallets, details[..i], txId, |old(utxos)|)
      {
        var destination := FindWallet(wallets, details[i].address);
        if destination.None? {
          FirstMissingAt(wallets, details, i);
          return Some(i);
        }
        var u := CreateUtxo(destination.value.id, txId, details[i].amount);
        PayeeUtxosExtend(wallets, details, i, txId, |old(utxos)|);
        i := i + 1;
      }
      assert details[..i] == details;
      return None;
    }

    /** The change step of `transfer_money`: a UTXO of `change` for the source, when positive. */
    method CreateChangeUtxo(sourceId: nat, txId: nat, change: int)
      requires Valid()
      modifies this`utxos
      ensures Valid()
      ensures utxos == old(utxos) + ChangeUtxos(sourceId, txId, |old(utxos)|, change)
    {
      if change > 0 {
        var _ := CreateUtxo(sourceId, txId, change);
      }
    }

    /** The payee loop of `transfer_money` followed by its change step. */
    method CreateTransferUtxos(details: seq<Output>, txId: nat, sourceId: nat, change: int) returns (outcome: TransferOutcome)
      requires Valid()
      modifies this`utxos
      ensures Valid()
      ensures outcome == TransferUtxos(wallets, details, txId, |old(utxos)|, sourceId, change).0
      ensures utxos == old(utxos) + TransferUtxos(wallets, details, txId, |old(utxos)|, sourceId, change).1
    {
      var missing := CreatePayeeUtxos(details, txId);
      if missing.Some? {
        return DestinationNotFound(missing.value);
      }
      ghost var withPayees := utxos;
      CreateChangeUtxo(sourceId, txId, change);
      TransferLayout(old(utxos), withPayees, utxos, wallets, details, txId, sourceId, change);
      return Transferred;
    }

    /**
     * The commit half of `transfer_money`: one transaction spending the selection, the payee
     * UTXOs, then the change UTXO if the selection's total `totalSelected` exceeds `amount`.
     */
    method RecordTransfer(sourceId: nat, sourceAddress: string, details: seq<Output>, selected: seq<Utxo>,
                          totalSelected: int, amount: int)
      returns (outcome: TransferOutcome)
      requires Valid()
      requires totalSelected == Balance(selected)
      modifies this`utxos, this`transactions
      ensures Valid()
      ensures TransferResult(outcome, utxos, transactions)
        == Commit(wallets, old(utxos), old(transactions), sourceAddress, details, sourceId, selected, amount)
    {
      var t := CreateTransaction(selected, details, [sourceAddress], false);
      var change := totalSelected - amount;
      assert change == Balance(selected) - amount;
      outcome := CreateTransferUtxos(details, t.id, sourceId, change);
    }

    /**
     * `transfer_money`: checks the source exists and its available balance covers the details,
     * lets the operator select UTXOs, then records one transaction spending them, one UTXO per
     * detail and, when the selection exceeds the amount, a change UTXO for the source. The
     * outcome and the new tables are those `Transfer` describes.
     */
    method TransferMoney(sourceAddress: string, details: seq<Output>, rounds: seq<seq<string>>)
      returns (outcome: TransferOutcome)
      requires Valid()
      requires AnswersFit(rounds, |AvailableFor(wallets, utxos, transactions, sourceAddress)|)
      modifies this`utxos, this`transactions, this`usedUtxos
      ensures Valid()
      ensures TransferResult(outcome, utxos, transactions)
        == Transfer(wallets, old(utxos), old(transactions), sourceAddress, details, rounds)
    {
      var sourceWallet := FindWallet(wallets, sourceAddress);
      if sourceWallet.None? {
        return SourceWalletNotFound;
      }
      var totalAmount := Balance(Available(utxos, transactions, sourceWallet.value.id));
      var transferAmount := OutputsTotal(details);
      if totalAmount < transferAmount {
        return InsufficientFunds(totalAmount);
      }
      var available := Available(utxos, transactions, sourceWallet.value.id);
      var selection := ShowUtxosAndSelect(available, transferAmount, rounds);
      if selection.None? {
        return SelectionAbandoned;
      }
      var selected, totalSelected := selection.value.0, selection.value.1;
      TransferReachesCommit(wallets, utxos, transactions, sourceAddress, details, rounds, sourceWallet.value, selected);
      outcome := RecordTransfer(sourceWallet.value.id, sourceAddress, details, selected, totalSelected, transferAmount);
    }
  }
}
