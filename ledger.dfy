/**
 * The three tables both variants of the toy UTXO ledger keep (wallets, utxos, transactions)
 * and the read-only queries over them: wallet lookup by address, a wallet's UTXOs, spent-ness,
 * available UTXOs and balances. Auto-increment ids are modelled as row positions.
 */
module Ledger {

  datatype Option<+T> = None | Some(value: T)

  /** A row of `wallets`: `canMint` is the `authorize_address_to_create_money` flag. */
  datatype Wallet = Wallet(id: nat, address: string, canMint: bool)

  /** A row of `utxos`: its amount in minor units, the owning wallet and the creating transaction. */
  datatype Utxo = Utxo(id: nat, amount: int, walletId: nat, transactionId: nat)

  /** One `{'address': ..., 'amount': ...}` entry: a transaction output, or a transfer detail. */
  datatype Output = Output(address: string, amount: int)

  /** A row of `transactions`; `inputs` holds the ids of the UTXOs it consumes. */
  datatype Transaction = Transaction(
    id: nat,
    inputs: seq<nat>,
    outputs: seq<Output>,
    signatures: seq<string>,
    createMoney: bool)

  /** Auto-increment ids are row positions, and no two wallets share an address (`unique=True`). */
  ghost predicate WellFormed(ws: seq<Wallet>, us: seq<Utxo>, ts: seq<Transaction>) {
    && (forall i :: 0 <= i < |ws| ==> ws[i].id == i)
    && (forall i :: 0 <= i < |us| ==> us[i].id == i)
    && (forall i :: 0 <= i < |ts| ==> ts[i].id == i)
    && (forall i, j :: 0 <= i < j < |ws| ==> ws[i].address != ws[j].address)
  }

  /** `s` occurs in `t` in order, possibly with gaps. */
  predicate IsSubsequence<T(==)>(s: seq<T>, t: seq<T>) {
    |s| == 0 || (|t| > 0 && ((s[0] == t[0] && IsSubsequence(s[1..], t[1..])) || IsSubsequence(s, t[1..])))
  }

  /** A list comprehension `[u for u in s if keep(u)]`. */
  function Filter(s: seq<Utxo>, keep: Utxo -> bool): (r: seq<Utxo>)
    ensures forall x :: x in r <==> x in s && keep(x)
    ensures IsSubsequence(r, s)
  {
    if |s| == 0 then []
    else if keep(s[0]) then [s[0]] + Filter(s[1..], keep)
    else Filter(s[1..], keep)
  }

  /** A filter whose test every element passes returns its input. */
  lemma {:induction false} FilterKeepsAll(s: seq<Utxo>, keep: Utxo -> bool)
    requires forall x :: x in s ==> keep(x)
    ensures Filter(s, keep) == s
  {
    if |s| > 0 {
      FilterKeepsAll(s[1..], keep);
    }
  }

  /** A filter whose test no element passes returns nothing. */
  lemma {:induction false} FilterKeepsNone(s: seq<Utxo>, keep: Utxo -> bool)
    requires forall x :: x in s ==> !keep(x)
    ensures Filter(s, keep) == []
  {
    if |s| > 0 {
      FilterKeepsNone(s[1..], keep);
    }
  }

  /** Filtering a concatenation filters each part. */
  lemma {:induction false} FilterAppend(a: seq<Utxo>, b: seq<Utxo>, keep: Utxo -> bool)
    ensures Filter(a + b, keep) == Filter(a, keep) + Filter(b, keep)
  {
    if |a| == 0 {
      assert a + b == b;
    } else {
      assert (a + b)[1..] == a[1..] + b;
      FilterAppend(a[1..], b, keep);
    }
  }

  /** Filtering twice is filtering once by both tests. */
  lemma {:induction false} FilterFilter(s: seq<Utxo>, p: Utxo -> bool, q: Utxo -> bool, both: Utxo -> bool)
    requires forall x :: x in s ==> both(x) == (p(x) && q(x))
    ensures Filter(Filter(s, p), q) == Filter(s, both)
  {
    if |s| > 0 {
      assert forall x :: x in s[1..] ==> x in s;
      FilterFilter(s[1..], p, q, both);
      if p(s[0]) {
        var f := [s[0]] + Filter(s[1..], p);
        assert f[0] == s[0] && f[1..] == Filter(s[1..], p);
      }
    }
  }

  /** The UTXO ids strictly increase along the sequence, as row ids do along a table. */
  predicate IncreasingIds(s: seq<Utxo>) {
    forall i, j :: 0 <= i < j < |s| ==> s[i].id < s[j].id
  }

  /** A UTXO below every id of an increasing sequence can be put in front of it. */
  lemma {:induction false} ConsIncreasing(u: Utxo, s: seq<Utxo>)
    requires IncreasingIds(s)
    requires forall x :: x in s ==> u.id < x.id
    ensures IncreasingIds([u] + s)
  {
    var r := [u] + s;
    forall i, j | 0 <= i < j < |r| ensures r[i].id < r[j].id {
      assert r[j] == s[j - 1] && s[j - 1] in s;
      if i > 0 {
        assert r[i] == s[i - 1];
      }
    }
  }

  /** A filter keeps the ids increasing. */
  lemma {:induction false} FilterKeepsIncreasing(s: seq<Utxo>, keep: Utxo -> bool)
    requires IncreasingIds(s)
    ensures IncreasingIds(Filter(s, keep))
  {
    if |s| > 0 {
      var rest := Filter(s[1..], keep);
      FilterKeepsIncreasing(s[1..], keep);
      if keep(s[0]) {
        assert forall x :: x in s[1..] ==> s[0].id < x.id by {
          forall x | x in s[1..] ensures s[0].id < x.id {
            var j :| 0 <= j < |s[1..]| && s[1..][j] == x;
            assert s[j + 1] == x;
          }
        }
        ConsIncreasing(s[0], rest);
      }
    }
  }

  /** Position of the first wallet with `address`: the row `.filter_by(address=...).first()` returns. */
  function WalletIndex(ws: seq<Wallet>, address: string): (r: Option<nat>)
    ensures r.Some? ==> r.value < |ws| && ws[r.value].address == address
  {
    if |ws| == 0 then None
    else if ws[0].address == address then Some(0)
    else match WalletIndex(ws[1..], address)
      case None => None
      case Some(k) => Some(k + 1)
  }

  /** The index found is the first match, and there is none exactly when no wallet has the address. */
  lemma {:induction false} WalletIndexIsFirst(ws: seq<Wallet>, address: string)
    ensures WalletIndex(ws, address).Some? ==>
      forall j :: 0 <= j < WalletIndex(ws, address).value ==> ws[j].address != address
    ensures WalletIndex(ws, address).None? <==> forall j :: 0 <= j < |ws| ==> ws[j].address != address
  {
    if |ws| > 0 && ws[0].address != address {
      WalletIndexIsFirst(ws[1..], address);
      assert forall j :: 1 <= j < |ws| ==> ws[j] == ws[1..][j - 1];
    }
  }

  /** `fetch_wallet_by_address`: the first wallet with that address, or `None`. */
  function FindWallet(ws: seq<Wallet>, address: string): (r: Option<Wallet>)
    ensures r.Some? ==> r.value in ws && r.value.address == address
  {
    match WalletIndex(ws, address)
    case None => None
    case Some(i) => Some(ws[i])
  }

  /** The lookup comes back empty exactly when no wallet has the address. */
  lemma {:induction false} FindWalletNone(ws: seq<Wallet>, address: string)
    ensures FindWallet(ws, address).None? <==> forall w :: w in ws ==> w.address != address
  {
    WalletIndexIsFirst(ws, address);
    if FindWallet(ws, address).None? {
      forall w | w in ws ensures w.address != address {
        var j :| 0 <= j < |ws| && ws[j] == w;
      }
    }
  }

  /** In a well-formed store the wallet found for an address is the row at its own id. */
  lemma {:induction false} FoundWalletAtItsId(ws: seq<Wallet>, us: seq<Utxo>, ts: seq<Transaction>, address: string)
    requires WellFormed(ws, us, ts)
    requires FindWallet(ws, address).Some?
    ensures FindWallet(ws, address).value.id < |ws|
    ensures ws[FindWallet(ws, address).value.id] == FindWallet(ws, address).value
    ensures WalletIndex(ws, address) == Some(FindWallet(ws, address).value.id)
  {
  }

  /** A wallet appended under a fresh address is the one found for it. */
  lemma {:induction false} FindAppended(ws: seq<Wallet>, w: Wallet)
    requires FindWallet(ws, w.address).None?
    ensures FindWallet(ws + [w], w.address) == Some(w)
    ensures forall j :: 0 <= j < |ws| ==> ws[j].address != w.address
  {
    FindWalletNone(ws, w.address);
    FindWalletNone(ws + [w], w.address);
    WalletIndexIsFirst(ws + [w], w.address);
    forall j | 0 <= j < |ws| ensures (ws + [w])[j].address != w.address {
      assert (ws + [w])[j] == ws[j];
      assert ws[j] in ws;
    }
  }

  /** The number of transactions whose `inputs` contain `id`: the `.count()` of `is_utxo_spent`. */
  function SpendingCount(ts: seq<Transaction>, id: nat): (count: nat)
    ensures count <= |ts|
  {
    if |ts| == 0 then 0
    else (if id in ts[0].inputs then 1 else 0) + SpendingCount(ts[1..], id)
  }

  lemma {:induction false} SpendingCountPositive(ts: seq<Transaction>, id: nat)
    ensures SpendingCount(ts, id) > 0 <==> exists k :: 0 <= k < |ts| && id in ts[k].inputs
  {
    if |ts| > 0 {
      SpendingCountPositive(ts[1..], id);
      if id !in ts[0].inputs && SpendingCount(ts, id) == 0 {
        forall k | 0 <= k < |ts| ensures id !in ts[k].inputs {
          if k > 0 {
            assert ts[k] == ts[1..][k - 1];
          }
        }
      }
      if id !in ts[0].inputs && SpendingCount(ts, id) > 0 {
        var k :| 0 <= k < |ts[1..]| && id in ts[1..][k].inputs;
        assert ts[k + 1] == ts[1..][k];
      }
    }
  }

  /** `is_utxo_spent`: some stored transaction lists the UTXO id among its inputs. */
  function IsSpent(ts: seq<Transaction>, id: nat): (spent: bool)
    ensures spent <==> exists k :: 0 <= k < |ts| && id in ts[k].inputs
  {
    SpendingCountPositive(ts, id);
    SpendingCount(ts, id) > 0
  }

  /** The decimal digits of `n`, as `json.dumps` writes an integer. */
  function DecimalDigits(n: nat): (r: string)
    ensures |r| >= 1
    ensures forall k :: 0 <= k < |r| ==> '0' <= r[k] <= '9'
  {
    if n < 10 then [('0' as int + n) as char]
    else DecimalDigits(n / 10) + [('0' as int + n % 10) as char]
  }

  /** The items of a list of ids as `json.dumps` writes them, separated by `", "`. */
  function JoinIds(ids: seq<nat>): string {
    if |ids| == 0 then ""
    else if |ids| == 1 then DecimalDigits(ids[0])
    else JoinIds(ids[..|ids| - 1]) + ", " + DecimalDigits(ids[|ids| - 1])
  }

  /** The text a JSON column stores for a list of ids: `json.dumps([0, 1])` is `[0, 1]`. */
  function JsonIds(ids: seq<nat>): (r: string)
    ensures |r| >= 2 && r[0] == '[' && r[|r| - 1] == ']'
  {
    "[" + JoinIds(ids) + "]"
  }

  /** The `n` characters of `s` from position `i`. */
  function PieceAt(s: string, i: nat, n: nat): string
    requires i + n <= |s|
  {
    s[i..i + n]
  }

  /** `p` occurs in `s` as a contiguous piece: SQL's `s LIKE '%' || p || '%'`. */
  predicate Occurs(p: string, s: string) {
    exists i: nat :: i + |p| <= |s| && PieceAt(s, i, |p|) == p
  }

  /**
   * `is_utxo_spent` as the query reaches the database: `inputs` is a generic `JSON` column, on
   * which `.contains([utxo_id])` is a substring test of the serialized argument `[id]` against
   * each row's serialized inputs.
   */
  predicate IsSpentAsQueried(ts: seq<Transaction>, id: nat) {
    exists k :: 0 <= k < |ts| && Occurs(JsonIds([id]), JsonIds(ts[k].inputs))
  }

  /**
   * The query finds a transaction whose inputs are exactly `[0]`, but not one that spends UTXO 0
   * together with UTXO 1, which `IsSpent` counts.
   */
  lemma {:induction false} QueriedSpendMissesSharedInput()
    ensures IsSpentAsQueried([Transaction(0, [0], [], [], false)], 0)
    ensures IsSpent([Transaction(0, [0, 1], [], [], false)], 0)
    ensures !IsSpentAsQueried([Transaction(0, [0, 1], [], [], false)], 0)
  {
    var single, shared := [Transaction(0, [0], [], [], false)], [Transaction(0, [0, 1], [], [], false)];
    assert JsonIds([0]) == "[0]";
    assert PieceAt(JsonIds(single[0].inputs), 0, 3) == "[0]";
    assert Occurs(JsonIds([0]), JsonIds(single[0].inputs));
    assert [0, 1][..1] == [0];
    var text := JsonIds([0, 1]);
    assert text == "[0, 1]";
    assert 0 in shared[0].inputs;
    forall i: nat | i + 3 <= |text| ensures PieceAt(text, i, 3) != "[0]" {
      if i == 0 {
        assert PieceAt(text, i, 3)[2] == ',';
      } else {
        assert PieceAt(text, i, 3)[0] != '[';
      }
    }
  }

  /** The test of `fetch_utxos_by_wallet`: `Utxo.wallet_id == wallet_id`. */
  function OwnedBy(walletId: nat): Utxo -> bool {
    (u: Utxo) => u.walletId == walletId
  }

  /** The test of `fetch_available_utxos`: `not is_utxo_spent(utxo.id)`. */
  function UnspentIn(ts: seq<Transaction>): Utxo -> bool {
    (u: Utxo) => !IsSpent(ts, u.id)
  }

  /** A UTXO is spent after one more transaction iff it was spent before or that transaction consumes it. */
  lemma {:induction false} IsSpentAppend(ts: seq<Transaction>, t: Transaction, id: nat)
    ensures IsSpent(ts + [t], id) <==> IsSpent(ts, id) || id in t.inputs
  {
    var ts' := ts + [t];
    if IsSpent(ts, id) {
      var k :| 0 <= k < |ts| && id in ts[k].inputs;
      assert ts'[k] == ts[k];
    }
    if IsSpent(ts', id) && !(id in t.inputs) {
      var k :| 0 <= k < |ts'| && id in ts'[k].inputs;
      assert k < |ts| && ts'[k] == ts[k];
    }
    assert ts'[|ts|] == t;
  }

  /** No UTXO id is an input of two different transactions: nothing is spent twice. */
  predicate NoDoubleSpend(ts: seq<Transaction>) {
    forall i, j, id :: 0 <= i < j < |ts| && id in ts[i].inputs ==> id !in ts[j].inputs
  }

  /** Every input of a stored transaction is the id of a stored UTXO. */
  predicate InputsKnown(us: seq<Utxo>, ts: seq<Transaction>) {
    forall k, id :: 0 <= k < |ts| && id in ts[k].inputs ==> id < |us|
  }

  /** `fetch_utxos_by_wallet`: the wallet's UTXOs, in store order. */
  function UtxosOf(us: seq<Utxo>, walletId: nat): (r: seq<Utxo>)
    ensures forall u :: u in r <==> u in us && u.walletId == walletId
    ensures IsSubsequence(r, us)
  {
    Filter(us, OwnedBy(walletId))
  }

  /** `fetch_available_utxos`: the wallet's UTXOs that no transaction has consumed, in store order. */
  function Available(us: seq<Utxo>, ts: seq<Transaction>, walletId: nat): (r: seq<Utxo>)
    ensures forall u :: u in r <==> u in us && u.walletId == walletId && !IsSpent(ts, u.id)
    ensures IsSubsequence(r, UtxosOf(us, walletId))
  {
    Filter(UtxosOf(us, walletId), UnspentIn(ts))
  }

  /** The available UTXOs of the wallet with `address`; none when there is no such wallet. */
  function AvailableFor(ws: seq<Wallet>, us: seq<Utxo>, ts: seq<Transaction>, address: string): seq<Utxo> {
    match FindWallet(ws, address)
    case None => []
    case Some(w) => Available(us, ts, w.id)
  }

  /** `calculate_total_balance`: `sum(utxo.amount for utxo in utxos)`. */
  function Balance(us: seq<Utxo>): int {
    if |us| == 0 then 0 else us[0].amount + Balance(us[1..])
  }

  lemma {:induction false} BalanceAppend(a: seq<Utxo>, b: seq<Utxo>)
    ensures Balance(a + b) == Balance(a) + Balance(b)
  {
    if |a| > 0 {
      assert (a + b)[1..] == a[1..] + b;
      BalanceAppend(a[1..], b);
    } else {
      assert a + b == b;
    }
  }

  /** The sum over a sequence is the sum over its first `n` elements plus the sum over the rest. */
  lemma {:induction false} BalanceSplit(us: seq<Utxo>, n: nat)
    requires n <= |us|
    ensures Balance(us) == Balance(us[..n]) + Balance(us[n..])
  {
    assert us == us[..n] + us[n..];
    BalanceAppend(us[..n], us[n..]);
  }

  /** `sum(detail['amount'] for detail in transfer_details)`. */
  function OutputsTotal(ds: seq<Output>): int {
    if |ds| == 0 then 0 else ds[0].amount + OutputsTotal(ds[1..])
  }

  lemma {:induction false} OutputsTotalAppend(a: seq<Output>, b: seq<Output>)
    ensures OutputsTotal(a + b) == OutputsTotal(a) + OutputsTotal(b)
  {
    if |a| > 0 {
      assert (a + b)[1..] == a[1..] + b;
      OutputsTotalAppend(a[1..], b);
    } else {
      assert a + b == b;
    }
  }

  /** `[utxo.id for utxo in inputs]`. */
  function Ids(us: seq<Utxo>): (ids: seq<nat>)
    ensures |ids| == |us|
    ensures forall i :: 0 <= i < |us| ==> ids[i] == us[i].id
  {
    seq(|us|, i requires 0 <= i < |us| => us[i].id)
  }

  /**
   * The wallets table after `authorize_address_to_create_money(address)`: the wallet the lookup
   * finds gets its flag set; an unknown address changes nothing.
   */
  function Authorized(ws: seq<Wallet>, address: string): (r: seq<Wallet>)
    ensures |r| == |ws|
    ensures forall i :: 0 <= i < |ws| ==> r[i].id == ws[i].id && r[i].address == ws[i].address
    ensures FindWallet(ws, address).None? ==> r == ws
    ensures FindWallet(ws, address).Some? ==> FindWallet(r, address) == Some(FindWallet(ws, address).value.(canMint := true))
    ensures forall i :: 0 <= i < |ws| && ws[i].address != address ==> r[i] == ws[i]
  {
    match WalletIndex(ws, address)
    case None => ws
    case Some(i) =>
      var r := ws[i := ws[i].(canMint := true)];
      WalletIndexOnlyReadsAddresses(ws, r, address);
      r
  }

  /** Two wallet tables that agree on every address find the same row for any address. */
  lemma {:induction false} WalletIndexOnlyReadsAddresses(ws: seq<Wallet>, ws': seq<Wallet>, address: string)
    requires |ws| == |ws'|
    requires forall i :: 0 <= i < |ws| ==> ws[i].address == ws'[i].address
    ensures WalletIndex(ws, address) == WalletIndex(ws', address)
  {
    WalletIndexIsFirst(ws, address);
    WalletIndexIsFirst(ws', address);
    var r, r' := WalletIndex(ws, address), WalletIndex(ws', address);
    if r.Some? && r'.Some? {
      assert !(r.value < r'.value) && !(r'.value < r.value);
    }
  }

  /** Authorizing an address twice is the same as authorizing it once. */
  lemma {:induction false} AuthorizeIdempotent(ws: seq<Wallet>, address: string)
    ensures Authorized(Authorized(ws, address), address) == Authorized(ws, address)
  {
    WalletIndexOnlyReadsAddresses(ws, Authorized(ws, address), address);
  }

  /** `create_money`'s gate: the minter exists and is flagged, and the destination exists. */
  predicate MintAllowed(ws: seq<Wallet>, minter: string, destination: string) {
    && FindWallet(ws, minter).Some?
    && FindWallet(ws, minter).value.canMint
    && FindWallet(ws, destination).Some?
  }

  /** After `authorize_address_to_create_money(m)`, `m` may mint to any existing wallet. */
  lemma {:induction false} AuthorizeEnablesMint(ws: seq<Wallet>, minter: string, destination: string)
    ensures MintAllowed(Authorized(ws, minter), minter, destination)
        <==> FindWallet(ws, minter).Some? && FindWallet(ws, destination).Some?
  {
    WalletIndexOnlyReadsAddresses(ws, Authorized(ws, minter), destination);
  }
}
