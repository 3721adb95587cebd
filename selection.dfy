/**
 * What `show_utxos_and_select` does with the operator's checkbox answers, in both variants:
 * it zips the answer list with the offered UTXOs into a dictionary and looks every answer up
 * in it. The answers therefore only decide HOW MANY UTXOs are taken, never which ones.
 */
module Selection {
  import opened Ledger

  /** No element occurs twice; a checkbox answer never repeats a choice. */
  predicate Distinct<T(==)>(s: seq<T>) {
    forall i, j :: 0 <= i < j < |s| ==> s[i] != s[j]
  }

  /** `{k: v for k, v in zip(keys, values)}`: pairs up to the shorter list; a repeated key keeps its last pair. */
  function ZipDict(keys: seq<string>, values: seq<Utxo>): (d: map<string, Utxo>)
    ensures forall k :: k in d ==> k in keys
  {
    if |keys| == 0 || |values| == 0 then map[]
    else
      var rest := ZipDict(keys[1..], values[1..]);
      if keys[0] in rest then rest else rest[keys[0] := values[0]]
  }

  /** With distinct keys, the dictionary maps the i-th key to the i-th value. */
  lemma {:induction false} ZipDictAt(keys: seq<string>, values: seq<Utxo>, i: nat)
    requires Distinct(keys)
    requires i < |keys| && i < |values|
    ensures keys[i] in ZipDict(keys, values) && ZipDict(keys, values)[keys[i]] == values[i]
  {
    var rest := ZipDict(keys[1..], values[1..]);
    if i > 0 {
      assert Distinct(keys[1..]) by {
        forall a, b | 0 <= a < b < |keys[1..]| ensures keys[1..][a] != keys[1..][b] {
          assert keys[1..][a] == keys[a + 1] && keys[1..][b] == keys[b + 1];
        }
      }
      ZipDictAt(keys[1..], values[1..], i - 1);
      assert keys[0] != keys[i];
    }
  }

  /**
   * `[utxos_dict[a] for a in answers]`: the UTXOs handed back for a checkbox answer. Whatever
   * the answers name, they are the first |answers| offered UTXOs, in the order offered.
   */
  function SelectByAnswers(answers: seq<string>, offered: seq<Utxo>): (selected: seq<Utxo>)
    requires Distinct(answers) && |answers| <= |offered|
    ensures selected == offered[..|answers|]
  {
    var d := ZipDict(answers, offered);
    assert forall i :: 0 <= i < |answers| ==> answers[i] in d && d[answers[i]] == offered[i] by {
      forall i | 0 <= i < |answers| ensures answers[i] in d && d[answers[i]] == offered[i] {
        ZipDictAt(answers, offered, i);
      }
    }
    seq(|answers|, i requires 0 <= i < |answers| => d[answers[i]])
  }
}
