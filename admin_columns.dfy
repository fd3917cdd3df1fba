/** The column filter on the YITH refund-request list: adds a
    "Replacement Request" column. */
module AdminColumns {
  import opened Wrappers

  const ReplacementColumnKey := "replacement_request"
  const ReplacementColumnLabel := "Replacement Request"

  /** A PHP array of columns: an ordered list of (key, label) pairs. */
  type Columns = seq<(string, string)>

  function Keys(cols: Columns): (ks: seq<string>)
    ensures |ks| == |cols|
    ensures forall i :: 0 <= i < |cols| ==> ks[i] == cols[i].0
  {
    if cols == [] then [] else [cols[0].0] + Keys(cols[1..])
  }

  /** PHP array keys are unique. */
  predicate UniqueKeys(cols: Columns) {
    forall i, j :: 0 <= i < j < |cols| ==> Keys(cols)[i] != Keys(cols)[j]
  }

  /** `$cols[$key]`, or nothing when the key is absent. */
  function Lookup(cols: Columns, key: string): (v: Option<string>)
    ensures v.None? <==> key !in Keys(cols)
  {
    if cols == [] then None
    else if cols[0].0 == key then Some(cols[0].1)
    else Lookup(cols[1..], key)
  }

  /** `$cols[$key] = $value`: the key takes the new value; an existing key
      keeps its position and a new key goes at the end. */
  function Assign(cols: Columns, key: string, value: string): (r: Columns)
    ensures Lookup(r, key) == Some(value)
    ensures Keys(r) == if key in Keys(cols) then Keys(cols) else Keys(cols) + [key]
  {
    if cols == [] then [(key, value)]
    else if cols[0].0 == key then [(key, value)] + cols[1..]
    else
      var t := Assign(cols[1..], key, value);
      var r := [cols[0]] + t;
      assert r[0] == cols[0] && r[1..] == t;
      assert Lookup(r, key) == Lookup(t, key);
      assert Keys(r) == [cols[0].0] + Keys(t);
      assert Keys(cols) == [cols[0].0] + Keys(cols[1..]);
      assert key in Keys(cols) <==> key in Keys(cols[1..]);
      r
  }

  /** Assigning one key leaves the value of every other key as it was. */
  lemma {:induction false} AssignKeepsOthers(cols: Columns, key: string, value: string)
    ensures forall k :: k != key ==> Lookup(Assign(cols, key, value), k) == Lookup(cols, k)
  {
    if cols != [] && cols[0].0 != key {
      AssignKeepsOthers(cols[1..], key, value);
      var r := Assign(cols, key, value);
      assert r[1..] == Assign(cols[1..], key, value);
    }
  }

  /** Assigning one key keeps the keys of an array unique. */
  lemma AssignKeepsUnique(cols: Columns, key: string, value: string)
    ensures UniqueKeys(cols) ==> UniqueKeys(Assign(cols, key, value))
  {
  }

  /** `add_custom_refund_request_columns($columns)`: the result has the
      replacement column with its label and every other column unchanged,
      in the same order. */
  function AddCustomRefundRequestColumns(columns: Columns): (r: Columns)
    ensures Lookup(r, ReplacementColumnKey) == Some(ReplacementColumnLabel)
    ensures forall k :: k != ReplacementColumnKey ==> Lookup(r, k) == Lookup(columns, k)
    ensures ReplacementColumnKey in Keys(columns) ==> Keys(r) == Keys(columns)
    ensures ReplacementColumnKey !in Keys(columns) ==> Keys(r) == Keys(columns) + [ReplacementColumnKey]
    ensures UniqueKeys(columns) ==> UniqueKeys(r)
  {
    AssignKeepsOthers(columns, ReplacementColumnKey, ReplacementColumnLabel);
    AssignKeepsUnique(columns, ReplacementColumnKey, ReplacementColumnLabel);
    Assign(columns, ReplacementColumnKey, ReplacementColumnLabel)
  }
}
