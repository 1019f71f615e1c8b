/** Interaction records: the dictionaries `Session.add_entry` copies, stamps and hands
    to the request list or to the table service. */
module Records {
  import Decimal

  /** The values a record field can hold. `Time` is a `datetime`, given here by its
      reading of the clock; `List` and `Dict` are the nested values the table service
      cannot store as they are. */
  datatype Value =
    | Null
    | Bool(b: bool)
    | Int(i: int)
    | Float(f: real)
    | Str(s: string)
    | Time(t: real)
    | List(items: seq<Value>)
    | Dict(entries: map<string, Value>)

  type Record = map<string, Value>

  const TimeKey := "time"
  const SnapshotIndexKey := "current_snapshot_index"
  const RequestIndexKey := "current_request_index"
  const ExperimentKey := "experiment"
  const PartitionKeyField := "PartitionKey"
  const RowKeyField := "RowKey"

  /** The six field names are pairwise distinct. */
  lemma KeysDistinct()
    ensures TimeKey != SnapshotIndexKey && TimeKey != RequestIndexKey && TimeKey != ExperimentKey
    ensures TimeKey != PartitionKeyField && TimeKey != RowKeyField && SnapshotIndexKey != RequestIndexKey
    ensures SnapshotIndexKey != ExperimentKey && SnapshotIndexKey != PartitionKeyField && SnapshotIndexKey != RowKeyField
    ensures RequestIndexKey != ExperimentKey && RequestIndexKey != PartitionKeyField && RequestIndexKey != RowKeyField
    ensures ExperimentKey != PartitionKeyField && ExperimentKey != RowKeyField && PartitionKeyField != RowKeyField
  {
  }

  predicate IsNested(v: Value) {
    v.List? || v.Dict?
  }

  /** Every field of `r` is a scalar the table service accepts. */
  predicate IsFlat(r: Record) {
    forall k :: k in r ==> !IsNested(r[k])
  }

  /** One field as the table service receives it: the `json.dumps` text of a dict or a
      list, any other value as it is. */
  function Flattened(v: Value, dumps: Value -> string): Value {
    if IsNested(v) then Str(dumps(v)) else v
  }

  /** The record whose every field is flattened. */
  function FlattenAll(r: Record, dumps: Value -> string): (f: Record)
    ensures f.Keys == r.Keys && IsFlat(f)
    ensures forall k :: k in r ==> f[k] == Flattened(r[k], dumps)
  {
    map k | k in r :: Flattened(r[k], dumps)
  }

  /** The loop that rewrites each field of the record in place, one key at a time. */
  method FlattenNested(data: Record, dumps: Value -> string) returns (flat: Record)
    ensures flat.Keys == data.Keys
    ensures forall k :: k in data ==> flat[k] == Flattened(data[k], dumps)
    ensures IsFlat(flat)
  {
    flat := data;
    var pending := data.Keys;
    while pending != {}
      invariant pending <= data.Keys && flat.Keys == data.Keys
      invariant forall k :: k in data && k !in pending ==> flat[k] == Flattened(data[k], dumps)
      invariant forall k :: k in pending ==> flat[k] == data[k]
      decreases pending
    {
      var k :| k in pending;
      if IsNested(flat[k]) {
        flat := flat[k := Str(dumps(flat[k]))];
      }
      pending := pending - {k};
    }
  }

  /** The copy of the caller's record with the clock reading, the snapshot index and the
      request index written into it. */
  function Stamp(data: Record, now: real, snapshotIndex: nat, requestIndex: nat): (r: Record)
    ensures r.Keys == data.Keys + {TimeKey, SnapshotIndexKey, RequestIndexKey}
    ensures r[TimeKey] == Time(now)
    ensures r[SnapshotIndexKey] == Int(snapshotIndex) && r[RequestIndexKey] == Int(requestIndex)
    ensures forall k :: k in data && k != TimeKey && k != SnapshotIndexKey && k != RequestIndexKey ==> r[k] == data[k]
  {
    data[TimeKey := Time(now)][SnapshotIndexKey := Int(snapshotIndex)][RequestIndexKey := Int(requestIndex)]
  }

  /** `"%s" % v`: a string is its own text; other values use `str`, given as `show`. */
  function Text(v: Value, show: Value -> string): string {
    if v.Str? then v.s else show(v)
  }

  /** `"%s_%d" % (experiment, request_index)`. Both parts can be read back: dropping the
      trailing digits leaves the experiment and the underscore, and the digits after
      them are the request index. */
  function RowKey(experiment: string, requestIndex: nat): (k: string)
    ensures DropTrailingDigits(k) == experiment + "_"
    ensures |k| > |experiment| + 1
    ensures var digits := k[|experiment| + 1..];
      (forall i :: 0 <= i < |digits| ==> Decimal.IsDigit(digits[i])) && Decimal.Parse(digits) == requestIndex
  {
    var digits := Decimal.Format(requestIndex);
    DropDigitsAfterUnderscore(experiment, digits);
    Decimal.ParseFormat(requestIndex);
    assert (experiment + "_" + digits)[|experiment| + 1..] == digits;
    experiment + "_" + digits
  }

  /** `s` without the run of digits at its end. */
  function DropTrailingDigits(s: string): string
    decreases |s|
  {
    if s != [] && Decimal.IsDigit(s[|s| - 1]) then DropTrailingDigits(s[..|s| - 1]) else s
  }

  lemma {:induction false} DropDigitsAfterUnderscore(e: string, d: string)
    requires forall i :: 0 <= i < |d| ==> Decimal.IsDigit(d[i])
    ensures DropTrailingDigits(e + "_" + d) == e + "_"
    decreases |d|
  {
    var s := e + "_" + d;
    if d != [] {
      assert s[..|s| - 1] == e + "_" + d[..|d| - 1];
      DropDigitsAfterUnderscore(e, d[..|d| - 1]);
    } else {
      assert s == e + "_";
    }
  }

  /** A row key determines both its experiment and its request index: the text after the
      last underscore is all digits. Distinct request indices therefore never share a row
      key, whatever the experiments are. */
  lemma RowKeyUnique(e1: string, i: nat, e2: string, j: nat)
    ensures RowKey(e1, i) == RowKey(e2, j) ==> e1 == e2 && i == j
  {
    var d1, d2 := Decimal.Format(i), Decimal.Format(j);
    if RowKey(e1, i) == RowKey(e2, j) {
      DropDigitsAfterUnderscore(e1, d1);
      DropDigitsAfterUnderscore(e2, d2);
      assert e1 == (e1 + "_")[..|e1|] && e2 == (e2 + "_")[..|e2|];
      assert d1 == RowKey(e1, i)[|e1| + 1..] && d2 == RowKey(e2, j)[|e2| + 1..];
      Decimal.FormatInjective(i, j);
    }
  }

  /** The entity `add_entry` sends to the interactions table: the stamped copy, keyed by
      the snapshot string and the row key, with every nested field flattened to text. */
  function InteractionEntity(data: Record, now: real, snapshotIndex: nat, requestIndex: nat,
                             snapshotString: string, dumps: Value -> string, show: Value -> string): (r: Record)
    requires ExperimentKey in data
    ensures r.Keys == data.Keys + {TimeKey, SnapshotIndexKey, RequestIndexKey, PartitionKeyField, RowKeyField}
    ensures IsFlat(r)
  {
    var stamped := Stamp(data, now, snapshotIndex, requestIndex);
    var keyed := stamped[PartitionKeyField := Str(snapshotString)]
                        [RowKeyField := Str(RowKey(Text(data[ExperimentKey], show), requestIndex))];
    FlattenAll(keyed, dumps)
  }

  /** The interaction entity is filed under the snapshot string as partition key and
      under the row key of its experiment and request index. */
  lemma InteractionEntityKeys(data: Record, now: real, snapshotIndex: nat, requestIndex: nat,
                              snapshotString: string, dumps: Value -> string, show: Value -> string)
    requires ExperimentKey in data
    ensures var r := InteractionEntity(data, now, snapshotIndex, requestIndex, snapshotString, dumps, show);
      && r[PartitionKeyField] == Str(snapshotString)
      && r[RowKeyField] == Str(RowKey(Text(data[ExperimentKey], show), requestIndex))
  {
    KeysDistinct();
  }

  /** The other fields of the interaction entity: the stamp, and each of the caller's
      fields flattened. */
  lemma InteractionEntityFields(data: Record, now: real, snapshotIndex: nat, requestIndex: nat,
                                snapshotString: string, dumps: Value -> string, show: Value -> string)
    requires ExperimentKey in data
    ensures var r := InteractionEntity(data, now, snapshotIndex, requestIndex, snapshotString, dumps, show);
      && r[TimeKey] == Time(now)
      && r[SnapshotIndexKey] == Int(snapshotIndex) && r[RequestIndexKey] == Int(requestIndex)
      && forall k :: k in data && k !in {TimeKey, SnapshotIndexKey, RequestIndexKey, PartitionKeyField, RowKeyField}
           ==> r[k] == Flattened(data[k], dumps)
  {
    KeysDistinct();
  }
}
