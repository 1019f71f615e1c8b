/** The bookkeeping of a model-serving session: its snapshot lineage, its request
    counter, its in-memory request log, and the references `save` hands out and `load`
    reads back. */
module Sessions {
  import opened Results
  import opened Records
  import Decimal
  import Base64
  import Utf8
  import PosixPath

  /** Where a session records what happens: the `storage_type` string "file", "table"
      or `None`. */
  datatype StorageKind = File | Table | NoStorage

  /** The command-line settings a local model is built from. */
  datatype ModelArgs = ModelArgs(modelFn: string, gpuId: int, fineTuneLayer: int, fineTuneSeedDataFn: Option<string>)

  /** The model a session owns, as an opaque handle: built in-process, a proxy to a
      worker addressed by the session id, or whatever was read back from a saved file. */
  datatype ModelHandle =
    | KerasDenseFineTune(args: ModelArgs)
    | ModelRpc(sessionId: string)
    | Unpickled(path: string)

  datatype SessionError =
    | AssertionFailed           // an `assert` in the session failed
    | ReferenceNotBase64        // `b64decode` rejected the reference
    | ReferenceNotUtf8          // the decoded octets are not UTF-8
    | TableServiceRaised        // `insert_entity` raised, or no table service is attached

  const SnapshotStringLength := 8
  const DefaultStoragePath := "data/"
  const SessionsTable := "webtoolsessions"
  const InteractionsTable := "webtoolinteractions"
  /** `np.random.randint(0, 8)` draws the partition of a lineage entity below this. */
  const LineagePartitions := 8

  /** `"%s_%d" % (model_name, idx)`. */
  function SnapshotId(modelName: string, idx: nat): string {
    modelName + "_" + Decimal.Format(idx)
  }

  /** Both parts of a snapshot id can be read back: dropping its trailing digits leaves
      the model name and the underscore, and the digits after them are the index. */
  lemma SnapshotIdReadBack(modelName: string, idx: nat)
    ensures var id := SnapshotId(modelName, idx);
      && DropTrailingDigits(id) == modelName + "_"
      && |id| > |modelName| + 1
      && (forall i :: |modelName| + 1 <= i < |id| ==> Decimal.IsDigit(id[i]))
      && Decimal.Parse(id[|modelName| + 1..]) == idx
  {
    var digits := Decimal.Format(idx);
    DropDigitsAfterUnderscore(modelName, digits);
    Decimal.ParseFormat(idx);
    assert SnapshotId(modelName, idx)[|modelName| + 1..] == digits;
  }

  /** `os.path.join(storage_path, snapshot_string)`: the directory of a lineage. */
  function LineageDir(storagePath: string, snapshotString: string): string {
    PosixPath.Join(storagePath, snapshotString)
  }

  /** The file name of a snapshot's `kind` ("_model.p" or "_request_list.p") is as
      absolute as the model name. */
  lemma SnapshotFileIsAbsolute(modelName: string, idx: nat, kind: string)
    ensures PosixPath.IsAbsolute(SnapshotId(modelName, idx) + kind) == PosixPath.IsAbsolute(modelName)
  {
    var f := SnapshotId(modelName, idx) + kind;
    assert f == modelName + "_" + (Decimal.Format(idx) + kind);
    if modelName != [] {
      assert f[0] == modelName[0];
    } else {
      assert f[0] == '_';
    }
  }

  /** The file a save with this index names for the model. */
  function ModelPath(storagePath: string, snapshotString: string, modelName: string, idx: nat): string {
    PosixPath.Join(LineageDir(storagePath, snapshotString), SnapshotId(modelName, idx) + "_model.p")
  }

  /** The file a save with this index writes the request list to. */
  function RequestListPath(storagePath: string, snapshotString: string, modelName: string, idx: nat): string {
    PosixPath.Join(LineageDir(storagePath, snapshotString), SnapshotId(modelName, idx) + "_request_list.p")
  }

  /** The model file lies in the lineage's directory (unless the model name is itself
      absolute) and its name ends with the snapshot id and `_model.p`. */
  lemma ModelPathShape(storagePath: string, snapshotString: string, modelName: string, idx: nat)
    ensures var r, dir := ModelPath(storagePath, snapshotString, modelName, idx), LineageDir(storagePath, snapshotString);
      !PosixPath.IsAbsolute(modelName) ==> |r| >= |dir| && r[..|dir|] == dir
    ensures var r, f := ModelPath(storagePath, snapshotString, modelName, idx), SnapshotId(modelName, idx) + "_model.p";
      |r| >= |f| && r[|r| - |f|..] == f
  {
    SnapshotFileIsAbsolute(modelName, idx, "_model.p");
    PosixPath.JoinShape(LineageDir(storagePath, snapshotString), SnapshotId(modelName, idx) + "_model.p");
  }

  /** The request-list file lies in the same directory as the model file, its name ends
      with the snapshot id and `_request_list.p`, and it is never the model file. */
  lemma RequestListPathShape(storagePath: string, snapshotString: string, modelName: string, idx: nat)
    ensures var r, dir := RequestListPath(storagePath, snapshotString, modelName, idx), LineageDir(storagePath, snapshotString);
      !PosixPath.IsAbsolute(modelName) ==> |r| >= |dir| && r[..|dir|] == dir
    ensures var r, f := RequestListPath(storagePath, snapshotString, modelName, idx), SnapshotId(modelName, idx) + "_request_list.p";
      |r| >= |f| && r[|r| - |f|..] == f
    ensures RequestListPath(storagePath, snapshotString, modelName, idx) != ModelPath(storagePath, snapshotString, modelName, idx)
  {
    SnapshotFileIsAbsolute(modelName, idx, "_request_list.p");
    PosixPath.JoinShape(LineageDir(storagePath, snapshotString), SnapshotId(modelName, idx) + "_request_list.p");
    var r := RequestListPath(storagePath, snapshotString, modelName, idx);
    var m := ModelPath(storagePath, snapshotString, modelName, idx);
    ModelPathShape(storagePath, snapshotString, modelName, idx);
    assert r[|r| - 3] == 't' && m[|m| - 3] == 'l';
  }

  /** Within one lineage, saves of the same model under different indices name
      different files. */
  lemma ModelPathsDistinct(storagePath: string, snapshotString: string, modelName: string, i: nat, j: nat)
    ensures ModelPath(storagePath, snapshotString, modelName, i) == ModelPath(storagePath, snapshotString, modelName, j) ==> i == j
  {
    var base := PosixPath.Join(storagePath, snapshotString);
    var f1, f2 := SnapshotId(modelName, i) + "_model.p", SnapshotId(modelName, j) + "_model.p";
    var lead := modelName + "_";
    assert f1 == lead + (Decimal.Format(i) + "_model.p") && f2 == lead + (Decimal.Format(j) + "_model.p");
    assert PosixPath.IsAbsolute(f1) == PosixPath.IsAbsolute(f2) by {
      assert |f1| > 0 && |f2| > 0 && f1[0] == lead[0] && f2[0] == lead[0];
    }
    PosixPath.JoinCancels(base, f1, f2);
    if f1 == f2 {
      var d1, d2 := Decimal.Format(i), Decimal.Format(j);
      assert |d1| == |d2|;
      assert d1 == f1[|lead|..|lead| + |d1|] && d2 == f2[|lead|..|lead| + |d2|];
      Decimal.FormatInjective(i, j);
    }
  }

  /** The reference `save` returns: the Base64 text of the path's UTF-8 octets, whole
      quanta of alphabet and pad characters. */
  function EncodeReference(path: string): (r: string)
    ensures |r| % 4 == 0
  {
    Base64.Encode(Utf8.Encode(path))
  }

  /** A reference is made of Base64 alphabet characters and pads only. */
  lemma ReferenceAlphabet(path: string)
    ensures forall i :: 0 <= i < |EncodeReference(path)| ==> Base64.IsEncodingChar(EncodeReference(path)[i])
  {
    Base64.EncodeAlphabet(Utf8.Encode(path));
  }

  /** What `load` does with a reference before it reads the file: Base64-decode it and
      read the octets as UTF-8. */
  function DecodeReference(reference: string): (r: Result<string, SessionError>)
    ensures Base64.Decode(reference).Failure? ==> r == Failure(ReferenceNotBase64)
    ensures r.Success? ==> Base64.Decode(reference).Success? && Utf8.Encode(r.value) == Base64.Decode(reference).value
    ensures r.Failure? ==> r.error == ReferenceNotBase64 || r.error == ReferenceNotUtf8
  {
    match Base64.Decode(reference)
    case Failure(_) => Failure(ReferenceNotBase64)
    case Success(octets) =>
      match Utf8.Decode(octets)
      case Failure(_) => Failure(ReferenceNotUtf8)
      case Success(path) => Success(path)
  }

  /** `load` reads back exactly the path `save` encoded. */
  lemma ReferenceRoundTrip(path: string)
    ensures DecodeReference(EncodeReference(path)) == Success(path)
  {
    Base64.DecodeEncode(Utf8.Encode(path));
    Utf8.DecodeEncode(path);
  }

  /** Different paths never share a reference. */
  lemma ReferencesDistinct(p: string, q: string)
    ensures EncodeReference(p) == EncodeReference(q) ==> p == q
  {
    ReferenceRoundTrip(p);
    ReferenceRoundTrip(q);
  }

  /** The characters of all the words together. */
  function TotalLength(words: seq<string>): nat {
    if words == [] then 0 else |words[0]| + TotalLength(words[1..])
  }

  /** `' '.join(sys.argv)`: the words in order, starting with the first, with one space
      between neighbours. */
  function JoinWords(words: seq<string>): (r: string)
    ensures |words| > 0 ==> |r| == TotalLength(words) + |words| - 1
    ensures |words| > 0 ==> |r| >= |words[0]| && r[..|words[0]|] == words[0]
  {
    if |words| == 0 then []
    else if |words| == 1 then words[0]
    else words[0] + " " + JoinWords(words[1..])
  }

  /** The entity `reset` writes to the sessions table for a new lineage. */
  function LineageEntity(partition: nat, rowId: string, snapshotString: string, hostname: string,
                         argv: seq<string>, fromCached: Option<string>): (r: Record)
    ensures r.Keys == {PartitionKeyField, RowKeyField, "session_id", "server_hostname", "server_sys_argv", "base_model"}
  {
    map[
      PartitionKeyField := Str(Decimal.Format(partition)),
      RowKeyField := Str(rowId),
      "session_id" := Str(snapshotString),
      "server_hostname" := Str(hostname),
      "server_sys_argv" := Str(JoinWords(argv)),
      "base_model" := if fromCached.Some? then Str(fromCached.value) else Null
    ]
  }

  /** The lineage entity has exactly its six fields, a one-digit partition key, the new
      snapshot string as `session_id` and the drawn row id as row key, and the table
      service can store every field as it is. */
  lemma LineageEntityShape(partition: nat, rowId: string, snapshotString: string, hostname: string,
                           argv: seq<string>, fromCached: Option<string>)
    requires partition < LineagePartitions
    ensures var r := LineageEntity(partition, rowId, snapshotString, hostname, argv, fromCached);
      && r.Keys == {PartitionKeyField, RowKeyField, "session_id", "server_hostname", "server_sys_argv", "base_model"}
      && r[PartitionKeyField].Str? && |r[PartitionKeyField].s| == 1 && Decimal.IsDigit(r[PartitionKeyField].s[0])
      && r["session_id"] == Str(snapshotString) && r[RowKeyField] == Str(rowId)
      && IsFlat(r)
  {
  }

  /** The integer a stamped record holds under `key`. */
  predicate HasIndex(r: Record, key: string) {
    key in r && r[key].Int?
  }

  /** The request log since the last reset: every entry is stamped and names its
      experiment, request indices are strictly increasing and no larger than the
      counter, and snapshot indices never decrease and are no larger than the current
      one. */
  ghost predicate LogOrdered(log: seq<Record>, snapshotIdx: nat, counter: nat) {
    && (forall i :: 0 <= i < |log| ==>
          && HasIndex(log[i], RequestIndexKey) && HasIndex(log[i], SnapshotIndexKey) && ExperimentKey in log[i]
          && 1 <= log[i][RequestIndexKey].i <= counter
          && 0 <= log[i][SnapshotIndexKey].i <= snapshotIdx)
    && (forall i, j :: 0 <= i < j < |log| ==>
          && log[i][RequestIndexKey].i < log[j][RequestIndexKey].i
          && log[i][SnapshotIndexKey].i <= log[j][SnapshotIndexKey].i)
  }

  /** Counting a request that is not logged, or moving to a later snapshot index,
      keeps the log ordered. */
  lemma LogOrderedWeaken(log: seq<Record>, snapshotIdx: nat, counter: nat, snapshotIdx': nat, counter': nat)
    requires LogOrdered(log, snapshotIdx, counter)
    requires snapshotIdx <= snapshotIdx' && counter <= counter'
    ensures LogOrdered(log, snapshotIdx', counter')
  {
  }

  /** Logging a record stamped with the current snapshot index and the next request
      index keeps the log ordered. */
  lemma LogOrderedAppend(log: seq<Record>, snapshotIdx: nat, counter: nat, r: Record)
    requires LogOrdered(log, snapshotIdx, counter)
    requires ExperimentKey in r
    requires HasIndex(r, RequestIndexKey) && r[RequestIndexKey].i == counter + 1
    requires HasIndex(r, SnapshotIndexKey) && r[SnapshotIndexKey].i == snapshotIdx
    ensures LogOrdered(log + [r], snapshotIdx, counter + 1)
  {
    var log': seq<Record> := log + [r];
    forall i, j | 0 <= i < j < |log'|
      ensures log'[i][RequestIndexKey].i < log'[j][RequestIndexKey].i
      ensures log'[i][SnapshotIndexKey].i <= log'[j][SnapshotIndexKey].i
    {
      assert log'[i] == log[i];
    }
  }

  class Session {
    const sessionId: string
    const runLocal: bool
    const creationTime: real
    var lastInteractionTime: real
    var model: ModelHandle

    var storage: StorageKind
    var storagePath: Option<string>
    /** Whether a table service client is attached (`table_service` is not `None`). */
    var tableServiceAttached: bool

    var currentSnapshotString: string
    var currentSnapshotIdx: nat
    /** The value of `current_request_counter`: requests counted since the last reset. */
    var requestCounter: nat
    var requestList: seq<Record>

    /** The entities the table service stored, with the table each went to. */
    ghost var TableRows: seq<(string, Record)>
    /** The request lists `save` wrote, with the file each went to. */
    ghost var Dumps: seq<(string, seq<Record>)>
    /** How many times the model was told to discard what it learned. */
    ghost var ModelResets: nat

    ghost predicate Valid()
      reads this
    {
      |currentSnapshotString| == SnapshotStringLength &&
      LogOrdered(requestList, currentSnapshotIdx, requestCounter)
    }

    /** The state of a session nobody has used yet. */
    ghost predicate Pristine(snapshotString: string, now: real)
      reads this
    {
      && storage == File && storagePath == Some(DefaultStoragePath) && !tableServiceAttached
      && currentSnapshotString == snapshotString && currentSnapshotIdx == 0
      && requestCounter == 0 && requestList == []
      && creationTime == now && lastInteractionTime == creationTime
      && TableRows == [] && Dumps == [] && ModelResets == 0
    }

    /** `randomString` is what `get_random_string(8)` drew; `now` is `time.time()`. */
    constructor (sessionId: string, runLocal: bool, model: ModelHandle, randomString: string, now: real)
      requires |randomString| == SnapshotStringLength
      ensures Valid() && Pristine(randomString, now)
      ensures this.sessionId == sessionId && this.runLocal == runLocal && this.model == model
    {
      this.sessionId := sessionId;
      this.runLocal := runLocal;
      this.model := model;
      storage := File;
      storagePath := Some(DefaultStoragePath);
      tableServiceAttached := false;
      currentSnapshotString := randomString;
      currentSnapshotIdx := 0;
      requestCounter := 0;
      requestList := [];
      creationTime := now;
      lastInteractionTime := now;
      TableRows := [];
      Dumps := [];
      ModelResets := 0;
    }

    /** Starts a new lineage. `randomString` is the new snapshot string; `partition`,
        `rowId`, `hostname` and `argv` are what the lineage entity records;
        `insertSucceeds` is whether the table service accepted it. */
    method Reset(soft: bool, fromCached: Option<string>, randomString: string, partition: nat,
                 rowId: string, hostname: string, argv: seq<string>, insertSucceeds: bool)
      returns (outcome: Outcome<SessionError>)
      requires |randomString| == SnapshotStringLength && partition < LineagePartitions
      modifies this`currentSnapshotString, this`currentSnapshotIdx, this`requestCounter, this`requestList
      modifies this`TableRows, this`ModelResets
      ensures Valid()
      ensures currentSnapshotString == randomString && currentSnapshotIdx == 0
      ensures requestCounter == 0 && requestList == []
      ensures ModelResets == old(ModelResets) + (if soft then 0 else 1)
      ensures TableRows == old(TableRows) +
                (if storage.Table? && tableServiceAttached && insertSucceeds
                 then [(SessionsTable, LineageEntity(partition, rowId, randomString, hostname, argv, fromCached))]
                 else [])
      ensures outcome == if storage.Table? && !(tableServiceAttached && insertSucceeds) then Fail(TableServiceRaised) else Pass
    {
      if !soft {
        ModelResets := ModelResets + 1;
      }
      currentSnapshotString := randomString;
      currentSnapshotIdx := 0;
      requestCounter := 0;
      requestList := [];
      outcome := Pass;
      if storage.Table? {
        InsertEntity(SessionsTable, LineageEntity(partition, rowId, randomString, hostname, argv, fromCached), insertSucceeds);
        if !(tableServiceAttached && insertSucceeds) {
          outcome := Fail(TableServiceRaised);
        }
      }
    }

    /** Replaces the model by the one saved under `encodedModelFn`. */
    method Load(encodedModelFn: string) returns (outcome: Outcome<SessionError>)
      modifies this`model
      ensures Valid() == old(Valid())
      ensures DecodeReference(encodedModelFn).Success? ==>
                outcome == Pass && model == Unpickled(DecodeReference(encodedModelFn).value)
      ensures DecodeReference(encodedModelFn).Failure? ==>
                outcome == Fail(DecodeReference(encodedModelFn).error) && model == old(model)
    {
      match DecodeReference(encodedModelFn)
      case Failure(e) =>
        outcome := Fail(e);
      case Success(path) =>
        model := Unpickled(path);
        outcome := Pass;
    }

    /** Saves a snapshot and returns its reference; `Success(None)` when no storage is
        configured. */
    method Save(modelName: string) returns (result: Result<Option<string>, SessionError>)
      requires Valid()
      modifies this`currentSnapshotIdx, this`Dumps
      ensures Valid()
      ensures storage.NoStorage? ==>
                result == Success(None) && currentSnapshotIdx == old(currentSnapshotIdx) && Dumps == old(Dumps)
      ensures !storage.NoStorage? && storagePath.None? ==>
                result == Failure(AssertionFailed) && currentSnapshotIdx == old(currentSnapshotIdx) && Dumps == old(Dumps)
      ensures !storage.NoStorage? && storagePath.Some? ==>
                && result == Success(Some(EncodeReference(ModelPath(storagePath.value, currentSnapshotString, modelName, old(currentSnapshotIdx)))))
                && currentSnapshotIdx == old(currentSnapshotIdx) + 1
                && Dumps == old(Dumps) +
                     (if storage.File?
                      then [(RequestListPath(storagePath.value, currentSnapshotString, modelName, old(currentSnapshotIdx)), requestList)]
                      else [])
    {
      if storage.NoStorage? {
        result := Success(None);
      } else if storagePath.None? {
        result := Failure(AssertionFailed);
      } else {
        var modelFn := ModelPath(storagePath.value, currentSnapshotString, modelName, currentSnapshotIdx);
        if storage.File? {
          var requestListFn := RequestListPath(storagePath.value, currentSnapshotString, modelName, currentSnapshotIdx);
          Dumps := Dumps + [(requestListFn, requestList)];
        }
        LogOrderedWeaken(requestList, currentSnapshotIdx, requestCounter, currentSnapshotIdx + 1, requestCounter);
        currentSnapshotIdx := currentSnapshotIdx + 1;
        result := Success(Some(EncodeReference(modelFn)));
      }
    }

    /** Logs one interaction. `now` is the clock reading, `dumps` is `json.dumps`, `show`
        is `str`, and `insertSucceeds` is whether the table service accepted the entity. */
    method AddEntry(data: Record, now: real, dumps: Value -> string, show: Value -> string, insertSucceeds: bool)
      returns (outcome: Outcome<SessionError>)
      requires Valid()
      modifies this`requestCounter, this`requestList, this`TableRows
      ensures Valid()
      ensures requestCounter == old(requestCounter) + 1
      ensures ExperimentKey !in data ==>
                outcome == Fail(AssertionFailed) && requestList == old(requestList) && TableRows == old(TableRows)
      ensures ExperimentKey in data ==> outcome == Pass
      ensures ExperimentKey in data && storage.File? ==>
                && requestList == old(requestList) + [Stamp(data, now, currentSnapshotIdx, requestCounter)]
                && TableRows == old(TableRows)
      ensures ExperimentKey in data && storage.Table? ==>
                && requestList == old(requestList)
                && TableRows == old(TableRows) +
                     (if tableServiceAttached && insertSucceeds
                      then [(InteractionsTable, InteractionEntity(data, now, currentSnapshotIdx, requestCounter, currentSnapshotString, dumps, show))]
                      else [])
      ensures ExperimentKey in data && storage.NoStorage? ==>
                requestList == old(requestList) && TableRows == old(TableRows)
    {
      LogOrderedWeaken(requestList, currentSnapshotIdx, requestCounter, currentSnapshotIdx, requestCounter + 1);
      requestCounter := requestCounter + 1;
      var record := Stamp(data, now, currentSnapshotIdx, requestCounter);
      if ExperimentKey !in record {
        outcome := Fail(AssertionFailed);
      } else {
        outcome := Pass;
        match storage
        case File =>
          LogOrderedAppend(requestList, currentSnapshotIdx, requestCounter - 1, record);
          requestList := requestList + [record];
        case Table =>
          SendInteraction(record, requestCounter, dumps, show, insertSucceeds);
        case NoStorage =>
      }
    }

    /** The table branch of `add_entry`: keys the stamped record by the snapshot string
        and the row key, flattens its nested fields and inserts it, ignoring a failure. */
    method SendInteraction(record: Record, requestIndex: nat, dumps: Value -> string, show: Value -> string,
                           insertSucceeds: bool)
      requires ExperimentKey in record
      modifies this`TableRows
      ensures TableRows == old(TableRows) +
                (if tableServiceAttached && insertSucceeds
                 then [(InteractionsTable, FlattenAll(record[PartitionKeyField := Str(currentSnapshotString)]
                                                            [RowKeyField := Str(RowKey(Text(record[ExperimentKey], show), requestIndex))], dumps))]
                 else [])
    {
      var keyed := record[PartitionKeyField := Str(currentSnapshotString)]
                         [RowKeyField := Str(RowKey(Text(record[ExperimentKey], show), requestIndex))];
      var entity := FlattenNested(keyed, dumps);
      assert entity == FlattenAll(keyed, dumps);
      InsertEntity(InteractionsTable, entity, insertSucceeds);
    }

    /** `table_service.insert_entity`: the table service stores the entity when a client
        is attached and the insert succeeds; otherwise the call raises, and the caller
        decides what that means. */
    method InsertEntity(table: string, entity: Record, insertSucceeds: bool)
      modifies this`TableRows
      ensures TableRows == old(TableRows) + (if tableServiceAttached && insertSucceeds then [(table, entity)] else [])
    {
      if tableServiceAttached && insertSucceeds {
        TableRows := TableRows + [(table, entity)];
      }
    }
  }

  class SessionFactory {
    const local: bool
    const args: ModelArgs

    constructor (local: bool, args: ModelArgs)
      ensures this.local == local && this.args == args
    {
      this.local := local;
      this.args := args;
    }

    /** A new session for `sessionId`, owning a local model or a proxy to its worker. */
    method GetSession(sessionId: string, randomString: string, now: real) returns (s: Session)
      requires |randomString| == SnapshotStringLength
      ensures fresh(s) && s.Valid() && s.Pristine(randomString, now)
      ensures s.sessionId == sessionId && s.runLocal == local
      ensures s.model == if local then KerasDenseFineTune(args) else ModelRpc(sessionId)
    {
      var model := if local then KerasDenseFineTune(args) else ModelRpc(sessionId);
      s := new Session(sessionId, local, model, randomString, now);
    }
  }
}
