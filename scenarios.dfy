/** Clients that drive a session with file storage, table storage and no storage,
    using only the contracts of `Session`. */
module Scenarios {
  import opened Results
  import opened Records
  import opened Sessions

  /** File storage: two saves of one model hand out different references and move the
      index to 2. */
  method FileStorageSaves(sessionId: string, snapshotString: string, modelName: string, now: real)
    requires |snapshotString| == SnapshotStringLength
  {
    var s := new Session(sessionId, false, ModelRpc(sessionId), snapshotString, now);
    var r1 := s.Save(modelName);
    var r2 := s.Save(modelName);
    ModelPathsDistinct(DefaultStoragePath, snapshotString, modelName, 0, 1);
    ReferencesDistinct(ModelPath(DefaultStoragePath, snapshotString, modelName, 0),
                       ModelPath(DefaultStoragePath, snapshotString, modelName, 1));
    assert r1.Success? && r1.value.Some? && r2.Success? && r2.value.Some? && r1 != r2;
    assert s.currentSnapshotIdx == 2;
  }

  /** File storage: an interaction goes to the request list with request index 1, and a
      reset empties the list and restarts the index. */
  method FileStorageInteraction(sessionId: string, first: string, second: string, now: real,
                                dumps: Value -> string, show: Value -> string)
    requires |first| == SnapshotStringLength && |second| == SnapshotStringLength
  {
    var s := new Session(sessionId, false, ModelRpc(sessionId), first, now);
    var logged := s.AddEntry(map[ExperimentKey := Str("a")], now, dumps, show, true);
    assert s.storage.File?;
    assert logged == Pass;
    assert s.requestList[0][RequestIndexKey] == Int(1);
    var reset := s.Reset(false, None, second, 0, "row", "host", ["server.py"], true);
    assert reset == Pass && s.requestList == [] && s.currentSnapshotIdx == 0;
  }

  /** Table storage: an interaction is sent with the snapshot string as partition key,
      the row key of its experiment and request index 1, and a list field as text. */
  method TableStorageInteraction(sessionId: string, snapshotString: string, data: Record, experiment: string,
                                 field: string, now: real, dumps: Value -> string, show: Value -> string)
    requires |snapshotString| == SnapshotStringLength
    requires ExperimentKey in data && data[ExperimentKey] == Str(experiment)
    requires field in data && data[field].List?
    requires field !in {TimeKey, SnapshotIndexKey, RequestIndexKey, PartitionKeyField, RowKeyField}
  {
    var s := new Session(sessionId, false, ModelRpc(sessionId), snapshotString, now);
    s.storage := Table;
    s.tableServiceAttached := true;
    var logged := s.AddEntry(data, now, dumps, show, true);
    assert s.storage.Table? && s.tableServiceAttached && logged == Pass && s.requestList == [];
    assert s.currentSnapshotIdx == 0 && s.requestCounter == 1 && s.currentSnapshotString == snapshotString;
    var entity := InteractionEntity(data, now, 0, 1, snapshotString, dumps, show);
    assert s.TableRows == [(InteractionsTable, entity)];
    InteractionEntityKeys(data, now, 0, 1, snapshotString, dumps, show);
    InteractionEntityFields(data, now, 0, 1, snapshotString, dumps, show);
    assert entity[PartitionKeyField] == Str(snapshotString);
    assert entity[RowKeyField] == Str(RowKey(experiment, 1));
    assert entity[field] == Str(dumps(data[field]));
  }

  /** Table storage: a record without an experiment is refused and sends nothing, but
      still uses up a request index. */
  method TableStorageRefused(sessionId: string, snapshotString: string, now: real,
                             dumps: Value -> string, show: Value -> string)
    requires |snapshotString| == SnapshotStringLength
  {
    var s := new Session(sessionId, false, ModelRpc(sessionId), snapshotString, now);
    s.storage := Table;
    s.tableServiceAttached := true;
    var refused := s.AddEntry(map["payload" := Null], now, dumps, show, true);
    assert refused == Fail(AssertionFailed) && s.requestCounter == 1 && s.TableRows == [];
  }

  /** No storage: interactions are dropped and `save` hands out nothing. */
  method NoStorageScenario(sessionId: string, snapshotString: string, data: Record, modelName: string,
                           now: real, dumps: Value -> string, show: Value -> string)
    requires |snapshotString| == SnapshotStringLength
    requires ExperimentKey in data
  {
    var s := new Session(sessionId, false, ModelRpc(sessionId), snapshotString, now);
    s.storage := NoStorage;
    var logged := s.AddEntry(data, now, dumps, show, true);
    assert s.storage.NoStorage? && logged == Pass;
    assert s.requestList == [] && s.TableRows == [] && s.Dumps == [] && s.currentSnapshotIdx == 0;
    var saved := s.Save(modelName);
    assert saved == Success(None);
    assert s.Dumps == [] && s.currentSnapshotIdx == 0;
  }
}
