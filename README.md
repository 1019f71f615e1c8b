# Session bookkeeping of the land-cover web tool

This project models the `Session` object of the web tool's server (`web_tool/Session.py`)
and the `SessionFactory` that creates it. A session wraps one user's model. It keeps:

- a snapshot lineage, made of a random 8-character snapshot string and a snapshot index;
- a request counter, reset with every new lineage;
- an in-memory request list.

It offers four operations:

- `reset` starts a new lineage.
- `save` names the snapshot files and hands out a Base64 reference to the model file.
- `load` reads such a reference back.
- `add_entry` stamps an interaction record and sends it to the configured storage kind:
  `File` (the request list), `Table` (a table service) or none.

Modules, one per file:

- `Results` (results.dfy): `Option`, `Result`, `Outcome`, and the `Byte` type.
- `Decimal` (decimal.dfy): Python's `"%d"` for non-negative integers, with its inverse.
- `Base64` (base64.dfy): section 4 of RFC 4648, as `base64.b64encode` / `b64decode`.
- `Utf8` (utf8.dfy): `str.encode('utf-8')` and strict `bytes.decode('utf-8')`.
- `PosixPath` (posix_path.dfy): `os.path.join` with two components.
- `Records` (records.dfy): interaction records, their stamping, the loop that flattens
  nested fields, the table row key and the interaction entity.
- `Sessions` (sessions.dfy): the `Session` and `SessionFactory` classes, the snapshot
  paths, the reference encoding and the lineage entity.
- `Scenarios` (scenarios.dfy): clients that drive a session with file storage, table
  storage and no storage, using only the contracts of `Session`.

`Session` is a class whose methods update its fields in place. `Valid()` is the invariant
that every method keeps:

- the snapshot string has 8 characters;
- every request-list entry is stamped and names its experiment;
- request indices in the list strictly increase and never exceed the counter;
- snapshot indices in the list never decrease and never exceed the current index.

The outside world is given to the methods as parameters:

- the random snapshot string, clock readings, the lineage entity's partition, row id,
  host name and `sys.argv`;
- `json.dumps` and `str`, as functions `Value -> string`;
- whether the table service accepted an insert, as a boolean.

Ghost fields record effects that cannot be observed inside the program:

- `TableRows`: the entities the table service stored;
- `Dumps`: the request lists `save` wrote to files;
- `ModelResets`: how many times the model was told to reset.

In these places the code does something a reader might not expect; the model follows the code:

- `save` writes no model file. The `joblib.dump` of the model is commented out
  (`web_tool/Session.py:139`). Only file storage writes something: the request list.
- `save` never fails on an existing snapshot directory, because it checks that the
  directory exists before creating it (`web_tool/Session.py:135-136`).
- In table mode, a failed lineage insert during `reset` is not caught. The model returns
  `Fail(TableServiceRaised)` after the state has already been reset.
- A new session always starts with storage kind `File`, storage path `"data/"` and no
  table service (`web_tool/Session.py:60-62`). The storage fields are public variables,
  as the Python attributes are, so a client can change them.

## Model

| member | source | states |
|---|---|---|
| Sessions.SessionFactory.constructor | web_tool/Session.py:40-43 | The factory keeps its run mode and model arguments. |
| Sessions.SessionFactory.GetSession | web_tool/Session.py:45-52 | Returns a fresh, valid session that nobody has used. It carries the given session id and the factory's run mode. Its model is built from the factory's arguments when local, and is a proxy bound to the session id otherwise. |
| Sessions.Session.constructor | web_tool/Session.py:57-75 | A new session is valid. It has snapshot index 0, a zeroed counter, an empty request list and the given 8-character snapshot string. Its last interaction time equals its creation time. Its storage is `File` at `"data/"` with no table service, and its effect logs are empty. |
| Sessions.Session.Reset | web_tool/Session.py:99-116 | Leaves the session valid from any state. Installs the new 8-character snapshot string, sets the index and the counter to 0 and empties the request list. Resets the model exactly when `soft` is false. In table mode it records the lineage entity when the insert succeeds and fails when it does not. Other storage kinds always pass and record nothing. |
| Sessions.Session.InsertEntity | web_tool/Session.py:108 | The table service stores the entity in the named table exactly when a client is attached and the insert succeeds. |
| Sessions.JoinWords | web_tool/Session.py:114 | `' '.join(argv)` starts with the first word. Its length is the total length of the words plus one space between each pair of neighbours. |
| Sessions.LineageEntity | web_tool/Session.py:108-116 | The lineage entity has exactly the six fields `PartitionKey`, `RowKey`, `session_id`, `server_hostname`, `server_sys_argv` and `base_model`. |
| Sessions.LineageEntityShape | web_tool/Session.py:108-116 | The lineage entity has exactly six fields. Its partition key is one decimal digit, its `session_id` is the new snapshot string, its row key is the given id, and every field is flat. |
| Sessions.Session.Load | web_tool/Session.py:118-124 | When the reference decodes, the model becomes the one read from the decoded path. Otherwise the model is unchanged and the decoding error is returned. `Valid()` is unaffected. |
| Sessions.Session.Save | web_tool/Session.py:126-151 | Without storage: returns `None` and changes nothing. Without a storage path: fails the assertion and changes nothing. Otherwise: returns the encoded model path for the index before the save, increases the index by exactly 1, and in file mode records the request list at its sibling path. Keeps `Valid()`. |
| Sessions.SnapshotIdReadBack | web_tool/Session.py:131 | The snapshot id `model_name_idx` reads back: dropping its trailing digits leaves the model name and `_`, and the digits after them parse to the index. |
| Sessions.SnapshotFileIsAbsolute | web_tool/Session.py:138 | A snapshot file name is absolute exactly when the model name is. |
| Sessions.ModelPathShape | web_tool/Session.py:134-138 | The model file lies in the lineage directory `storage_path/snapshot_string` unless the model name is absolute. Its name ends with the snapshot id and `_model.p`. |
| Sessions.RequestListPathShape | web_tool/Session.py:134-142 | The request-list file lies in the same lineage directory. Its name ends with the snapshot id and `_request_list.p`, and it is never the model file. |
| Sessions.ModelPathsDistinct | web_tool/Session.py:131-138 | Within one lineage, two saves of the same model name with different indices name different model files. |
| Sessions.EncodeReference | web_tool/Session.py:149 | A reference is whole Base64 quanta of 4 characters. |
| Sessions.ReferenceAlphabet | web_tool/Session.py:149 | A reference holds only Base64 alphabet characters and pads. |
| Sessions.DecodeReference | web_tool/Session.py:119 | A reference that is not Base64 fails as such. A decoded path is one whose UTF-8 encoding is exactly the decoded octets. Every other failure is a UTF-8 failure. |
| Sessions.ReferenceRoundTrip | web_tool/Session.py:149 | Decoding the reference `save` returns, as `load` does, gives back exactly the model path. |
| Sessions.ReferencesDistinct | web_tool/Session.py:149 | Different model paths never share a reference, so consecutive saves hand out different references. |
| Base64.Encode | web_tool/Session.py:149 | The encoding is made of whole quanta of 4 characters. |
| Base64.EncodeAlphabet | web_tool/Session.py:149 | Every character of an encoding is an alphabet character or the pad `=`. |
| Base64.Decode | web_tool/Session.py:119 | Input whose length is not a multiple of 4 fails with incorrect padding. A successful decode yields 3 octets per quantum, less one per trailing pad. |
| Base64.DecodeEncode | web_tool/Session.py:119 | Base64 decoding of an encoding gives back the same octets (RFC 4648, section 4). |
| Base64.EncodeInjective | web_tool/Session.py:149 | Different octet strings have different encodings. |
| Utf8.DecodeEncode | web_tool/Session.py:119 | UTF-8 decoding of an encoded string gives back the same string. |
| Utf8.EncodeChar | web_tool/Session.py:149 | Each code point takes 1 to 4 octets. |
| Utf8.Encode | web_tool/Session.py:149 | A string of n characters takes between n and 4n octets. |
| Utf8.Decode | web_tool/Session.py:119 | Whatever strict decoding accepts is exactly the encoding of the string it returns. |
| PosixPath.Join | web_tool/Session.py:134 | An absolute component replaces the base. Otherwise the result is the base and the component plus at most one separator. |
| PosixPath.JoinShape | web_tool/Session.py:134 | Unless the component is absolute, the joined path starts with the base. In every case it ends with the component. |
| PosixPath.JoinCancels | web_tool/Session.py:138 | With the same base, two components that agree on being absolute join to the same path only if they are equal. |
| Decimal.Format | web_tool/Session.py:131 | `"%d"` of a non-negative integer is a non-empty string of decimal digits. |
| Decimal.ParseFormat | web_tool/Session.py:131 | Reading the digits back gives the number. |
| Decimal.FormatInjective | web_tool/Session.py:168 | Different numbers print differently. |
| Sessions.Session.AddEntry | web_tool/Session.py:153-180 | Always increases the counter by 1, before the experiment check. Without `experiment`: fails the assertion and changes nothing else. In file mode: appends the stamped copy to the request list. In table mode: leaves the list alone and records the interaction entity when the insert succeeds; a failed insert still passes. With no storage: changes nothing else. Keeps `Valid()`, so request indices stay strictly increasing. |
| Records.Stamp | web_tool/Session.py:154-158 | The stored copy has the caller's fields plus `time`, `current_snapshot_index` and `current_request_index`. Those three hold the clock reading, the current snapshot index and the new counter value. Every other field keeps the caller's value. |
| Records.FlattenAll | web_tool/Session.py:170-172 | Flattening keeps every key, gives each field its flattened value and leaves no dict or list behind. |
| Records.FlattenNested | web_tool/Session.py:170-172 | The loop keeps every key. It replaces each dict or list value by its `json.dumps` text and leaves other values unchanged, so the result is flat. |
| Records.RowKey | web_tool/Session.py:168 | The row key `experiment_index` reads back: dropping its trailing digits leaves the experiment and `_`, and the digits after them parse to the request index. |
| Records.RowKeyUnique | web_tool/Session.py:168 | A row key `experiment_index` determines both the experiment and the request index. Distinct request indices never share a row key. |
| Records.InteractionEntity | web_tool/Session.py:165-172 | The table entity has the stamped keys plus `PartitionKey` and `RowKey`, and every field is flat. |
| Records.InteractionEntityKeys | web_tool/Session.py:167-168 | `PartitionKey` is the snapshot string. `RowKey` is the experiment text joined to the request index with `_`. The experiment is written out as `"%s"` does (`Records.Text`): a string as itself, any other value through `str`. |
| Records.InteractionEntityFields | web_tool/Session.py:154-158 | The entity carries the clock reading and both indices, and each caller field is its flattened original. |
| Sessions.Session.SendInteraction | web_tool/Session.py:165-177 | The table branch stores the keyed, flattened record when the insert succeeds, and nothing otherwise. A failed insert is swallowed. |

## Left out

- `spawn_worker` and `kill_worker` (`web_tool/Session.py:77-97`): launching and killing a worker process, and releasing the model object, are operating-system effects.
- `manage_session_folders` and `SESSION_FOLDER` (`web_tool/Session.py:26-35`): filesystem clean-up derived from the date the process started.
- The directory creation in `save` (`web_tool/Session.py:134-136`): a filesystem effect. The existence check means an existing directory never makes it raise; other OS errors from `makedirs` are not modelled.
- Sessions.Session.Load: returns `Pass` with the model `Unpickled(path)` for any decodable reference. In the code, no model file is ever written at the path `save` returns, because the `joblib.dump` of the model is commented out (`web_tool/Session.py:139`). So `load` of a reference from `save` runs `del self.model` (`web_tool/Session.py:123`), then `joblib.load` of a missing file raises (`web_tool/Session.py:124`), leaving the session without a `model` attribute. Saving a model and loading it back cannot work in the code as written.
- Serialization with `joblib`/`pickle`: `save` records the request-list dump as a ghost event. `load` replaces the model with an opaque `Unpickled(path)` handle. A failing deserializer, or a failing write, is not modelled.
- The table service (`web_tool/Session.py:108-116, 175`): a network client. It is modelled as a ghost log of stored entities and a boolean for whether the insert succeeded.
- `get_random_string`, `uuid4`, `np.random.randint`, `os.uname`, `sys.argv`, `time.time` and `datetime.now`: these are method parameters. `Utils.get_random_string` is not part of this model, so the model takes as given that it returns 8 characters.
- `json.dumps` and `str`: abstract functions from values to text. Neither can fail in the model.
- Sessions.Session.SendInteraction: the model's `dumps` never fails. `json.dumps` at `web_tool/Session.py:172` raises `TypeError` on a value it cannot serialise, such as a `datetime` inside a nested list. That call is outside the `try` at `web_tool/Session.py:174-177`, so in the code the error escapes and nothing is inserted. The model instead stores the entity, or swallows a failed insert.
- Sessions.Session.AddEntry: in table mode the code raises out of `add_entry` when `json.dumps` fails, after the request has been counted. The model returns `Pass` for every record with an `experiment` field, because its `dumps` cannot fail.
- The thread safety of `AtomicCounter`: the counter is a sequential integer field.
- `KerasDenseFineTune` and `ModelRPC`: opaque model handles. `model.reset()` is counted in a ghost field.
- `print` and `LOGGER`.
- `current_transform` (`web_tool/Session.py:66`): never used by the session.
- Lenient Base64 decoding: Python's `b64decode` drops characters outside the alphabet before decoding. The model rejects them. It also decodes only input whose pad characters are at the end. Python stops at the first complete pad and skips misplaced pads: it decodes `"YQ==YQ=="` to `b'a'` and `"===="` to `b''`, and `Base64.Decode` fails on both. The round trip is unaffected, because `save` only produces canonical references.
- Lone surrogate code points in a model name: Python's UTF-8 encoder raises on them. The model's characters cannot hold them.
- Shallow copying in `add_entry`: a Python copy shares nested lists and dicts with the caller's record. Model values are immutable, so this aliasing is not modelled. The caller's record is never changed in either case.
- Key order: Python dicts keep insertion order, but records here are maps. The text `json.dumps` writes for a nested dict (`web_tool/Session.py:172`) lists its keys in that order, which the model's maps drop. `dumps` therefore sees only the key-value pairs of a nested dict.
