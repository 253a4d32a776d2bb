# Record persistence engine of the AirBnB clone, in Dafny

This project models the object-persistence core of the AirBnB clone console:

- the record base class `BaseModel` (`models/base_model.py`);
- the storage engine `FileStorage` (`models/engine/file_storage.py`).

`BaseModel`'s constructor has two branches:

- With no keyword arguments it mints a fresh record: a `uuid4()` id and two readings of the clock. It then files the record in the storage.
- Otherwise it rebuilds a record from a map. `created_at` and `updated_at` are parsed with `strptime("%Y-%m-%dT%H:%M:%S.%f")`, `__class__` is skipped, and every other key is copied.

The other record methods are:

- `to_dict` exports a copy of the instance dict. It adds `__class__` and writes both timestamps with `isoformat()`.
- `save` moves `updated_at` to the clock reading and then writes out the storage.
- `__str__` renders `[<class>] (<id>) <dict>`.

`FileStorage` keeps the `__objects` index from `<class>.<id>` to record objects:

- `all` returns that index itself.
- `new` files a record under its key.
- `save` calls `json.dump(obj.to_dict(), f)` for each record, in index order, on one file opened for writing.
- `reload` reads the file line by line. It gives each line to `json.loads`, rebuilds the record as a `BaseModel` and files it with `new`.

Layout:

- `results.dfy`: Python exceptions as values, `Result`, and `Outcome`.
- `decimal.dfy`: zero-padded decimal digit strings.
- `timestamps.dfy`: `datetime` values, `isoformat()`, `repr()`, and `strptime` with the one format the code uses.
- `pydict.dfy`: Python's insertion-ordered `dict`.
- `values.dfy`: attribute values with their `repr()` and whether `json.dump` can encode them.
- `records.dfy`: the constructor's loop, `to_dict` and `__str__`, all as functions.
- `persistence.dfy`: what `save()` writes and what `reload()` does with it, as functions.
- `models.dfy`: the classes `BaseModel`, `ObjectIndex` (the `__objects` dict) and `FileStorage`.

The methods of these classes update their fields in place. Each method is proved against the functions of `records.dfy` and `persistence.dfy`. `to_dict()` and `__str__()` change nothing, so they are the functions `Records.Export` and `Records.Render` applied to a record's class name and instance dict.

The model follows the code where the repository's own tests expect more of it:

- `tests/test_models/test_engine/test_file_storage.py:79` expects the text `BaseModel.<id>` in the file, that is, a store keyed by `<class>.<id>`.
- `tests/test_models/test_base_model.py:131-167` expects a record rebuilt from its `to_dict()` to have the same id, timestamps and attributes as the original.

The code instead:

- writes the maps back to back with no separator, so any store with two or more records is one line that `json.loads` rejects (`Persistence.SaveReloadMany`);
- rebuilds every record as a `BaseModel` under `BaseModel.<id>` (`Persistence.ReloadMerges`);
- loses a timestamp that falls on a whole second: `isoformat()` leaves out the fraction that `%f` requires (`Timestamps.ParseIsoFormatWholeSecond`, `Records.ExportRoundTrip`);
- cannot rebuild a record that has an attribute named `self`: `BaseModel(**d)` binds that key to the constructor's own first parameter and raises TypeError (`Records.Init`, `Records.ExportRoundTrip`).

## Model

| member | source | states |
|---|---|---|
| `Timestamps.Parse` | models/base_model.py:31-34 | `strptime` with the `%Y-%m-%dT%H:%M:%S.%f` format succeeds only on text with that layout, giving the date-time its fields name; every failure is ValueError |
| `Timestamps.IsoFormat` | models/base_model.py:58-59 | `isoformat()` writes 26 characters when the microsecond is not zero and 19 when it is, with `-`, `T` and `:` at the ISO places and `.` before the fraction |
| `Timestamps.ParseIsoFormat` | models/base_model.py:58-59 | the ISO text written for a timestamp with a non-zero microsecond is 26 characters, and parsing it with the constructor's format gives the same timestamp back |
| `Timestamps.ParseIsoFormatWholeSecond` | models/base_model.py:31-34 | with a zero microsecond the ISO text has no fraction (19 characters), and the constructor's format rejects it with ValueError |
| `Timestamps.IsoFormatOfParse` | models/base_model.py:31-34 | conversely, a 26-character text with `T` that parses to a timestamp with a fraction is exactly the ISO text of that timestamp |
| `Timestamps.IsoFormatFields` | models/base_model.py:58-59 | the ISO text of a timestamp with a fraction matches the parser's layout, and each field reads back as the timestamp's own field |
| `Timestamps.FieldsWrittenBack` | models/base_model.py:31-34 | each field the parser reads from a full-length text, written back at its width, is the text it was read from |
| `Records.LoadEntry` | models/base_model.py:33-36 | one pass of the constructor loop goes through exactly when its argument is not a timestamp `strptime` rejects; a rejected one raises ValueError when it is text and TypeError otherwise |
| `Timestamps.Repr` | models/base_model.py:66 | `repr()` of a timestamp inside a rendered dict is a `datetime.datetime(` call closed by `)` |
| `Values.Repr` | models/base_model.py:66 | `repr()` of an attribute value: text in matching quotes, a list in brackets, `True`/`False`, `None`, and an integer's numeral, which starts with `-` exactly when it is negative |
| `Records.LoadEntrySpec` | models/base_model.py:33-36 | a pass that goes through stores the parsed timestamp or the value under a new key at the end, and skips `__class__` |
| `Records.LoadPrefixOkIff` | models/base_model.py:32-34 | the loop gets through the first n arguments exactly when none of them is a rejected timestamp |
| `Records.LoadPrefixSpec` | models/base_model.py:32-36 | after n arguments the instance dict holds every key except `__class__` in argument order, each with its loaded value |
| `Records.LoadPrefixError` | models/base_model.py:32-34 | when some timestamp argument is rejected, the loop raises the exception of the first one |
| `Records.LoadPrefixStops` | models/base_model.py:32-34 | once the loop has raised, later arguments change nothing |
| `Records.FromKwargs` | models/base_model.py:30-36 | rebuilding from keyword arguments succeeds exactly when every timestamp argument, taken in order, is readable; the rebuilt dict never holds `__class__` and has no more keys than the arguments |
| `Records.Init` | models/base_model.py:22-41 | with no keyword arguments the instance dict is `id`, `created_at`, `updated_at`, in that order, with the minted id; a `self` keyword raises TypeError at binding, before the body; otherwise construction succeeds exactly when every timestamp argument is readable |
| `Records.FromKwargsSpec` | models/base_model.py:30-36 | rebuilding succeeds iff every timestamp argument is parseable text; it then copies every key but `__class__` in order and stores parsed timestamps; otherwise it raises the first rejected timestamp's exception |
| `Records.Export` | models/base_model.py:56-59 | `to_dict` succeeds exactly when both timestamps are `datetime`s, and raises AttributeError otherwise |
| `Records.ExportSpec` | models/base_model.py:56-61 | the export keeps the instance dict's keys in order and adds `__class__` at the end unless present; `__class__` maps to the class name, the timestamps to their ISO text, and every other key to its own value |
| `Records.FreshExport` | models/base_model.py:49-61 | a fresh record's export has exactly the keys `id`, `created_at`, `updated_at`, `__class__`, in that order, with the timestamps as ISO text |
| `Records.ReloadExported` | models/base_model.py:22-36 | calling the constructor on a map laid out like an export whose timestamps load back rebuilds exactly the original instance dict, or raises TypeError when it has a `self` key |
| `Records.ExportRoundTripFraction` | models/base_model.py:22-36 | `BaseModel(**obj.to_dict())` gives back the instance dict (same id, timestamps and typed attributes, no `__class__`) when both timestamps have a fraction, unless the record has a `self` attribute, which raises TypeError |
| `Records.ExportRoundTripWholeSecond` | models/base_model.py:22-59 | `BaseModel(**obj.to_dict())` raises ValueError when either timestamp falls on a whole second, or TypeError first when the record has a `self` attribute |
| `Records.ExportRoundTrip` | models/base_model.py:22-61 | the export/import round trip gives the instance dict back exactly when the record has no `self` attribute and neither timestamp falls on a whole second; TypeError for `self`, ValueError otherwise |
| `Records.FreshLayout` | models/base_model.py:38-40 | a fresh instance dict holds `id`, `created_at`, `updated_at` in that order, with the minted id and clock readings |
| `Records.Render` | models/base_model.py:63-66 | `__str__` succeeds exactly when the record has an `id`, with AttributeError otherwise; its text starts `[<class>] (` and ends with the dict's closing `}` |
| `Records.RenderFresh` | models/base_model.py:63-66 | `str()` of a fresh record with a plain id is `[<class>] (<id>) {'id': '<id>', 'created_at': datetime.datetime(...), 'updated_at': datetime.datetime(...)}` |
| `Models.BaseModel.StoreAll` | models/base_model.py:32-36 | the constructor loop, run in place on the instance dict, ends in the dict the rebuild function computes, or in the exception it raises |
| `Models.BaseModel.FromArguments` | models/base_model.py:22-36 | construction from keyword arguments raises TypeError for a `self` keyword, and otherwise yields a new object holding the rebuilt dict or raises the rebuild's exception; it files nothing |
| `Models.BaseModel.Fresh` | models/base_model.py:37-41 | fresh construction sets id and both timestamps from the minted values and files the object under `<class>.<id>` in the storage |
| `Models.BaseModel.Create` | models/base_model.py:22-41 | `BaseModel(**kwargs)` fails exactly as the constructor function does; with no keyword arguments it files the new object itself under `<class>.<id>` (the index gains that one entry), and otherwise the index and every filed object are unchanged |
| `Models.BaseModel.Save` | models/base_model.py:43-47 | `save()` sets `updated_at` to the given clock reading and leaves every other attribute and the key order as they were; the index is unchanged and the file becomes what `save()` of the storage writes |
| `Models.FileStorage.constructor` | models/engine/file_storage.py:23-24 | a storage starts with an empty index over the given file |
| `Models.FileStorage.All` | models/engine/file_storage.py:26-29 | `all()` returns the index object itself, so later `new` calls are seen through it |
| `Models.FileStorage.New` | models/engine/file_storage.py:31-34 | `new(obj)` files obj under `<class>.<id>`: it replaces an existing entry in place or appends the key, and leaves every other key as it was; AttributeError and no change when obj has no id |
| `Models.FileStorage.DumpAll` | models/engine/file_storage.py:40-41 | the loop writes the export of each record in index order and stops at the first one that raises |
| `Models.FileStorage.Save` | models/engine/file_storage.py:36-41 | `save()` leaves the index unchanged, and the file and outcome are those of the flush function on the index's state |
| `Models.FileStorage.ReloadLine` | models/engine/file_storage.py:51-53 | one line is parsed, rebuilt as a `BaseModel` and filed: the index is the old one with exactly one key set to a newly made object; or the index object map is left exactly as it was and the exception is raised |
| `Models.FileStorage.ReloadLines` | models/engine/file_storage.py:50-53 | the loop over the file's lines, in order, ends in the state the reload function gives, and stops at the first exception; the old keys stay a prefix, and every key holds either its old object or one made during the loop |
| `Models.FileStorage.Reload` | models/engine/file_storage.py:43-56 | `reload()` leaves the index object map exactly as it was when the file is missing, and otherwise runs the loop over its lines, with the same guarantees on keys and objects |
| `Persistence.Written` | models/engine/file_storage.py:39-41 | the file `save()` leaves has no lines when nothing was written, and otherwise exactly one |
| `Persistence.Flush` | models/engine/file_storage.py:36-41 | after `save()` the file exists and holds at most one line, whatever the records |
| `Persistence.DumpPrefixSpec` | models/engine/file_storage.py:40-41 | after n records the loop has written the first maps in order, and stopped at the first it cannot write in full with that map's exception |
| `Persistence.DumpPrefixStops` | models/engine/file_storage.py:40-41 | once the write loop has raised, later records add nothing |
| `Persistence.WrittenSpec` | models/engine/file_storage.py:39-41 | the file's only line holds the written maps in order, and ends in a torn map exactly when the loop stopped inside `json.dump` |
| `Persistence.FlushSpec` | models/engine/file_storage.py:36-41 | `save()` leaves at most one line; it succeeds iff every record can be written; it then leaves no line for an empty index and otherwise one whole line holding one map per record |
| `Persistence.FlushContents` | models/engine/file_storage.py:40-41 | the line `save()` writes holds the exports of the records it got through, in index order |
| `Persistence.FlushFailure` | models/engine/file_storage.py:40-41 | when `save()` raises, it is at the first record it cannot write: AttributeError from `to_dict` or TypeError from `json.dump` |
| `Persistence.StorableDumpable` | models/engine/file_storage.py:41 | a record with two `datetime`s, an id and JSON-encodable attributes exports to a map `json.dump` writes in full |
| `Persistence.Key` | models/engine/file_storage.py:34 | the index key is the class name, a dot, then `str()` of the id |
| `Persistence.LoadLine` | models/engine/file_storage.py:51-53 | a line that raises leaves the index as it was; a line that goes through held exactly one whole map, and keeps every earlier key in place while adding at most one |
| `Persistence.KeyIsBaseModelKey` | models/engine/file_storage.py:52-53 | every key `reload()` files under starts with `BaseModel.` |
| `Persistence.MergedStep` | models/engine/file_storage.py:50-53 | one reloaded line keeps every earlier key in place, and only adds or replaces `BaseModel` records under `BaseModel.` keys |
| `Persistence.ReloadPrefixStops` | models/engine/file_storage.py:50-53 | once a line has raised, the rest of the file is not read |
| `Persistence.ReloadPrefix` | models/engine/file_storage.py:50-53 | after n lines the keys filed before keep their places, and at most n keys were added |
| `Persistence.Reload` | models/engine/file_storage.py:43-56 | a missing file leaves the index as it is; otherwise the keys filed before keep their places and each line adds at most one key |
| `Persistence.ReloadMerges` | models/engine/file_storage.py:43-56 | `reload()` merges into the index rather than replacing it, whether or not it raises; a missing file leaves the index unchanged |
| `Persistence.FlushOne` | models/engine/file_storage.py:39-41 | with one writable record, `save()` writes its map alone on one whole line |
| `Persistence.LoadExported` | models/engine/file_storage.py:50-53 | reading back an exported record files a `BaseModel` with the same instance dict under `BaseModel.<id>` exactly when it has no `self` attribute and neither timestamp falls on a whole second; otherwise TypeError or ValueError, and nothing changes |
| `Persistence.SaveReloadOne` | models/engine/file_storage.py:36-56 | save then reload with one record re-files it as a `BaseModel` with the same instance dict, whatever its class was; it raises TypeError for a `self` attribute or ValueError for a whole-second timestamp, leaving the index as it was |
| `Persistence.SaveReloadIdentity` | models/engine/file_storage.py:36-56 | an index holding one such `BaseModel` record (no `self` attribute, both timestamps with a fraction) is restored exactly by save then reload |
| `Persistence.SaveReloadMany` | models/engine/file_storage.py:39-51 | with two or more records, `save()` puts all maps on one line, so `reload()` raises JSONDecodeError and leaves the index as it was |

## Left out

- `console.py`: the command loop (`quit`, `EOF`, an empty line) has no logic of its own.
- The entity subclasses (`User`, `City`, `State`, `Amenity`, `Review`) only declare class-level defaults. A record's class is its `kind` name.
- Files and JSON text: the file is a sequence of lines, and each line is the sequence of maps dumped onto it plus whether a dump stopped part-way. The JSON encoding and decoding of text are not modelled. A line that holds one complete map parses; any other line raises JSONDecodeError. A line holding a JSON array, number, string or `null` cannot be represented. For such a line Python's `json.loads` succeeds and `BaseModel(**…)` then raises TypeError.
- The storage path `file.json` and the `FileNotFoundError` from `open`: a missing file is the `Missing` store.
- `uuid4()` and `datetime.now()` are parameters: the mint (`Records.Mint`) passed to the constructor, `now` passed to `save`, and one mint per line for `reload`. The uniqueness of random ids is not modelled.
- Float attribute values are opaque literals, with no arithmetic.
- Timestamps.Parse: does not model `strptime` leniency beyond the fixed layout. The model's parser rejects one-digit month, day, hour, minute and second fields, a day written as a space and one digit, and non-ASCII digits, all of which Python accepts.
- Records.RenderFresh: the full `__str__` text is stated only for a fresh record whose id is printable ASCII without quotes or backslashes. For other records `Records.Render` states only the frame of the text.
- Values.Repr: non-printable characters above U+00FF (U+2028 or U+200B, say) are written raw, where Python writes `\uXXXX` or `\UXXXXXXXX`. Python's table of printable characters is not modelled; only the escapes up to U+00FF are.
- Values.Value: nested JSON objects are not values of the model, so neither an attribute holding a dict nor a stored map containing one can be represented.
- Values.IsJson: integers have no digit limit here. CPython 3.11 and later raise ValueError from `str()` and `json.dump` of an integer with more than 4300 digits; `Values.IntText` and `Values.IsJson` never fail.
- Python class attributes: `__objects` is shared by every `FileStorage` instance. The model gives each storage its own index object, and a record is filed in the storage passed to its constructor rather than a module-level singleton.
- Models.BaseModel.FromArguments: `*args` are ignored by the source and are not parameters here.
