# SoundSnap local sound repository, modelled in Dafny

SoundSnap is a soundboard app. Users record clips, label them, mark favorites and
play them back. Its persistence layer is `LocalSounds` in `storage/localSounds.tsx`.
It keeps every sound record in one JSON list under the AsyncStorage key `"@sounds"`
and offers five operations:

- `list` reads the records and sorts them by `created_date`, newest first by default.
- `create` stamps a payload with an id and a creation date and puts it at the front.
- `update` merges a partial patch over the first record with the id, or throws `"Not found"`.
- `remove` filters out every record with the id, then deletes the first such record's
  file on a best-effort basis.
- `saveRecordingLocally` builds the durable path of a recording.

This project models those operations and proves what they promise.

Files:

- `wrappers.dfy` (`Wrappers`): `Option` and `Result`.
- `text.dfy` (`Text`): JavaScript's string order `<`/`>`, `startsWith`, and
  `String(n)` for the clock value. The file proves that the string order is a strict
  total order and that `String(n)` can be parsed back.
- `sounds.dfy` (`Sounds`): the `Sound` record of `types/sound.ts`, the `create`
  payload, the `update` patch, and the two object spreads. Each spread is stated
  property by property through a generic `Get(record, field)` view.
- `storage.dfy` (`Storage`): the repository class `LocalSounds`, the comparator, the
  in-place sort, the `findIndex`/`find`/`filter` helpers, the deletion rule and the
  path of a saved recording.
- `scenario.dfy` (`Scenario`): a client that creates a record, marks it as a favorite,
  and removes it twice. It uses only the contracts above.

How the source maps onto the model:

- The `"@sounds"` item is the field `LocalSounds.entry: Option<seq<Sound>>`. `None`
  means the key is missing. `Records()` is `readAll`: the stored list, or `[]`.
  Every mutator ends by assigning `entry`, which is `writeAll`. JSON
  serialisation is treated as the identity.
- `Date.now()`, `new Date().toISOString()` and `FileSystem.documentDirectory` are
  parameters: `now: nat`, `isoNow: string` and `documentDirectory: Option<string>`.
- Each call to `FileSystem.deleteAsync` is appended to the ghost field
  `deleteRequests`. The source ignores whether the deletion succeeds, so nothing else
  depends on it.
- `list` copies the stored list into an array and sorts it in place by insertion, as
  `data.sort` sorts in place. The comparator never answers 0, not even for a record
  compared with itself. When every record has a `created_date`, its answers agree
  with one order on dates: -1 both ways for equal dates, and 1 only for a pair of
  dates in the wrong order. The model's sort then leaves no pair in an order the
  comparator would swap. Once a `created_date` is missing and two dated records
  differ in date, the answers agree with no order, and the engine's sort may leave
  any pair out of order, dated pairs included. For that case the model promises only that the result is a permutation
  of the store.

Some behaviours of the code worth noting:

- `favorite` is not defaulted to `false` by `create`. A record created without it
  has no `favorite`.
- `create` does not make ids unique. The id is the millisecond clock rendered as a
  decimal string, so two creations in the same millisecond share an id. No
  uniqueness is claimed. `CreatedRecordFoundFirst` shows that the newest record is
  still the one `update` reaches.
- `remove` deletes only the file of the first matching record, although it removes
  every matching record. It deletes only when `audio_url` is non-empty. With no
  documents directory it tests against `""`, which every path passes.
- `saveRecordingLocally` writes `documentDirectory` through a template literal, so a
  null directory becomes the text `"null"`.

## Model

| member | source | states |
|---|---|---|
| `Sounds.NewRecord` | storage/localSounds.tsx:28-32 | the created record carries every payload property unchanged (`Payload(r) == payload`), `id` set to the given id and `created_date` set to the given date |
| `Sounds.Merge` | storage/localSounds.tsx:42 | `{...current, ...patch}`: every property present in the patch is overwritten and every absent one is kept |
| `Sounds.MergeNoChange` | storage/localSounds.tsx:42 | an empty patch leaves the record as it was |
| `Sounds.MergeIdempotent` | storage/localSounds.tsx:42 | applying the same patch twice equals applying it once |
| `Sounds.Combine` | storage/localSounds.tsx:42 | spreading patch `q` over patch `p` keeps `q`'s properties and fills in the rest from `p` |
| `Sounds.MergeCombine` | storage/localSounds.tsx:42 | two updates in a row equal one update with the combined patch |
| `Text.Less` | storage/localSounds.tsx:21-22 | `a < b` on strings never holds between equal strings |
| `Text.LessIsLexicographic` | storage/localSounds.tsx:21-22 | `a < b` holds exactly when `a` is a proper prefix of `b` or has the smaller character at the first difference |
| `Text.LessIrreflexive` | storage/localSounds.tsx:21-22 | no date string is later than itself |
| `Text.LessAsymmetric` | storage/localSounds.tsx:21-22 | of two date strings, at most one is later than the other |
| `Text.LessTransitive` | storage/localSounds.tsx:21-22 | the string order the comparator uses is transitive |
| `Text.LessTotal` | storage/localSounds.tsx:21-22 | two different strings are always ordered one way or the other |
| `Text.NotLessAntisymmetric` | storage/localSounds.tsx:21-22 | two strings, neither later than the other, are equal |
| `Text.NotLessTransitive` | storage/localSounds.tsx:21-22 | "not earlier" is transitive, so dates form a total preorder |
| `Text.StartsWith` | storage/localSounds.tsx:56 | `s.startsWith(prefix)` holds exactly when `prefix` is no longer than `s` and agrees with `s` at each of its positions |
| `Text.DecimalString` | storage/localSounds.tsx:29 | `String(Date.now())` is a non-empty string of decimal digits without a leading zero |
| `Text.ParseDecimalString` | storage/localSounds.tsx:29 | reading the id's digits back gives the clock value |
| `Text.DecimalStringInjective` | storage/localSounds.tsx:29 | different clock values give different ids |
| `Text.DashSplit` | storage/localSounds.tsx:72 | a digit string followed by `-` and a name splits back into the same digits and name |
| `Storage.Later` | storage/localSounds.tsx:21-22 | `x! > y!` on dates is false when either date is missing, and a date is never later than itself |
| `Storage.Compare` | storage/localSounds.tsx:19-23 | the comparator answers only 1 or -1, never 0; it answers 1 exactly when both dates exist and the order asks for the pair to be swapped |
| `Storage.NewestFirstNonIncreasing` | storage/localSounds.tsx:20-21 | in a list sorted with `"-created_date"`, of two dated records the earlier one's date is not smaller |
| `Storage.OldestFirstNonDecreasing` | storage/localSounds.tsx:22 | in a list sorted with `"created_date"`, of two dated records the earlier one's date is not larger |
| `Storage.BeforeAgreesWithCompare` | storage/localSounds.tsx:19-23 | every pair the model's sort order keeps is one the source comparator does not ask to swap |
| `Storage.InsertNext` | storage/localSounds.tsx:19-23 | one insertion pass moves the record at `i` into the ordered prefix: the first `i + 1` records come out ordered and a permutation of what they were, and the records after them are unchanged |
| `Storage.SortInPlace` | storage/localSounds.tsx:19-23 | sorting leaves the array a permutation of its old contents; when every record is dated, no pair is in an order the comparator would swap |
| `Storage.OldestFirstReversed` | storage/localSounds.tsx:20-22 | read back to front, an oldest-first list is in newest-first order |
| `Storage.NewestFirstUnique` | storage/localSounds.tsx:19-21 | when all dates are present and distinct, there is only one newest-first arrangement of a given set of records |
| `Storage.ListOrdersReverse` | storage/localSounds.tsx:17-23 | when all dates are present and distinct, the `"created_date"` list is exactly the `"-created_date"` list reversed |
| `Storage.FindIndex` | storage/localSounds.tsx:40 | `findIndex` gives -1 exactly when no record has the id, and otherwise the first index holding it |
| `Storage.Find` | storage/localSounds.tsx:50 | `find` gives nothing exactly when `findIndex` gives -1, and otherwise the record at that index |
| `Storage.Without` | storage/localSounds.tsx:51 | after `filter`, no record has the id, duplicates included; when no record had it, the list is unchanged |
| `Storage.WithoutCounts` | storage/localSounds.tsx:51 | `filter` keeps every record without the id exactly as often as it occurred |
| `Storage.WithoutAppend` | storage/localSounds.tsx:51 | `filter` distributes over concatenation, so the kept records stay in their relative order |
| `Storage.WithoutIdempotent` | storage/localSounds.tsx:51 | removing the same id twice leaves what removing it once left |
| `Storage.RemovedIdNotFound` | storage/localSounds.tsx:40-41 | after a removal, `findIndex` and `find` no longer find the id, so a later `update` throws `"Not found"` |
| `Storage.CreatedRecordFoundFirst` | storage/localSounds.tsx:33 | the record just put at the front is the first match for its id, even when an older record shares it |
| `Storage.DocDir` | storage/localSounds.tsx:55 | `documentDirectory ?? ""` is the directory when there is one; without one it is a prefix of every path |
| `Storage.DeletionTarget` | storage/localSounds.tsx:55-56 | a file is deleted exactly when a record was found and its `audio_url` is non-empty and starts with `documentDirectory ?? ""`; the path deleted is that `audio_url` |
| `Storage.SaveRecordingLocally` | storage/localSounds.tsx:72-74 | the durable path starts with the documents directory when there is one and with the text `"null"` when there is none, and ends with the given name |
| `Storage.SaveRecordingLocallyInjective` | storage/localSounds.tsx:72 | within one documents directory, different clock values or different names never give the same path |
| `Storage.SavedRecordingIsDeletable` | storage/localSounds.tsx:55-58 | a record whose `audio_url` came from `saveRecordingLocally` passes `remove`'s deletion test, with or without a documents directory |
| `Storage.LocalSounds.constructor` | storage/localSounds.tsx:7-9 | a fresh store has no `"@sounds"` item and no deletion requests |
| `Storage.LocalSounds.Records` | storage/localSounds.tsx:7-9 | `readAll` gives the empty list while the key is missing |
| `Storage.LocalSounds.List` | storage/localSounds.tsx:17-24 | `list` returns the stored records with none added or dropped and does not write the store; when every record is dated, they come in an order the comparator accepts |
| `Storage.LocalSounds.Create` | storage/localSounds.tsx:26-36 | the store becomes `[item] + old store`, with the older records in their order; the returned item is the stamped payload; no file is deleted |
| `Storage.LocalSounds.Update` | storage/localSounds.tsx:38-46 | an absent id fails with NotFound and leaves the store unwritten; otherwise only the first matching slot changes, to the merge of the old record and the patch, and that merge is returned |
| `Storage.LocalSounds.Remove` | storage/localSounds.tsx:48-62 | the store becomes the filtered list; a deletion is requested for the first matching record's file exactly when it passes the deletion test; `remove` never fails |

## Left out

- Storage I/O: the AsyncStorage `getItem`/`setItem` calls and JSON parse/stringify are
  the field `entry` read and assigned directly. A storage or parse failure, which would
  reject the promise, is not modelled.
- Deletion outcome: only the request to `FileSystem.deleteAsync` is recorded.
  The source catches and ignores any failure, so its outcome changes nothing.
- File copy: `saveRecordingLocally` also copies the recording with
  `FileSystem.copyAsync`. The copy and its possible failure are not modelled; only the
  returned path is.
- Concurrency: the operations are async read-modify-write cycles that can interleave.
  The model runs each one atomically and in sequence.
- Undefined in a patch: a patch property explicitly set to `undefined` would erase that
  property. The model's `None` means "not in the patch", so a patch cannot erase a
  property.
- Untyped payloads: at run time a payload carrying its own `id` or `created_date` would
  override the stamped ones, because the spread comes last. The payload type excludes
  those properties, and so does the model's `NewSound`.
- Durations: `duration` is a JavaScript number and is only carried along. It is a
  `real`, so NaN and infinities are not represented.
- String order: strings are compared by Unicode code point. JavaScript compares UTF-16
  code units, which differs only for characters outside the Basic Multilingual Plane.
  ISO timestamps are ASCII.
- `Text.DecimalString`: matches `String(n)` only below 10^21. Above that, JavaScript
  uses exponent notation. Millisecond clock values stay far below.
- `Storage.LocalSounds.List`: the order of the result is promised only when every
  stored record has a `created_date`. With a record missing one, the source comparator
  is inconsistent and the engine's sort fixes no order, so only the permutation is
  promised. Among equal dates no order is promised either. Even for an all-dated
  store, the promised order rests on the engine's sort acting only on the
  comparator's answers, as insertion, merge and TimSort implementations do:
  ECMAScript calls the order implementation-defined for a comparator that never
  answers 0.
- `Storage.SortInPlace`: for the same reason, the comparator's order is promised only
  when every record in the array is dated.
- Playback session: playback, recording, duration estimates, the sound list screen
  and the edit dialog live in UI components built on expo-av and React state. They
  are not part of this model.
