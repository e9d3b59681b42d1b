# SHFacFac in Dafny

SHFacFac ("Storage Handler Factory Factory") is a small JavaScript library. It
lays typed object stores over a flat, string-keyed backend such as the
browser's `localStorage`. `SHFacFac(global, ns)` returns a factory bound to
the namespace `ns`. The factory makes stores, one per application type.

A store does four things:
- `store` attaches a metadata envelope (id, creation and save stamps) to an
  object and writes the object under its id;
- `retrieve` reads an object back and gives it the store's type again;
- `remove` deletes an object by id or by value;
- `list`, `count` and `clear` scan the backend for the keys that carry the
  store's id prefix; `list` can sort what it finds.

The repository holds the library twice: `src/SHFacFac.js` (current) and
`SHFacFac.js` (an earlier copy). Both run the same store algorithm. This
project models that algorithm and proves what it promises.

Modules:
- `Wrappers`: `Option` and `Result`.
- `Text`: JavaScript string operations. These are `toLowerCase` of ASCII
  letters, `indexOf`, the first-occurrence `replace`, and the string `>`
  (character order) with its order laws.
- `HexCodec`: `Number.prototype.toString(16)` and `parseInt(_, 16)`, with
  their round trip and how hexadecimal text orders.
- `Sorting`: an explicit stable insertion sort against a "greater than"
  relation. It is proved to be a permutation, sorted under a strict order,
  stable under a strict weak order, stable under a strict order for any
  class of elements the order treats alike, and to commute with projections.
- `Engine`: the pure part shared by both copies. It holds the key
  derivation, the options defaults, the envelope lifecycle, the `remove`
  id check, the scan filter, the `Sorter` comparator, `ListSpec` (what
  `list` returns), and `ClearSpec` (what `clear`'s loop does).
- `Storage`: the backend as a class. It has an ordered key sequence for
  `key(idx)` and a map from keys to decoded values, and provides
  `setItem`, `getItem`, `removeItem`, `key` and `length`.
- `Objects`: application objects as a class. An object has a type tag, its
  own fields, and the envelope that `store` and `remove` update in place.
- `SHFacFac`: `src/SHFacFac.js`. It has the factory, with `createStore`,
  `getName` and `getPrefix`, and the `Store` class. Each `Store` method
  (`Save`, `Retrieve`, `Remove`, `List`, `Count` and `Clear`) is proved
  against the `Engine` functions. The module also holds the test suite's
  store scenario.
- `SHFacFacLegacy`: the root `SHFacFac.js`. It has the factory with its
  single `create` and the inline prefix expression. It reuses the `Store`
  class, because the root store runs the same code with its fields placed
  directly on the store.

The clock is a parameter: `Save` takes the time `ts` as a `nat`. A `Date` is
its millisecond value, or the invalid date when a stamp does not parse. The
backend is passed in when a store is created; the model does not pick it
from the environment. JSON encoding is taken as lossless: the backend holds
the decoded records.

The model follows the code on these points:
- `remove` of an object of another type returns `undefined` (`Ok(None)`).
  It is not a type-mismatch error.
- A member entry without an envelope makes `retrieve` fail with a
  TypeError (`MissingEnvelope`). `list` and `count` then fail as a whole;
  they do not skip the entry.
- `list` and `clear` decide membership by the key prefix alone.
- Stamps sort as strings. `StampOrderIsTimeOrder` proves this is time
  order only for stamps with the same number of digits.
  `HexOrderDiffersAcrossLengths` shows two stamps of different lengths
  that order against their times.

Two spots in `src/SHFacFac.js` would throw, because that copy moved the
store's state under `_internal` and these lines still read it from the
store itself:
- `remove` tests `instanceof this.clazz` (src/SHFacFac.js:136);
- `removeFromStore` calls `store.Storage.removeItem` (src/SHFacFac.js:202).

The model follows the root copy for both, which works there. A third spot
does not throw but does nothing: `clear` iterates the global `Storage`
(src/SHFacFac.js:183), in both copies. It is reported under Findings.

The root copy's store is the same code with its state on the store itself,
so the members of `SHFacFac.Store` and `Engine` model it too:
- constructor and defaults (SHFacFac.js:17-44): `SHFacFac.Store.constructor`
  and `Engine.ApplyDefaults`;
- `info` (SHFacFac.js:37-43): `SHFacFac.Store.Info`;
- `store` (SHFacFac.js:54-83): `SHFacFac.Store.Save`;
- `retrieve` (SHFacFac.js:92-102): `SHFacFac.Store.Retrieve`;
- `remove` (SHFacFac.js:109-126): `SHFacFac.Store.Remove`;
- `list` (SHFacFac.js:135-148): `SHFacFac.Store.List`;
- `count` (SHFacFac.js:153-155): `SHFacFac.Store.Count`;
- `clear` (SHFacFac.js:161-170): `SHFacFac.Store.ClearAsWritten`;
- the storage helpers (SHFacFac.js:172-183): `SHFacFac.Store.SaveToStore`,
  `RetrieveFromStore` and `RemoveFromStore`;
- `Sorter` (SHFacFac.js:186-208): `Engine.SorterFor`, `Engine.Compare` and
  the sorting lemmas.

Only the key prefix (SHFacFac.js:31) and the API with its single `create`
(SHFacFac.js:220-222) have members of their own.

## Model

| member | source | states |
|---|---|---|
| Text.Lower | src/SHFacFac.js:18 | `toLowerCase` keeps the length and lower-cases each character |
| Text.IndexOfZeroIsPrefix | src/SHFacFac.js:159 | `key.indexOf(p) === 0` holds exactly when `key` starts with `p` |
| Text.FirstIndex | src/SHFacFac.js:159 | `indexOf` gives the least position where the pattern occurs, or none when it occurs nowhere |
| Text.ReplaceFirstOfPrefix | src/SHFacFac.js:132 | replacing the first occurrence of `p` in `p + t` by '' leaves `t` |
| Text.ReplaceFirst | src/SHFacFac.js:132 | `replace` with a string pattern: unchanged when the pattern does not occur, otherwise shorter by exactly the pattern's length; `ReplaceFirstOfPrefix` gives the rest after a leading occurrence |
| Text.LexGreater | src/SHFacFac.js:226 | definition of string `>` by characters; `LexIrreflexive`, `LexTransitive` and `LexTotal` state its order laws |
| Text.LexIrreflexive | src/SHFacFac.js:226 | no string is `>` itself |
| Text.LexTransitive | src/SHFacFac.js:226 | string `>` is transitive |
| Text.LexTotal | src/SHFacFac.js:226 | of two different strings one is `>` the other |
| HexCodec.Hex | src/SHFacFac.js:65 | `toString(16)` is non-empty, all hexadecimal digits, never contains '-', and has two or more digits exactly from 16 on |
| HexCodec.ParseHex | src/SHFacFac.js:105-106 | `parseInt(_, 16)` on a stamp: NaN (None) exactly when the text is empty or does not start with a hexadecimal digit |
| HexCodec.ParseHexOfHex | src/SHFacFac.js:89-90 | `parseInt(n.toString(16), 16) == n` |
| HexCodec.HexInjective | src/SHFacFac.js:69 | different times give different stamps |
| HexCodec.HexOrderSameLength | src/SHFacFac.js:226 | stamps of equal length compare as strings exactly as their times compare |
| HexCodec.HexOrderDiffersAcrossLengths | src/SHFacFac.js:226 | a shorter stamp can be the string-greater one: "f" > "10" |
| Sorting.Sort | src/SHFacFac.js:213 | the sort returns a permutation of its input |
| Sorting.SortSorted | src/SHFacFac.js:213 | under a strict order no element is followed by one it is greater than |
| Sorting.SortStable | src/SHFacFac.js:213 | under a strict weak order the elements tied with any value keep their relative order |
| Sorting.SortFilter | src/SHFacFac.js:213 | under a strict order, the elements of a class the order treats alike keep their relative order |
| Sorting.SortProject | src/SHFacFac.js:213 | sorting pairs by their first parts and projecting equals sorting the first parts |
| Engine.FactoryPrefixSpelled | src/SHFacFac.js:18 | the factory prefix is `"_shfacfac_" + lower(ns) + "_"` |
| Engine.PropsFor | src/SHFacFac.js:38-42 | the three key names are PREFIX followed by "id", "createdDate" and "savedDate" |
| Engine.MintedIdUnderFactoryPrefix | src/SHFacFac.js:51-53 | every id a store mints begins with its factory's prefix |
| Engine.ApplyDefaults | src/SHFacFac.js:27-33 | supplied options are kept, missing `prefix`/`session` get their defaults, no other option appears |
| Engine.Stamp | src/SHFacFac.js:65-81 | the saved stamp is always `hex(ts)`; without an envelope the id is `prop.id-hex(ts)` and the created stamp `hex(ts)`; with one, id and created stamp are kept |
| Engine.FirstSave | src/SHFacFac.js:65-75 | a first save mints `prop.id + "-" + hex(ts)`, sets both stamps to `hex(ts)` and both dates to `ts` |
| Engine.ReSave | src/SHFacFac.js:77-81 | a re-save keeps id and creation stamp and moves only the saved stamp and date |
| Engine.SaveTwice | src/SHFacFac.js:63-92 | saving at `t0` then `t1` keeps the first id, the creation date `t0`, and gives saved date `t1` |
| Engine.DecodeRec | src/SHFacFac.js:101-110 | a stored value decodes to the store's type with its fields and rebuilt dates, and fails exactly when it has no envelope |
| Engine.RetrieveAfterSave | src/SHFacFac.js:101-111 | on a first save or a re-save, reading back what `store` wrote gives the saved object's value; `info` gives the id `store` returned and the time of this save, and on a first save the creation time too |
| Engine.ValidRemoveId | src/SHFacFac.js:132-133 | definition of the id check; `RemoveIdAfterPrefix`, `RemoveIdElsewhere`, `MintedIdRemovable` and `PropIdRejected` state what it accepts |
| Engine.RemoveIdAfterPrefix | src/SHFacFac.js:131-133 | an id string that starts with `prop.id` passes the check exactly when a '-' follows the prefix |
| Engine.RemoveIdElsewhere | src/SHFacFac.js:131-133 | an id string that does not start with `prop.id` passes exactly when it starts with '-' |
| Engine.MintedIdRemovable | src/SHFacFac.js:131-134 | every id `store` mints passes the check |
| Engine.PropIdRejected | src/SHFacFac.js:131-133 | the bare `prop.id` is rejected |
| Engine.Members | src/SHFacFac.js:157-160 | the scan keeps exactly the keys that start with `prop.id`, in scan order |
| Engine.MintedIdListed | src/SHFacFac.js:159 | every id this store minted that is in the backend is kept by the scan |
| Engine.DecodeAll | src/SHFacFac.js:159 | each member decodes, in scan order, to the object `retrieve` gives |
| Engine.SorterFor | src/SHFacFac.js:161-166 | a sorter exists exactly when `orderBy` is truthy; it is descending exactly when `dir` is "desc" and reads the envelope exactly when `orderBy` is id, created or saved |
| Engine.ListSpec | src/SHFacFac.js:155-168 | the list fails exactly when a member has no envelope, and is otherwise a permutation of the decoded members |
| Engine.ListUnorderedInScanOrder | src/SHFacFac.js:157-167 | without `orderBy` the list is the decoded members in scan order |
| Engine.FieldOf | src/SHFacFac.js:221-225 | with an envelope field the value is an envelope stamp (a string), and none without an envelope; otherwise the value is present exactly when the object has the field |
| Engine.Greater | src/SHFacFac.js:226 | `v1 > v2` holds only of two present values of one kind |
| Engine.Compare | src/SHFacFac.js:213-226 | the comparator, after the swap for `desc`, holds only when both objects have the sort field |
| Engine.CompareStrict | src/SHFacFac.js:211-227 | the comparator is irreflexive and transitive on any objects |
| Engine.CompareWeak | src/SHFacFac.js:211-227 | when all sort fields are of one kind the comparator is a strict weak order |
| Engine.SortedByField | src/SHFacFac.js:211-227 | the sorted list is a permutation ascending by the field, or descending when `dir` is "desc" |
| Engine.SortStableByField | src/SHFacFac.js:211-227 | objects with equal sort fields keep their scan order, for any list: the field may be missing or hold values of different kinds |
| Engine.StampOrderIsTimeOrder | src/SHFacFac.js:221-226 | sorting on created/saved follows the times when the stamps have equal length |
| Engine.ClearSpec | src/SHFacFac.js:182-189 | the loop over `names` keeps exactly the entries that are not accepted names, with their values, and counts at most one per name |
| Engine.ClearAsWrittenRemovesNothing | SHFacFac.js:163 | the loop over the global `Storage` removes nothing and returns 0, which differs from the loop over the backend's keys whenever the store holds an object |
| Engine.ClearAsIntended | src/SHFacFac.js:181-190 | over the backend's keys every member entry goes, every other entry stays, the count is the number of members, nothing of the store is left |
| Storage.Backend.Key | src/SHFacFac.js:158 | `key(idx)` is the key at `idx`, or null past the end |
| Storage.Backend.GetItem | src/SHFacFac.js:198 | `getItem` gives the value under the key, or null when it is absent |
| Storage.Backend.SetItem | src/SHFacFac.js:194 | `setItem` sets one entry; a new key goes last and present keys keep their places |
| Storage.Backend.RemoveItem | src/SHFacFac.js:202 | `removeItem` deletes one entry and keeps the order of the rest |
| Objects.Item.FromView | src/SHFacFac.js:108 | a retrieved object is a new object with exactly the decoded value |
| Objects.CoherentPermutation | src/SHFacFac.js:213 | reordering objects paired with their values keeps the pairing |
| SHFacFac.Factory.GetName | src/SHFacFac.js:243-245 | `getName()` is the namespace the factory was made for |
| SHFacFac.Factory.GetPrefix | src/SHFacFac.js:246-248 | `getPrefix()` is `"_shfacfac_" + lower(ns) + "_"` |
| SHFacFac.Factory.CreateStore | src/SHFacFac.js:240-242 | a new store whose PREFIX is the factory prefix, the chosen prefix option and '-', with its key names and session choice |
| SHFacFac.Store.constructor | src/SHFacFac.js:21-50 | NS is `"_" + ns + "-data"`, PREFIX and `prop` as derived from the options after defaults |
| SHFacFac.Store.Info | src/SHFacFac.js:43-49 | `info(obj, prop)` reads one field of the envelope, and fails on an object without one |
| SHFacFac.Store.Save | src/SHFacFac.js:63-92 | wrong type: error, nothing changes; no id: error, envelope stamped, backend unchanged; else returns the id, the object carries the saved envelope and only the backend entry under the id changes, to the fields and the envelope without dates |
| SHFacFac.Store.SaveToStore | src/SHFacFac.js:192-195 | only the entry under the id changes |
| SHFacFac.Store.RetrieveFromStore | src/SHFacFac.js:196-199 | the decoded value under the id, or null |
| SHFacFac.Store.RemoveFromStore | src/SHFacFac.js:200-203 | only the entry under the id goes |
| SHFacFac.Store.Retrieve | src/SHFacFac.js:101-112 | null for an absent id; otherwise a new object with the decoded value, or the error of a value without envelope |
| SHFacFac.Store.Remove | src/SHFacFac.js:129-146 | a bad id string: InvalidKey; absent id or other type: undefined, nothing changes; otherwise the entry under the envelope's id leaves both the item map and the key list, and the object is returned without envelope |
| SHFacFac.Store.Scan | src/SHFacFac.js:156-160 | the loop retrieves every member key in scan order, or fails exactly when a member has no envelope |
| SHFacFac.Store.Visit | src/SHFacFac.js:158-159 | one turn of the loop retrieves the key exactly when it is a member |
| SHFacFac.Store.List | src/SHFacFac.js:155-168 | the objects' values are exactly `ListSpec`, and it fails exactly when `ListSpec` does |
| SHFacFac.Store.SortItems | src/SHFacFac.js:211-228 | the sorted objects' values are the sort of their values under the comparator |
| SHFacFac.Store.Count | src/SHFacFac.js:173-175 | the number of member keys, or the error `list` raises |
| SHFacFac.Store.ClearNames | src/SHFacFac.js:182-189 | removes every accepted name from the backend and counts them; the remaining keys keep their order |
| SHFacFac.Store.RemoveMember | src/SHFacFac.js:184-186 | one turn on an accepted name removes it from the entries and from the key order |
| SHFacFac.Store.ClearAsWritten | src/SHFacFac.js:183 | the loop as written, over the global `Storage`'s names: the entries and the key order stay as they were |
| SHFacFac.Store.Clear | src/SHFacFac.js:181-190 | the loop over the backend's keys: the backend loses exactly the member entries, the other keys keep their order, no member is left, and the count is the number of members |
| SHFacFac.MemberNotDecodable | src/SHFacFac.js:105 | one member without an envelope makes the whole scan fail |
| SHFacFac.StoreScenario | tests/qUnit/tests.js:96-105 | empty store counts 0; one store returns an id and makes the count 1; retrieving the id gives an `Apa` with the stored fields |
| SHFacFacLegacy.InlinePrefix | SHFacFac.js:31 | the inline PREFIX is the same as the current copy's factory prefix, prefix option and '-' |
| SHFacFacLegacy.Factory.Create | SHFacFac.js:220-222 | `create` makes a store with the inline prefix, its key names and session choice |

## Left out

- Environment detection: the fail-early check for `localStorage`, and the
  choice and missing-backend error for `session`. These are host objects
  (src/SHFacFac.js:8, 12-14, 34-35; SHFacFac.js:8-12, 28-29). A store is
  given its backend, and only records whether `session` was asked for.
- The clock: `+new Date` becomes the `ts` parameter of `Save`.
- `Date` objects become their millisecond value. The `Date` range limit is
  not modelled.
- JSON text: `JSON.stringify`/`JSON.parse` are treated as a lossless round
  trip, and the backend holds decoded records. Backend entries that are not
  JSON objects are not representable. Such an entry makes `JSON.parse`
  throw when it is not JSON text. A falsy value (`0`, `false`, `null`,
  `""`) makes `retrieve` return it. A truthy non-object (`5`, `true`,
  `[1]`, `"x"`) makes `retrieve` throw a TypeError at src/SHFacFac.js:105.
- Prototype tricks and function-name reflection become a type tag:
  `__proto__`, `__fake__proto__`, `__get_fn_name__` and
  `arguments.callee.name`. "An instance of the store's class" means
  "tagged with its name", so subclass instances are not modelled.
- Error messages from `barf`: only the error kinds are modelled.
- The host `Array.prototype.sort`: the comparator returns a boolean, so
  the real order depends on the engine. The model sorts with one explicit
  stable insertion sort against the same relation.
- Field values (`Engine.Value`) are integers and strings only. Fractional
  numbers, booleans, `null`, arrays and nested objects are not modelled, so
  neither is what JavaScript's `>` does with them at src/SHFacFac.js:226
  (`true > false` and `1 > null` hold there, and arrays and objects compare
  through their string forms).
- `>` between a number and a string, or with `undefined`, is taken as
  false. JavaScript would convert a numeric string and compare the numbers.
- `toLowerCase` is modelled for ASCII letters only. Strings are sequences
  of characters, not UTF-16 code units.
- The model's `ParseHex` does not skip leading white space and does not
  honour a sign or a `0x` prefix, as `parseInt` does. Stamps written by
  `store` have none of these.
- `orderBy in this.prop` is modelled as `orderBy` being id, created or
  saved. Names inherited from `Object.prototype` would also pass `in`.
- An object carries one envelope slot. In JavaScript an object could carry
  envelopes of several factories under different NS property names.
  Because of the single slot, the root copy's implicit global `self` is not
  modelled. That global makes `info` read the NS of the last store created
  (SHFacFac.js:18, 39-41).
- The implicit global `v2` in the comparator (src/SHFacFac.js:225;
  SHFacFac.js:205) has no effect here.
- Option defaults go into a fresh map. The source writes them into the
  caller's options object in place.
- Key order: the backend enumerates keys in insertion order. A present key
  keeps its place when overwritten.
- The stray `ter` at SHFacFac.js:15 raises a ReferenceError before the root
  factory exists. The model describes the factory the code evidently
  builds.
- `remove` with an argument that is neither a string nor an object is not
  modelled.
- `crossStoreIsolation`: not claimed. Two new objects saved in the same
  millisecond get the same id. Prefixes of different stores can overlap.
- `SHFacFac.Store.List`: states the objects' values and not their
  identity. The objects are new, and how they differ from the backend's
  records is left to `Retrieve`.

## Findings

| source | as written | input that shows it | evidently intended | confidence | as-written member | corrected member |
|---|---|---|---|---|---|---|
| src/SHFacFac.js:183 | `for (var itemId in Storage)` enumerates the global `Storage` interface object, which has no enumerable names | a store holding one saved object, then `clear()`: 0 is returned and the entry stays | iterate the store's own backend (`this._internal.Storage`), removing each member key and counting it | not executed | SHFacFac.Store.ClearAsWritten | SHFacFac.Store.Clear |
| SHFacFac.js:163 | the same loop over the global `Storage` in the root copy | the same: one saved object, `clear()` returns 0 and removes nothing | iterate `this.Storage` | not executed | Engine.ClearAsWrittenRemovesNothing | Engine.ClearAsIntended |
