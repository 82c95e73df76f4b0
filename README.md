# Inventory component: a verified model

This project models the state-and-validation logic of the `Inventory`
component of a small inventory-management web client. A signed-in user keeps
a list of items (name, stock, min, max, order link) in a remote realtime
store; the component lists the items of the latest snapshot the store
delivers, flags every item whose stock is outside its `[min, max]` band,
validates the add form before pushing a new record, deletes by key and
commits an edit by key.

Files and modules:

- `records.dfy` — `Records` (the record and item values, the empty form) and
  `Adapter` (the three remote writes: push, remove, update).
- `priority.dfy` — `Priority`: the status dot ("priority-high" /
  "priority-normal", as the datatype `Status`).
- `names.dfy` — `Names`: case-insensitive name comparison.
- `validation.dfy` — `Validation`: the duplicate check, the field checks,
  the verdict of the add form and its error texts, and name uniqueness.
- `snapshot.dfy` — `Snapshot`: decoding a delivered snapshot into the item
  list, with the order of enumerating its keys as an explicit parameter.
- `component.dfy` — `Component`: the class `Inventory` holding the
  component's state (`items`, `newItem`, `error`, `editingItem`) and a ghost
  log of the remote writes it issues, with its handlers as methods.

The remote store is not modelled: each write the component issues is
appended to the ghost field `log`, which is what lets "nothing is sent when
validation fails" be stated. A snapshot delivery is a call of `OnValue`
with the delivered value. The store key of a new record is a parameter of
the lemmas that need one.

## Model

| member | source | states |
|---|---|---|
| `Priority.PriorityStatus` | src/Inventory.js:50-53 | the status is normal exactly when min <= stock <= max, and high exactly when the stock is outside that band |
| `Priority.BoundsAreNormal` | src/Inventory.js:51-52 | stock equal to min or to max (with min <= max) is normal: both ends of the band are inclusive |
| `Priority.InvertedBandAlwaysHigh` | src/Inventory.js:51 | an item with min > max is high priority whatever its stock |
| `Priority.StatusIgnoresOtherFields` | src/Inventory.js:50-53 | the status depends only on stock, min and max, not on id, name or link |
| `Names.LowerChar` | src/Inventory.js:23 | the lowered character is never an upper-case letter; an upper-case ASCII letter maps to its lower-case partner and every other character is kept |
| `Names.Lower` | src/Inventory.js:23 | lowering keeps the length and lowers every character in place |
| `Names.LowerIdempotent` | src/Inventory.js:23 | lowering an already lowered name changes nothing |
| `Names.SameNameIsEquivalence` | src/Inventory.js:23 | equality of lowered names is reflexive, symmetric and transitive |
| `Validation.Message` | src/Inventory.js:24-28 | each rejection has a non-empty error text, and the duplicate text belongs to the duplicate rejection only |
| `Validation.IsDuplicate` | src/Inventory.js:23 | true exactly when some listed item's name equals the candidate name ignoring case |
| `Validation.Validate` | src/Inventory.js:23-30 | duplicate name exactly when some listed name collides; bad fields exactly when there is no collision and the name is empty or stock < 0 or min < 0 or max <= 0; accepted exactly when neither holds |
| `Validation.DuplicateReportedFirst` | src/Inventory.js:23-29 | a candidate that both collides and has bad fields is refused as a duplicate |
| `Validation.InvertedBandAccepted` | src/Inventory.js:27 | a non-colliding candidate with 0 < max < min and otherwise good fields is accepted: no order between min and max is checked |
| `Validation.VerdictIgnoresCase` | src/Inventory.js:23 | two candidates differing only in the case of their names get the same verdict |
| `Validation.AcceptKeepsNamesUnique` | src/Inventory.js:23-32 | if listed names are unique ignoring case and a candidate is accepted, the list with the new record appended still has unique names |
| `Validation.WorkedCases` | src/Inventory.js:23-30 | "Widget" is refused as a duplicate of a listed "widget"; "Bolt" 5 in 0..10 is accepted; an empty name and a zero max are refused as bad fields |
| `Snapshot.EnumerationLength` | src/Inventory.js:16 | an enumeration that lists every key of the snapshot once has as many entries as the snapshot has keys |
| `Snapshot.Decode` | src/Inventory.js:15-16 | no value decodes to the empty list; otherwise the list has one item per key, an item is listed exactly when its id is a key and its fields are that key's record, and ids are distinct |
| `Snapshot.DecodeOrderIrrelevant` | src/Inventory.js:16 | two enumerations of the same snapshot decode to the same multiset of items, so re-delivering a snapshot lists the same items |
| `Snapshot.StripIdRecoversRecord` | src/Inventory.js:16 | removing `id` from a decoded item gives back the record stored under that key |
| `Snapshot.DecodedNamesUnique` | src/Inventory.js:16-23 | the decoded list has unique names ignoring case exactly when the snapshot's records have |
| `Snapshot.AcceptedAddKeepsCollectionUnique` | src/Inventory.js:23-32 | an add accepted against the decoded listing, filed under an unused key, keeps the collection's names unique |
| `Component.Inventory.constructor` | src/Inventory.js:6-9 | starts with no items, the empty form, no error, no item being edited and no writes |
| `Component.Inventory.OnValue` | src/Inventory.js:14-17 | replaces `items` entirely by the decoding of the delivered snapshot and changes nothing else |
| `Component.Inventory.SetName` | src/Inventory.js:65 | replaces the form's name, keeping its other fields |
| `Component.Inventory.SetStock` | src/Inventory.js:74 | replaces the form's stock, keeping its other fields |
| `Component.Inventory.SetMin` | src/Inventory.js:83 | replaces the form's min, keeping its other fields |
| `Component.Inventory.SetMax` | src/Inventory.js:92 | replaces the form's max, keeping its other fields |
| `Component.Inventory.SetLink` | src/Inventory.js:101 | replaces the form's link, keeping its other fields |
| `Component.Inventory.AddItem` | src/Inventory.js:22-35 | on a collision sets the duplicate text and on bad fields the fill-in text (the `Message` of the verdict), sending nothing and keeping the form; the error is empty exactly when the candidate is accepted; otherwise logs exactly one push of the form's record, resets the form and clears the error; never changes `items` or `editingItem`; keeps every pushed record field-valid |
| `Component.Inventory.DeleteItem` | src/Inventory.js:37-39 | logs exactly one remove for the given id, listed or not, and changes no local state |
| `Component.Inventory.UpdateItem` | src/Inventory.js:41-47 | with no item being edited changes nothing and logs nothing; otherwise logs one update for the item's id carrying its other fields and ends the edit |
| `Component.AddBoltScenario` | src/Inventory.js:14-35 | filling in and adding "Bolt" logs one push and lists nothing until the snapshot with it arrives; a later add of "bolt" is refused as a duplicate with no further write |

## Left out

- Sign-in and sign-out (`src/Auth.js`, `src/App.js`): calls into the authentication service with no local logic.
- The rendering of the form and the table, and the CSS classes: presentation only. The status reported per row is `PriorityStatus`.
- The remote store itself: `push`, `child(id).remove` and `child(id).update` are logged as `Call` entries in the ghost `log`; a delivery through `on("value")` is a call of `OnValue`; `ref` and `off` are not modelled. Asynchronous completion and remote failure are not modelled.
- The subscription lifecycle (`useEffect`, the `off` clean-up, a fresh store reference on every render): lifecycle plumbing of the UI framework.
- `Snapshot.Decode`: the order in which the snapshot's keys are enumerated is not specified by the store, so it is a parameter `order` that must list every key once; `DecodeOrderIrrelevant` shows the result is the same up to permutation. A snapshot value that is neither empty nor an object of records is not modelled.
- `Names.Lower`: lowers ASCII letters only; the full Unicode case mapping of `toLowerCase` is not modelled.
- The numeric form fields are plain integers: the `NaN` that `parseInt` gives for an empty or non-numeric input, and which passes the field checks because every comparison with it is false, is not modelled.
- Stored records are assumed to carry exactly the form's five fields: a stored record with its own `id` field (which the spread in the snapshot callback would let replace the key) or without a `name` (on which the lowering would throw) is not representable. The component itself never writes such records.
- Starting, changing or cancelling an edit: the component only ever sets `editingItem` to null, so only committing an edit (`UpdateItem`) is modelled; updates are not validated, so name uniqueness is guaranteed at creation only.

## Behaviour

- The duplicate check runs before the field checks, so a candidate that fails both is refused as a duplicate (`DuplicateReportedFirst`).
- Errors are kept as the form's error text, empty when there is none; `AddItem` sets it to the `Message` of the verdict.
- A committed edit sends every field of the edited item except `id` (`UpdateItem`).
