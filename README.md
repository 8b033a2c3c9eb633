# Employee registry — a verified model

This project models the in-memory employee registry of a small REST service
(`main.py`). The registry is one ordered, mutable list of `Empleado` records,
`empleados_db`. Five operations act on it: list all records, create a record
under a freshly generated id, get the first record with a given id, update
(fully replace) the first record with a given id, and delete a record. The
lookups are first-match scans (`next(e for e in db if cond, None)`), followed
by `list.index` in update and `list.remove` in delete.

- `records.dfy`, module `Records`: the `Employee` datatype with the source's
  fields `id`, `nombre`, `puesto` and `departamento`; `Result` with the one
  error `NotFound` (the HTTP 404); Python truthiness of an optional string; the
  two scan conditions (`IdEquals(key)` and `IdPresent`); the scan `FirstWhere`;
  and `IndexOf` and `RemoveFirst`, which model `list.index` and `list.remove`.
- `registry.dfy`, module `Registry`: the class `Store`, whose field `db` is the
  list and whose methods are the five operations. It also holds the invariant
  `WellFormed`: every id is non-empty and no two records share an id. The
  lemmas show each operation keeps that invariant and relate the operations to
  each other. Two client methods call the operations in a fixed sequence,
  and their ensures give every result.

Delete (`eliminar_empleado`) is modelled as written. Its scan tests
`empleado.id` for truthiness rather than comparing it with the requested id.
So it removes the first record whose id is non-empty, whatever id was asked
for. It reports NotFound only when no record has a non-empty id. The comment
above the route (main.py:71) says a record matching the sent id is to be
removed, so matching by the requested id was evidently meant; the model keeps
the code's behaviour. The truthy-id test and "the first record" agree only
while every stored id is non-empty: under that invariant a non-empty store
always loses its first record (`DeleteTakesHead`). `DeleteIgnoresKey` shows
the effect: deleting `"u2"` from `["u1", "u2"]` removes `"u1"`, and `"u2"` can
still be fetched.

## Model

| member | source | states |
|---|---|---|
| `Records.FirstWhere` | main.py:43-45 | The `next(...)` scan yields None exactly when no element satisfies the condition; otherwise it yields an in-range position whose element satisfies the condition and no earlier element does (the same scan at lines 56-58 and 74-76) |
| `Records.IndexOf` | main.py:64-66 | `list.index(x)` on a list that contains `x` gives a position holding `x` with no earlier element equal to `x` |
| `Records.RemoveFirst` | main.py:81 | `list.remove(x)` gives the list with exactly the element at the first position equal to `x` cut out, the rest in order |
| `Records.IndexOfScanned` | main.py:64-81 | the element a scan found is first equal to itself at the scan's position, so `index` (update) and `remove` (delete) act on exactly the position the scan found |
| `Registry.Store.constructor` | main.py:21 | the registry starts empty |
| `Registry.Store.List` | main.py:26-27 | returns exactly the stored sequence and changes nothing |
| `Registry.Store.Create` | main.py:32-37 | given a fresh non-empty id, returns the payload with `id` set to it, appends that record as the last element with every earlier element unchanged, and keeps the invariant |
| `Registry.Store.Get` | main.py:42-50 | NotFound exactly when no stored record has id `key`; otherwise returns a stored record with that id at a position before which no record has it (the first match), which is exactly the record at the position `FirstWhere` finds; the store is not changed |
| `Registry.Store.Update` | main.py:55-68 | with no record of id `key`: NotFound and the store unchanged; otherwise the element at the first match's position is replaced by the payload with `id := key`, all other positions and the length unchanged, and that new element is returned; the invariant is kept |
| `Registry.Store.Delete` | main.py:73-82 | NotFound and the store unchanged exactly when no record has a non-empty id; otherwise removes the first record with a non-empty id, regardless of `key`, keeps the others in order and returns the removed record; the invariant is kept |
| `Registry.CreateKeepsWellFormed` | main.py:33-36 | appending a record under a fresh non-empty id keeps ids non-empty and distinct |
| `Registry.UpdateKeepsWellFormed` | main.py:63-67 | overwriting a record with a payload forced to that record's own id keeps ids non-empty and distinct |
| `Registry.DeleteKeepsWellFormed` | main.py:81 | removing one record keeps ids non-empty and distinct |
| `Registry.DeleteTakesHead` | main.py:74-81 | under the invariant, a non-empty store has its delete scan stop at position 0, and `remove` drops exactly the first element |
| `Registry.GetAfterCreate` | main.py:33-45 | after appending a record under a fresh id, the lookup scan for that id finds the new last position |
| `Registry.GetAfterUpdate` | main.py:56-67 | after the update of `key` at its first-match position, the lookup scan for `key` finds that same position, now holding the new record |
| `Registry.GetAfterDelete` | main.py:74-81 | under the invariant, after the record at a position is removed no record with its id remains |
| `Registry.RoundTrip` | main.py:32-82 | create Ana as `u1`, get `u1`, update `u1` (full replacement, `puesto` back to None), delete, get `u1` again: the created record, the same record, the replaced record, the replaced record, then NotFound |
| `Registry.DeleteIgnoresKey` | main.py:73-82 | with records `u1` and `u2` stored, deleting `u2` removes and returns the `u1` record, and `u2` is still found |

## Left out

- The web framework: the app object, route decorators, `response_model`, JSON serialisation and the 404 detail text. `HTTPException(404)` is the `NotFound` result.
- Request validation by the schema library: payloads are taken as well-typed `Employee` values.
- `uuid.uuid4()`: the new id is the parameter `newId` of `Store.Create`. The precondition that it is non-empty and unused stands for the uniqueness the random generator is trusted to give.
- Object identity and aliasing. Create sets the id on the caller's object and stores that same object. List returns the live list itself. The model works on values, so later changes through such shared references are not captured.
- `Records.IndexOf`: the `ValueError` that `list.index` raises for a missing element is not modelled. `IndexOf` requires the element to be present, which holds at its one call site (line 64), since the scan has just found that element in the list. `Records.RemoveFirst` likewise requires presence, for the same reason (line 81).
- Concurrency: requests interleaving on the shared list under the server are out of scope. The source has no synchronisation.
