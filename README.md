# Item service: a Dafny model

A model of a small HTTP service written with Ktor (`src/main/kotlin/Application.kt`).
The routing block owns one mutable, ordered list of `Item(id, name)` records, seeded
with ids 1, 2 and 3. Four handlers act on it:

- `GET /items` answers the whole list.
- `GET /items/{id}` answers the first item with that id, 404 on a miss, 400 on a bad id.
- `POST /items?name=…` appends an item whose id is the current maximum id plus one
  (1 for an empty list), 400 on a missing or blank name.
- `DELETE /items/{id}` removes the matching items and reports whether there were any,
  400 on a bad id.

Files:

- `wrappers.dfy`: the `Option` type used for absent parameters and lookup misses.
- `item_store.dfy`, module `ItemStore`: the `Item` record (the `data class Item(id, name)`
  at `Application.kt:15`, a value type here), the list operations the
  handlers use (`find`, `maxOfOrNull`, `add`, `removeIf`) as functions on `seq<Item>`
  with their lemmas, and the class `Store` whose field `items` is the shared list.
  Its methods `List`, `Get`, `Create` and `Delete` are the handlers' accesses to the list.
  `Store.Valid()` is the list invariant: ids pairwise distinct and positive, and no
  blank name. The constructor establishes it. Every mutating method requires it and
  keeps it, so it holds after any sequence of requests.
- `routes.dfy`, module `Routes`: the four handlers as methods over a `Store`, returning
  a `Response(status, body)`. Two client methods put the handlers' contracts together:
  create then fetch, and delete twice.

Ids are taken from the current maximum, not from a persistent counter. Deleting the
item with the highest id and then creating one hands that id out again. The model
keeps this behaviour and states it (`IdReuseBound`, `SeededIdReuse`). The id is
always derived from the current list; there is no persistent counter. The service
starts from the three seeded items at `Application.kt:23-27`, not from an empty list.

"Blank" follows Kotlin's `isNullOrBlank`: a missing name, an empty string, or a string
whose every character satisfies `Char.isWhitespace`. On the JVM that predicate is Java
whitespace or a Unicode space separator. `IsWhitespace` lists those code points.

The `id` path segment reaches a handler already read as an integer of any size
(`None` when it is missing or not an integer). `ToIntOrNull` then applies the
32-bit range check of Kotlin's `toIntOrNull`, so a segment such as `2147483648`
is answered 400 "Invalid id", as in the code.

## Model

| member | source | states |
|---|---|---|
| ItemStore.IsWhitespace | src/main/kotlin/Application.kt:49 | the character test behind `isBlank`: space, tab, newline and carriage return are whitespace; ASCII letters and digits are not |
| ItemStore.IsBlank | src/main/kotlin/Application.kt:49 | the empty string is blank; a string holding any non-whitespace character is not |
| ItemStore.SeedItems | src/main/kotlin/Application.kt:23-27 | exactly three items, ids 1, 2, 3 in that order, named "First item", "Second item", "Third item"; the list satisfies the invariant (distinct, positive ids, non-blank names) |
| ItemStore.MaxOfIds | src/main/kotlin/Application.kt:53 | `maxOfOrNull { it.id }` is None exactly for the empty list; otherwise it is an id present in the list and no id exceeds it |
| ItemStore.NextId | src/main/kotlin/Application.kt:53 | the new id is 1 on an empty list; otherwise it is one more than an id present; it is strictly greater than every id present |
| ItemStore.FindById | src/main/kotlin/Application.kt:39 | `find` answers None exactly when no item carries the id; otherwise it answers the first item carrying the id |
| ItemStore.RemoveById | src/main/kotlin/Application.kt:65 | `removeIf` keeps exactly the items whose id differs; the list shrinks iff some item carried the id; with no such item the list is unchanged |
| ItemStore.RemoveAt | src/main/kotlin/Application.kt:65 | with distinct ids, removing the id of the item at position k yields the list with exactly that slot dropped, others in their original order |
| ItemStore.RemovePreservesInv | src/main/kotlin/Application.kt:65 | a delete keeps ids distinct and positive and names non-blank |
| ItemStore.AppendPreservesInv | src/main/kotlin/Application.kt:53-55 | appending the next id with a non-blank name keeps ids distinct and positive and names non-blank |
| ItemStore.FindAppended | src/main/kotlin/Application.kt:39-55 | round trip: looking up the id just assigned finds exactly the item just appended, name unchanged |
| ItemStore.FindUnique | src/main/kotlin/Application.kt:39 | with distinct ids, looking up an item's id finds that very item |
| ItemStore.IdReuseBound | src/main/kotlin/Application.kt:53-65 | after deleting the item with the largest id, the next id handed out is no larger than the deleted one (ids are reused) |
| ItemStore.SeededIdReuse | src/main/kotlin/Application.kt:23-65 | from the seeded list the next id is 4, and after deleting item 3 it is 3 again |
| ItemStore.Store.constructor | src/main/kotlin/Application.kt:23-27 | the list starts as the three seeded items and satisfies the invariant |
| ItemStore.Store.List | src/main/kotlin/Application.kt:30 | the whole list in insertion order, without changing it |
| ItemStore.Store.Get | src/main/kotlin/Application.kt:39 | None iff no item has the id; otherwise the item in the list carrying it, which is the only one |
| ItemStore.Store.Create | src/main/kotlin/Application.kt:53-55 | appends exactly one item (max id + 1 or 1, name as given) after the unchanged earlier items; its id exceeds every earlier id; invariant kept |
| ItemStore.Store.Delete | src/main/kotlin/Application.kt:65 | reports removal iff the id was present; absent: list unchanged; present: exactly that item's slot removed, others in order; invariant kept |
| Routes.Status.Code | src/main/kotlin/Application.kt:36-69 | the statuses map to 200, 201, 400, 404, and the success statuses are exactly those below 300 |
| Routes.ToIntOrNull | src/main/kotlin/Application.kt:34 | an id is accepted exactly when the segment is an integer within the 32-bit `Int` range, and it is then that integer |
| Routes.IsNullOrBlank | src/main/kotlin/Application.kt:49 | a missing name and the empty name are rejected; a name holding any non-whitespace character is accepted |
| Routes.GetItems | src/main/kotlin/Application.kt:29-31 | 200 with the whole list in insertion order |
| Routes.GetItem | src/main/kotlin/Application.kt:33-45 | missing, non-integer or out-of-`Int` id: 400 "Invalid id"; no match: 404 "Item not found"; match: 200 with that item; never changes the list |
| Routes.PostItem | src/main/kotlin/Application.kt:47-57 | missing or blank name: 400 with the missing-name message and the list unchanged; otherwise 201 with the new item (next id, untrimmed name) appended at the end |
| Routes.DeleteItem | src/main/kotlin/Application.kt:59-71 | missing, non-integer or out-of-`Int` id: 400 "Invalid id", list unchanged; absent id: 404 "Item not found", list unchanged; present: 200 "Item deleted" and exactly that item removed; afterwards no item carries the id |
| Routes.PostThenGet | src/main/kotlin/Application.kt:39-56 | a successful POST of a name followed by GET of the returned id answers 200 with the same id and name (400 if the id has left the `Int` range) |
| Routes.DeleteTwice | src/main/kotlin/Application.kt:59-71 | for an `Int` id, a repeated DELETE answers 404 and changes nothing: the list ends as the original without that id's item (unchanged if it was absent), and the first answers 200 iff the id was present; any other id is refused twice with no change |

## Left out

- Server bootstrap (`main`, `embeddedServer(Netty, …)`), the `ContentNegotiation` JSON plugin and the wire encoding of `call.respond`: framework code with no logic of its own. A response is modelled as a status and a body value.
- Route dispatch on method and path is done by the framework; each handler is modelled as its own method.
- `toIntOrNull` on the `id` path segment: the decimal parsing itself is a library call. Handlers receive the segment already read as an unbounded integer (None for a missing or non-integer segment); only the 32-bit range check is modelled, by `Routes.ToIntOrNull`.
- Concurrency: the handlers share an unsynchronised list. Each request is modelled as one atomic, sequential step.
- ItemStore.NextId: uses unbounded integers, so the 32-bit wrap-around of `max + 1` at `Int.MAX_VALUE` is not modelled. Both halves of the list invariant rely on that. Positivity: after the wrap a create gets `Int.MIN_VALUE`. Distinctness: the maximum then stays `Int.MAX_VALUE`, so every later create gets `Int.MIN_VALUE` again.
- `build.gradle.kts` is not part of this model: it holds build configuration only.
