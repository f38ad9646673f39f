# Customers API store — a Dafny model

This project models the core of a small ASP.NET Core web service that keeps customers in an
in-memory Entity Framework store. The store is seeded with four fixed customers when it is
empty. A controller exposes six handlers over it: list all, get by id, find-first search by
name, add, update and delete.

- `strings.dfy` (module `Strings`): .NET's ordinal `String.Contains`, used by the name search.
- `customers.dfy` (module `Customers`): the `Customer` record, dates as opaque
  (year, month, day) triples, and primary-key lookup. It also holds `CustomersDbContext`, a
  class whose `customers` field is the store's sequence of records in store order. Its
  `Valid()` invariant is that keys are unique.
- `controllers.dfy` (module `Controllers`): the handler outcomes (`Ok(record)`, `OkMsg`,
  `NotFound(id)`, the search's static `NoMatch`, and `Fault` for an exception that the catch
  block logs and rethrows). The read-only handlers are functions over the sequence. The
  mutating handlers are methods of `CustomersController`, which `modifies` the shared
  context. `Overwritten` and `Without` are reference definitions of update and delete.
  Lemmas connect them to the in-place steps the handlers take.
- `seeding.dfy` (module `DbContextExtension`): the four seed records and `EnsureSeeded`.
- `scenarios.dfy` (module `Scenarios`): the handlers applied to a freshly seeded store.

The name search is modelled as written. When nothing matches, `FirstOrDefault` yields null.
The guard at line 108 then reads `firstName` of that null value, so the handler faults and
never answers not-found. The handler's own branch at line 110 shows the intent: answer the
static not-found message when nothing matches. The model follows the code, and the
difference is recorded under "## Findings".

## Model

| member | source | states |
|---|---|---|
| Strings.Contains | Controllers/CustomersController.cs:106 | every string contains the empty string; a longer fragment is never contained |
| Strings.ContainsIff | Controllers/CustomersController.cs:106 | `Contains(s, t)` holds exactly when `t` occurs at some position of `s` (both directions) |
| Customers.Locate | Controllers/CustomersController.cs:68 | key lookup finds nothing exactly when no record has the key; otherwise the position of the first record with that key |
| Customers.LocateUnique | Controllers/CustomersController.cs:68 | with unique keys, looking up a record's key finds that very record |
| Customers.CustomersDbContext.Valid | Controllers/CustomersController.cs:68 | the store's primary key is unique, so the key lookup that `FindAsync` performs finds every record at its own position |
| Controllers.GetAll | Controllers/CustomersController.cs:38-43 | returns exactly the current collection, in store order; being a function, it changes nothing |
| Controllers.Get | Controllers/CustomersController.cs:64-75 | answers Ok exactly when a record has the id, and that record carries the id and is in the store; otherwise NotFound carrying the id; with unique keys the answer is the record keyed `id` |
| Controllers.Matches | Controllers/CustomersController.cs:106 | the `Where` filter: both names contain their fragments; with both fragments at the `""` defaults every record matches |
| Controllers.FirstMatch | Controllers/CustomersController.cs:106 | `Where(...).FirstOrDefault()`: none exactly when no record matches, else the position of a match with no earlier match |
| Controllers.GuardAsWritten | Controllers/CustomersController.cs:108 | the guard `found == null && found.firstName == ""` throws exactly on a null result and is never true |
| Controllers.SearchByName | Controllers/CustomersController.cs:102-121 | answers Ok exactly when some record matches both fragments, with the first match in store order; otherwise Fault, and never NotFound or NoMatch |
| Controllers.SearchByNameIntended | Controllers/CustomersController.cs:106-115 | with the guard `found == null`: the first match, or NoMatch exactly when nothing matches |
| Controllers.SearchAsWrittenVersusIntended | Controllers/CustomersController.cs:106-121 | the written search faults exactly where the intended one answers NoMatch, and the two agree on every match |
| Controllers.SearchDefaultsToFirst | Controllers/CustomersController.cs:102-106 | with both fragments at their `""` defaults, a non-empty store answers its first record |
| Controllers.Overwrite | Controllers/CustomersController.cs:179-181 | the updated record keeps its key and takes the names and date of birth from the request body |
| Controllers.OverwriteAtIsOverwritten | Controllers/CustomersController.cs:169-181 | with unique keys, the in-place overwrite at the found position equals the reference update of that key |
| Controllers.NoneOverwritten | Controllers/CustomersController.cs:169-174 | updating a key that no record has changes nothing |
| Controllers.OverwrittenKeepsOthers | Controllers/CustomersController.cs:179-182 | after an update, every other key is looked up exactly as before |
| Controllers.RemoveAtIsWithout | Controllers/CustomersController.cs:209-217 | with unique keys, removing the found record equals filtering out its key, and the other records keep their relative order |
| Controllers.RemoveAtUnique | Controllers/CustomersController.cs:217 | removing one record keeps keys unique and shrinks the store by one |
| Controllers.NoneWithout | Controllers/CustomersController.cs:209-213 | deleting a key that no record has changes nothing |
| Controllers.WithoutDropsId | Controllers/CustomersController.cs:217 | after a deletion, the deleted key answers NotFound |
| Controllers.WithoutKeepsOthers | Controllers/CustomersController.cs:217-218 | after a deletion, every other key is looked up exactly as before |
| Controllers.AppendFresh | Controllers/CustomersController.cs:139-140 | appending a record with a fresh key keeps keys unique; the new key finds the new record; other keys are looked up as before |
| Controllers.CustomersController.constructor | Controllers/CustomersController.cs:21-25 | the controller keeps the shared context it is given |
| Controllers.CustomersController.Post | Controllers/CustomersController.cs:135-142 | appends the record, answers Ok with it, keeps keys unique; afterwards Get of its id returns it and other ids answer as before |
| Controllers.CustomersController.Put | Controllers/CustomersController.cs:165-185 | an absent id gives NotFound(id) and no change; otherwise the record keyed `id` keeps its id and takes the body's other fields (the body's id is ignored); Get returns the result; the size and all other records are unchanged |
| Controllers.CustomersController.Delete | Controllers/CustomersController.cs:205-220 | an absent id gives NotFound(id) and no change; otherwise OkMsg, the key is filtered out and the size drops by one; either way Get(id) then answers NotFound |
| DbContextExtension.SeedIdsDistinct | Data/DBContextExtension.cs:24-27 | the seed has four records keyed 1 to 4 in order, so its keys are pairwise distinct |
| DbContextExtension.EnsureSeeded | Data/DBContextExtension.cs:12-31 | a non-empty store is left unchanged; an empty one afterwards holds exactly the four seed records in order; the store is then non-empty, so a second call changes nothing; key uniqueness is kept |
| Scenarios.SeedTwiceFromEmpty | Data/DBContextExtension.cs:16-30 | seeding an empty store twice gives the same four records as seeding it once, not eight |
| Scenarios.SeededLookups | Data/DBContextExtension.cs:24-26 | after seeding, id 1 is Alan Chen born 1970-02-03 and id 3 is Tom Hanks born 1962-03-04 |
| Scenarios.SearchTomHanks | Controllers/CustomersController.cs:106 | on the seeded store, searching for ("Tom", "Hanks") answers the record keyed 3 |
| Scenarios.SearchNoSuchFaults | Controllers/CustomersController.cs:106-121 | on the seeded store, ("NoSuch", "") faults as written, while the intended guard answers NoMatch |
| Scenarios.DeleteMissingAfterSeed | Controllers/CustomersController.cs:209-213 | deleting id 99 from the seeded store answers NotFound(99) and leaves four records |
| Scenarios.PutAfterSeed | Controllers/CustomersController.cs:169-184 | updating id 2 of the seeded store answers the record keyed 2 with the body's fields and leaves the other three records as they were |

## Left out

- Controllers.CustomersController.Post: requires the record's id to be absent from the store. Entity Framework's duplicate-key error and its key generation for id 0 live in the library and are not modelled; the record is stored with the id it carries.
- Null names are not modelled. A posted body without `firstName` or `lastName` would make the search's `Contains` throw; here every name is a string.
- Controllers.GetAll: returns a snapshot of the sequence. The source returns a live `IQueryable` that is evaluated later.
- `async`/`await`, `SaveChanges`/`SaveChangesAsync` and change tracking are modelled as an immediate in-place update of the store's sequence.
- Logging (`Debug.WriteLine`, `LogError`) is left out. A fault is the `Fault` outcome; exceptions raised inside the library on the other handlers are not modelled.
- The exact not-found message strings are left out. `NotFound` carries the id, and the search's static message is `NoMatch`.
- HTTP status codes, routing, request body binding and `[ResponseCache]` headers are left out. So are dependency injection, Swagger, HTTPS and NLog setup (`Startup.cs`), and host building and configuration reading (`Program.cs`). All of this is framework wiring.
- The GUID-named in-memory database is left out: the model has one store per context object. Concurrent requests on the shared singleton context are also left out: the model is sequential.
- `DateTime` calendar rules are left out. Dates are opaque (year, month, day) triples, and no validation takes place.
- The source files of the `Customer` entity and of `CustomersDbContext` are not part of this model, so they are not modelled field by field. The `Customer` datatype's fields are read off Data/DBContextExtension.cs:24-27 and Controllers/CustomersController.cs:179-181. The context is reduced to its `Customers` set.
- The enumeration order of the `Customers` set is taken to be append order, with a removal closing the gap. Neither the source nor the model sets any other order, and the in-memory provider's own order (which might, for example, reuse a freed slot) is not modelled. The record the name search returns as "first" depends on this order.

## Findings

| source | as written | input that shows it | evidently intended | confidence | as-written member | corrected member |
|---|---|---|---|---|---|---|
| Controllers/CustomersController.cs:108 | `customers==null && customers.firstName == ""`: on a null result the second operand dereferences null, and on a non-null result the condition is false, so the not-found branch is unreachable and a search with no match throws | seeded store, `SearchByName("NoSuch", "")` | `customers == null`, answering the static not-found message | high; not executed | Controllers.SearchByName (shown by Scenarios.SearchNoSuchFaults) | Controllers.SearchByNameIntended (proved by Controllers.SearchAsWrittenVersusIntended) |
