# Course store of a small CRUD service

The service keeps an ordered, in-memory list of course records (`courses`) and
answers five requests on it: get one course by id, create a course, update a
course by id, delete a course by id, and list everything. Each course has an id, a
name, a price and an optional author (full name, website). Two fixed courses are
seeded at start-up.

This project models that store with the HTTP and JSON layers taken away.

- `course.dfy`, module `CourseModel`: the `Course` and `Author` records, with the author as an `Option`. It also has the emptiness test a create payload must pass.
- `decimal.dfy`, module `Decimal`: `Itoa`, the decimal rendering that turns the random draw into an id. `Atoi` reads it back, and the round trip between them is proved.
- `store.dfy`, module `Store`:
  - each store operation as a function of the store before the request: `IndexOf` (first course with an id), `RemoveAt`, `Created`, `Updated`, `Deleted`;
  - lemmas on what each operation does when the id is found and when it is not;
  - invariants the operations keep or break;
  - the class `CourseStore`, whose `courses: seq<Course>` field is the global slice. It has one method per handler, plus `Seed` for the start-up appends. `GetOne`, `Update` and `Delete` keep the handlers' `range` loop with its early return or break. The postconditions of `Create`, `Update` and `Delete` tie the new store to `Created`, `Updated` and `Deleted` of the old one.

A handler's reply is `Json(course)`, `Text(message)` or `NoReply`. The last is
what update and delete do when the id is missing: they write no body at all. The JSON-decoded request body
is a `Course` parameter. The random draw `rand.Intn(100)` is a parameter `n` with
`0 <= n < 100`.

A stored course can have an empty name: update never applies the emptiness check (`UpdateLeaksEmptyName`, and `UpdateAdmitsEmptyName` on the seeded store). Every operation keeps ids non-empty (`IdsStayNonEmpty`). The reply messages are the handlers' exact strings ("No courses found with given id", "No data inside JSON", "Deleting is Successful").

## Model

| member | source | states |
|---|---|---|
| `CourseModel.IsEmpty` | main.go:34-36 | a course is empty exactly when its name is the empty string |
| `CourseModel.IsEmptyOnlyName` | main.go:34-36 | changing a course's id, price or author does not change whether it is empty |
| `Decimal.Itoa` | main.go:95 | the rendering of a number is a non-empty string of decimal digits with no leading zero unless the number is 0 |
| `Decimal.AtoiItoa` | main.go:95 | reading back the rendering of any natural number yields that number |
| `Decimal.ItoaInjective` | main.go:95 | distinct draws give distinct id strings |
| `Decimal.ItoaBelowHundred` | main.go:95 | a draw in [0,100) renders as one or two digits, and as one digit exactly when it is below 10 |
| `Store.FindFrom` | main.go:65-70 | the scan from position k: the result is the first position at or after k whose course has the id, and none exactly when no course from k on has it |
| `Store.IndexOf` | main.go:65-70 | the result is the position of the first course whose id equals the requested one; it is absent exactly when no course has that id |
| `Store.RemoveAt` | main.go:138 | cutting out position i leaves one course fewer, the ones before i in place and the ones after i shifted down by one |
| `Store.RemoveAtMultiset` | main.go:138 | cutting out position i loses exactly the course at i: the multiset of the rest plus that course is the old multiset |
| `Store.RemoveAtCount` | main.go:138 | cutting out position i lowers the number of courses carrying that course's id by exactly one |
| `Store.Created` | main.go:87-96 | the store after a create: as long as before for an empty-named payload and one longer otherwise, with the old store as its prefix |
| `Store.Updated` | main.go:114-124 | the store after an update: the same length; on a hit its last course is the payload carrying the path id; it holds nothing beyond the old courses and that course |
| `Store.Deleted` | main.go:136-142 | the store after a delete: one shorter exactly when the id was present, otherwise the same length, and a sub-multiset of the old store |
| `Store.CreateEmpty` | main.go:87-90 | an empty-named payload leaves the store unchanged |
| `Store.CreateNamed` | main.go:94-97 | a named payload adds exactly one course at the end and the earlier entries are unchanged; that course is the payload with id `Itoa(n)`, so its name, price and author are the payload's and its id is one or two decimal digits that read back as the draw |
| `Store.DeleteHit` | main.go:136-141 | when the id is present, the first course with it is removed and nothing else: one fewer, the others in their original order, the same multiset minus that course, one fewer course with that id |
| `Store.DeleteMiss` | main.go:136-143 | when no course has the id, the store is unchanged |
| `Store.DeleteKeepsDuplicates` | main.go:136-141 | after deleting a present id, the id is still in the store exactly when it occurred at least twice before |
| `Store.UpdateHit` | main.go:114-122 | when the id is present, the first course with it is removed, the rest keep their order, and the payload carrying the path id is appended last; the length, the number of courses with that id and the multiset apart from the swapped course are unchanged |
| `Store.UpdateMiss` | main.go:114-125 | when no course has the id, the store is unchanged |
| `Store.IdsStayNonEmpty` | main.go:85-142 | if every stored id is non-empty, it stays so after a create, an update and a delete |
| `Store.NamesStayNonEmpty` | main.go:87-141 | if every stored name is non-empty, it stays so after a create and a delete |
| `Store.UpdateLeaksEmptyName` | main.go:114-120 | on any store holding the path id, an update with an empty-named payload leaves a course with an empty name in the store |
| `Store.UpdateAdmitsEmptyName` | main.go:114-120 | an update with an empty-named payload on the seeded store leaves a course with an empty name in it |
| `Store.CreateMayDuplicateId` | main.go:94-96 | a create whose draw is 1 gives the seeded store a second course with id "1": ids are not unique |
| `Store.SeedWellFormed` | main.go:152-153 | the seeded courses have non-empty ids and names |
| `Store.CourseStore.constructor` | main.go:30 | the store starts empty |
| `Store.CourseStore.Seed` | main.go:152-153 | appends the two fixed courses, in order, to the store |
| `Store.CourseStore.ListAll` | main.go:46-50 | returns the whole store in order |
| `Store.CourseStore.GetOne` | main.go:65-71 | replies with the first course whose id matches, else with the not-found message; the store is not changed |
| `Store.CourseStore.Create` | main.go:85-97 | replies "No data inside JSON" to an empty-named payload and leaves the store alone; otherwise appends the payload with the rendered draw as id and replies with that course |
| `Store.CourseStore.Update` | main.go:114-124 | the new store is `Updated` of the old one; replies with the appended course when the id was present, else writes nothing |
| `Store.CourseStore.Delete` | main.go:136-142 | the new store is `Deleted` of the old one; replies "Deleting is Successful" when the id was present, else writes nothing |
| `Store.SeededLookups` | main.go:152-153 | in the seeded store id "1" is found first at position 0, deleting it leaves only the MERN Stack course, and there id "1" is absent |
| `Store.SeedScenario` | main.go:152-153 | after seeding, getting "1" replies with the ReactJS course, deleting "1" replies "Deleting is Successful", and getting "1" again replies with the not-found message (also main.go:65-71 and main.go:136-141) |

## Left out

- Routing with gorilla/mux, the response writer, headers and `ListenAndServe` (main.go:148-165). These are HTTP plumbing in a foreign library. The path id is a plain string parameter.
- JSON encoding and decoding. The decoded body is an input `Course`. A decode error is ignored by the code, so a failed or partial decode just supplies whatever record resulted, which is any input value here.
- The `r.Body == nil` branch of create (main.go:80-82). It writes a message and carries on; an HTTP server never hands a handler a nil body.
- `rand.Seed(time.Now().UnixNano())` and `rand.Intn(100)`. The draw is the parameter `n` in [0,100).
- The home route greeting and the `fmt.Println` logging.
- Concurrency: the handlers share the global slice without a lock. Each method here runs alone.
- Slice aliasing in `append(courses[:index], courses[index+1:]...)` and sharing of the author pointer. Only the resulting sequence value is modelled, and the author is a value.
- The price is an unbounded integer. The 64-bit width of Go's `int` matters only to JSON decoding, which is not part of this model.
