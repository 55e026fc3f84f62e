/**
 * The in-memory course store and the handlers that search and change it.
 * The sequence functions below specify the store operations; the class
 * CourseStore holds the store and has one method per handler.
 */
module Store {
  import opened CourseModel
  import opened Decimal

  const NotFoundMsg: string := "No courses found with given id"
  const NoDataMsg: string := "No data inside JSON"
  const DeletedMsg: string := "Deleting is Successful"

  /** What a handler writes back: a JSON course, a JSON string message, or nothing at all. */
  datatype Reply = Json(course: Course) | Text(msg: string) | NoReply

  /** The two courses the store is seeded with at start-up. */
  const ReactJs: Course := Course("1", "ReactJS", 299, Some(Author("Nishchal Gupta", "lco.dev")))
  const MernStack: Course := Course("2", "MERN Stack", 599, Some(Author("Nishchal Gupta", "go.dev")))
  const SeedCourses: seq<Course> := [ReactJs, MernStack]

  // ---------------------------------------------------------------------
  // Searching by id
  // ---------------------------------------------------------------------

  predicate HasId(s: seq<Course>, id: string)
  {
    exists j :: 0 <= j < |s| && s[j].id == id
  }

  /** The first index at or after k whose course has the given id. */
  function FindFrom(s: seq<Course>, id: string, k: nat): (r: Option<nat>)
    requires k <= |s|
    ensures r.Some? ==> k <= r.value < |s| && s[r.value].id == id
    ensures r.Some? ==> forall j :: k <= j < r.value ==> s[j].id != id
    ensures r.None? ==> forall j :: k <= j < |s| ==> s[j].id != id
    decreases |s| - k
  {
    if k == |s| then None
    else if s[k].id == id then Some(k)
    else FindFrom(s, id, k + 1)
  }

  /** The position of the first course with the given id, if there is one. */
  function IndexOf(s: seq<Course>, id: string): (r: Option<nat>)
    ensures r.Some? ==> r.value < |s| && s[r.value].id == id
    ensures r.Some? ==> forall j :: 0 <= j < r.value ==> s[j].id != id
    ensures r.None? <==> !HasId(s, id)
  {
    FindFrom(s, id, 0)
  }

  /** How many courses carry the given id (ids are not unique). */
  function CountId(s: seq<Course>, id: string): nat
  {
    if s == [] then 0 else (if s[0].id == id then 1 else 0) + CountId(s[1..], id)
  }

  lemma {:induction false} CountIdAppend(a: seq<Course>, b: seq<Course>, id: string)
    ensures CountId(a + b, id) == CountId(a, id) + CountId(b, id)
  {
    if a != [] {
      CountIdAppend(a[1..], b, id);
      assert (a + b)[1..] == a[1..] + b;
    } else {
      assert a + b == b;
    }
  }

  /** Some course has the id exactly when the count of that id is positive. */
  lemma {:induction false} CountIdPositive(s: seq<Course>, id: string)
    ensures CountId(s, id) > 0 <==> HasId(s, id)
  {
    if s != [] {
      CountIdPositive(s[1..], id);
      if s[0].id != id && HasId(s, id) {
        var j :| 0 <= j < |s| && s[j].id == id;
        assert s[1..][j - 1].id == id;
      }
    }
  }

  // ---------------------------------------------------------------------
  // The store operations, as functions of the store before the request
  // ---------------------------------------------------------------------

  /** The sequence with the element at position i cut out. */
  function RemoveAt(s: seq<Course>, i: nat): (r: seq<Course>)
    requires i < |s|
    ensures |r| == |s| - 1
    ensures forall j :: 0 <= j < i ==> r[j] == s[j]
    ensures forall j :: i <= j < |r| ==> r[j] == s[j + 1]
  {
    s[..i] + s[i + 1..]
  }

  /** Cutting out position i loses exactly that course and nothing else. */
  lemma RemoveAtMultiset(s: seq<Course>, i: nat)
    requires i < |s|
    ensures multiset(RemoveAt(s, i)) + multiset{s[i]} == multiset(s)
  {
    var front, back := s[..i], s[i + 1..];
    assert s == front + ([s[i]] + back);
    assert RemoveAt(s, i) == front + back;
  }

  /** Cutting out position i lowers the count of that course's id by exactly one. */
  lemma RemoveAtCount(s: seq<Course>, i: nat)
    requires i < |s|
    ensures CountId(RemoveAt(s, i), s[i].id) == CountId(s, s[i].id) - 1
  {
    var id, front, rest := s[i].id, s[..i], s[i..];
    assert s == front + rest;
    assert rest[1..] == s[i + 1..];
    assert CountId(rest, id) == 1 + CountId(s[i + 1..], id);
    CountIdAppend(front, rest, id);
    CountIdAppend(front, s[i + 1..], id);
  }

  /** The store after a create request with the given payload and random draw n. */
  function Created(s: seq<Course>, payload: Course, n: int): (r: seq<Course>)
    requires 0 <= n < 100
    ensures |r| == if IsEmpty(payload) then |s| else |s| + 1
    ensures r[..|s|] == s
  {
    if IsEmpty(payload) then s else s + [payload.(id := Itoa(n))]
  }

  /** The store after an update request for path id with the given payload. */
  function Updated(s: seq<Course>, id: string, payload: Course): (r: seq<Course>)
    ensures |r| == |s|
    ensures HasId(s, id) ==> r[|r| - 1] == payload.(id := id)
    ensures multiset(r) <= multiset(s) + multiset{payload.(id := id)}
  {
    match IndexOf(s, id)
    case None => s
    case Some(i) => RemoveAtMultiset(s, i); RemoveAt(s, i) + [payload.(id := id)]
  }

  /** The store after a delete request for path id. */
  function Deleted(s: seq<Course>, id: string): (r: seq<Course>)
    ensures |r| == if HasId(s, id) then |s| - 1 else |s|
    ensures multiset(r) <= multiset(s)
  {
    match IndexOf(s, id)
    case None => s
    case Some(i) => RemoveAtMultiset(s, i); RemoveAt(s, i)
  }

  // ---------------------------------------------------------------------
  // Properties of the operations
  // ---------------------------------------------------------------------

  /** An empty-named payload is refused and the store is left as it was. */
  lemma CreateEmpty(s: seq<Course>, payload: Course, n: int)
    requires 0 <= n < 100 && IsEmpty(payload)
    ensures Created(s, payload, n) == s
  {
  }

  /**
   * A named payload is appended as exactly one new course after the old ones; its id
   * is the one- or two-digit rendering of the draw, its other fields are the payload's.
   */
  lemma CreateNamed(s: seq<Course>, payload: Course, n: int)
    requires 0 <= n < 100 && !IsEmpty(payload)
    ensures var c := Created(s, payload, n);
      && |c| == |s| + 1
      && c[..|s|] == s
      && c[|s|] == payload.(id := Itoa(n))
      && 1 <= |c[|s|].id| <= 2 && AllDigits(c[|s|].id) && Atoi(c[|s|].id) == n
  {
    ItoaBelowHundred(n);
    AtoiItoa(n);
  }

  /**
   * Deleting an id that is present removes its first occurrence only: one course fewer,
   * the others in their original order, and later courses with the same id kept.
   */
  lemma DeleteHit(s: seq<Course>, id: string, i: nat)
    requires IndexOf(s, id) == Some(i)
    ensures var d := Deleted(s, id);
      && |d| == |s| - 1
      && (forall j :: 0 <= j < i ==> d[j] == s[j])
      && (forall j :: i <= j < |d| ==> d[j] == s[j + 1])
      && multiset(d) + multiset{s[i]} == multiset(s)
      && CountId(d, id) == CountId(s, id) - 1
  {
    RemoveAtMultiset(s, i);
    RemoveAtCount(s, i);
  }

  /** Deleting an id that is absent changes nothing. */
  lemma DeleteMiss(s: seq<Course>, id: string)
    requires !HasId(s, id)
    ensures Deleted(s, id) == s
  {
  }

  /** After a delete, the id is still found exactly when it occurred more than once. */
  lemma DeleteKeepsDuplicates(s: seq<Course>, id: string)
    requires HasId(s, id)
    ensures HasId(Deleted(s, id), id) <==> CountId(s, id) >= 2
  {
    var i := IndexOf(s, id).value;
    DeleteHit(s, id, i);
    CountIdPositive(Deleted(s, id), id);
  }

  /**
   * Updating an id that is present removes its first occurrence, keeps the rest in order
   * and appends the payload, carrying the path id, last: the length and the number of
   * courses with that id are unchanged.
   */
  lemma UpdateHit(s: seq<Course>, id: string, payload: Course, i: nat)
    requires IndexOf(s, id) == Some(i)
    ensures var u := Updated(s, id, payload);
      && |u| == |s|
      && u[..|s| - 1] == Deleted(s, id)
      && u[|s| - 1] == payload.(id := id)
      && u[|s| - 1].id == s[i].id
      && multiset(u) + multiset{s[i]} == multiset(s) + multiset{payload.(id := id)}
      && CountId(u, id) == CountId(s, id)
  {
    var u := Updated(s, id, payload);
    RemoveAtMultiset(s, i);
    RemoveAtCount(s, i);
    CountIdAppend(RemoveAt(s, i), [payload.(id := id)], id);
    assert u[..|s| - 1] == RemoveAt(s, i);
  }

  /** Updating an id that is absent changes nothing. */
  lemma UpdateMiss(s: seq<Course>, id: string, payload: Course)
    requires !HasId(s, id)
    ensures Updated(s, id, payload) == s
  {
  }

  // ---------------------------------------------------------------------
  // Invariants of the store
  // ---------------------------------------------------------------------

  predicate IdsNonEmpty(s: seq<Course>)
  {
    forall j :: 0 <= j < |s| ==> s[j].id != ""
  }

  predicate NamesNonEmpty(s: seq<Course>)
  {
    forall j :: 0 <= j < |s| ==> !IsEmpty(s[j])
  }

  /** Every course in the store keeps a non-empty id, whatever request is served. */
  lemma IdsStayNonEmpty(s: seq<Course>, id: string, payload: Course, n: int)
    requires IdsNonEmpty(s) && 0 <= n < 100
    ensures IdsNonEmpty(Created(s, payload, n))
    ensures IdsNonEmpty(Updated(s, id, payload))
    ensures IdsNonEmpty(Deleted(s, id))
  {
  }

  /** Create and delete keep every stored name non-empty. */
  lemma NamesStayNonEmpty(s: seq<Course>, id: string, payload: Course, n: int)
    requires NamesNonEmpty(s) && 0 <= n < 100
    ensures NamesNonEmpty(Created(s, payload, n))
    ensures NamesNonEmpty(Deleted(s, id))
  {
  }

  /** The seeded store has non-empty ids and names. */
  lemma SeedWellFormed()
    ensures IdsNonEmpty(SeedCourses) && NamesNonEmpty(SeedCourses)
  {
  }

  /** Update skips the emptiness check: on a hit, an empty-named payload enters the store. */
  lemma UpdateLeaksEmptyName(s: seq<Course>, id: string, payload: Course)
    requires HasId(s, id) && IsEmpty(payload)
    ensures !NamesNonEmpty(Updated(s, id, payload))
  {
    assert IsEmpty(Updated(s, id, payload)[|s| - 1]);
  }

  /** The same on the seeded store: updating "1" with an empty name breaks the name invariant. */
  lemma UpdateAdmitsEmptyName(payload: Course)
    requires IsEmpty(payload)
    ensures NamesNonEmpty(SeedCourses)
    ensures !NamesNonEmpty(Updated(SeedCourses, "1", payload))
  {
    var u := Updated(SeedCourses, "1", payload);
    assert IndexOf(SeedCourses, "1") == Some(0);
    assert IsEmpty(u[|u| - 1]);
  }

  /** Ids are not unique: a create whose draw is 1 duplicates the seeded id "1". */
  lemma CreateMayDuplicateId(payload: Course)
    requires !IsEmpty(payload)
    ensures CountId(SeedCourses, "1") == 1
    ensures CountId(Created(SeedCourses, payload, 1), "1") == 2
  {
    CountIdAppend(SeedCourses, [payload.(id := "1")], "1");
  }

  // ---------------------------------------------------------------------
  // The store and its handlers
  // ---------------------------------------------------------------------

  class CourseStore {
    var courses: seq<Course>

    /** The store starts out empty. */
    constructor ()
      ensures courses == []
    {
      courses := [];
    }

    /** The two fixed courses are appended at start-up. */
    method Seed()
      modifies this
      ensures courses == old(courses) + SeedCourses
    {
      courses := courses + [ReactJs];
      courses := courses + [MernStack];
    }

    /** Every course, in store order. */
    method ListAll() returns (all: seq<Course>)
      ensures all == courses
    {
      all := courses;
    }

    /** The first course with the path id, or the not-found message; the store is only read. */
    method GetOne(id: string) returns (r: Reply)
      ensures match IndexOf(courses, id)
        case Some(i) => r == Json(courses[i])
        case None => r == Text(NotFoundMsg)
    {
      for i := 0 to |courses|
        invariant forall j :: 0 <= j < i ==> courses[j].id != id
      {
        if courses[i].id == id {
          return Json(courses[i]);
        }
      }
      return Text(NotFoundMsg);
    }

    /** Refuses an empty-named payload; otherwise gives it the rendered draw as id and appends it. */
    method Create(payload: Course, n: int) returns (r: Reply)
      requires 0 <= n < 100
      modifies this
      ensures courses == Created(old(courses), payload, n)
      ensures r == if IsEmpty(payload) then Text(NoDataMsg) else Json(payload.(id := Itoa(n)))
    {
      if IsEmpty(payload) {
        return Text(NoDataMsg);
      }
      var course := payload.(id := Itoa(n));
      courses := courses + [course];
      return Json(course);
    }

    /** Replaces the first course with the path id by the payload carrying that id, appended last. */
    method Update(id: string, payload: Course) returns (r: Reply)
      modifies this
      ensures courses == Updated(old(courses), id, payload)
      ensures r == if HasId(old(courses), id) then Json(payload.(id := id)) else NoReply
    {
      for i := 0 to |courses|
        invariant courses == old(courses)
        invariant forall j :: 0 <= j < i ==> courses[j].id != id
      {
        if courses[i].id == id {
          courses := courses[..i] + courses[i + 1..];
          var course := payload.(id := id);
          courses := courses + [course];
          return Json(course);
        }
      }
      return NoReply;
    }

    /** Removes the first course with the path id; replies only when there was one. */
    method Delete(id: string) returns (r: Reply)
      modifies this
      ensures courses == Deleted(old(courses), id)
      ensures r == if HasId(old(courses), id) then Text(DeletedMsg) else NoReply
    {
      r := NoReply;
      for i := 0 to |courses|
        invariant courses == old(courses)
        invariant forall j :: 0 <= j < i ==> courses[j].id != id
      {
        if courses[i].id == id {
          courses := courses[..i] + courses[i + 1..];
          r := Text(DeletedMsg);
          break;
        }
      }
    }
  }

  /** Lookups and the delete of id "1" on the seeded store. */
  lemma SeededLookups()
    ensures IndexOf(SeedCourses, "1") == Some(0) && HasId(SeedCourses, "1")
    ensures Deleted(SeedCourses, "1") == [MernStack]
    ensures IndexOf([MernStack], "1") == None
  {
    assert SeedCourses[0].id == "1";
    assert MernStack.id != "1";
  }

  /** Seed the store, read course "1", delete it, and read it again. */
  method SeedScenario()
  {
    var store := new CourseStore();
    store.Seed();
    assert store.courses == SeedCourses;
    SeededLookups();
    var r := store.GetOne("1");
    assert r == Json(ReactJs);
    r := store.Delete("1");
    assert r == Text(DeletedMsg) && store.courses == [MernStack];
    r := store.GetOne("1");
    assert r == Text(NotFoundMsg);
  }
}
