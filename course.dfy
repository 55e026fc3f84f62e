/** The records of the course API: a course and its optional author. */
module CourseModel {

  datatype Option<+T> = None | Some(value: T)

  /** An author; it exists only embedded in a course. */
  datatype Author = Author(fullName: string, website: string)

  /** A course. The author is a nullable pointer in the service; here it is a value. */
  datatype Course = Course(id: string, name: string, price: int, author: Option<Author>)

  /** A decoded payload is "empty" when its name is; the id is generated later. */
  predicate IsEmpty(c: Course)
  {
    c.name == ""
  }

  /** Emptiness looks at the name and nothing else: id, price and author are ignored. */
  lemma IsEmptyOnlyName(c: Course, id: string, price: int, author: Option<Author>)
    ensures IsEmpty(c.(id := id, price := price, author := author)) == IsEmpty(c)
  {
  }
}
