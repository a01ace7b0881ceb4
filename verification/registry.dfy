/**
 * `DatabaseCourse` and `DatabaseCourseNetwork`: the registry of known courses and the set of
 * courses the user has already taken.
 */
module Registry {
  import opened Outcomes

  /**
   * One way of meeting a course's prerequisites, listed in the order the source iterates the
   * underlying set.
   */
  type Combo = seq<string>

  /**
   * A registered course. Credit is counted in half-credits (H = 1, Y = 2), so the source's
   * 0.5 and 1.0 become integers. `prerequisites` is `None` until `add_prereqs` attaches a list.
   */
  datatype Course = Course(code: string, halfCredits: nat, duration: nat, prerequisites: Option<seq<Combo>>)

  datatype CourseDb = CourseDb(courses: map<string, Course>, taken: set<string>)

  /** `DatabaseCourseNetwork(courses_taken)`: no courses yet. */
  function EmptyDb(taken: set<string>): (db: CourseDb)
    ensures db.courses == map[] && db.taken == taken
  {
    CourseDb(map[], taken)
  }

  /** Every course is stored under its own code. */
  predicate WellKeyed(db: CourseDb) {
    forall code <- db.courses :: db.courses[code].code == code
  }

  /** The letter `code[-2]` that decides a course's length. */
  function DurationLetter(code: string): (r: Result<char>)
    ensures r.Ok? <==> |code| >= 2
    ensures r.Ok? ==> r.value == code[|code| - 2]
  {
    if |code| >= 2 then Ok(code[|code| - 2]) else Err(IndexOutOfRange)
  }

  /**
   * `add_course`: an `H` course lasts one term and is worth a half credit, a `Y` course two terms
   * and a full credit; any other letter raises. The new course replaces any entry with its code.
   */
  function AddCourse(db: CourseDb, code: string): (r: Result<(CourseDb, Course)>)
    ensures |code| < 2 ==> r == Err(IndexOutOfRange)
    ensures |code| >= 2 ==> (r.Ok? <==> code[|code| - 2] == 'H' || code[|code| - 2] == 'Y')
    ensures r.Err? && |code| >= 2 ==> r.fault == UnknownDurationLetter
    ensures r.Ok? ==> r.value.0.courses == db.courses[code := r.value.1] && r.value.0.taken == db.taken
    ensures r.Ok? ==> var c := r.value.1;
              && c.code == code && c.prerequisites == None
              && c.halfCredits == c.duration
              && (c.duration == 1 <==> code[|code| - 2] == 'H')
              && (c.duration == 2 <==> code[|code| - 2] == 'Y')
  {
    var letter :- DurationLetter(code);
    if letter == 'H' then
      var c := Course(code, 1, 1, None);
      Ok((db.(courses := db.courses[code := c]), c))
    else if letter == 'Y' then
      var c := Course(code, 2, 2, None);
      Ok((db.(courses := db.courses[code := c]), c))
    else
      Err(UnknownDurationLetter)
  }

  /** `get_course`: the stored course, or `None` when the code is unknown. */
  function GetCourse(db: CourseDb, code: string): (r: Option<Course>)
    ensures r.Some? <==> code in db.courses
    ensures r.Some? ==> r.value == db.courses[code]
  {
    if code in db.courses then Some(db.courses[code]) else None
  }

  /** `add_prereqs`: attach the list of combos, nothing else changes. */
  function AddPrereqs(c: Course, prereqs: seq<Combo>): (r: Course)
    ensures r.prerequisites == Some(prereqs)
    ensures r.code == c.code && r.duration == c.duration && r.halfCredits == c.halfCredits
  {
    c.(prerequisites := Some(prereqs))
  }

  /** A stored course is found again by its code, and every other lookup is unchanged. */
  lemma {:induction false} AddThenGet(db: CourseDb, code: string, other: string)
    requires AddCourse(db, code).Ok?
    ensures var (db', c) := AddCourse(db, code).value;
            && GetCourse(db', code) == Some(c)
            && (other != code ==> GetCourse(db', other) == GetCourse(db, other))
  {
  }

  /** Adding courses keeps every course stored under its own code. */
  lemma {:induction false} AddKeepsWellKeyed(db: CourseDb, code: string)
    requires WellKeyed(db) && AddCourse(db, code).Ok?
    ensures WellKeyed(AddCourse(db, code).value.0)
  {
  }

  /** Every member of the combo is among the courses the user has taken. */
  predicate AllTaken(db: CourseDb, q: Combo) {
    forall x <- q :: x in db.taken
  }

  /** A combo all of whose members are already taken or registered. */
  predicate Resolvable(db: CourseDb, q: Combo) {
    forall x <- q :: x in db.taken || x in db.courses
  }

  /**
   * What the plan builders need of the registry: every course is stored under its code, has its
   * prerequisites attached, and `rank` strictly decreases from a course to every registered
   * member of its combos, so following prerequisites always ends.
   */
  predicate Ranked(db: CourseDb, rank: map<string, nat>) {
    && WellKeyed(db)
    && (forall code <- db.courses :: code in rank && db.courses[code].prerequisites.Some?)
    && (forall code <- db.courses, q <- db.courses[code].prerequisites.value, x <- q ::
          x in db.courses ==> rank[x] < rank[code])
  }

  /** A course of the registry, as the builders receive it. */
  predicate Registered(db: CourseDb, c: Course) {
    c.code in db.courses && db.courses[c.code] == c
  }
}
