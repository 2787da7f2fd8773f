/**
 * The enrollment collection and its admission rule. Records are kept in
 * insertion order; the queries the handlers send (by email, by course
 * id, by the pair) are modelled once, as `Query`, with the matching,
 * counting and first-match search the database performs for them.
 */
module Enrollments {
  import opened Wrappers
  import opened Courses

  /** The most enrollments one email may hold. */
  const MaxCoursesPerUser: nat := 3

  /** The server clock's value at insertion; supplied by the caller. */
  type Timestamp = nat

  /**
   * One stored enrollment. An email absent from the request is stored as
   * null (None). The course id is kept as the request spelled it; it is
   * always present, because an absent one never finds a course and so is
   * never inserted.
   */
  datatype Enrollment = Enrollment(email: Option<string>, courseId: string, enrolledAt: Timestamp)

  /**
   * A query document on the enrollment collection. An absent request
   * field becomes null in the query, and null matches a stored null.
   */
  datatype Query =
    | ByEmail(email: Option<string>)
    | ByCourse(courseId: Option<string>)
    | ByPair(email: Option<string>, courseId: Option<string>)

  predicate Selects(q: Query, r: Enrollment)
  {
    match q
    case ByEmail(e) => r.email == e
    case ByCourse(c) => Some(r.courseId) == c
    case ByPair(e, c) => r.email == e && Some(r.courseId) == c
  }

  /** `countDocuments(q)`: the number of records the query matches. */
  function Count(rs: seq<Enrollment>, q: Query): (n: nat)
    ensures n <= |rs|
    ensures n == 0 <==> forall j | 0 <= j < |rs| :: !Selects(q, rs[j])
  {
    if rs == [] then 0
    else
      assert forall j | 1 <= j < |rs| :: rs[j] == rs[1..][j - 1];
      (if Selects(q, rs[0]) then 1 else 0) + Count(rs[1..], q)
  }

  /** `findOne(q)` and the target of `deleteOne(q)`: the first matching record's index. */
  function FindFirst(rs: seq<Enrollment>, q: Query): (i: Option<nat>)
    ensures i.Some? ==> i.value < |rs| && Selects(q, rs[i.value])
    ensures i.Some? ==> forall j | 0 <= j < i.value :: !Selects(q, rs[j])
    ensures i.None? <==> forall j | 0 <= j < |rs| :: !Selects(q, rs[j])
  {
    if rs == [] then None
    else if Selects(q, rs[0]) then Some(0)
    else
      assert forall j | 1 <= j < |rs| :: rs[j] == rs[1..][j - 1];
      match FindFirst(rs[1..], q)
      case None => None
      case Some(k) => Some(k + 1)
  }

  /**
   * The records of one user: what the per-user listing returns. Each
   * record with that email occurs as often as it is stored, and no other
   * record occurs.
   */
  function OfUser(rs: seq<Enrollment>, email: string): (r: seq<Enrollment>)
    ensures |r| == Count(rs, ByEmail(Some(email)))
    ensures forall x :: multiset(r)[x] == if x.email == Some(email) then multiset(rs)[x] else 0
    ensures forall x :: x in r <==> x in rs && x.email == Some(email)
  {
    if rs == [] then []
    else
      var tail := OfUser(rs[1..], email);
      assert rs == [rs[0]] + rs[1..];
      assert forall x :: x in rs <==> x == rs[0] || x in rs[1..];
      if rs[0].email == Some(email) then [rs[0]] + tail else tail
  }

  lemma {:induction false} CountAppend(rs: seq<Enrollment>, x: Enrollment, q: Query)
    ensures Count(rs + [x], q) == Count(rs, q) + (if Selects(q, x) then 1 else 0)
  {
    if rs == [] {
      assert [] + [x] == [x];
    } else {
      assert (rs + [x])[1..] == rs[1..] + [x];
      CountAppend(rs[1..], x, q);
    }
  }

  /** Removing the record at index i lowers each count by one exactly when the query matches it. */
  lemma {:induction false} CountRemoveAt(rs: seq<Enrollment>, i: nat, q: Query)
    requires i < |rs|
    ensures Count(rs[..i] + rs[i + 1..], q) + (if Selects(q, rs[i]) then 1 else 0) == Count(rs, q)
  {
    if i == 0 {
      assert rs[..0] + rs[1..] == rs[1..];
    } else {
      var rest := rs[..i] + rs[i + 1..];
      assert rest[0] == rs[0];
      assert rest[1..] == rs[1..][..i - 1] + rs[1..][i..];
      CountRemoveAt(rs[1..], i - 1, q);
    }
  }

  /** The outcome of an enrollment request. */
  datatype EnrollOutcome = Inserted | AlreadyEnrolled | UserLimitReached | NoSeatsLeft | InvalidCourseId
  {
    /**
     * The response status. A malformed course id makes the handler throw
     * outside any try block; under Express 4 the rejection is never turned
     * into a response (None).
     */
    function Status(): Option<nat>
    {
      match this
      case Inserted => Some(200)
      case AlreadyEnrolled => Some(400)
      case UserLimitReached => Some(400)
      case NoSeatsLeft => Some(400)
      case InvalidCourseId => None
    }

    function Message(): string
    {
      match this
      case Inserted => ""
      case AlreadyEnrolled => "Already enrolled"
      case UserLimitReached => "You can enroll in maximum 3 courses."
      case NoSeatsLeft => "No seats left for this course."
      case InvalidCourseId => ""
    }
  }

  /** The course named by the request exists and has room for one more enrollment. */
  /**
   * The course is looked up by the object id the request's spelling
   * denotes, while its enrollments are counted by that exact spelling.
   */
  predicate SeatAvailable(rs: seq<Enrollment>, courses: map<CourseId, Document>, courseId: Option<string>)
  {
    var p := ParseObjectId(courseId);
    p.Parsed? && p.key in courses && HasSeat(courses[p.key], Count(rs, ByCourse(courseId)))
  }

  /**
   * The admission rule: the duplicate check, then the per-user limit,
   * then the object id conversion and the seat check; the first check
   * that fails decides the outcome.
   */
  function Admission(rs: seq<Enrollment>, courses: map<CourseId, Document>,
                     email: Option<string>, courseId: Option<string>): (o: EnrollOutcome)
    ensures o == AlreadyEnrolled <==> Count(rs, ByPair(email, courseId)) > 0
    ensures o == UserLimitReached <==>
              Count(rs, ByPair(email, courseId)) == 0 && Count(rs, ByEmail(email)) >= MaxCoursesPerUser
    ensures o == InvalidCourseId <==>
              Count(rs, ByPair(email, courseId)) == 0 && Count(rs, ByEmail(email)) < MaxCoursesPerUser &&
              courseId.Some? && !IsObjectIdHex(courseId.value)
    ensures o == Inserted <==>
              Count(rs, ByPair(email, courseId)) == 0 && Count(rs, ByEmail(email)) < MaxCoursesPerUser &&
              SeatAvailable(rs, courses, courseId)
  {
    if FindFirst(rs, ByPair(email, courseId)).Some? then AlreadyEnrolled
    else if Count(rs, ByEmail(email)) >= MaxCoursesPerUser then UserLimitReached
    else
      var enrolled := Count(rs, ByCourse(courseId));
      match ParseObjectId(courseId)
      case Malformed => InvalidCourseId
      case Generated => NoSeatsLeft
      case Parsed(key) => if key in courses && HasSeat(courses[key], enrolled) then Inserted else NoSeatsLeft
  }

  /** A user who already holds the maximum is refused whatever the course's capacity. */
  lemma UserAtLimitRefused(rs: seq<Enrollment>, courses: map<CourseId, Document>,
                           email: Option<string>, courseId: Option<string>)
    requires Count(rs, ByEmail(email)) >= MaxCoursesPerUser
    ensures Admission(rs, courses, email, courseId) in {AlreadyEnrolled, UserLimitReached}
    ensures Admission(rs, courses, email, courseId).Status() == Some(400)
  {
  }

  /**
   * A course whose enrollments under the request's spelling have reached
   * its seat limit admits nobody new; the refusal is a 400.
   */
  lemma FullCourseRefused(rs: seq<Enrollment>, courses: map<CourseId, Document>,
                          email: Option<string>, courseId: string)
    requires IsObjectIdHex(courseId)
    requires ObjectIdKey(courseId) in courses && SeatCap(courses[ObjectIdKey(courseId)]).Some?
    requires Count(rs, ByCourse(Some(courseId))) >= SeatCap(courses[ObjectIdKey(courseId)]).value
    ensures Admission(rs, courses, email, Some(courseId)) != Inserted
    ensures Admission(rs, courses, email, Some(courseId)).Status() == Some(400)
  {
  }

  /** A limit that `n` enrollments respect; a limit of zero or less admits nobody. */
  predicate Fits(n: nat, cap: Option<int>)
  {
    cap.None? || n == 0 || n <= cap.value
  }

  /** At most one record per (email, course id spelling) pair. */
  ghost predicate UniquePairs(rs: seq<Enrollment>)
  {
    forall i, j | 0 <= i < j < |rs| :: rs[i].email != rs[j].email || rs[i].courseId != rs[j].courseId
  }

  /** At most `MaxCoursesPerUser` records per email. */
  ghost predicate WithinUserLimit(rs: seq<Enrollment>)
  {
    forall e :: Count(rs, ByEmail(e)) <= MaxCoursesPerUser
  }

  /** Under every spelling of the object id `key`, the records fit the limit `cap`. */
  ghost predicate SpellingsFit(rs: seq<Enrollment>, key: CourseId, cap: Option<int>)
  {
    forall s | IsObjectIdHex(s) && ObjectIdKey(s) == key :: Fits(Count(rs, ByCourse(Some(s))), cap)
  }

  /**
   * No stored course has more records than its seat limit under any one
   * spelling of its id: the seat check counts by the exact spelling.
   */
  ghost predicate WithinSeats(rs: seq<Enrollment>, courses: map<CourseId, Document>)
  {
    forall key | key in courses :: SpellingsFit(rs, key, SeatCap(courses[key]))
  }

  /** The three invariants the admission rule is meant to keep. */
  ghost predicate Consistent(rs: seq<Enrollment>, courses: map<CourseId, Document>)
  {
    UniquePairs(rs) && WithinUserLimit(rs) && WithinSeats(rs, courses)
  }

  /** An admitted enrollment, appended to a consistent collection, keeps it consistent. */
  lemma EnrollKeepsConsistent(rs: seq<Enrollment>, courses: map<CourseId, Document>,
                              email: Option<string>, courseId: string, now: Timestamp)
    requires Consistent(rs, courses)
    requires Admission(rs, courses, email, Some(courseId)) == Inserted
    ensures Consistent(rs + [Enrollment(email, courseId, now)], courses)
  {
    var x := Enrollment(email, courseId, now);
    var rs' := rs + [x];
    assert Count(rs, ByPair(email, Some(courseId))) == 0;
    forall i, j | 0 <= i < j < |rs'|
      ensures rs'[i].email != rs'[j].email || rs'[i].courseId != rs'[j].courseId
    {
      if j == |rs| {
        assert !Selects(ByPair(email, Some(courseId)), rs[i]);
      }
    }
    forall e
      ensures Count(rs', ByEmail(e)) <= MaxCoursesPerUser
    {
      CountAppend(rs, x, ByEmail(e));
    }
    forall key | key in courses
      ensures SpellingsFit(rs', key, SeatCap(courses[key]))
    {
      forall s | IsObjectIdHex(s) && ObjectIdKey(s) == key
        ensures Fits(Count(rs', ByCourse(Some(s))), SeatCap(courses[key]))
      {
        CountAppend(rs, x, ByCourse(Some(s)));
      }
    }
  }

  /** Removing any one record keeps a consistent collection consistent. */
  lemma RemoveKeepsConsistent(rs: seq<Enrollment>, courses: map<CourseId, Document>, i: nat)
    requires Consistent(rs, courses)
    requires i < |rs|
    ensures Consistent(rs[..i] + rs[i + 1..], courses)
  {
    var rs' := rs[..i] + rs[i + 1..];
    forall a, b | 0 <= a < b < |rs'|
      ensures rs'[a].email != rs'[b].email || rs'[a].courseId != rs'[b].courseId
    {
      var a0 := if a < i then a else a + 1;
      var b0 := if b < i then b else b + 1;
      assert rs'[a] == rs[a0] && rs'[b] == rs[b0];
    }
    forall e
      ensures Count(rs', ByEmail(e)) <= MaxCoursesPerUser
    {
      CountRemoveAt(rs, i, ByEmail(e));
    }
    forall key | key in courses
      ensures SpellingsFit(rs', key, SeatCap(courses[key]))
    {
      forall s | IsObjectIdHex(s) && ObjectIdKey(s) == key
        ensures Fits(Count(rs', ByCourse(Some(s))), SeatCap(courses[key]))
      {
        CountRemoveAt(rs, i, ByCourse(Some(s)));
      }
    }
  }

  /** Deleting a course only drops a constraint, so consistency is kept. */
  lemma DeleteCourseKeepsConsistent(rs: seq<Enrollment>, courses: map<CourseId, Document>, id: CourseId)
    requires Consistent(rs, courses)
    ensures Consistent(rs, courses - {id})
  {
  }

  /**
   * A course update keeps consistency when the course's current
   * enrollments fit its new seat limit under every spelling, in
   * particular when the update does not supply `totalSeats`.
   */
  lemma UpdateCourseKeepsConsistent(rs: seq<Enrollment>, courses: map<CourseId, Document>,
                                    id: CourseId, body: Document)
    requires Consistent(rs, courses)
    requires id in courses
    requires SeatsField !in body || SpellingsFit(rs, id, SeatCap(Merge(courses[id], body)))
    ensures Consistent(rs, courses[id := Merge(courses[id], body)])
  {
  }

  /**
   * Lowering `totalSeats` below a course's enrollments breaks the seat
   * invariant: a course with two seats, both taken by two users, is
   * updated to one seat.
   */
  lemma UpdateCanOverfillCourse(id: CourseId, a: string, b: string)
    requires IsCourseKey(id) && a != b
    ensures var rs := [Enrollment(Some(a), id, 0), Enrollment(Some(b), id, 0)];
            var courses := map[id := map[SeatsField := Num(2)]];
            Consistent(rs, courses) &&
            !Consistent(rs, courses[id := Merge(courses[id], map[SeatsField := Num(1)])])
  {
    var rs := [Enrollment(Some(a), id, 0), Enrollment(Some(b), id, 0)];
    var courses := map[id := map[SeatsField := Num(2)]];
    var updated := courses[id := Merge(courses[id], map[SeatsField := Num(1)])];
    assert SpellingsFit(rs, id, SeatCap(courses[id])) by {
      forall s | IsObjectIdHex(s) && ObjectIdKey(s) == id
        ensures Fits(Count(rs, ByCourse(Some(s))), Some(2))
      {
      }
    }
    assert Count(rs, ByCourse(Some(id))) == 2 by {
      assert rs[1..] == [rs[1]];
    }
    assert SeatCap(updated[id]) == Some(1);
    assert !SpellingsFit(rs, id, SeatCap(updated[id]));
  }

  /**
   * Two spellings of one object id that differ in case name the same
   * course but are counted apart. So, with requests sent one at a time,
   * a user already enrolled under one spelling is admitted again under
   * the other, and a full one-seat course admits a second user.
   */
  lemma CaseVariantsEscapeLimits(lower: CourseId, upper: string)
    requires IsCourseKey(lower) && IsObjectIdHex(upper)
    requires ObjectIdKey(upper) == lower && upper != lower
    ensures var rs := [Enrollment(Some("a@x"), lower, 0)];
            var courses := map[lower := map[SeatsField := Num(1)]];
            && Consistent(rs, courses)
            && Count(rs, ByCourse(Some(lower))) == 1
            && Admission(rs, courses, Some("a@x"), Some(upper)) == Inserted
            && Admission(rs, courses, Some("b@x"), Some(upper)) == Inserted
  {
  }

  /** Such a pair exists: an id written in upper case and its lower-case form. */
  lemma CaseVariantExists()
    ensures var lower := seq(24, _ => 'a');
            var upper := seq(24, _ => 'A');
            && IsCourseKey(lower) && IsObjectIdHex(upper)
            && ObjectIdKey(upper) == lower && upper != lower
  {
    var lower := seq(24, _ => 'a');
    var upper := seq(24, _ => 'A');
    assert upper[0] != lower[0];
    var key := ObjectIdKey(upper);
    assert key == lower by {
      forall i | 0 <= i < 24
        ensures key[i] == lower[i]
      {
      }
    }
  }
}
