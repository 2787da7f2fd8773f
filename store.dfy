/**
 * The course and enrollment handlers as operations on the two
 * collections they read and change. Requests are applied one at a time.
 */
module Store {
  import opened Wrappers
  import opened Courses
  import opened Enrollments

  /** The outcome of fetching one course. */
  datatype Lookup = Found(course: Document) | CourseNotFound | InvalidId
  {
    function Status(): nat
    {
      match this
      case Found(_) => 200
      case CourseNotFound => 404
      case InvalidId => 500
    }

    function Message(): string
    {
      match this
      case Found(_) => ""
      case CourseNotFound => "Course not found"
      case InvalidId => "Invalid ID format or server error"
    }
  }

  /** The outcome of updating or deleting one course. */
  datatype CourseChange = Changed | NoSuchCourse | BadCourseId
  {
    function Status(): nat
    {
      match this
      case Changed => 200
      case NoSuchCourse => 404
      case BadCourseId => 500
    }
  }

  /** The outcome of removing one enrollment. */
  datatype Removal = Removed | NotEnrolled
  {
    function Status(): nat
    {
      if Removed? then 200 else 404
    }

    function Message(): string
    {
      if Removed? then "Enrollment removed successfully" else "Enrollment not found"
    }
  }

  class Database {
    /** The course collection, by object id in its stored, lower-case form. */
    var courses: map<CourseId, Document>
    /** The enrollment collection, in insertion order. */
    var enrollments: seq<Enrollment>

    /** The collections as found at start-up. */
    constructor (courses: map<CourseId, Document>, enrollments: seq<Enrollment>)
      ensures this.courses == courses && this.enrollments == enrollments
    {
      this.courses := courses;
      this.enrollments := enrollments;
    }

    /**
     * Fetch a course by the id in the path: 500 when the id is not an
     * object id, 404 when no course has the id it denotes, otherwise that
     * course.
     */
    method FindCourse(id: string) returns (r: Lookup)
      ensures r == InvalidId <==> !IsObjectIdHex(id)
      ensures r == CourseNotFound <==> IsObjectIdHex(id) && ObjectIdKey(id) !in courses
      ensures r.Found? ==> IsObjectIdHex(id) && ObjectIdKey(id) in courses && r.course == courses[ObjectIdKey(id)]
    {
      match ParseObjectId(Some(id))
      case Parsed(key) =>
        if key in courses {
          r := Found(courses[key]);
        } else {
          r := CourseNotFound;
        }
      case _ =>
        r := InvalidId;
    }

    /**
     * Update a course: the body's `_id` is dropped before anything else;
     * a malformed id fails (500), an unknown one matches nothing (404) and
     * changes nothing; otherwise the course's supplied fields are
     * overwritten and its other fields kept.
     */
    method UpdateCourse(id: string, body: Document) returns (o: CourseChange)
      modifies this
      ensures enrollments == old(enrollments)
      ensures o == BadCourseId <==> !IsObjectIdHex(id)
      ensures o == NoSuchCourse <==> IsObjectIdHex(id) && ObjectIdKey(id) !in old(courses)
      ensures o != Changed ==> courses == old(courses)
      ensures o == Changed ==>
                var key := ObjectIdKey(id);
                courses == old(courses)[key := Merge(old(courses)[key], body)]
      ensures o == Changed && old(Consistent(enrollments, courses)) &&
              (SeatsField !in body ||
               SpellingsFit(enrollments, ObjectIdKey(id), SeatCap(courses[ObjectIdKey(id)]))) ==>
                Consistent(enrollments, courses)
    {
      var patch := body - {IdField};
      match ParseObjectId(Some(id))
      case Parsed(key) =>
        if key in courses {
          ghost var before := courses;
          courses := courses[key := courses[key] + patch];
          assert courses[key] == Merge(before[key], body);
          if Consistent(enrollments, before) &&
             (SeatsField !in body || SpellingsFit(enrollments, key, SeatCap(courses[key]))) {
            UpdateCourseKeepsConsistent(enrollments, before, key, body);
          }
          o := Changed;
        } else {
          o := NoSuchCourse;
        }
      case _ =>
        o := BadCourseId;
    }

    /**
     * Delete a course: a malformed id fails (500), an unknown one deletes
     * nothing (404); otherwise exactly that course is removed. Enrollments
     * naming it are left in place.
     */
    method DeleteCourse(id: string) returns (o: CourseChange)
      modifies this
      ensures enrollments == old(enrollments)
      ensures o == BadCourseId <==> !IsObjectIdHex(id)
      ensures o == NoSuchCourse <==> IsObjectIdHex(id) && ObjectIdKey(id) !in old(courses)
      ensures o != Changed ==> courses == old(courses)
      ensures o == Changed ==> ObjectIdKey(id) in old(courses) && courses == old(courses) - {ObjectIdKey(id)}
      ensures old(Consistent(enrollments, courses)) ==> Consistent(enrollments, courses)
    {
      match ParseObjectId(Some(id))
      case Parsed(key) =>
        if key in courses {
          if Consistent(enrollments, courses) {
            DeleteCourseKeepsConsistent(enrollments, courses, key);
          }
          courses := courses - {key};
          o := Changed;
        } else {
          o := NoSuchCourse;
        }
      case _ =>
        o := BadCourseId;
    }

    /**
     * Enroll `email` in `courseId`, both taken unchecked from the request
     * body: refuse a duplicate pair, then a user at the limit, then a
     * malformed course id, then a missing or full course; otherwise append
     * one record stamped `now`. Nothing else changes. The body follows the
     * handler's own sequence of reads and early returns; `Admission` is
     * the same rule as one expression, and the first postcondition ties
     * the two together.
     */
    method Enroll(email: Option<string>, courseId: Option<string>, now: Timestamp) returns (o: EnrollOutcome)
      modifies this
      ensures o == Admission(old(enrollments), old(courses), email, courseId)
      ensures courses == old(courses)
      ensures o == Inserted ==>
                courseId.Some? && enrollments == old(enrollments) + [Enrollment(email, courseId.value, now)]
      ensures o != Inserted ==> enrollments == old(enrollments)
      ensures old(Consistent(enrollments, courses)) ==> Consistent(enrollments, courses)
    {
      var existing := FindFirst(enrollments, ByPair(email, courseId));
      if existing.Some? {
        return AlreadyEnrolled;
      }
      var userEnrollments := Count(enrollments, ByEmail(email));
      if userEnrollments >= MaxCoursesPerUser {
        return UserLimitReached;
      }
      var totalEnrolled := Count(enrollments, ByCourse(courseId));
      var key: CourseId;
      // new ObjectId(courseId): the course is looked up by the id the spelling denotes
      match ParseObjectId(courseId) {
        case Malformed =>
          return InvalidCourseId;
        case Generated =>
          return NoSeatsLeft;
        case Parsed(k) =>
          key := k;
      }
      if key !in courses || !HasSeat(courses[key], totalEnrolled) {
        return NoSeatsLeft;
      }
      if Consistent(enrollments, courses) {
        EnrollKeepsConsistent(enrollments, courses, email, courseId.value, now);
      }
      enrollments := enrollments + [Enrollment(email, courseId.value, now)];
      return Inserted;
    }

    /**
     * Remove the enrollment of `email` in `courseId` (both from the path):
     * 404 and no change when none matches; otherwise exactly the first
     * matching record is removed and the others keep their order.
     */
    method Unenroll(email: string, courseId: string) returns (o: Removal)
      modifies this
      ensures courses == old(courses)
      ensures o == NotEnrolled <==> Count(old(enrollments), ByPair(Some(email), Some(courseId))) == 0
      ensures o == NotEnrolled ==> enrollments == old(enrollments)
      ensures o == Removed ==>
                var i := FindFirst(old(enrollments), ByPair(Some(email), Some(courseId))).value;
                enrollments == old(enrollments)[..i] + old(enrollments)[i + 1..]
      ensures old(Consistent(enrollments, courses)) ==> Consistent(enrollments, courses)
    {
      var found := FindFirst(enrollments, ByPair(Some(email), Some(courseId)));
      if found.None? {
        return NotEnrolled;
      }
      var i := found.value;
      if Consistent(enrollments, courses) {
        RemoveKeepsConsistent(enrollments, courses, i);
      }
      enrollments := enrollments[..i] + enrollments[i + 1..];
      return Removed;
    }
  }
}
