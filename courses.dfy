/**
 * Course documents as the course collection stores them: a map from
 * field name to value, keyed in the collection by the course's object
 * id. This module holds the pure parts of the course handlers: turning a
 * path or body string into an object id, the seat limit that the
 * enrollment check reads, the field merge of a course update and the
 * owner filter of the course list.
 */
module Courses {
  import opened Wrappers

  /** The JSON scalars a course field may hold. */
  datatype Value = Null | Num(n: int) | Text(s: string)

  /** A course document without its `_id`, which is the key it is stored under. */
  type Document = map<string, Value>

  /** A course's object id in its stored form: 24 lower-case hexadecimal digits. */
  type CourseId = string

  const IdField: string := "_id"
  const SeatsField: string := "totalSeats"
  const OwnerField: string := "email"

  predicate IsHexDigit(c: char)
  {
    '0' <= c <= '9' || 'a' <= c <= 'f' || 'A' <= c <= 'F'
  }

  /**
   * The strings the object id constructor of the database driver accepts
   * (bson 5 and later): exactly 24 hexadecimal digits, of either case.
   */
  predicate IsObjectIdHex(s: string)
  {
    |s| == 24 && forall i | 0 <= i < |s| :: IsHexDigit(s[i])
  }

  /** A hexadecimal digit in lower case; every other character is left as it is. */
  function LowerHex(c: char): (d: char)
    ensures IsHexDigit(c) ==> IsHexDigit(d) && !('A' <= d <= 'F')
    ensures !('A' <= c <= 'F') ==> d == c
  {
    if 'A' <= c <= 'F' then (c as int - 'A' as int + 'a' as int) as char else c
  }

  /** The stored form of an object id: 24 hexadecimal digits in lower case. */
  predicate IsCourseKey(s: string)
  {
    IsObjectIdHex(s) && forall i | 0 <= i < |s| :: !('A' <= s[i] <= 'F')
  }

  /**
   * The object id a 24-hex-digit string denotes. The driver reads the
   * digits as bytes, so two spellings that differ only in case denote
   * the same id; its stored form is the lower-case spelling.
   */
  function ObjectIdKey(s: string): (key: CourseId)
    requires IsObjectIdHex(s)
    ensures IsCourseKey(key)
    ensures |key| == |s| && forall i | 0 <= i < |s| :: key[i] == LowerHex(s[i])
    ensures IsCourseKey(s) ==> key == s
  {
    seq(|s|, i requires 0 <= i < |s| => LowerHex(s[i]))
  }

  /**
   * What `new ObjectId(raw)` does: an absent value makes the driver
   * generate a fresh id (which names no stored course), a 24-hex-digit
   * string is parsed, and anything else throws.
   */
  datatype ObjectIdParse = Parsed(key: CourseId) | Generated | Malformed

  function ParseObjectId(raw: Option<string>): (p: ObjectIdParse)
    ensures p.Generated? <==> raw.None?
    ensures p.Malformed? <==> raw.Some? && !IsObjectIdHex(raw.value)
    ensures p.Parsed? ==> raw.Some? && IsObjectIdHex(raw.value) && p.key == ObjectIdKey(raw.value)
  {
    match raw
    case None => Generated
    case Some(s) => if IsObjectIdHex(s) then Parsed(ObjectIdKey(s)) else Malformed
  }

  /**
   * The limit that `enrolled >= course.totalSeats` enforces, for a whole
   * number of enrollments. A missing field compares as undefined, which
   * is never exceeded (None: no limit); null compares as 0; a number is
   * the limit itself. A string field is treated as no limit.
   */
  function SeatCap(course: Document): (cap: Option<int>)
    ensures SeatsField !in course ==> cap.None?
    ensures SeatsField in course && course[SeatsField].Num? ==> cap == Some(course[SeatsField].n)
    ensures SeatsField in course && course[SeatsField].Null? ==> cap == Some(0)
  {
    if SeatsField !in course then None
    else match course[SeatsField]
      case Num(n) => Some(n)
      case Null => Some(0)
      case Text(_) => None
  }

  /** True when a course with `enrolled` enrollments can take one more. */
  predicate HasSeat(course: Document, enrolled: nat)
  {
    match SeatCap(course)
    case None => true
    case Some(cap) => enrolled < cap
  }

  /**
   * The course update: the body's `_id` is dropped, every other field of
   * the body is written over the course and the course's other fields
   * are kept.
   */
  function Merge(course: Document, body: Document): (r: Document)
    ensures r.Keys == course.Keys + (body.Keys - {IdField})
    ensures forall f | f in body && f != IdField :: r[f] == body[f]
    ensures forall f | f in course && (f !in body || f == IdField) :: r[f] == course[f]
  {
    course + (body - {IdField})
  }

  /** An update that does not supply `totalSeats` leaves the seat limit as it was. */
  lemma MergeKeepsSeatCap(course: Document, body: Document)
    requires SeatsField !in body
    ensures SeatCap(Merge(course, body)) == SeatCap(course)
  {
  }

  predicate OwnedBy(course: Document, email: string)
  {
    OwnerField in course && course[OwnerField] == Text(email)
  }

  /**
   * The course list: every course when there is no owner filter,
   * otherwise exactly the courses whose owner field is the given email,
   * each unchanged.
   */
  function SelectCourses(courses: map<CourseId, Document>, owner: Option<string>): (r: map<CourseId, Document>)
    ensures owner.None? ==> r == courses
    ensures forall id :: id in r <==> id in courses && (owner.None? || OwnedBy(courses[id], owner.value))
    ensures forall id | id in r :: r[id] == courses[id]
  {
    match owner
    case None => courses
    case Some(email) => map id | id in courses && OwnedBy(courses[id], email) :: courses[id]
  }
}
