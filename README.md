# Coursion backend: enrollment store and admission rule

This project models the core of the Coursion course-enrollment backend
(`index.js`), a single Express server in front of a document database and
an external identity provider.

- **Enrollments** (`enrollments.dfy`). The enrollment collection is a
  sequence of `{email, courseId, enrolledAt}` records in insertion order. The
  queries the handlers send are `countDocuments`, `findOne` and `deleteOne`
  by email, by course id or by the pair. They are modelled once, as `Query`
  with `Count` and `FindFirst`. `Admission` is the admission rule of
  `POST /enrollments`. Its checks run in a fixed order: duplicate pair, then
  the 3-course limit per user, then the course id conversion, then the seat
  check. The first check that fails decides the outcome. `Consistent` states
  the three invariants the code keeps. The first is one record per email
  and course id spelling. The second is at most 3 records per email. The
  third is that no course is above its seat limit under any one spelling
  of its id. Lemmas prove that admitted enrollments and removals keep these
  invariants when requests run one after another.
- **Courses** (`courses.dfy`). A course is a field map stored under its
  object id. This file holds the object id conversion (`new ObjectId(…)`),
  the seat limit the comparison `enrolled >= course.totalSeats` enforces,
  the `$set` merge of a course update (with `_id` removed) and the owner
  filter of the course list.
- **Auth** (`auth.dfy`). It parses the `Authorization: Bearer <token>`
  header, models the token guard of protected routes, the `/jwt` session
  route and the path-email check of `/enrollments/byUser/:email`, and chooses
  the owner filter for `GET /courses`. The identity provider's
  `verifyIdToken` is a parameter: a function from a token to its claims, or
  None when the token is rejected.
- **Store** (`store.dfy`). The class `Database` holds the course map and
  the enrollment sequence. Its methods are the handlers that change them:
  fetch, update and delete a course, and enroll and unenroll. Each method
  states its complete new state. Each is tied to the specification
  functions above, and states that it keeps `Consistent` where that holds.

Model choices that follow the code:

- The `email` and `courseId` of `POST /enrollments` are not validated.
  Each is an `Option<string>`. An absent field is stored and queried as
  null, and null matches a stored null. An absent `courseId` makes the
  driver generate a fresh object id, so the course lookup fails and the
  answer is "No seats left for this course.".
- A missing `totalSeats` means no limit, because `n >= undefined` is false.
  A null `totalSeats` is compared as 0.
- A malformed course id in `POST /enrollments` throws outside any `try`
  block. It is the separate outcome `InvalidCourseId`. Under Express 4 no
  response is sent for it. In the course handlers the same error is caught
  and answered with 500.
- A course id is looked up through the object id it denotes. The driver
  reads hex digits of either case as the same bytes, so courses are stored
  under the lower-case spelling. The duplicate check and the seat count
  compare the course id as the exact string the request sent. Two
  spellings of one id that differ in case are therefore counted apart.
  `CaseVariantsEscapeLimits` and `CaseVariantExists` show it. With requests sent one
  at a time, a user is enrolled twice in one course, and a full one-seat
  course takes a second user.
- The model assumes Express 4 and a MongoDB driver built on bson 5 or
  later. The source does not name either version. Two behaviours depend on
  them: what a malformed id does in `POST /enrollments`, and which strings
  count as object ids.

## Model

| member | source | states |
|---|---|---|
| `Auth.FirstSegment` | index.js:46 | the second segment of `split(" ")` is a space-free prefix of the text after "Bearer ", ending at the next space or at the end |
| `Auth.FirstSegmentOf` | index.js:46 | splitting a space-free token followed by a space or by nothing returns exactly that token |
| `Auth.BearerToken` | index.js:42-46 | a token exists iff the header is present and starts with "Bearer "; it is the text after the prefix up to the next space, and contains no space |
| `Auth.BearerTokenOf` | index.js:42-46 | round trip: the header "Bearer " + token (+ a space-led tail) parses back to that token |
| `Auth.Guard` | index.js:39-55 | 401 when the header has no bearer token or the token does not verify; otherwise the request goes on with exactly the verified claims |
| `Auth.ByUserAccess` | index.js:253-261 | 401 iff the guard rejects; access is granted iff the bearer token verifies to exactly the email in the path; otherwise 403, including when the claim has no email |
| `Auth.IssueSession` | index.js:79-115 | 400 iff the email or the token is absent or empty; 401 "Invalid Firebase token" iff the token does not verify; a session is issued iff the verified email equals the submitted one, and it is for that email |
| `Auth.CourseOwnerFilter` | index.js:137-153 | the list is filtered by owner only when the bearer token verifies to a non-empty email, and then by that email; a bad or missing token gives the unfiltered list |
| `Courses.ObjectIdKey` | index.js:294-296 | a 24-hex-digit string denotes the id spelled with its digits in lower case; spellings that differ only in case denote the same id, and a lower-case spelling denotes itself |
| `Courses.ParseObjectId` | index.js:294-296 | an absent id yields a generated id; exactly the 24-hex-digit strings parse, to the id they denote; anything else is malformed |
| `Courses.SeatCap` | index.js:298 | a missing `totalSeats` imposes no limit, a null one a limit of 0, a number its own value |
| `Courses.Merge` | index.js:183-193 | an update overwrites every supplied field except `_id`, keeps every other field, and adds no other field |
| `Courses.MergeKeepsSeatCap` | index.js:185-193 | an update that does not supply `totalSeats` leaves the seat limit unchanged |
| `Courses.SelectCourses` | index.js:152-155 | with no owner filter, every course; with one, exactly the courses whose `email` field is that owner, each unchanged |
| `Enrollments.Count` | index.js:282-293 | a count is at most the number of records, and is 0 iff no record matches the query |
| `Enrollments.FindFirst` | index.js:273-279 | the found index holds a matching record and no earlier record matches; nothing is found iff no record matches |
| `Enrollments.OfUser` | index.js:263-266 | the per-user list holds every record with that email as often as it is stored, and no other record |
| `Enrollments.CountAppend` | index.js:304-308 | appending a record raises exactly the counts of the queries it matches, by one |
| `Enrollments.CountRemoveAt` | index.js:317-320 | removing one record lowers exactly the counts of the queries it matches, by one |
| `Enrollments.Admission` | index.js:270-302 | "Already enrolled" iff the pair exists with this exact course id spelling; otherwise the 3-course limit iff the user holds 3 or more; otherwise a malformed id throws; a record is inserted iff all checks pass and the course the id denotes exists with a free seat, counting records under this spelling; "No seats left" in every remaining case |
| `Enrollments.UserAtLimitRefused` | index.js:282-288 | a user holding 3 enrollments gets a 400 refusal whatever the course's capacity |
| `Enrollments.FullCourseRefused` | index.js:291-302 | a course whose enrollments under the request's spelling have reached `totalSeats` admits nobody new, with a 400 |
| `Enrollments.EnrollKeepsConsistent` | index.js:270-311 | appending an admitted enrollment keeps unique pairs, the per-user limit and every course's seat limit under each spelling |
| `Enrollments.RemoveKeepsConsistent` | index.js:313-326 | removing one enrollment keeps all three invariants |
| `Enrollments.DeleteCourseKeepsConsistent` | index.js:206-216 | deleting a course keeps all three invariants |
| `Enrollments.UpdateCourseKeepsConsistent` | index.js:183-199 | a course update keeps the invariants when it does not supply `totalSeats` or the course's enrollments fit the new limit |
| `Enrollments.UpdateCanOverfillCourse` | index.js:183-199 | for any course, an update that lowers `totalSeats` from 2 to 1 while two users hold seats breaks the seat invariant |
| `Enrollments.CaseVariantsEscapeLimits` | index.js:273-302 | for any stored course key and a differently-cased spelling of it: from a consistent state with one seat taken, that spelling passes every check, so the same user is admitted to the course again and a second user is admitted to the full one-seat course |
| `Enrollments.CaseVariantExists` | index.js:294-296 | such a pair exists: 24 `A`s is a valid object id whose key is 24 `a`s |
| `Store.Database.constructor` | index.js:68-73 | the store starts with the given course and enrollment collections |
| `Store.Database.FindCourse` | index.js:162-175 | 500 iff the id is not an object id; 404 iff no course has the id it denotes; otherwise exactly the stored course |
| `Store.Database.UpdateCourse` | index.js:183-204 | 500 for a malformed id, 404 for an unknown one, and then nothing changes; otherwise only that course changes, to the merge of its fields with the body; enrollments untouched; the invariants are kept when the new limit fits |
| `Store.Database.DeleteCourse` | index.js:206-220 | 500 for a malformed id, 404 for an unknown one, and then nothing changes; otherwise exactly that course is removed; enrollments untouched; the invariants are kept |
| `Store.Database.Enroll` | index.js:270-311 | the outcome is the admission rule's; a refusal changes nothing; an admission appends exactly one record with the given email, course id and time; courses never change; the invariants are kept |
| `Store.Database.Unenroll` | index.js:313-331 | 404 and no change iff no record has the pair; otherwise exactly the first matching record is removed, the others keep their order; courses never change; the invariants are kept |

## Left out

- Concurrency: requests are applied one at a time. The real handler's count-then-insert sequence can also race and exceed the limits. The invariants are proved only for sequential execution.
- Even for requests sent one at a time, the service does not keep one record per user and course, and does not keep a course's seat limit, once course ids differ in case. The model does not refuse such requests either: it admits them as the code does (`CaseVariantsEscapeLimits`). What it proves is the per-spelling form of both invariants.
- Express, CORS, JSON and cookie parsing, the port and the start-up code (index.js:1-37, 357-364), and console logging: framework plumbing.
- Firebase `verifyIdToken` is the `Verifier` parameter. Its signature and expiry checks are not modelled. `jwt.sign` and the `token` cookie of `/jwt` are not modelled either: `IssueSession` only says for which email a session is issued.
- Database and driver failures: the `catch` branches that answer 500 for anything other than a malformed id are not modelled. The model's database never fails.
- The users, banners and reviews routes, `POST /courses`, `GET /enrollments` and `GET /enrollments/count/:courseId` are left out. They are single inserts or reads with no decision logic. The store's initial collections come from the constructor instead.
- `new Date()` is the `now` parameter of `Enroll`.
- A generated id is assumed to name no stored course.
- Older drivers (bson 4) also accept any 12-character string as an object id. The model follows bson 5 and later, where only 24 hex digits are accepted.
- What follows the unhandled rejection of a malformed course id in `POST /enrollments` is not modelled. Under Express 4 the request gets no response, or the process exits, depending on the Node version. Express 5 would answer 500 instead.
- Field values are null, integers and strings only. Fractional numbers, booleans, arrays, nested documents and dotted `$set` paths are not modelled.
- Courses.SeatCap: a `totalSeats` stored as a string is treated as no limit. JavaScript would compare a numeric string as a number.
- `findOne` and `deleteOne` act on the first match in insertion order. The database promises no order, but under the unique-pair invariant at most one record matches.
- Enrollments.OfUser: the contract pins which records are listed and how often, but not that they keep their stored order.
- Response bodies on success are not modelled: the driver's insert and delete results, and the `_id` inside a returned course.
