/**
 * The stored records of lib/models/content.ts and lib/models/User.ts.
 * Dates are integer milliseconds since the epoch; a day is taken to be
 * exactly 24 hours (no daylight-saving change, no time zone offset).
 */
module Models {
  import opened Wrappers

  type Id = string
  type UserId = string

  const HourMs: int := 60 * 60 * 1000
  const DayMs: int := 24 * HourMs

  /** Midnight at the start of the day holding `t` (`setHours(0, 0, 0, 0)`). */
  function StartOfDay(t: int): (d: int)
    ensures d <= t < d + DayMs
    ensures d % DayMs == 0
  {
    t - t % DayMs
  }

  /** A subject as stored in the caller's subject list. */
  datatype Subject = Subject(id: string, name: string, color: string, createdAt: int)

  /** A document of the `contents` collection. `difficulty` holds whatever the
      last review request sent. */
  datatype ContentDocument = ContentDocument(
    userId: UserId,
    title: Option<string>,
    content: string,
    subject: Subject,
    tags: seq<string>,
    images: seq<string>,
    createdAt: int,
    updatedAt: int,
    nextReviewDate: Option<int>,
    reviewCount: nat,
    difficulty: Option<string>,
    estimatedTime: Option<string>,
    isActive: bool)

  /** A document together with its `_id`, as a query returns it. */
  datatype Entry = Entry(id: Id, doc: ContentDocument)

  /** The sort key of `.sort({ createdAt: -1 })`. */
  function CreatedAt(e: Entry): int {
    e.doc.createdAt
  }

  /** The record of the `user_subjects` collection. */
  datatype UserSubjects = UserSubjects(subjects: seq<Subject>, createdAt: int, updatedAt: int)
}
