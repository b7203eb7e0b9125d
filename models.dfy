/**
 * The entities of the job marketplace (app/models.py): the one status enum
 * shared by jobs and applications, the job, application, review, skill,
 * experience and user records with their column defaults, the composite key
 * of the accepted_applicants association table, and the User.age property.
 */
module Models {
  import opened Wrappers

  type UserId = int
  type JobId = int
  type ApplicationId = int
  type ReviewId = int

  /**
   * ApplicationStatus. The same six-valued type is the column type of both
   * Job.status and Application.status.
   */
  datatype ApplicationStatus = Open | InProgress | Completed | Canceled | Accepted | Rejected

  /** The value each member is declared with (`ApplicationStatus.X.value`). */
  function StatusValue(s: ApplicationStatus): string
  {
    match s
    case Open => "Open"
    case InProgress => "In Progress"
    case Completed => "Completed"
    case Canceled => "Canceled"
    case Accepted => "Accepted"
    case Rejected => "Rejected"
  }

  /** Looking a member up by its value, as `ApplicationStatus(v)` does. */
  function StatusFromValue(v: string): (r: Option<ApplicationStatus>)
    ensures r.Some? ==> StatusValue(r.value) == v
    ensures r.None? ==> forall s: ApplicationStatus :: StatusValue(s) != v
  {
    if v == "Open" then Some(Open)
    else if v == "In Progress" then Some(InProgress)
    else if v == "Completed" then Some(Completed)
    else if v == "Canceled" then Some(Canceled)
    else if v == "Accepted" then Some(Accepted)
    else if v == "Rejected" then Some(Rejected)
    else None
  }

  /** Every member is recovered from its value. */
  lemma StatusValueRoundTrip(s: ApplicationStatus)
    ensures StatusFromValue(StatusValue(s)) == Some(s)
  {
    match s
    case Open =>
    case InProgress =>
    case Completed =>
    case Canceled =>
    case Accepted =>
    case Rejected =>
  }

  /**
   * The member's name (`ApplicationStatus.X.name`). A `db.Enum` column over
   * the enum class writes this name to the database, not the value.
   */
  function StatusName(s: ApplicationStatus): string
  {
    match s
    case Open => "OPEN"
    case InProgress => "IN_PROGRESS"
    case Completed => "COMPLETED"
    case Canceled => "CANCELED"
    case Accepted => "ACCEPTED"
    case Rejected => "REJECTED"
  }

  /** Looking a member up by its name (`ApplicationStatus[n]`), as a stored column is read back. */
  function StatusFromName(n: string): (r: Option<ApplicationStatus>)
    ensures r.Some? ==> StatusName(r.value) == n
    ensures r.None? ==> forall s: ApplicationStatus :: StatusName(s) != n
  {
    if n == "OPEN" then Some(Open)
    else if n == "IN_PROGRESS" then Some(InProgress)
    else if n == "COMPLETED" then Some(Completed)
    else if n == "CANCELED" then Some(Canceled)
    else if n == "ACCEPTED" then Some(Accepted)
    else if n == "REJECTED" then Some(Rejected)
    else None
  }

  /** A status written to a column reads back as the same member. */
  lemma StatusNameRoundTrip(s: ApplicationStatus)
    ensures StatusFromName(StatusName(s)) == Some(s)
  {
    match s
    case Open =>
    case InProgress =>
    case Completed =>
    case Canceled =>
    case Accepted =>
    case Rejected =>
  }

  /** The members in declaration order: exactly six, pairwise distinct, with distinct values. */
  function Statuses(): (r: seq<ApplicationStatus>)
    ensures |r| == 6
    ensures forall i, j :: 0 <= i < j < |r| ==> r[i] != r[j] && StatusValue(r[i]) != StatusValue(r[j])
  {
    [Open, InProgress, Completed, Canceled, Accepted, Rejected]
  }

  /** No member is missing from `Statuses()`. */
  lemma StatusListed(s: ApplicationStatus)
    ensures s in Statuses()
  {
    var r := Statuses();
    match s
    case Open => assert r[0] == s;
    case InProgress => assert r[1] == s;
    case Completed => assert r[2] == s;
    case Canceled => assert r[3] == s;
    case Accepted => assert r[4] == s;
    case Rejected => assert r[5] == s;
  }

  /** A calendar date (Python's datetime.date), compared field by field. */
  datatype Date = Date(year: int, month: int, day: int)

  /** (a.month, a.day) < (b.month, b.day) in Python's tuple order. */
  predicate MonthDayBefore(a: Date, b: Date)
  {
    a.month < b.month || (a.month == b.month && a.day < b.day)
  }

  /** a <= b as dates. */
  predicate DateLeq(a: Date, b: Date)
  {
    a.year < b.year || (a.year == b.year && !MonthDayBefore(b, a))
  }

  /** The n-th anniversary of a date. */
  function Anniversary(d: Date, n: int): Date
  {
    d.(year := d.year + n)
  }

  /**
   * User.age: None without a date of birth; otherwise the number of completed
   * years, i.e. the one n whose n-th birthday has been reached by `today` and
   * whose (n+1)-th has not. The wall clock's `date.today()` is a parameter.
   */
  function Age(dateOfBirth: Option<Date>, today: Date): (r: Option<int>)
    ensures r.None? <==> dateOfBirth.None?
    ensures r.Some? ==> DateLeq(Anniversary(dateOfBirth.value, r.value), today)
    ensures r.Some? ==> !DateLeq(Anniversary(dateOfBirth.value, r.value + 1), today)
  {
    match dateOfBirth
    case None => None
    case Some(dob) =>
      Some(today.year - dob.year - if MonthDayBefore(today, dob) then 1 else 0)
  }

  /** Whoever was born no later than today has a non-negative age. */
  lemma AgeNonNegative(dob: Date, today: Date)
    requires DateLeq(dob, today)
    ensures Age(Some(dob), today).Some? && Age(Some(dob), today).value >= 0
  {
  }

  /** Any n whose n-th birthday is reached and (n+1)-th is not is the age. */
  lemma AgeUnique(dob: Date, today: Date, n: int)
    requires DateLeq(Anniversary(dob, n), today)
    requires !DateLeq(Anniversary(dob, n + 1), today)
    ensures Age(Some(dob), today) == Some(n)
  {
  }

  /** A job posting; the floating-point budget and the unused category are not modelled. */
  datatype Job = Job(
    id: JobId,
    title: string,
    description: string,
    profession: string,
    location: string,
    status: ApplicationStatus,
    datePosted: int,
    posterId: UserId,
    expectedDuration: string,
    requiredSkills: string)

  /** A worker's application to a job. */
  datatype Application = Application(
    id: ApplicationId,
    jobId: JobId,
    workerId: UserId,
    dateApplied: int,
    status: ApplicationStatus)

  /** A review: rating and the three ids are non-null columns; the comment may be null. */
  datatype Review = Review(
    id: ReviewId,
    jobId: JobId,
    reviewerId: UserId,
    revieweeId: UserId,
    rating: int,
    comment: Option<string>,
    date: int)

  datatype Skill = Skill(id: int, name: string, userId: UserId)

  datatype Experience = Experience(
    id: int,
    title: string,
    company: string,
    startDate: Date,
    endDate: Option<Date>,
    description: string,
    userId: UserId)

  /** A user; the password column holds the hash, which is not modelled beyond being a string. */
  datatype User = User(
    id: UserId,
    email: string,
    username: string,
    password: string,
    firstName: Option<string>,
    lastName: Option<string>,
    location: Option<string>,
    profession: Option<string>,
    dateOfBirth: Option<Date>,
    aboutMe: Option<string>,
    profilePicture: Option<string>)

  /** The columns the listings are ordered by, newest first. */
  function DatePosted(j: Job): int { j.datePosted }
  function DateApplied(a: Application): int { a.dateApplied }

  /** A Job row as inserted without a status: the column default makes it OPEN. */
  function NewJob(id: JobId, title: string, description: string, profession: string,
                  location: string, now: int, posterId: UserId,
                  expectedDuration: string, requiredSkills: string): (j: Job)
    ensures j.status == Open
    ensures j.id == id && j.posterId == posterId && j.datePosted == now
    ensures j.title == title && j.description == description
    ensures j.profession == profession && j.location == location
    ensures j.expectedDuration == expectedDuration && j.requiredSkills == requiredSkills
  {
    Job(id, title, description, profession, location, Open, now, posterId,
        expectedDuration, requiredSkills)
  }

  /** An Application row as inserted without a status: the column default makes it IN_PROGRESS. */
  function NewApplication(id: ApplicationId, jobId: JobId, workerId: UserId, now: int): (a: Application)
    ensures a.status == InProgress
    ensures a.id == id && a.jobId == jobId && a.workerId == workerId && a.dateApplied == now
  {
    Application(id, jobId, workerId, now, InProgress)
  }

  /** A row of the accepted_applicants association table; the pair is its primary key. */
  datatype AcceptedPair = AcceptedPair(jobId: JobId, userId: UserId)

  ghost predicate KeysUnique(t: seq<AcceptedPair>)
  {
    forall i, j :: 0 <= i < j < |t| ==> t[i] != t[j]
  }

  /**
   * Inserting into accepted_applicants: a pair already present violates the
   * composite primary key (None stands for the integrity error); otherwise the
   * row is appended. Hence no pair is ever stored twice.
   */
  function InsertAccepted(t: seq<AcceptedPair>, p: AcceptedPair): (r: Option<seq<AcceptedPair>>)
    ensures r.None? <==> p in t
    ensures r.Some? ==> r.value == t + [p]
    ensures r.Some? && KeysUnique(t) ==> KeysUnique(r.value)
  {
    if p in t then None else Some(t + [p])
  }
}
