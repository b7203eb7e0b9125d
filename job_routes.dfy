/**
 * The job lifecycle (app/routes/job.py): the upload-name check, the listing
 * of open jobs, and the request handlers that post, apply to, accept, reject,
 * finish, rate and delete. Each handler is a guarded transition over three
 * tables, Job, Application and Review, held by `JobBoard`. The logged-in user
 * is an explicit `actor` parameter, the clock a `now` parameter, and the
 * flash-and-redirect answer an `Outcome` code.
 */
module JobRoutes {
  import opened Wrappers
  import opened Strings
  import opened Models
  import opened Query
  import Forms

  // ---------------------------------------------------------------------
  // allowed_file
  // ---------------------------------------------------------------------

  /** The extensions the upload loop of post_job accepts. */
  const AllowedExtensions: seq<string> := ["png", "jpg", "jpeg", "gif"]

  /**
   * allowed_file: the name has a '.' and the text after the last '.',
   * lower-cased, is an allowed extension. Equivalently, the lower-cased name
   * ends with '.' and an allowed extension: the suffix test that WTForms'
   * FileAllowed performs.
   */
  function AllowedFile(filename: string): (ok: bool)
    ensures ok <==> Forms.AllowedName(filename, AllowedExtensions)
  {
    forall e | e in AllowedExtensions
      ensures (LastIndex(filename, '.').Some? && Lower(filename[LastIndex(filename, '.').value + 1..]) == e)
              <==> EndsWith(Lower(filename), "." + e)
    {
      ExtensionIsSuffix(filename, e);
    }
    match LastIndex(filename, '.')
    case None => false
    case Some(i) => Lower(filename[i + 1..]) in AllowedExtensions
  }

  /**
   * The upload loop accepts every GIF that the form's picture field refuses:
   * the two extension lists differ.
   */
  lemma GifPassesUploadCheckOnly(name: string)
    requires EndsWith(Lower(name), ".gif")
    ensures AllowedFile(name)
    ensures !Forms.ImagesOnly([name])
  {
    var low := Lower(name);
    assert "." + "gif" == ".gif";
    assert low[|low| - 2] == 'i' by {
      assert low[|low| - 4..][2] == ".gif"[2];
    }
    forall e | e in Forms.ImageExtensions ensures !EndsWith(low, "." + e) {
      var suf := "." + e;
      assert suf[|suf| - 2] != 'i';
    }
    assert !Forms.AllowedName([name][0], Forms.ImageExtensions);
  }

  // ---------------------------------------------------------------------
  // view_jobs
  // ---------------------------------------------------------------------

  predicate IsOpen(j: Job) { j.status == Open }

  /** A filter value narrows the query when it is present, non-empty and not the 'All' sentinel. */
  predicate Narrows(v: Option<string>)
  {
    v.Some? && v.value != "" && v.value != "All"
  }

  /** A job the query of view_jobs keeps: open, and matching each filter that narrows. */
  predicate Listed(j: Job, location: Option<string>, profession: Option<string>)
  {
    && j.status == Open
    && (Narrows(location) ==> j.location == location.value)
    && (Narrows(profession) ==> j.profession == profession.value)
  }

  /**
   * The query of view_jobs: open jobs, narrowed by location and by profession
   * when those narrow, newest first.
   */
  function ViewJobs(jobs: seq<Job>, location: Option<string>, profession: Option<string>): (r: seq<Job>)
    ensures forall j :: j in r <==> j in jobs && Listed(j, location, profession)
    ensures forall j :: multiset(r)[j] == if Listed(j, location, profession) then multiset(jobs)[j] else 0
    ensures SortedDesc(r, DatePosted)
  {
    var q0 := Select(jobs, IsOpen);
    var q1 := if Narrows(location) then Select(q0, (j: Job) => j.location == location.value) else q0;
    var q2 := if Narrows(profession) then Select(q1, (j: Job) => j.profession == profession.value) else q1;
    OrderDescSorted(q2, DatePosted);
    forall j ensures j in OrderDesc(q2, DatePosted) <==> j in q2 {
      OrderDescMembers(q2, DatePosted, j);
    }
    forall j ensures multiset(q2)[j] == if Listed(j, location, profession) then multiset(jobs)[j] else 0 {
      SelectCounts(jobs, IsOpen, j);
      if Narrows(location) { SelectCounts(q0, (j: Job) => j.location == location.value, j); }
      if Narrows(profession) { SelectCounts(q1, (j: Job) => j.profession == profession.value, j); }
    }
    OrderDesc(q2, DatePosted)
  }

  /**
   * The list view_jobs renders. `handled` is whether the request reached the
   * query (a GET, or a POST whose search form validates); `location` and
   * `profession` are the filter values it read. A POST whose form fails
   * renders no list. When the filtered query comes back empty with both
   * filters 'All', the handler repeats the unfiltered query; that query is the
   * filtered one, so the fallback never changes the list.
   */
  function ViewJobsPage(jobs: seq<Job>, handled: bool, location: Option<string>,
                        profession: Option<string>): (r: Option<seq<Job>>)
    ensures r == if handled then Some(ViewJobs(jobs, location, profession)) else None
  {
    var loc := if handled then location else None;
    var prof := if handled then profession else None;
    var results := if handled then Some(ViewJobs(jobs, loc, prof)) else None;
    if (results.None? || results.value == []) && loc == Some("All") && prof == Some("All")
    then Some(ViewJobs(jobs, None, None))
    else results
  }

  // ---------------------------------------------------------------------
  // The tables and their invariant
  // ---------------------------------------------------------------------

  /** What a handler reports, in place of its flash message and redirect. */
  datatype Outcome =
    | Done              // the success message
    | NotFound          // get_or_404 found no row
    | Forbidden         // the actor is not the job's poster
    | NotOpen           // apply: the job is no longer open
    | AlreadyApplied    // apply: this worker already applied
    | WrongJob          // the application belongs to another job
    | AlreadyAccepted   // accept: the application is already accepted
    | NotInProgress     // finish: the job is not in progress
    | NotCompleted      // rate: the job is not finished
    | NoAcceptedWorker  // rate: no accepted application
    | FormShown         // the form was not submitted or did not validate; nothing is stored
    | StorageError      // delete: the transaction failed and was rolled back

  predicate DistinctJobIds(a: Job, b: Job) { a.id != b.id }
  predicate DistinctApplicationIds(a: Application, b: Application) { a.id != b.id }
  predicate DistinctReviewIds(a: Review, b: Review) { a.id != b.id }

  /** Two applications are not by the same worker for the same job. */
  predicate DifferentApplicants(a: Application, b: Application)
  {
    a.jobId != b.jobId || a.workerId != b.workerId
  }

  /** Two applications for the same job are not both ACCEPTED. */
  predicate NotBothAccepted(a: Application, b: Application)
  {
    a.jobId == b.jobId ==> !(a.status == Accepted && b.status == Accepted)
  }

  /** The key invariant: each job has at most one ACCEPTED application. */
  ghost predicate AtMostOneAccepted(apps: seq<Application>)
  {
    forall i, j :: 0 <= i < j < |apps| ==> NotBothAccepted(apps[i], apps[j])
  }

  /** Primary keys: no two rows of a table share an id. */
  ghost predicate UniqueJobIds(jobs: seq<Job>)
  {
    forall i, j :: 0 <= i < j < |jobs| ==> DistinctJobIds(jobs[i], jobs[j])
  }

  ghost predicate UniqueApplicationIds(apps: seq<Application>)
  {
    forall i, j :: 0 <= i < j < |apps| ==> DistinctApplicationIds(apps[i], apps[j])
  }

  ghost predicate UniqueReviewIds(reviews: seq<Review>)
  {
    forall i, j :: 0 <= i < j < |reviews| ==> DistinctReviewIds(reviews[i], reviews[j])
  }

  /** No worker has two applications for the same job. */
  ghost predicate OneApplicationPerWorker(apps: seq<Application>)
  {
    forall i, j :: 0 <= i < j < |apps| ==> DifferentApplicants(apps[i], apps[j])
  }

  function JobIds(jobs: seq<Job>): set<JobId>
  {
    set j | j in jobs :: j.id
  }

  /** The statuses the handlers ever give a job, and an application. */
  predicate JobStatus(s: ApplicationStatus) { s == Open || s == InProgress || s == Completed }
  predicate ApplicationState(s: ApplicationStatus) { s == InProgress || s == Accepted || s == Rejected }

  /**
   * What the handlers maintain over the three tables: primary keys; one
   * application per (job, worker); at most one ACCEPTED application per job,
   * and none while the job is still OPEN; statuses within the values the
   * handlers assign; every application and review refers to a stored job;
   * every review is rated 1 to 5.
   */
  ghost predicate Consistent(jobs: seq<Job>, apps: seq<Application>, reviews: seq<Review>)
  {
    && UniqueJobIds(jobs)
    && UniqueApplicationIds(apps)
    && UniqueReviewIds(reviews)
    && OneApplicationPerWorker(apps)
    && AtMostOneAccepted(apps)
    && (forall j :: j in jobs ==> JobStatus(j.status))
    && (forall a :: a in apps ==> ApplicationState(a.status) && a.jobId in JobIds(jobs))
    && (forall r :: r in reviews ==> r.jobId in JobIds(jobs) && 1 <= r.rating <= 5)
    && OpenJobsUnaccepted(jobs, apps)
  }

  /** No application of a job that is still OPEN has been ACCEPTED. */
  ghost predicate OpenJobsUnaccepted(jobs: seq<Job>, apps: seq<Application>)
  {
    forall j, a :: j in jobs && a in apps && a.jobId == j.id && j.status == Open ==> a.status != Accepted
  }

  // ---------------------------------------------------------------------
  // Lookups and the writes the handlers make, as functions of the tables
  // ---------------------------------------------------------------------

  /** Job.query.get(id): the index of the job row with that id. */
  function JobIndex(jobs: seq<Job>, id: JobId): (r: Option<nat>)
    ensures r.Some? ==> r.value < |jobs| && jobs[r.value].id == id
    ensures r.None? ==> id !in JobIds(jobs)
  {
    FirstWhere(jobs, (j: Job) => j.id == id)
  }

  /** Application.query.get(id). */
  function ApplicationIndex(apps: seq<Application>, id: ApplicationId): (r: Option<nat>)
    ensures r.Some? ==> r.value < |apps| && apps[r.value].id == id
    ensures r.None? ==> forall a :: a in apps ==> a.id != id
  {
    FirstWhere(apps, (a: Application) => a.id == id)
  }

  /** Application.query.filter_by(job_id=jobId, worker_id=workerId).first(). */
  function ApplicationOf(apps: seq<Application>, jobId: JobId, workerId: UserId): (r: Option<nat>)
    ensures r.Some? ==> r.value < |apps| && apps[r.value].jobId == jobId && apps[r.value].workerId == workerId
    ensures r.None? ==> forall a :: a in apps ==> a.jobId != jobId || a.workerId != workerId
  {
    FirstWhere(apps, (a: Application) => a.jobId == jobId && a.workerId == workerId)
  }

  /** Application.query.filter_by(job_id=jobId, status=ACCEPTED).first(). */
  function AcceptedIndex(apps: seq<Application>, jobId: JobId): (r: Option<nat>)
    ensures r.Some? ==> r.value < |apps| && apps[r.value].jobId == jobId && apps[r.value].status == Accepted
    ensures r.None? ==> forall a :: a in apps ==> a.jobId != jobId || a.status != Accepted
  {
    FirstWhere(apps, (a: Application) => a.jobId == jobId && a.status == Accepted)
  }

  /** The applications of a job that are ACCEPTED. */
  function AcceptedOf(apps: seq<Application>, jobId: JobId): seq<Application>
  {
    Select(apps, (a: Application) => a.jobId == jobId && a.status == Accepted)
  }

  /** The job table after `job.status = s` on the row with that id. */
  function WithJobStatus(jobs: seq<Job>, jobId: JobId, s: ApplicationStatus): seq<Job>
  {
    seq(|jobs|, i requires 0 <= i < |jobs| => if jobs[i].id == jobId then jobs[i].(status := s) else jobs[i])
  }

  /** The application table after `application.status = s` on the row with that id. */
  function WithApplicationStatus(apps: seq<Application>, id: ApplicationId, s: ApplicationStatus): seq<Application>
  {
    seq(|apps|, i requires 0 <= i < |apps| => if apps[i].id == id then apps[i].(status := s) else apps[i])
  }

  /**
   * What accept_application writes to one row: the chosen application becomes
   * ACCEPTED, every other application of the job REJECTED, other jobs' rows
   * stay as they are.
   */
  function AcceptRow(a: Application, jobId: JobId, id: ApplicationId): Application
  {
    if a.id == id then a.(status := Accepted)
    else if a.jobId == jobId then a.(status := Rejected)
    else a
  }

  function AcceptAll(apps: seq<Application>, jobId: JobId, id: ApplicationId): seq<Application>
  {
    seq(|apps|, i requires 0 <= i < |apps| => AcceptRow(apps[i], jobId, id))
  }

  function JobsWithout(jobs: seq<Job>, jobId: JobId): seq<Job>
  {
    Select(jobs, (j: Job) => j.id != jobId)
  }

  function ApplicationsWithout(apps: seq<Application>, jobId: JobId): seq<Application>
  {
    Select(apps, (a: Application) => a.jobId != jobId)
  }

  function ReviewsWithout(reviews: seq<Review>, jobId: JobId): seq<Review>
  {
    Select(reviews, (r: Review) => r.jobId != jobId)
  }

  // ---------------------------------------------------------------------
  // What each write does, and that it keeps the tables consistent
  // ---------------------------------------------------------------------

  /**
   * After accept_application's writes the chosen application is the one and
   * only ACCEPTED application of its job, every other application of that job
   * is REJECTED, and the rows of other jobs are untouched.
   */
  lemma AcceptLeavesExactlyOneAccepted(apps: seq<Application>, jobId: JobId, id: ApplicationId, k: nat)
    requires UniqueApplicationIds(apps)
    requires k < |apps| && apps[k].id == id && apps[k].jobId == jobId
    ensures var after := AcceptAll(apps, jobId, id);
      && AcceptedOf(after, jobId) == [apps[k].(status := Accepted)]
      && (forall i :: 0 <= i < |apps| && i != k && apps[i].jobId == jobId ==> after[i].status == Rejected)
      && (forall i :: 0 <= i < |apps| && apps[i].jobId != jobId ==> after[i] == apps[i])
  {
    var after := AcceptAll(apps, jobId, id);
    forall i | 0 <= i < |apps| && i != k ensures apps[i].id != id {
      if i < k { assert DistinctApplicationIds(apps[i], apps[k]); }
      else { assert DistinctApplicationIds(apps[k], apps[i]); }
    }
    SelectSingle(after, (a: Application) => a.jobId == jobId && a.status == Accepted, k);
  }

  /** Changing one job's status to a status the handlers use keeps the job table's keys and statuses. */
  lemma JobStatusChangeKeepsJobs(jobs: seq<Job>, jobId: JobId, s: ApplicationStatus, bound: JobId)
    requires UniqueJobIds(jobs) && forall j :: j in jobs ==> JobStatus(j.status)
    requires JobStatus(s)
    ensures var jobs' := WithJobStatus(jobs, jobId, s);
      && JobIds(jobs') == JobIds(jobs)
      && UniqueJobIds(jobs')
      && (forall j :: j in jobs' ==> JobStatus(j.status))
      && ((forall j :: j in jobs ==> j.id < bound) ==> forall j :: j in jobs' ==> j.id < bound)
  {
    var jobs' := WithJobStatus(jobs, jobId, s);
    forall x | x in JobIds(jobs) ensures x in JobIds(jobs') {
      var j :| j in jobs && j.id == x;
      var i :| 0 <= i < |jobs| && jobs[i] == j;
      assert jobs'[i].id == x;
    }
    forall i, j | 0 <= i < j < |jobs'| ensures DistinctJobIds(jobs'[i], jobs'[j]) {
      assert DistinctJobIds(jobs[i], jobs[j]);
    }
    forall j | j in jobs' ensures JobStatus(j.status) && exists j0 :: j0 in jobs && j0.id == j.id {
      var i :| 0 <= i < |jobs'| && jobs'[i] == j;
      assert jobs[i] in jobs;
    }
  }

  /** Two application tables that differ only in their statuses. */
  ghost predicate SameKeys(apps: seq<Application>, apps': seq<Application>)
  {
    && |apps'| == |apps|
    && forall i :: 0 <= i < |apps| ==>
         apps'[i].id == apps[i].id && apps'[i].jobId == apps[i].jobId && apps'[i].workerId == apps[i].workerId
  }

  /** Changing statuses only keeps the application keys unique and the references valid. */
  lemma SameKeysKeepKeys(jobs: seq<Job>, apps: seq<Application>, apps': seq<Application>, bound: ApplicationId)
    requires SameKeys(apps, apps')
    requires UniqueApplicationIds(apps) && OneApplicationPerWorker(apps)
    requires forall a :: a in apps ==> a.jobId in JobIds(jobs)
    ensures UniqueApplicationIds(apps') && OneApplicationPerWorker(apps')
    ensures forall a :: a in apps' ==> a.jobId in JobIds(jobs)
    ensures (forall a :: a in apps ==> a.id < bound) ==> forall a :: a in apps' ==> a.id < bound
  {
    forall i, j | 0 <= i < j < |apps'|
      ensures DistinctApplicationIds(apps'[i], apps'[j]) && DifferentApplicants(apps'[i], apps'[j])
    {
      assert DistinctApplicationIds(apps[i], apps[j]) && DifferentApplicants(apps[i], apps[j]);
    }
    forall a | a in apps' ensures a.jobId in JobIds(jobs) && exists a0 :: a0 in apps && a0.id == a.id {
      var i :| 0 <= i < |apps'| && apps'[i] == a;
      assert apps[i] in apps;
    }
  }

  /** accept_application's writes keep the pairwise invariants of the application table. */
  lemma AcceptKeepsApplications(apps: seq<Application>, jobId: JobId, id: ApplicationId, k: nat)
    requires UniqueApplicationIds(apps) && AtMostOneAccepted(apps)
    requires forall a :: a in apps ==> ApplicationState(a.status)
    requires k < |apps| && apps[k].id == id && apps[k].jobId == jobId
    ensures SameKeys(apps, AcceptAll(apps, jobId, id))
    ensures AtMostOneAccepted(AcceptAll(apps, jobId, id))
    ensures forall a :: a in AcceptAll(apps, jobId, id) ==> ApplicationState(a.status)
  {
    var apps' := AcceptAll(apps, jobId, id);
    AcceptLeavesExactlyOneAccepted(apps, jobId, id, k);
    forall i, j | 0 <= i < j < |apps'| ensures NotBothAccepted(apps'[i], apps'[j]) {
      assert NotBothAccepted(apps[i], apps[j]);
    }
    forall a | a in apps' ensures ApplicationState(a.status) {
      var i :| 0 <= i < |apps'| && apps'[i] == a;
      assert apps[i] in apps;
    }
  }

  /** accept_application keeps the tables consistent. */
  lemma AcceptKeepsConsistent(jobs: seq<Job>, apps: seq<Application>, reviews: seq<Review>,
                              jobId: JobId, id: ApplicationId, k: nat)
    requires Consistent(jobs, apps, reviews)
    requires k < |apps| && apps[k].id == id && apps[k].jobId == jobId
    ensures Consistent(WithJobStatus(jobs, jobId, InProgress), AcceptAll(apps, jobId, id), reviews)
  {
    var jobs', apps' := WithJobStatus(jobs, jobId, InProgress), AcceptAll(apps, jobId, id);
    JobStatusChangeKeepsJobs(jobs, jobId, InProgress, 0);
    AcceptKeepsApplications(apps, jobId, id, k);
    SameKeysKeepKeys(jobs, apps, apps', 0);
    ApplicationIdIsUnique(apps, k);
    AcceptKeepsOpenJobsUnaccepted(jobs, apps, jobId, id);
  }

  /** The accepted job leaves OPEN, and no other job gains an ACCEPTED application. */
  lemma AcceptKeepsOpenJobsUnaccepted(jobs: seq<Job>, apps: seq<Application>, jobId: JobId, id: ApplicationId)
    requires OpenJobsUnaccepted(jobs, apps)
    requires forall m :: 0 <= m < |apps| && apps[m].id == id ==> apps[m].jobId == jobId
    ensures OpenJobsUnaccepted(WithJobStatus(jobs, jobId, InProgress), AcceptAll(apps, jobId, id))
  {
    var jobs', apps' := WithJobStatus(jobs, jobId, InProgress), AcceptAll(apps, jobId, id);
    forall j, a | j in jobs' && a in apps' && a.jobId == j.id && j.status == Open
      ensures a.status != Accepted
    {
      var i :| 0 <= i < |jobs'| && jobs'[i] == j;
      assert j.id != jobId && j == jobs[i];
      var m :| 0 <= m < |apps'| && apps'[m] == a;
      assert a == apps[m] && apps[m] in apps && jobs[i] in jobs;
    }
  }

  /** reject_application's write keeps the tables consistent. */
  lemma RejectKeepsConsistent(jobs: seq<Job>, apps: seq<Application>, reviews: seq<Review>, id: ApplicationId)
    requires Consistent(jobs, apps, reviews)
    ensures Consistent(jobs, WithApplicationStatus(apps, id, Rejected), reviews)
  {
    var apps' := WithApplicationStatus(apps, id, Rejected);
    assert UniqueApplicationIds(apps') by {
      forall i, j | 0 <= i < j < |apps'| ensures DistinctApplicationIds(apps'[i], apps'[j]) {
        assert DistinctApplicationIds(apps[i], apps[j]);
      }
    }
    assert OneApplicationPerWorker(apps') by {
      forall i, j | 0 <= i < j < |apps'| ensures DifferentApplicants(apps'[i], apps'[j]) {
        assert DifferentApplicants(apps[i], apps[j]);
      }
    }
    assert AtMostOneAccepted(apps') by {
      forall i, j | 0 <= i < j < |apps'| ensures NotBothAccepted(apps'[i], apps'[j]) {
        assert NotBothAccepted(apps[i], apps[j]);
      }
    }
    forall a | a in apps' ensures ApplicationState(a.status) && a.jobId in JobIds(jobs) {
      var i :| 0 <= i < |apps'| && apps'[i] == a;
      assert apps[i] in apps;
    }
    forall j, a | j in jobs && a in apps' && a.jobId == j.id && j.status == Open
      ensures a.status != Accepted
    {
      var m :| 0 <= m < |apps'| && apps'[m] == a;
      assert apps[m] in apps;
    }
  }

  /** finish_job's write keeps the tables consistent. */
  lemma FinishKeepsConsistent(jobs: seq<Job>, apps: seq<Application>, reviews: seq<Review>, jobId: JobId)
    requires Consistent(jobs, apps, reviews)
    ensures Consistent(WithJobStatus(jobs, jobId, Completed), apps, reviews)
  {
    var jobs' := WithJobStatus(jobs, jobId, Completed);
    JobStatusChangeKeepsJobs(jobs, jobId, Completed, 0);
    forall j, a | j in jobs' && a in apps && a.jobId == j.id && j.status == Open
      ensures a.status != Accepted
    {
      var i :| 0 <= i < |jobs'| && jobs'[i] == j;
      assert jobs[i] in jobs;
    }
  }

  /** Adding a fresh OPEN job keeps the tables consistent: no application can refer to it yet. */
  lemma PostKeepsConsistent(jobs: seq<Job>, apps: seq<Application>, reviews: seq<Review>, job: Job)
    requires Consistent(jobs, apps, reviews)
    requires job.id !in JobIds(jobs) && job.status == Open
    ensures Consistent(jobs + [job], apps, reviews)
  {
    var jobs' := jobs + [job];
    assert JobIds(jobs') == JobIds(jobs) + {job.id};
    assert UniqueJobIds(jobs') by {
      forall i, j | 0 <= i < j < |jobs'| ensures DistinctJobIds(jobs'[i], jobs'[j]) {
        if j == |jobs| {
          assert jobs[i] in jobs;
        } else {
          assert DistinctJobIds(jobs[i], jobs[j]);
        }
      }
    }
  }

  /** Adding a fresh pending application for an existing job, by a worker with no application for it yet, keeps the tables consistent. */
  lemma ApplyKeepsConsistent(jobs: seq<Job>, apps: seq<Application>, reviews: seq<Review>, app: Application)
    requires Consistent(jobs, apps, reviews)
    requires app.jobId in JobIds(jobs) && app.status == InProgress
    requires forall a :: a in apps ==> a.id != app.id && DifferentApplicants(a, app)
    ensures Consistent(jobs, apps + [app], reviews)
  {
    var apps' := apps + [app];
    assert UniqueApplicationIds(apps') by {
      forall i, j | 0 <= i < j < |apps'| ensures DistinctApplicationIds(apps'[i], apps'[j]) {
        if j == |apps| { assert apps[i] in apps; } else { assert DistinctApplicationIds(apps[i], apps[j]); }
      }
    }
    assert OneApplicationPerWorker(apps') by {
      forall i, j | 0 <= i < j < |apps'| ensures DifferentApplicants(apps'[i], apps'[j]) {
        if j == |apps| { assert apps[i] in apps; } else { assert DifferentApplicants(apps[i], apps[j]); }
      }
    }
    assert AtMostOneAccepted(apps') by {
      forall i, j | 0 <= i < j < |apps'| ensures NotBothAccepted(apps'[i], apps'[j]) {
        if j < |apps| { assert NotBothAccepted(apps[i], apps[j]); }
      }
    }
  }

  /** Adding a fresh review of an existing job, rated 1 to 5, keeps the tables consistent. */
  lemma RateKeepsConsistent(jobs: seq<Job>, apps: seq<Application>, reviews: seq<Review>, review: Review)
    requires Consistent(jobs, apps, reviews)
    requires review.jobId in JobIds(jobs) && 1 <= review.rating <= 5
    requires forall r :: r in reviews ==> r.id != review.id
    ensures Consistent(jobs, apps, reviews + [review])
  {
    var reviews' := reviews + [review];
    assert UniqueReviewIds(reviews') by {
      forall i, j | 0 <= i < j < |reviews'| ensures DistinctReviewIds(reviews'[i], reviews'[j]) {
        if j == |reviews| { assert reviews[i] in reviews; } else { assert DistinctReviewIds(reviews[i], reviews[j]); }
      }
    }
  }

  /**
   * delete_job's three deletes keep the tables consistent: no application or
   * review is left pointing at the removed job.
   */
  lemma DeleteKeepsConsistent(jobs: seq<Job>, apps: seq<Application>, reviews: seq<Review>, jobId: JobId)
    requires Consistent(jobs, apps, reviews)
    ensures Consistent(JobsWithout(jobs, jobId), ApplicationsWithout(apps, jobId), ReviewsWithout(reviews, jobId))
    ensures forall a :: a in ApplicationsWithout(apps, jobId) ==> a.jobId != jobId
    ensures forall r :: r in ReviewsWithout(reviews, jobId) ==> r.jobId != jobId
  {
    var jobs', apps', reviews' := JobsWithout(jobs, jobId), ApplicationsWithout(apps, jobId), ReviewsWithout(reviews, jobId);
    assert Pairwise(jobs, DistinctJobIds);
    assert Pairwise(apps, DistinctApplicationIds);
    assert Pairwise(apps, DifferentApplicants);
    assert Pairwise(apps, NotBothAccepted);
    assert Pairwise(reviews, DistinctReviewIds);
    SelectPairwise(jobs, (j: Job) => j.id != jobId, DistinctJobIds);
    SelectPairwise(apps, (a: Application) => a.jobId != jobId, DistinctApplicationIds);
    SelectPairwise(apps, (a: Application) => a.jobId != jobId, DifferentApplicants);
    SelectPairwise(apps, (a: Application) => a.jobId != jobId, NotBothAccepted);
    SelectPairwise(reviews, (r: Review) => r.jobId != jobId, DistinctReviewIds);
    assert JobIds(jobs') == JobIds(jobs) - {jobId} by {
      forall x | x in JobIds(jobs) && x != jobId ensures x in JobIds(jobs') {
        var j :| j in jobs && j.id == x;
        assert j in jobs';
      }
    }
  }

  /** With at most one ACCEPTED application per job, rate_job's `first()` finds that one. */
  lemma RateFindsTheAcceptedApplication(apps: seq<Application>, jobId: JobId, k: nat)
    requires AtMostOneAccepted(apps)
    requires k < |apps| && apps[k].jobId == jobId && apps[k].status == Accepted
    ensures AcceptedIndex(apps, jobId) == Some(k)
  {
    var r := AcceptedIndex(apps, jobId);
    assert r.Some? by { assert apps[k] in apps; }
  }

  /**
   * Rejecting the accepted application leaves its job with no accepted
   * application (the handler does not touch the job's status), so rate_job
   * for that job will report that no worker was accepted.
   */
  lemma RejectingTheAcceptedLeavesNoneAccepted(apps: seq<Application>, jobId: JobId, k: nat)
    requires AtMostOneAccepted(apps) && UniqueApplicationIds(apps)
    requires k < |apps| && apps[k].jobId == jobId && apps[k].status == Accepted
    ensures AcceptedIndex(WithApplicationStatus(apps, apps[k].id, Rejected), jobId).None?
  {
    var apps' := WithApplicationStatus(apps, apps[k].id, Rejected);
    forall a | a in apps' ensures a.jobId != jobId || a.status != Accepted {
      var i :| 0 <= i < |apps'| && apps'[i] == a;
      if i < k { assert NotBothAccepted(apps[i], apps[k]); }
      if i > k { assert NotBothAccepted(apps[k], apps[i]); }
    }
  }

  // ---------------------------------------------------------------------
  // The handlers, over the three tables they write
  // ---------------------------------------------------------------------

  /**
   * The jobs, applications and reviews tables, each with a counter for a
   * fresh key: one larger than every key assigned so far. Each handler takes
   * the logged-in user's id as `actor`; the request time is the parameter
   * `now`.
   */
  class JobBoard {
    var jobs: seq<Job>
    var applications: seq<Application>
    var reviews: seq<Review>
    var nextJobId: JobId
    var nextApplicationId: ApplicationId
    var nextReviewId: ReviewId

    ghost predicate Valid()
      reads this
    {
      Stored(jobs, applications, reviews, nextJobId, nextApplicationId, nextReviewId)
    }

    constructor ()
      ensures Valid()
      ensures jobs == [] && applications == [] && reviews == []
    {
      jobs, applications, reviews := [], [], [];
      nextJobId, nextApplicationId, nextReviewId := 1, 1, 1;
    }

    /** post_job: a submitted, valid JobForm adds an OPEN job owned by the actor. */
    method PostJob(actor: UserId, submitted: bool, title: string, description: string,
                   profession: string, location: string, budget: Option<real>,
                   expectedDuration: string, requiredSkills: string,
                   pictures: seq<string>, now: int) returns (outcome: Outcome)
      requires Valid()
      modifies this
      ensures Valid()
      ensures outcome == Done <==>
        submitted && Forms.JobFormValid(title, description, profession, location, budget,
                                         expectedDuration, requiredSkills, pictures)
      ensures outcome != Done ==> outcome == FormShown && jobs == old(jobs) && nextJobId == old(nextJobId)
      ensures outcome == Done ==>
        && jobs == old(jobs) + [NewJob(old(nextJobId), title, description, profession, location,
                                       now, actor, expectedDuration, requiredSkills)]
        && nextJobId == old(nextJobId) + 1
      ensures applications == old(applications) && reviews == old(reviews)
      ensures nextApplicationId == old(nextApplicationId) && nextReviewId == old(nextReviewId)
    {
      if !submitted || !Forms.JobFormValid(title, description, profession, location, budget,
                                           expectedDuration, requiredSkills, pictures) {
        return FormShown;
      }
      var job := NewJob(nextJobId, title, description, profession, location, now, actor,
                        expectedDuration, requiredSkills);
      PostKeepsStored(jobs, applications, reviews, nextJobId, nextApplicationId, nextReviewId, job);
      jobs := jobs + [job];
      nextJobId := nextJobId + 1;
      outcome := Done;
    }

    /** apply_job: the actor applies to an OPEN job at most once. */
    method ApplyJob(actor: UserId, jobId: JobId, now: int) returns (outcome: Outcome)
      requires Valid()
      modifies this
      ensures Valid()
      ensures outcome == NotFound <==> jobId !in JobIds(old(jobs))
      ensures outcome == NotOpen <==>
        exists j :: j in old(jobs) && j.id == jobId && j.status != Open
      ensures outcome == AlreadyApplied <==>
        && (exists j :: j in old(jobs) && j.id == jobId && j.status == Open)
        && (exists a :: a in old(applications) && a.jobId == jobId && a.workerId == actor)
      ensures outcome in {NotFound, NotOpen, AlreadyApplied, Done}
      ensures outcome == Done ==>
        && applications == old(applications) + [NewApplication(old(nextApplicationId), jobId, actor, now)]
        && nextApplicationId == old(nextApplicationId) + 1
      ensures outcome != Done ==> applications == old(applications) && nextApplicationId == old(nextApplicationId)
      ensures jobs == old(jobs) && reviews == old(reviews)
      ensures nextJobId == old(nextJobId) && nextReviewId == old(nextReviewId)
    {
      var ji := JobIndex(jobs, jobId);
      if ji.None? {
        return NotFound;
      }
      assert jobs[ji.value] in jobs;
      if jobs[ji.value].status != Open {
        outcome := NotOpen;
        JobStatusIsUnique(jobs, ji.value);
        return;
      }
      JobStatusIsUnique(jobs, ji.value);
      var existing := ApplicationOf(applications, jobId, actor);
      if existing.Some? {
        assert applications[existing.value] in applications;
        return AlreadyApplied;
      }
      var app := NewApplication(nextApplicationId, jobId, actor, now);
      ApplyKeepsStored(jobs, applications, reviews, nextJobId, nextApplicationId, nextReviewId, app);
      applications := applications + [app];
      nextApplicationId := nextApplicationId + 1;
      outcome := Done;
    }

    /**
     * accept_application: the poster accepts one application of the job;
     * the job goes IN_PROGRESS and every other application of it is
     * REJECTED, one row at a time. The job's own status is not checked.
     */
    method AcceptApplication(actor: UserId, jobId: JobId, applicationId: ApplicationId) returns (outcome: Outcome)
      requires Valid()
      modifies this
      ensures Valid()
      ensures var ji, ai := JobIndex(old(jobs), jobId), ApplicationIndex(old(applications), applicationId);
        && (outcome == NotFound <==> ji.None? || ai.None?)
        && (outcome == Forbidden <==> ji.Some? && ai.Some? && old(jobs)[ji.value].posterId != actor)
        && (outcome == WrongJob <==>
              ji.Some? && ai.Some? && old(jobs)[ji.value].posterId == actor
              && old(applications)[ai.value].jobId != jobId)
        && (outcome == AlreadyAccepted <==>
              ji.Some? && ai.Some? && old(jobs)[ji.value].posterId == actor
              && old(applications)[ai.value].jobId == jobId && old(applications)[ai.value].status == Accepted)
      ensures outcome in {NotFound, Forbidden, WrongJob, AlreadyAccepted, Done}
      ensures outcome == Done ==>
        && jobs == WithJobStatus(old(jobs), jobId, InProgress)
        && applications == AcceptAll(old(applications), jobId, applicationId)
        && |AcceptedOf(applications, jobId)| == 1
      ensures outcome != Done ==> jobs == old(jobs) && applications == old(applications)
      ensures reviews == old(reviews)
      ensures nextJobId == old(nextJobId) && nextApplicationId == old(nextApplicationId)
      ensures nextReviewId == old(nextReviewId)
    {
      var ji := JobIndex(jobs, jobId);
      var ai := ApplicationIndex(applications, applicationId);
      if ji.None? || ai.None? {
        return NotFound;
      }
      var k := ai.value;
      if jobs[ji.value].posterId != actor {
        return Forbidden;
      }
      if applications[k].jobId != jobId {
        return WrongJob;
      }
      if applications[k].status == Accepted {
        return AlreadyAccepted;
      }
      ghost var before := applications;
      AcceptLeavesExactlyOneAccepted(before, jobId, applicationId, k);
      AcceptKeepsStored(jobs, before, reviews, nextJobId, nextApplicationId, nextReviewId, jobId, applicationId, k);
      ApplicationIdIsUnique(before, k);
      applications := applications[k := applications[k].(status := Accepted)];
      jobs := WithJobStatus(jobs, jobId, InProgress);
      RejectOthers(jobId, applicationId, before, k);
      outcome := Done;
    }

    /**
     * The loop of accept_application: every other application of the job
     * becomes REJECTED, one row at a time. `rows` is the table before the
     * handler's writes; the chosen row k is already ACCEPTED.
     */
    method RejectOthers(jobId: JobId, applicationId: ApplicationId, ghost rows: seq<Application>, ghost k: nat)
      requires k < |rows| && rows[k].id == applicationId
      requires forall m :: 0 <= m < |rows| && m != k ==> rows[m].id != applicationId
      requires applications == rows[k := rows[k].(status := Accepted)]
      modifies this
      ensures applications == AcceptAll(rows, jobId, applicationId)
      ensures jobs == old(jobs) && reviews == old(reviews)
      ensures nextJobId == old(nextJobId) && nextApplicationId == old(nextApplicationId)
      ensures nextReviewId == old(nextReviewId)
    {
      var i := 0;
      while i < |applications|
        invariant 0 <= i <= |applications| == |rows|
        invariant forall m :: 0 <= m < i ==> applications[m] == AcceptRow(rows[m], jobId, applicationId)
        invariant forall m :: i <= m < |applications| ==>
          applications[m] == if m == k then rows[m].(status := Accepted) else rows[m]
        invariant jobs == old(jobs) && reviews == old(reviews)
        invariant nextJobId == old(nextJobId) && nextApplicationId == old(nextApplicationId)
        invariant nextReviewId == old(nextReviewId)
      {
        if applications[i].jobId == jobId && applications[i].id != applicationId {
          applications := applications[i := applications[i].(status := Rejected)];
        }
        i := i + 1;
      }
    }

    /**
     * reject_application: the poster rejects one application of the job.
     * The job's status is left as it is, even when the rejected application
     * was the accepted one.
     */
    method RejectApplication(actor: UserId, jobId: JobId, applicationId: ApplicationId) returns (outcome: Outcome)
      requires Valid()
      modifies this
      ensures Valid()
      ensures var ji, ai := JobIndex(old(jobs), jobId), ApplicationIndex(old(applications), applicationId);
        && (outcome == NotFound <==> ji.None? || ai.None?)
        && (outcome == Forbidden <==> ji.Some? && ai.Some? && old(jobs)[ji.value].posterId != actor)
        && (outcome == WrongJob <==>
              ji.Some? && ai.Some? && old(jobs)[ji.value].posterId == actor
              && old(applications)[ai.value].jobId != jobId)
      ensures outcome in {NotFound, Forbidden, WrongJob, Done}
      ensures outcome == Done ==> applications == WithApplicationStatus(old(applications), applicationId, Rejected)
      ensures outcome != Done ==> applications == old(applications)
      ensures jobs == old(jobs) && reviews == old(reviews)
      ensures nextJobId == old(nextJobId) && nextApplicationId == old(nextApplicationId)
      ensures nextReviewId == old(nextReviewId)
    {
      var ji := JobIndex(jobs, jobId);
      var ai := ApplicationIndex(applications, applicationId);
      if ji.None? || ai.None? {
        return NotFound;
      }
      var k := ai.value;
      if jobs[ji.value].posterId != actor {
        return Forbidden;
      }
      if applications[k].jobId != jobId {
        return WrongJob;
      }
      ghost var before := applications;
      RejectKeepsStored(jobs, before, reviews, nextJobId, nextApplicationId, nextReviewId, applicationId);
      applications := applications[k := applications[k].(status := Rejected)];
      assert applications == WithApplicationStatus(before, applicationId, Rejected) by {
        forall m | 0 <= m < |before| && m != k ensures before[m].id != applicationId {
          if m < k { assert DistinctApplicationIds(before[m], before[k]); }
          else { assert DistinctApplicationIds(before[k], before[m]); }
        }
      }
      outcome := Done;
    }

    /** finish_job: the poster marks an IN_PROGRESS job COMPLETED. */
    method FinishJob(actor: UserId, jobId: JobId) returns (outcome: Outcome)
      requires Valid()
      modifies this
      ensures Valid()
      ensures var ji := JobIndex(old(jobs), jobId);
        && (outcome == NotFound <==> ji.None?)
        && (outcome == Forbidden <==> ji.Some? && old(jobs)[ji.value].posterId != actor)
        && (outcome == NotInProgress <==>
              ji.Some? && old(jobs)[ji.value].posterId == actor && old(jobs)[ji.value].status != InProgress)
      ensures outcome in {NotFound, Forbidden, NotInProgress, Done}
      ensures outcome == Done ==> jobs == WithJobStatus(old(jobs), jobId, Completed)
      ensures outcome != Done ==> jobs == old(jobs)
      ensures applications == old(applications) && reviews == old(reviews)
      ensures nextJobId == old(nextJobId) && nextApplicationId == old(nextApplicationId)
      ensures nextReviewId == old(nextReviewId)
    {
      var ji := JobIndex(jobs, jobId);
      if ji.None? {
        return NotFound;
      }
      var k := ji.value;
      if jobs[k].posterId != actor {
        return Forbidden;
      }
      if jobs[k].status != InProgress {
        return NotInProgress;
      }
      ghost var before := jobs;
      FinishKeepsStored(before, applications, reviews, nextJobId, nextApplicationId, nextReviewId, jobId);
      jobs := jobs[k := jobs[k].(status := Completed)];
      assert jobs == WithJobStatus(before, jobId, Completed) by {
        forall m | 0 <= m < |before| && m != k ensures before[m].id != jobId {
          if m < k { assert DistinctJobIds(before[m], before[k]); }
          else { assert DistinctJobIds(before[k], before[m]); }
        }
      }
      outcome := Done;
    }

    /**
     * rate_job: once a job is COMPLETED and has an accepted worker, a
     * submitted, valid RatingForm stores a review of that worker by the
     * actor. Neither the actor's role nor an earlier review is checked.
     */
    method RateJob(actor: UserId, jobId: JobId, submitted: bool, rating: Option<int>,
                   comment: string, now: int) returns (outcome: Outcome)
      requires Valid()
      modifies this
      ensures Valid()
      ensures var ji := JobIndex(old(jobs), jobId);
        && (outcome == NotFound <==> ji.None?)
        && (outcome == NotCompleted <==> ji.Some? && old(jobs)[ji.value].status != Completed)
        && (outcome == NoAcceptedWorker <==>
              ji.Some? && old(jobs)[ji.value].status == Completed
              && AcceptedIndex(old(applications), jobId).None?)
        && (outcome == FormShown <==>
              ji.Some? && old(jobs)[ji.value].status == Completed
              && AcceptedIndex(old(applications), jobId).Some?
              && (!submitted || !Forms.RatingFormValid(rating, comment)))
      ensures outcome in {NotFound, NotCompleted, NoAcceptedWorker, FormShown, Done}
      ensures outcome == Done ==>
        && rating.Some?
        && exists a :: a in old(applications) && a.jobId == jobId && a.status == Accepted
             && reviews == old(reviews) + [Review(old(nextReviewId), jobId, actor, a.workerId,
                                                  rating.value, Some(comment), now)]
      ensures outcome == Done ==> nextReviewId == old(nextReviewId) + 1
      ensures outcome != Done ==> reviews == old(reviews) && nextReviewId == old(nextReviewId)
      ensures jobs == old(jobs) && applications == old(applications)
      ensures nextJobId == old(nextJobId) && nextApplicationId == old(nextApplicationId)
    {
      var ji := JobIndex(jobs, jobId);
      if ji.None? {
        return NotFound;
      }
      if jobs[ji.value].status != Completed {
        return NotCompleted;
      }
      var ai := AcceptedIndex(applications, jobId);
      if ai.None? {
        return NoAcceptedWorker;
      }
      if !submitted || !Forms.RatingFormValid(rating, comment) {
        return FormShown;
      }
      var accepted := applications[ai.value];
      assert accepted in applications;
      var review := Review(nextReviewId, jobId, actor, accepted.workerId, rating.value, Some(comment), now);
      RateKeepsStored(jobs, applications, reviews, nextJobId, nextApplicationId, nextReviewId, review);
      reviews := reviews + [review];
      nextReviewId := nextReviewId + 1;
      outcome := Done;
    }

    /**
     * delete_job: the poster deletes the job's reviews, then its
     * applications, then the job, in one transaction. When the commit
     * fails (`storageFails`) the transaction is rolled back and the tables
     * are as they were.
     */
    method DeleteJob(actor: UserId, jobId: JobId, storageFails: bool) returns (outcome: Outcome)
      requires Valid()
      modifies this
      ensures Valid()
      ensures var ji := JobIndex(old(jobs), jobId);
        && (outcome == NotFound <==> ji.None?)
        && (outcome == Forbidden <==> ji.Some? && old(jobs)[ji.value].posterId != actor)
        && (outcome == StorageError <==> ji.Some? && old(jobs)[ji.value].posterId == actor && storageFails)
      ensures outcome in {NotFound, Forbidden, StorageError, Done}
      ensures outcome == Done ==>
        && jobs == JobsWithout(old(jobs), jobId)
        && applications == ApplicationsWithout(old(applications), jobId)
        && reviews == ReviewsWithout(old(reviews), jobId)
      ensures outcome != Done ==>
        jobs == old(jobs) && applications == old(applications) && reviews == old(reviews)
      ensures nextJobId == old(nextJobId) && nextApplicationId == old(nextApplicationId)
      ensures nextReviewId == old(nextReviewId)
    {
      var ji := JobIndex(jobs, jobId);
      if ji.None? {
        return NotFound;
      }
      if jobs[ji.value].posterId != actor {
        return Forbidden;
      }
      // The session's pending deletes; a failed commit discards them.
      var pendingReviews := ReviewsWithout(reviews, jobId);
      var pendingApplications := ApplicationsWithout(applications, jobId);
      var pendingJobs := JobsWithout(jobs, jobId);
      if storageFails {
        return StorageError;
      }
      DeleteKeepsStored(jobs, applications, reviews, nextJobId, nextApplicationId, nextReviewId, jobId);
      jobs, applications, reviews := pendingJobs, pendingApplications, pendingReviews;
      outcome := Done;
    }
  }

  /** Consistent tables whose ids are all below the next id the database assigns. */
  ghost predicate Stored(jobs: seq<Job>, apps: seq<Application>, reviews: seq<Review>,
                         nextJobId: JobId, nextApplicationId: ApplicationId, nextReviewId: ReviewId)
  {
    && Consistent(jobs, apps, reviews)
    && (forall j :: j in jobs ==> j.id < nextJobId)
    && (forall a :: a in apps ==> a.id < nextApplicationId)
    && (forall r :: r in reviews ==> r.id < nextReviewId)
  }

  lemma AcceptKeepsStored(jobs: seq<Job>, apps: seq<Application>, reviews: seq<Review>,
                          nj: JobId, na: ApplicationId, nr: ReviewId, jobId: JobId, id: ApplicationId, k: nat)
    requires Stored(jobs, apps, reviews, nj, na, nr)
    requires k < |apps| && apps[k].id == id && apps[k].jobId == jobId
    ensures Stored(WithJobStatus(jobs, jobId, InProgress), AcceptAll(apps, jobId, id), reviews, nj, na, nr)
  {
    AcceptKeepsConsistent(jobs, apps, reviews, jobId, id, k);
    AcceptKeepsApplications(apps, jobId, id, k);
    SameKeysKeepKeys(jobs, apps, AcceptAll(apps, jobId, id), na);
    JobStatusChangeKeepsJobs(jobs, jobId, InProgress, nj);
  }

  lemma PostKeepsStored(jobs: seq<Job>, apps: seq<Application>, reviews: seq<Review>,
                        nj: JobId, na: ApplicationId, nr: ReviewId, job: Job)
    requires Stored(jobs, apps, reviews, nj, na, nr)
    requires job.id == nj && job.status == Open
    ensures Stored(jobs + [job], apps, reviews, nj + 1, na, nr)
  {
    PostKeepsConsistent(jobs, apps, reviews, job);
    assert forall j :: j in jobs + [job] ==> j.id < nj + 1;
  }

  lemma ApplyKeepsStored(jobs: seq<Job>, apps: seq<Application>, reviews: seq<Review>,
                         nj: JobId, na: ApplicationId, nr: ReviewId, app: Application)
    requires Stored(jobs, apps, reviews, nj, na, nr)
    requires app.id == na && app.jobId in JobIds(jobs) && app.status == InProgress
    requires forall a :: a in apps ==> DifferentApplicants(a, app)
    ensures Stored(jobs, apps + [app], reviews, nj, na + 1, nr)
  {
    ApplyKeepsConsistent(jobs, apps, reviews, app);
    assert forall a :: a in apps + [app] ==> a.id < na + 1;
  }

  lemma RejectKeepsStored(jobs: seq<Job>, apps: seq<Application>, reviews: seq<Review>,
                          nj: JobId, na: ApplicationId, nr: ReviewId, id: ApplicationId)
    requires Stored(jobs, apps, reviews, nj, na, nr)
    ensures Stored(jobs, WithApplicationStatus(apps, id, Rejected), reviews, nj, na, nr)
  {
    RejectKeepsConsistent(jobs, apps, reviews, id);
    var apps' := WithApplicationStatus(apps, id, Rejected);
    forall a | a in apps' ensures a.id < na {
      var i :| 0 <= i < |apps'| && apps'[i] == a;
      assert apps[i] in apps;
    }
  }

  lemma FinishKeepsStored(jobs: seq<Job>, apps: seq<Application>, reviews: seq<Review>,
                          nj: JobId, na: ApplicationId, nr: ReviewId, jobId: JobId)
    requires Stored(jobs, apps, reviews, nj, na, nr)
    ensures Stored(WithJobStatus(jobs, jobId, Completed), apps, reviews, nj, na, nr)
  {
    FinishKeepsConsistent(jobs, apps, reviews, jobId);
    JobStatusChangeKeepsJobs(jobs, jobId, Completed, nj);
  }

  lemma RateKeepsStored(jobs: seq<Job>, apps: seq<Application>, reviews: seq<Review>,
                        nj: JobId, na: ApplicationId, nr: ReviewId, review: Review)
    requires Stored(jobs, apps, reviews, nj, na, nr)
    requires review.id == nr && review.jobId in JobIds(jobs) && 1 <= review.rating <= 5
    ensures Stored(jobs, apps, reviews + [review], nj, na, nr + 1)
  {
    RateKeepsConsistent(jobs, apps, reviews, review);
    assert forall r :: r in reviews + [review] ==> r.id < nr + 1;
  }

  lemma DeleteKeepsStored(jobs: seq<Job>, apps: seq<Application>, reviews: seq<Review>,
                          nj: JobId, na: ApplicationId, nr: ReviewId, jobId: JobId)
    requires Stored(jobs, apps, reviews, nj, na, nr)
    ensures Stored(JobsWithout(jobs, jobId), ApplicationsWithout(apps, jobId), ReviewsWithout(reviews, jobId), nj, na, nr)
  {
    DeleteKeepsConsistent(jobs, apps, reviews, jobId);
  }

  /** Application ids are unique: no other row has the id of row k. */
  lemma ApplicationIdIsUnique(apps: seq<Application>, k: nat)
    requires UniqueApplicationIds(apps) && k < |apps|
    ensures forall m :: 0 <= m < |apps| && m != k ==> apps[m].id != apps[k].id
  {
    forall m | 0 <= m < |apps| && m != k ensures apps[m].id != apps[k].id {
      if m < k { assert DistinctApplicationIds(apps[m], apps[k]); }
      else { assert DistinctApplicationIds(apps[k], apps[m]); }
    }
  }

  /** Job ids are unique, so the status found at one index is the status of every row with that id. */
  lemma JobStatusIsUnique(jobs: seq<Job>, k: nat)
    requires UniqueJobIds(jobs) && k < |jobs|
    ensures forall j :: j in jobs && j.id == jobs[k].id ==> j == jobs[k]
  {
    forall j | j in jobs && j.id == jobs[k].id ensures j == jobs[k] {
      var m :| 0 <= m < |jobs| && jobs[m] == j;
    }
  }
}
