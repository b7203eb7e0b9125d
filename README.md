# herafy2 job marketplace — a Dafny model

herafy2 is a Flask site where posters publish small jobs (plumbing, tailoring,
gardening, …) in Moroccan cities and workers apply to them. This project models
its core in Dafny and proves properties of the model:

- the job lifecycle of `app/routes/job.py`. A poster posts a job, which is OPEN.
  Workers apply. The poster accepts one application, which moves the job to
  IN_PROGRESS and rejects the others. The poster then finishes the job
  (COMPLETED) and rates the accepted worker. The poster may also delete the job
  with its applications and reviews. `JobRoutes.JobBoard` holds the Job,
  Application and Review tables as sequences of rows. Each request handler is a
  method that takes the logged-in user as `actor` and returns an `Outcome` code
  in place of its flash message and redirect.
- the key invariant: a job never has more than one ACCEPTED application.
  `JobRoutes.Consistent` states it together with:
  - primary keys;
  - one application per (job, worker);
  - no accepted application while a job is OPEN;
  - statuses limited to the values the handlers assign;
  - references to stored jobs;
  - ratings between 1 and 5.

  Every handler preserves all of these.
- the entities of `app/models.py`:
  - the one `ApplicationStatus` enum that both jobs and applications use;
  - the column defaults, OPEN for a job and IN_PROGRESS for an application;
  - the composite key of `accepted_applicants`;
  - the non-null columns of a review (plain fields of `Models.Review`; only the
    comment is an `Option`);
  - the `User.age` property.
- the forms of `app/forms.py`. Each field is written with its validator chain
  as declared. Each form's error function is proved equal to a closed
  acceptance condition.
- the profile blueprint `app/routes/profile.py`:
  - `save_picture`'s guards and the stored name, with POSIX `os.path.splitext`
    modelled exactly;
  - what `view_profile` shows to the owner and what it shows to everyone else;
  - the de-duplicating inserts `add_skill` and `add_experience`;
  - `update_profile`'s field-by-field update of the user row, in
    `ProfileRoutes.ProfileStore`.
- `timeago` from `app/utils.py`, over the elapsed time in whole seconds. The
  model proves that the printed string reads back as the bucket it reports.

Python's `//` on a positive divisor is floor division, which matches Dafny's
`/` on `int`. `str` of an integer is `Strings.IntToDecimal`, and reading it back
is proved to give the integer.

## Notes on the code

- **One shared enum.** Both `Job.status` and `Application.status` are typed
  with the same six-valued `ApplicationStatus`, and so are the model's rows.
- **IN_PROGRESS as the default.** A new application defaults to IN_PROGRESS,
  the same value a running job has.
- **Order of `apply_job`'s checks.** The job's status is checked before any
  earlier application is looked for, so applying twice to a job that is no
  longer open reports `NotOpen`.
- **Names in the database.** `db.Enum(ApplicationStatus)` stores a member's
  name (`OPEN`, `IN_PROGRESS`, …), not its value (`"Open"`, `"In Progress"`,
  …). The model has both mappings and their round trips.

## Model

| member | source | states |
|---|---|---|
| Models.StatusFromValue | app/models.py:7-13 | looking a member up by its value, as `ApplicationStatus(v)` does, gives the member with exactly that value; no member has a value the lookup refuses |
| Models.StatusValueRoundTrip | app/models.py:7-13 | every member is recovered from its value |
| Models.StatusFromName | app/models.py:101 | reading a stored column back by name, as `db.Enum(ApplicationStatus)` does, gives the member with exactly that name; no member has a name the lookup refuses |
| Models.StatusNameRoundTrip | app/models.py:126 | a status written to a column as its name reads back as the same member |
| Models.Statuses | app/models.py:7-13 | the enum has exactly six members with pairwise distinct values |
| Models.StatusListed | app/models.py:7-13 | no member is missing from the six |
| Models.Age | app/models.py:46-51 | None exactly when no date of birth is set; otherwise the one n whose n-th birthday has been reached by today and whose (n+1)-th has not |
| Models.AgeNonNegative | app/models.py:49-50 | someone born no later than today has an age of at least 0 |
| Models.AgeUnique | app/models.py:49-50 | the completed-years characterisation determines the age uniquely |
| Models.NewJob | app/models.py:95-107 | a job inserted without a status is OPEN, the column default; the other columns hold the submitted values |
| Models.NewApplication | app/models.py:121-126 | an application inserted without a status is IN_PROGRESS, the column default |
| Models.InsertAccepted | app/models.py:15-18 | inserting a (job, user) pair fails exactly when the pair is already stored; otherwise it is appended, and no pair is ever stored twice |
| Forms.ChoiceListsShape | app/forms.py:10-35 | both choice lists are the ('All', …) sentinel followed by ten entries whose value is their label |
| Forms.KeysHaveText | app/forms.py:10-35 | every listed choice value passes DataRequired |
| Forms.RatingFormErrors | app/forms.py:119-121 | the form validates exactly when a rating is present and between 1 and 5 and the comment is not blank |
| Forms.JobFormErrors | app/forms.py:82-90 | the form validates exactly when: the title is non-blank with 2..100 characters; the description is non-blank with at least 10; profession and location are listed values; the budget is present and non-zero; duration (≤ 50) and skills (≤ 200) are non-blank; every picture name ends in .jpg, .png or .jpeg |
| Forms.TitleErrors | app/forms.py:83 | the title passes exactly when it is non-blank and 2 to 100 characters long |
| Forms.DescriptionErrors | app/forms.py:84 | the description passes exactly when it is non-blank and at least 10 characters long |
| Forms.ChoiceErrors | app/forms.py:85-86 | a select field passes exactly when its value is one of the listed keys |
| Forms.BoundedTextErrors | app/forms.py:88-89 | a required text field with a maximum passes exactly when it is non-blank and within the maximum |
| Forms.RegistrationFormErrors | app/forms.py:38-54 | registration validates exactly when: the e-mail is non-blank, well-formed and unused; the username is 2..50 characters and unused; the password has at least 8 characters; the confirmation equals it. The e-mail and username errors are reported precisely when their own conditions fail |
| Forms.Emails | app/forms.py:46-49 | the e-mails listed are exactly those of the stored users: the rows `filter_by(email=…).first()` can find |
| Forms.Usernames | app/forms.py:51-54 | the usernames listed are exactly those of the stored users: the rows `filter_by(username=…).first()` can find |
| Forms.EmailErrors | app/forms.py:46-49 | the e-mail field fails exactly when it is blank, malformed, or already some user's e-mail |
| Forms.UsernameErrors | app/forms.py:51-54 | the username field fails exactly when it is blank, outside 2..50 characters, or already some user's username |
| Forms.SearchJobsFormErrors | app/forms.py:76-78 | the search form validates exactly when both selections are listed values, 'All' included |
| Forms.UpdateProfileFormErrors | app/forms.py:64-72 | the form validates exactly when names and e-mail are non-blank, the e-mail is well-formed, location and profession are listed, the date parses and a chosen picture is a jpg/png/jpeg |
| Forms.RequiredTextErrors | app/forms.py:65-66 | a text field with only `DataRequired` reports an error exactly when its text is empty or all whitespace |
| Forms.AddSkillFormErrors | app/forms.py:101-102 | the form validates exactly when the skill is not blank |
| Forms.AddExperienceFormErrors | app/forms.py:106-111 | the form validates exactly when title and company are not blank and both dates parse; the description is optional |
| Strings.Lower | app/routes/job.py:16 | `str.lower()` keeps the length and folds each letter A-Z to a-z, leaving every other character as it is |
| Strings.LastIndex | app/routes/job.py:16 | the split point of `rsplit('.', 1)`: None exactly when there is no '.', otherwise the position of a '.' with no '.' after it |
| Strings.ExtensionIsSuffix | app/routes/job.py:16 | "the text after the last '.', lower-cased, is e" is the same test as "the lower-cased name ends with '.' + e" |
| Strings.NatToDecimal | app/utils.py:14 | `str` of a natural number is a non-empty run of digits with no leading zero |
| Strings.DecimalRoundTrip | app/utils.py:14 | reading back the digits `str` printed gives the number |
| Strings.IntToDecimal | app/routes/profile.py:32 | `str` of an integer is digits, after a '-' for a negative, and reads back as the integer; it contains no '.' and no '/' |
| Query.Select | app/routes/job.py:87-92 | filtering keeps exactly the rows satisfying the condition and never lengthens the table |
| Query.SelectCounts | app/routes/job.py:87-92 | filtering keeps each satisfying row as many times as the table holds it, and no other row |
| Query.FirstWhere | app/routes/job.py:153 | `first()` returns the first row that matches, or none exactly when no row matches |
| Query.SelectPairwise | app/routes/job.py:129-135 | filtering a table keeps any rule that held between every two of its rows |
| Query.OrderDescSorted | app/routes/job.py:95 | `order_by(... .desc())` returns the same rows (a permutation) sorted largest key first |
| Query.OrderDescMembers | app/routes/job.py:95 | ordering neither adds nor drops a row |
| JobRoutes.AllowedFile | app/routes/job.py:14-16 | a name is allowed exactly when its lower-cased form ends with '.' and one of png, jpg, jpeg, gif |
| JobRoutes.GifPassesUploadCheckOnly | app/routes/job.py:14-16 | every name ending in .gif, in any letter case, passes the upload check but not the forms' picture validator |
| JobRoutes.ViewJobs | app/routes/job.py:87-97 | the listing holds exactly the OPEN jobs at the location and in the profession, each filter applied only when its value is neither empty nor 'All', each job as many times as the table holds it; it is ordered newest first |
| JobRoutes.ViewJobsPage | app/routes/job.py:81-103 | the page lists the filtered query when the request is handled and nothing otherwise; the fallback for 'All'/'All' never changes the list |
| JobRoutes.JobIndex | app/routes/job.py:122 | the lookup finds the job with the id, or reports that no job has it |
| JobRoutes.ApplicationIndex | app/routes/job.py:238 | the lookup finds the application with the id, or reports that none has it |
| JobRoutes.ApplicationOf | app/routes/job.py:153 | finds an application of the worker for the job, or reports that none exists |
| JobRoutes.AcceptedIndex | app/routes/job.py:191 | finds an ACCEPTED application of the job, or reports that none exists |
| JobRoutes.AcceptLeavesExactlyOneAccepted | app/routes/job.py:252-258 | after accepting, the chosen application is the one and only ACCEPTED application of its job, every other application of the job is REJECTED, and other jobs' applications are untouched |
| JobRoutes.JobStatusChangeKeepsJobs | app/routes/job.py:253 | changing one job's status to a job status keeps ids unique and statuses in range |
| JobRoutes.SameKeysKeepKeys | app/routes/job.py:256-258 | rewriting only statuses keeps application keys, per-worker uniqueness and job references |
| JobRoutes.AcceptKeepsApplications | app/routes/job.py:252-258 | accepting keeps at most one ACCEPTED application per job and every status in range |
| JobRoutes.AcceptKeepsOpenJobsUnaccepted | app/routes/job.py:252-253 | accepting moves the job out of OPEN, so no OPEN job gains an ACCEPTED application |
| JobRoutes.AcceptKeepsConsistent | app/routes/job.py:252-258 | accept_application's writes preserve the whole table invariant |
| JobRoutes.RejectKeepsConsistent | app/routes/job.py:282 | rejecting one application preserves the whole table invariant |
| JobRoutes.FinishKeepsConsistent | app/routes/job.py:176 | completing a job preserves the whole table invariant |
| JobRoutes.PostKeepsConsistent | app/routes/job.py:42-52 | adding a new OPEN job with a fresh id preserves the whole table invariant |
| JobRoutes.ApplyKeepsConsistent | app/routes/job.py:153-159 | adding an IN_PROGRESS application with a fresh id, for a stored job and a worker who has not applied, preserves the whole table invariant |
| JobRoutes.RateKeepsConsistent | app/routes/job.py:199-207 | adding a review of a stored job, rated 1 to 5 and with a fresh id, preserves the whole table invariant |
| JobRoutes.DeleteKeepsConsistent | app/routes/job.py:129-136 | removing a job with its reviews and applications preserves the whole table invariant and leaves no row referring to the job |
| JobRoutes.RateFindsTheAcceptedApplication | app/routes/job.py:191 | when a job has an ACCEPTED application, rate_job's lookup finds exactly that one |
| JobRoutes.RejectingTheAcceptedLeavesNoneAccepted | app/routes/job.py:274-283 | rejecting the accepted application leaves the job with no accepted worker, so it can no longer be rated |
| JobRoutes.AcceptKeepsStored | app/routes/job.py:252-260 | accepting keeps the invariant and every id below the next id to be assigned |
| JobRoutes.PostKeepsStored | app/routes/job.py:52-64 | posting keeps the invariant and the ids below the counters |
| JobRoutes.ApplyKeepsStored | app/routes/job.py:157-159 | applying keeps the invariant and the ids below the counters |
| JobRoutes.RejectKeepsStored | app/routes/job.py:282-283 | rejecting keeps the invariant and the ids below the counters |
| JobRoutes.FinishKeepsStored | app/routes/job.py:176-177 | finishing keeps the invariant and the ids below the counters |
| JobRoutes.RateKeepsStored | app/routes/job.py:199-207 | rating keeps the invariant and the ids below the counters |
| JobRoutes.DeleteKeepsStored | app/routes/job.py:129-136 | deleting keeps the invariant and the ids below the counters |
| JobRoutes.JobBoard.PostJob | app/routes/job.py:39-67 | a job is added exactly when the form is submitted and valid; it is OPEN, owned by the actor, and takes a fresh id, larger than every job id assigned so far; otherwise nothing changes |
| JobRoutes.JobBoard.ApplyJob | app/routes/job.py:147-161 | NotFound, NotOpen and AlreadyApplied exactly in the source's cases, in its order, with no change; otherwise exactly one IN_PROGRESS application for (job, actor) is appended |
| JobRoutes.JobBoard.AcceptApplication | app/routes/job.py:236-263 | nothing changes unless the job and application exist, the actor is the poster, the application belongs to the job and is not already ACCEPTED (the job's own status is not checked); otherwise the job becomes IN_PROGRESS, the application ACCEPTED, its siblings REJECTED, and the job then has exactly one ACCEPTED application |
| JobRoutes.JobBoard.RejectOthers | app/routes/job.py:255-258 | the loop turns every other application of the job to REJECTED and touches no other row |
| JobRoutes.JobBoard.RejectApplication | app/routes/job.py:270-286 | nothing changes unless the actor is the poster and the application belongs to the job; otherwise only that application becomes REJECTED and the job is left as it is |
| JobRoutes.JobBoard.FinishJob | app/routes/job.py:165-179 | the job becomes COMPLETED exactly when it exists, the actor is its poster and it is IN_PROGRESS; otherwise nothing changes |
| JobRoutes.JobBoard.RateJob | app/routes/job.py:184-211 | a review is stored only for a COMPLETED job with an ACCEPTED application and a valid form; its reviewee is that application's worker, its reviewer the actor (whoever that is) and its rating the submitted value; earlier reviews are not checked |
| JobRoutes.JobBoard.DeleteJob | app/routes/job.py:121-143 | a non-poster changes nothing; a successful delete removes exactly the job and the reviews and applications of that job; a failed commit leaves every table as it was |
| ProfileRoutes.BaseStart | app/routes/profile.py:31 | the last path component starts after the last '/' |
| ProfileRoutes.SplitExt | app/routes/profile.py:31 | `os.path.splitext`: stem and extension concatenate to the path; the extension is empty or a single '.'-led part of the last component with a non-dot before it; it is empty only when no such dot exists |
| ProfileRoutes.SavePicture | app/routes/profile.py:15-51 | a name is returned exactly when the content type starts with "image/", the size is within the limit and the resize succeeds; the name is the user's id followed by the upload's extension |
| ProfileRoutes.SavedNameSplits | app/routes/profile.py:30-32 | a stored picture's name splits back into the user's id and the original extension |
| ProfileRoutes.StemAndExtension | app/routes/profile.py:31-32 | the id's digits followed by an extension split into exactly those two parts |
| ProfileRoutes.SavedNamesOfUsersDiffer | app/routes/profile.py:32 | two different users' pictures are never stored under the same name |
| ProfileRoutes.UserIndex | app/routes/profile.py:58 | the lookup finds the user with the id, or reports that none has it |
| ProfileRoutes.ViewProfile | app/routes/profile.py:55-71 | a page exists exactly when the user exists. Posted jobs and applications are empty unless the viewer is the owner. For the owner they are exactly the owner's jobs and applications, each with its multiplicity in the table, newest first. The reviews are exactly those the user received, with their multiplicities |
| ProfileRoutes.AddSkillKeepsDistinct | app/routes/profile.py:125-131 | adding a skill the user does not have keeps skill names unique per user |
| ProfileRoutes.AddExperienceKeepsDistinct | app/routes/profile.py:143-156 | adding an experience the user does not have keeps (title, company) unique per user |
| ProfileRoutes.EditKeepsUsersDistinct | app/routes/profile.py:92-110 | rewriting one user's row with an e-mail no other user has keeps ids, e-mails and usernames unique |
| ProfileRoutes.PictureNames | app/routes/profile.py:101 | with no file chosen the picture validator passes; a chosen file passes exactly when its name is a jpg/png/jpeg |
| ProfileRoutes.ProfileStore.AddSkill | app/routes/profile.py:120-134 | an invalid form, or a name the actor already has, inserts nothing; otherwise exactly one skill (name, actor) is inserted, and skills stay duplicate-free |
| ProfileRoutes.ProfileStore.AddExperience | app/routes/profile.py:138-159 | an invalid form, or a (title, company) the actor already has, inserts nothing; otherwise exactly one experience is inserted |
| ProfileRoutes.ProfileStore.UpdateProfile | app/routes/profile.py:87-116 | a valid form overwrites the actor's name, e-mail, location, profession, date of birth and about text. A chosen file replaces the picture with what save_picture returns. Every other user is unchanged. An e-mail another user has leaves the table as it was |
| TimeAgo.Bucket | app/utils.py:3-25 | "Just now" exactly under one minute, future dates included. Otherwise the count is at least one and equals the whole units elapsed. Each unit is chosen on exactly its threshold range, and months never exceed 12 |
| TimeAgo.DivisionNests | app/utils.py:8-9 | floor-dividing by 60 and then by 60 (days by 365 or 30 likewise) is floor-dividing by the product |
| TimeAgo.TimeAgo | app/utils.py:3-25 | the string is "Just now" exactly under one minute, and otherwise starts with the count's digits |
| TimeAgo.SuffixesDiffer | app/utils.py:12-23 | two units never print the same text after the count |
| TimeAgo.RenderParses | app/utils.py:12-25 | every report reads back as the bucket it was printed from |
| TimeAgo.TimeAgoParses | app/utils.py:3-25 | timeago's string determines its bucket: count, unit and plural |
| TimeAgo.PluralUnlessOne | app/utils.py:12-23 | the text ends in "s ago" exactly when the count is not one |

## Left out

- Floating point: `Job.budget` is checked by the form (present and non-zero) but not stored in the model's job rows. The average rating on the profile page (`func.avg`) is not modelled.
- `secure_filename`, the e-mail syntax validator and the date parser are library code. Their results are parameters: `securedName`, `emailSyntaxOk`, and a date given as `None` when it does not parse. A date of birth absent from the request is `None` as well, so the model refuses it, whereas WTForms' `DateField` leaves its data `None` without an error when the field is missing from the form data altogether.
- `Strings.Lower` and `Strings.IsSpace` cover ASCII only: `IsSpace` holds for the ten ASCII characters `str.isspace()` accepts (space, \t, \n, \v, \f, \r, \x1c-\x1f). Python's Unicode case mapping and the non-ASCII whitespace (such as \x85 and \xa0) are not modelled.
- `MAX_CONTENT_LENGTH` is a parameter of `ProfileRoutes.SavePicture`. The application's configuration does not set it. Under Flask's default of None the size comparison would raise in Python; that path is not modelled.
- The image resize in `save_picture` is the parameter `resized`. The file writes, the old-picture removal in `update_profile`, `save_pictures` and the picture upload loop of `post_job` (including the `JobPicture` rows) are file I/O and are not modelled.
- `accepted_applicants` is modelled as its key rule only (`Models.InsertAccepted`). No route writes to it.
- `job_details` is not modelled. Its filter and ordering are instances of `Query.Select` and `Query.OrderDescSorted`. Its `get_or_404` sits inside a `try/except Exception`, so a missing job yields the error text with status 500 rather than a 404.
- `flash`, `redirect`, `render_template` and `jsonify` are replaced by outcome codes. `get_or_404` becomes the `NotFound` outcome, or `None` from `ProfileRoutes.ViewProfile`.
- Wall clocks (`datetime.now`, `date.today`, `utcnow`) are parameters: `now`, `today`, and the elapsed seconds given to `TimeAgo.TimeAgo`.
- The Jinja `timeago` filter comes from an external package and is not modelled. The model covers the project's own `timeago` in `app/utils.py`.
- Sessions, concurrent requests and CSRF tokens are not modelled. Each handler runs alone and either commits all its writes or none of them.
- ProfileRoutes.ProfileStore.UpdateProfile: an e-mail that collides with another user's makes the commit fail, modelled as `EmailTaken` with the table unchanged. In the application this is an unhandled database error, and a picture saved before the commit stays on disk.
- ProfileRoutes.ProfileStore.UpdateProfile: when a chosen file is refused by `save_picture`, the stored picture becomes None. This is the code as written.
- ProfileRoutes.ProfileStore.UpdateProfile: the row's `updated_at` timestamp and `created_at` column are not modelled.
- JobRoutes.JobBoard.PostJob: keys come from counters that never decrease (so do those of `ApplyJob` and `RateJob`). SQLite, without AUTOINCREMENT, gives a new row max(id)+1, so it reuses the id of the newest row once `delete_job` has removed it; the model assigns a larger id instead. The table invariants do not depend on which fresh id is chosen.
- JobRoutes.JobBoard.PostJob: the job's `category_id` (never set by the route) and `budget` (a float) are not stored in the modelled row.
- Login, registration handling and password hashing (`app/routes/auth.py`), `app/routes/home.py`, `app/routes/worker.py`, the application factory, the seed and check scripts, and the JavaScript under `app/static` are not part of this model.
