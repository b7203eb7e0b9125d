/**
 * The profile blueprint: the name and guards of `save_picture`, what
 * `view_profile` lists, and the handlers that write the skill, experience
 * and user tables (`add_skill`, `add_experience`, `update_profile`).
 */
module ProfileRoutes {
  import opened Wrappers
  import opened Strings
  import opened Models
  import opened Query
  import Forms

  // ---------------------------------------------------------------------
  // save_picture
  // ---------------------------------------------------------------------

  /** Where the last path component starts: just after the last '/'. */
  function BaseStart(p: string): (r: nat)
    ensures r <= |p| && '/' !in p[r..]
    ensures r > 0 ==> p[r - 1] == '/'
  {
    var sep := LastIndex(p, '/');
    if sep.Some? then sep.value + 1 else 0
  }

  /** Some character of p[lo..hi] is not a dot. */
  predicate HasNonDot(p: string, lo: nat, hi: nat)
    requires lo <= hi <= |p|
  {
    exists i :: lo <= i < hi && p[i] != '.'
  }

  /**
   * `os.path.splitext` on POSIX: the extension runs from the last '.' of the
   * last path component, provided some character other than '.' comes
   * before that dot in the component (so ".bashrc" has none).
   */
  function SplitExt(p: string): (r: (string, string))
    ensures r.0 + r.1 == p
    ensures r.1 != "" ==>
      && r.1[0] == '.' && '.' !in r.1[1..] && '/' !in r.1
      && BaseStart(p) <= |r.0| && HasNonDot(p, BaseStart(p), |r.0|)
    ensures r.1 == "" ==>
      forall d :: BaseStart(p) <= d < |p| && p[d] == '.' && '.' !in p[d + 1..] ==>
        !HasNonDot(p, BaseStart(p), d)
  {
    var start := BaseStart(p);
    var dot := LastIndex(p, '.');
    if dot.Some? && dot.value >= start && HasNonDot(p, start, dot.value) then
      assert p[dot.value..][1..] == p[dot.value + 1..];
      assert p[..dot.value] + p[dot.value..] == p;
      (p[..dot.value], p[dot.value..])
    else
      assert forall d :: start <= d < |p| && p[d] == '.' && '.' !in p[d + 1..] ==> dot == Some(d) by {
        forall d | start <= d < |p| && p[d] == '.' && '.' !in p[d + 1..] ensures dot == Some(d) {
          assert forall k :: d < k < |p| ==> p[k] == p[d + 1..][k - d - 1];
          LastIndexAt(p, '.', d);
        }
      }
      (p, "")
  }

  /** What `save_picture` is handed: the browser's file, as far as the guards look at it. */
  datatype Upload = Upload(filename: string, contentType: string, contentLength: int)

  /**
   * `save_picture`: None when the content type is not an image, when the
   * upload is larger than the configured limit, or when the image cannot be
   * resized (`resized`); otherwise the stored name, the user's id followed
   * by the extension of the secured file name. `securedName` stands for
   * `secure_filename(file.filename)`.
   */
  function SavePicture(userId: UserId, upload: Upload, securedName: string,
                       maxContentLength: int, resized: bool): (r: Option<string>)
    ensures r.Some? <==>
      StartsWith(upload.contentType, "image/") && upload.contentLength <= maxContentLength && resized
  {
    if !StartsWith(upload.contentType, "image/") then None
    else if upload.contentLength > maxContentLength then None
    else if !resized then None
    else Some(IntToDecimal(userId) + SplitExt(securedName).1)
  }

  /**
   * A stored picture's name splits into the user's id and the extension of
   * the uploaded file: the extension survives the renaming.
   */
  lemma SavedNameSplits(userId: UserId, upload: Upload, securedName: string, maxContentLength: int)
    requires SavePicture(userId, upload, securedName, maxContentLength, true).Some?
    ensures SplitExt(SavePicture(userId, upload, securedName, maxContentLength, true).value)
            == (IntToDecimal(userId), SplitExt(securedName).1)
  {
    StemAndExtension(userId, SplitExt(securedName).1);
  }

  /** The digits of a user id followed by an extension split back into the two. */
  lemma StemAndExtension(userId: UserId, e: string)
    requires e == "" || (e[0] == '.' && '.' !in e[1..] && '/' !in e)
    ensures SplitExt(IntToDecimal(userId) + e) == (IntToDecimal(userId), e)
  {
    var stem := IntToDecimal(userId);
    var q := stem + e;
    assert '/' !in q by {
      forall k | 0 <= k < |q| ensures q[k] != '/' {
        if k < |stem| { assert q[k] == stem[k]; } else { assert q[k] == e[k - |stem|]; }
      }
    }
    assert BaseStart(q) == 0;
    if e == "" {
      assert q == stem;
    } else {
      assert forall k :: |stem| < k < |q| ==> q[k] == e[1..][k - |stem| - 1];
      LastIndexAt(q, '.', |stem|);
      assert q[|stem| - 1] == stem[|stem| - 1];
      assert HasNonDot(q, 0, |stem|);
      assert q[..|stem|] == stem && q[|stem|..] == e;
    }
  }

  /** Two different users' pictures are never stored under the same name. */
  lemma SavedNamesOfUsersDiffer(u1: UserId, u2: UserId, up1: Upload, up2: Upload,
                                name1: string, name2: string, max: int)
    requires u1 != u2
    requires SavePicture(u1, up1, name1, max, true).Some? && SavePicture(u2, up2, name2, max, true).Some?
    ensures SavePicture(u1, up1, name1, max, true) != SavePicture(u2, up2, name2, max, true)
  {
    SavedNameSplits(u1, up1, name1, max);
    SavedNameSplits(u2, up2, name2, max);
  }

  // ---------------------------------------------------------------------
  // view_profile
  // ---------------------------------------------------------------------

  /** What the profile page lists besides the user's own record. */
  datatype ProfileView = ProfileView(
    user: User,
    postedJobs: seq<Job>,
    appliedJobs: seq<Application>,
    reviews: seq<Review>)

  function UserIndex(users: seq<User>, id: UserId): (r: Option<nat>)
    ensures r.Some? ==> r.value < |users| && users[r.value].id == id
    ensures r.None? ==> forall u :: u in users ==> u.id != id
  {
    FirstWhere(users, (u: User) => u.id == id)
  }

  /**
   * `view_profile`: None when no user has the id (the 404). The posted jobs
   * and the applications are listed only to the profile's owner, newest
   * first; the reviews the user received are listed to everyone.
   */
  function ViewProfile(users: seq<User>, jobs: seq<Job>, apps: seq<Application>, reviews: seq<Review>,
                       viewer: UserId, userId: UserId): (r: Option<ProfileView>)
    ensures r.None? <==> forall u :: u in users ==> u.id != userId
    ensures r.Some? ==> r.value.user in users && r.value.user.id == userId
    ensures r.Some? && viewer != userId ==> r.value.postedJobs == [] && r.value.appliedJobs == []
    ensures r.Some? && viewer == userId ==>
      && (forall j :: j in r.value.postedJobs <==> j in jobs && j.posterId == userId)
      && (forall a :: a in r.value.appliedJobs <==> a in apps && a.workerId == userId)
      && (forall j :: multiset(r.value.postedJobs)[j] == if j.posterId == userId then multiset(jobs)[j] else 0)
      && (forall a :: multiset(r.value.appliedJobs)[a] == if a.workerId == userId then multiset(apps)[a] else 0)
      && SortedDesc(r.value.postedJobs, DatePosted)
      && SortedDesc(r.value.appliedJobs, DateApplied)
    ensures r.Some? ==> forall v :: v in r.value.reviews <==> v in reviews && v.revieweeId == userId
    ensures r.Some? ==> forall v :: multiset(r.value.reviews)[v] == if v.revieweeId == userId then multiset(reviews)[v] else 0
  {
    var ui := UserIndex(users, userId);
    if ui.None? then None
    else
      var received := Select(reviews, (v: Review) => v.revieweeId == userId);
      forall v ensures multiset(received)[v] == if v.revieweeId == userId then multiset(reviews)[v] else 0 {
        SelectCounts(reviews, (v: Review) => v.revieweeId == userId, v);
      }
      if viewer == userId then
        var posted := Select(jobs, (j: Job) => j.posterId == userId);
        var applied := Select(apps, (a: Application) => a.workerId == userId);
        OrderDescSorted(posted, DatePosted);
        OrderDescSorted(applied, DateApplied);
        forall j ensures j in OrderDesc(posted, DatePosted) <==> j in posted {
          OrderDescMembers(posted, DatePosted, j);
        }
        forall a ensures a in OrderDesc(applied, DateApplied) <==> a in applied {
          OrderDescMembers(applied, DateApplied, a);
        }
        forall j ensures multiset(posted)[j] == if j.posterId == userId then multiset(jobs)[j] else 0 {
          SelectCounts(jobs, (j: Job) => j.posterId == userId, j);
        }
        forall a ensures multiset(applied)[a] == if a.workerId == userId then multiset(apps)[a] else 0 {
          SelectCounts(apps, (a: Application) => a.workerId == userId, a);
        }
        Some(ProfileView(users[ui.value], OrderDesc(posted, DatePosted), OrderDesc(applied, DateApplied), received))
      else
        Some(ProfileView(users[ui.value], [], [], received))
  }

  // ---------------------------------------------------------------------
  // The handlers that write the user, skill and experience tables
  // ---------------------------------------------------------------------

  /** What add_skill and add_experience answer, in place of their JSON message. */
  datatype AddOutcome =
    | Added       // success=True
    | Duplicate   // success=False: the user already has it
    | Invalid     // success=False: the form did not validate

  /** What update_profile ends in. */
  datatype UpdateOutcome =
    | Updated     // committed, then the redirect to the profile
    | FormShown   // the form was not submitted or did not validate; nothing is stored
    | EmailTaken  // the unique e-mail column refuses the commit; nothing is stored

  /** User ids, e-mails and usernames are unique columns. */
  ghost predicate UsersDistinct(users: seq<User>)
  {
    forall i, j :: 0 <= i < j < |users| ==>
      users[i].id != users[j].id && users[i].email != users[j].email && users[i].username != users[j].username
  }

  /** Skill ids are unique, and no user has the same skill name twice. */
  ghost predicate SkillsDistinct(skills: seq<Skill>)
  {
    forall i, j :: 0 <= i < j < |skills| ==>
      skills[i].id != skills[j].id && (skills[i].name != skills[j].name || skills[i].userId != skills[j].userId)
  }

  /** Experience ids are unique, and no user has two experiences with the same title at the same company. */
  ghost predicate ExperiencesDistinct(exps: seq<Experience>)
  {
    forall i, j :: 0 <= i < j < |exps| ==>
      && exps[i].id != exps[j].id
      && (exps[i].title != exps[j].title || exps[i].company != exps[j].company || exps[i].userId != exps[j].userId)
  }

  predicate SameSkill(s: Skill, name: string, userId: UserId) { s.name == name && s.userId == userId }

  predicate SameExperience(e: Experience, title: string, company: string, userId: UserId)
  {
    e.title == title && e.company == company && e.userId == userId
  }

  /** A new skill that no row duplicates keeps the skill table duplicate-free. */
  lemma AddSkillKeepsDistinct(skills: seq<Skill>, skill: Skill)
    requires SkillsDistinct(skills)
    requires forall s :: s in skills ==> s.id != skill.id && !SameSkill(s, skill.name, skill.userId)
    ensures SkillsDistinct(skills + [skill])
  {
    var t := skills + [skill];
    forall i, j | 0 <= i < j < |t|
      ensures t[i].id != t[j].id && (t[i].name != t[j].name || t[i].userId != t[j].userId)
    {
      if j == |skills| { assert t[i] in skills; }
    }
  }

  /** A new experience that no row duplicates keeps the experience table duplicate-free. */
  lemma AddExperienceKeepsDistinct(exps: seq<Experience>, exp: Experience)
    requires ExperiencesDistinct(exps)
    requires forall e :: e in exps ==> e.id != exp.id && !SameExperience(e, exp.title, exp.company, exp.userId)
    ensures ExperiencesDistinct(exps + [exp])
  {
    var t := exps + [exp];
    forall i, j | 0 <= i < j < |t|
      ensures t[i].id != t[j].id
      ensures t[i].title != t[j].title || t[i].company != t[j].company || t[i].userId != t[j].userId
    {
      if j == |exps| { assert t[i] in exps; }
    }
  }

  /** Replacing one user's row by one with the same id and username and an e-mail nobody else has keeps the columns unique. */
  lemma EditKeepsUsersDistinct(users: seq<User>, k: nat, u: User)
    requires UsersDistinct(users) && k < |users|
    requires u.id == users[k].id && u.username == users[k].username
    requires forall m :: 0 <= m < |users| && m != k ==> users[m].email != u.email
    ensures UsersDistinct(users[k := u])
  {
    var t := users[k := u];
    forall i, j | 0 <= i < j < |t|
      ensures t[i].id != t[j].id && t[i].email != t[j].email && t[i].username != t[j].username
    {
      assert users[i].id != users[j].id && users[i].username != users[j].username;
    }
  }

  /** The names FileAllowed sees: the file's name when one was chosen. */
  function PictureNames(picture: Option<Upload>): (r: seq<string>)
    ensures picture.None? ==> Forms.ImagesOnly(r)
    ensures picture.Some? ==> (Forms.ImagesOnly(r) <==> Forms.AllowedName(picture.value.filename, Forms.ImageExtensions))
  {
    if picture.Some? then
      var r := [picture.value.filename];
      assert r[0] == picture.value.filename;
      r
    else []
  }

  /**
   * The users, skills and experiences tables with the next ids the
   * database assigns. Each handler takes the logged-in user's id as `actor`.
   */
  class ProfileStore {
    var users: seq<User>
    var skills: seq<Skill>
    var experiences: seq<Experience>
    var nextSkillId: int
    var nextExperienceId: int

    ghost predicate Valid()
      reads this
    {
      && UsersDistinct(users)
      && SkillsDistinct(skills)
      && ExperiencesDistinct(experiences)
      && (forall s :: s in skills ==> s.id < nextSkillId)
      && (forall e :: e in experiences ==> e.id < nextExperienceId)
    }

    constructor (users: seq<User>)
      requires UsersDistinct(users)
      ensures Valid()
      ensures this.users == users && skills == [] && experiences == []
    {
      this.users := users;
      skills, experiences := [], [];
      nextSkillId, nextExperienceId := 1, 1;
    }

    /** add_skill: a valid form adds the skill unless the actor already has one by that name. */
    method AddSkill(actor: UserId, submitted: bool, name: string) returns (outcome: AddOutcome)
      requires Valid()
      modifies this
      ensures Valid()
      ensures outcome == Invalid <==> !submitted || Forms.AddSkillFormErrors(name) != []
      ensures outcome == Duplicate <==>
        submitted && Forms.AddSkillFormErrors(name) == [] && exists s :: s in old(skills) && SameSkill(s, name, actor)
      ensures outcome == Added ==>
        skills == old(skills) + [Skill(old(nextSkillId), name, actor)] && nextSkillId == old(nextSkillId) + 1
      ensures outcome != Added ==> skills == old(skills) && nextSkillId == old(nextSkillId)
      ensures users == old(users) && experiences == old(experiences) && nextExperienceId == old(nextExperienceId)
    {
      if !submitted || Forms.AddSkillFormErrors(name) != [] {
        return Invalid;
      }
      var existing := FirstWhere(skills, (s: Skill) => SameSkill(s, name, actor));
      if existing.Some? {
        assert skills[existing.value] in skills;
        return Duplicate;
      }
      var skill := Skill(nextSkillId, name, actor);
      AddSkillKeepsDistinct(skills, skill);
      assert forall s :: s in skills + [skill] ==> s.id < nextSkillId + 1;
      skills := skills + [skill];
      nextSkillId := nextSkillId + 1;
      outcome := Added;
    }

    /** add_experience: a valid form adds the experience unless the actor has one with that title at that company. */
    method AddExperience(actor: UserId, submitted: bool, title: string, company: string,
                         startDate: Option<Date>, endDate: Option<Date>, description: string)
      returns (outcome: AddOutcome)
      requires Valid()
      modifies this
      ensures Valid()
      ensures outcome == Invalid <==>
        !submitted || !Forms.AddExperienceFormValid(title, company, startDate, endDate)
      ensures outcome == Duplicate <==>
        && submitted && Forms.AddExperienceFormValid(title, company, startDate, endDate)
        && exists e :: e in old(experiences) && SameExperience(e, title, company, actor)
      ensures outcome == Added ==>
        && startDate.Some?
        && experiences == old(experiences) +
             [Experience(old(nextExperienceId), title, company, startDate.value, endDate, description, actor)]
        && nextExperienceId == old(nextExperienceId) + 1
      ensures outcome != Added ==> experiences == old(experiences) && nextExperienceId == old(nextExperienceId)
      ensures users == old(users) && skills == old(skills) && nextSkillId == old(nextSkillId)
    {
      if !submitted || !Forms.AddExperienceFormValid(title, company, startDate, endDate) {
        return Invalid;
      }
      var existing := FirstWhere(experiences, (e: Experience) => SameExperience(e, title, company, actor));
      if existing.Some? {
        assert experiences[existing.value] in experiences;
        return Duplicate;
      }
      var exp := Experience(nextExperienceId, title, company, startDate.value, endDate, description, actor);
      AddExperienceKeepsDistinct(experiences, exp);
      assert forall e :: e in experiences + [exp] ==> e.id < nextExperienceId + 1;
      experiences := experiences + [exp];
      nextExperienceId := nextExperienceId + 1;
      outcome := Added;
    }

    /**
     * update_profile: a valid form overwrites the actor's name, e-mail,
     * location, profession, date of birth and about text, field by field;
     * when a file was chosen the stored picture becomes what save_picture
     * returns, which is None when save_picture refuses the file. An e-mail
     * another user already has makes the commit fail. `dateOfBirth` is None
     * when the date does not parse; `securedName`, `maxContentLength` and
     * `resized` are save_picture's inputs.
     */
    method UpdateProfile(actor: UserId, submitted: bool, firstName: string, lastName: string,
                         email: string, emailSyntaxOk: bool, location: string, profession: string,
                         dateOfBirth: Option<Date>, aboutMe: string, picture: Option<Upload>,
                         securedName: string, maxContentLength: int, resized: bool)
      returns (outcome: UpdateOutcome)
      requires Valid()
      requires exists u :: u in users && u.id == actor
      modifies this
      ensures Valid()
      ensures outcome == FormShown <==>
        || !submitted
        || !Forms.UpdateProfileFormValid(firstName, lastName, email, emailSyntaxOk, location, profession,
                                      dateOfBirth.Some?, PictureNames(picture))
      ensures outcome == EmailTaken ==> exists u :: u in old(users) && u.id != actor && u.email == email
      ensures outcome == Updated ==> forall u :: u in old(users) && u.id != actor ==> u.email != email
      ensures outcome == Updated ==>
        && |users| == |old(users)|
        && forall k :: 0 <= k < |users| ==>
             users[k] == if old(users)[k].id != actor then old(users)[k]
                         else old(users)[k].(
                           firstName := Some(firstName), lastName := Some(lastName), email := email,
                           location := Some(location), profession := Some(profession),
                           dateOfBirth := dateOfBirth, aboutMe := Some(aboutMe),
                           profilePicture :=
                             if picture.Some? then SavePicture(actor, picture.value, securedName, maxContentLength, resized)
                             else old(users)[k].profilePicture)
      ensures outcome != Updated ==> users == old(users)
      ensures skills == old(skills) && experiences == old(experiences)
      ensures nextSkillId == old(nextSkillId) && nextExperienceId == old(nextExperienceId)
    {
      if !submitted || !Forms.UpdateProfileFormValid(firstName, lastName, email, emailSyntaxOk, location, profession,
                                                  dateOfBirth.Some?, PictureNames(picture)) {
        return FormShown;
      }
      var k := UserIndex(users, actor).value;
      var u := users[k];
      u := u.(firstName := Some(firstName));
      u := u.(lastName := Some(lastName));
      u := u.(email := email);
      u := u.(location := Some(location));
      u := u.(profession := Some(profession));
      u := u.(dateOfBirth := dateOfBirth);
      u := u.(aboutMe := Some(aboutMe));
      if picture.Some? {
        u := u.(profilePicture := SavePicture(actor, picture.value, securedName, maxContentLength, resized));
      }
      var clash := FirstWhere(users, (v: User) => v.id != actor && v.email == email);
      if clash.Some? {
        assert users[clash.value] in users;
        return EmailTaken;
      }
      ghost var before := users;
      forall m | 0 <= m < |before| && m != k ensures before[m].id != actor {
        if m < k { assert before[m].id != before[k].id; }
        if m > k { assert before[k].id != before[m].id; }
      }
      EditKeepsUsersDistinct(before, k, u);
      users := users[k := u];
      outcome := Updated;
    }
  }
}
