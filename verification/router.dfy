/** The admin procedures: each call is shaped into one entity-layer operation (its plan),
    guarded by the admin role unless it is one of the public procedures, and executed
    against the store. */
module Router {
  import opened Base
  import opened Store
  import opened Entities
  import opened Inputs
  import opened Context

  // ---- calls and replies ----

  /** The procedures of the `auth` and `admin` routers, with their validated inputs. */
  datatype Call =
    | Me
    | GetPageContent(pageKey: string)
    | UpdatePageContent(page: PageInput)
    | GetCourses
    | CreateCourse(course: CourseInput)
    | UpdateCourse(coursePatch: CoursePatch)
    | DeleteCourse(id: string)
    | GetPrograms
    | CreateProgram(program: ProgramInput)
    | UpdateProgram(programPatch: ProgramPatch)
    | DeleteProgram(id: string)
    | GetBlogPosts
    | CreateBlogPost(post: BlogInput)
    | UpdateBlogPost(postPatch: BlogPatch)
    | DeleteBlogPost(id: string)
    | GetJobListings
    | GetAllJobListings
    | CreateJobListing(job: JobInput)
    | UpdateJobListing(jobPatch: JobPatch)
    | DeleteJobListing(id: string)
    | GetApplications
    | CreateApplication(application: ApplicationInput)
    | DeleteApplication(id: string)
    | GetMessages
    | CreateMessage(message: MessageInput)
    | DeleteMessage(id: string)
    | GetSiteSettings
    | UpdateSiteSetting(key: string, value: string)

  /** What a procedure returns: the caller, a looked-up record, a listing, a created record,
      `{ success: true }`, or the empty settings object. */
  datatype Reply =
    | Identity(user: Option<Caller>)
    | Found(doc: Option<Doc>)
    | Listed(docs: seq<Doc>)
    | Created(record: Doc)
    | Success
    | NoSettings

  /** A procedure's failure: the role guard's FORBIDDEN, or an error from the store. */
  datatype Failure = Forbidden(message: string) | StoreFailure(error: StoreError)

  const AdminRequired := "Admin access required"

  /** The procedures whose resolver starts with the admin-role check. */
  predicate Guarded(call: Call) {
    !(call.Me? || call.GetPageContent? || call.GetCourses? || call.GetPrograms? ||
      call.GetBlogPosts? || call.GetJobListings? || call.CreateApplication? ||
      call.CreateMessage? || call.GetSiteSettings?)
  }

  /** The collection a call may change, if any; the queries have none. */
  function Target(call: Call): Option<Kind> {
    if call.UpdatePageContent? then Some(PageContents)
    else if call.CreateCourse? || call.UpdateCourse? || call.DeleteCourse? then Some(Courses)
    else if call.CreateProgram? || call.UpdateProgram? || call.DeleteProgram? then Some(Programs)
    else if call.CreateBlogPost? || call.UpdateBlogPost? || call.DeleteBlogPost? then Some(BlogPosts)
    else if call.CreateJobListing? || call.UpdateJobListing? || call.DeleteJobListing? then Some(JobListings)
    else if call.CreateApplication? || call.DeleteApplication? then Some(Applications)
    else if call.CreateMessage? || call.DeleteMessage? then Some(Messages)
    else if call.UpdateSiteSetting? then Some(Settings)
    else None
  }

  /** The public procedures write, if at all, only the applications and the messages. */
  lemma PublicTargets(call: Call)
    requires !Guarded(call)
    ensures Target(call) == None || Target(call) == Some(Applications) || Target(call) == Some(Messages)
  {
    match call
    case Me =>
    case GetPageContent(_) =>
    case GetCourses =>
    case GetPrograms =>
    case GetBlogPosts =>
    case GetJobListings =>
    case CreateApplication(_) =>
    case CreateMessage(_) =>
    case GetSiteSettings =>
  }

  /** A store id not used in any collection, for the one document a call may add. */
  ghost predicate Fresh(db: Db, id: Id) {
    forall k :: id !in Col(db, k)
  }

  /** The delete procedures, each carrying the id to remove. */
  predicate Deletes(call: Call)
    ensures Deletes(call) ==> Target(call).Some?
  {
    call.DeleteCourse? || call.DeleteProgram? || call.DeleteBlogPost? ||
    call.DeleteJobListing? || call.DeleteApplication? || call.DeleteMessage?
  }

  /** The update procedures, each carrying a patch with the id to change. */
  predicate Updates(call: Call)
    ensures Updates(call) ==> Target(call).Some?
  {
    call.UpdateCourse? || call.UpdateProgram? || call.UpdateBlogPost? || call.UpdateJobListing?
  }

  // ---- what particular procedures achieve ----

  /** `createCourse`: the reply is the record with its id and without timestamps; the stored
      course carries both prices as text that reads back as the numbers given (0 when
      omitted), and both timestamps (so `getCourses` lists it: `Entities.CreateThenList`). */
  ghost predicate CourseCreated(db': Db, reply: Reply, i: CourseInput, now: int, id: Id) {
    && reply.Created? && Id in reply.record && reply.record[Id] == Str(id)
    && CreatedAt !in reply.record && UpdatedAt !in reply.record
    && id in Col(db', Courses)
    && var s := Col(db', Courses)[id];
      && PriceEgp in s && s[PriceEgp].Str? && Decimal.ParseNumber(s[PriceEgp].s) == Some(i.priceEgp.GetOr(Decimal.Zero))
      && PriceUsd in s && s[PriceUsd].Str? && Decimal.ParseNumber(s[PriceUsd].s) == Some(i.priceUsd.GetOr(Decimal.Zero))
      && CreatedAt in s && s[CreatedAt] == Time(now) && UpdatedAt in s && s[UpdatedAt] == Time(now)
  }

  /** `updateCourse` on an existing course: a supplied price is stored as text reading back as
      the number, an omitted one is kept, `createdAt` is kept and `updatedAt` is now. */
  ghost predicate CoursePatched(db: Db, db': Db, i: CoursePatch, now: int)
    requires i.id in Col(db, Courses)
  {
    && i.id in Col(db', Courses)
    && var s, s' := Col(db, Courses)[i.id], Col(db', Courses)[i.id];
      && (i.priceEgp.Some? ==> PriceEgp in s' && s'[PriceEgp].Str? && Decimal.ParseNumber(s'[PriceEgp].s) == Some(i.priceEgp.value))
      && (i.priceEgp.None? ==> (PriceEgp in s' <==> PriceEgp in s) && (PriceEgp in s ==> s'[PriceEgp] == s[PriceEgp]))
      && (i.priceUsd.Some? ==> PriceUsd in s' && s'[PriceUsd].Str? && Decimal.ParseNumber(s'[PriceUsd].s) == Some(i.priceUsd.value))
      && (i.priceUsd.None? ==> (PriceUsd in s' <==> PriceUsd in s) && (PriceUsd in s ==> s'[PriceUsd] == s[PriceUsd]))
      && (CreatedAt in s' <==> CreatedAt in s) && (CreatedAt in s ==> s'[CreatedAt] == s[CreatedAt])
      && UpdatedAt in s' && s'[UpdatedAt] == Time(now)
  }

  /** `admin.updateJobListing` on an existing listing: a supplied `isActive` is stored and an omitted one
      kept (and `getJobListings` offers it exactly when active: `Entities.ListedIffActive`). */
  ghost predicate JobPatched(db: Db, db': Db, i: JobPatch)
    requires i.id in Col(db, JobListings)
  {
    && i.id in Col(db', JobListings)
    && var s, s' := Col(db, JobListings)[i.id], Col(db', JobListings)[i.id];
      && (i.isActive.Some? ==> IsActive in s' && s'[IsActive] == Bool(i.isActive.value))
      && (i.isActive.None? ==> (IsActive in s' <==> IsActive in s) && (IsActive in s ==> s'[IsActive] == s[IsActive]))
  }

  /** `admin.updateBlogPost` on an existing post: a supplied date replaces `publishedAt`, an omitted
      one keeps it. */
  ghost predicate PostPatched(db: Db, db': Db, i: BlogPatch)
    requires i.id in Col(db, BlogPosts)
  {
    && i.id in Col(db', BlogPosts)
    && var s, s' := Col(db, BlogPosts)[i.id], Col(db', BlogPosts)[i.id];
      && (i.publishedAt.Some? ==> PublishedAt in s' && s'[PublishedAt] == Time(i.publishedAt.value))
      && (i.publishedAt.None? ==> (PublishedAt in s' <==> PublishedAt in s) && (PublishedAt in s ==> s'[PublishedAt] == s[PublishedAt]))
  }

  /** `createJobListing`: the stored listing is active, so `getJobListings` offers it. */
  ghost predicate JobCreated(db': Db, id: Id) {
    && id in Col(db', JobListings)
    && IsActive in Col(db', JobListings)[id] && Col(db', JobListings)[id][IsActive] == Bool(true)
  }

  /** `createBlogPost`: the stored post is dated with the supplied date or else now. */
  ghost predicate PostCreated(db': Db, i: BlogInput, now: int, id: Id) {
    && id in Col(db', BlogPosts)
    && PublishedAt in Col(db', BlogPosts)[id]
    && Col(db', BlogPosts)[id][PublishedAt] == Time(i.publishedAt.GetOr(now))
  }

  /** `createApplication`, `createMessage`: exactly one record is added to `k`, stamped with
      `createdAt`, and returned. */
  ghost predicate Submitted(db: Db, db': Db, k: Kind, reply: Reply, now: int, id: Id) {
    && reply.Created?
    && (forall x :: x in Col(db', k) <==> x in Col(db, k) || x == id)
    && CreatedAt in Col(db', k)[id] && Col(db', k)[id][CreatedAt] == Time(now)
  }

  /** `createMessage`: the stored message type is the supplied one, else `"contact"`. */
  ghost predicate MessageTyped(db': Db, i: MessageInput, id: Id) {
    && id in Col(db', Messages) && MessageType in Col(db', Messages)[id]
    && Col(db', Messages)[id][MessageType] == Str(i.messageType.GetOr("contact"))
  }

  // ---- resolvers ----

  /** The reply each query gives: the caller for `me`; the first record with the page key
      for `getPageContent`; the active listings for `getJobListings`; the whole collection,
      newest first by `publishedAt` for the blog and by `createdAt` otherwise, for the other
      listings; no settings for `getSiteSettings`. */
  ghost predicate Answered(user: Option<Caller>, db: Db, call: Call, r: Reply) {
    && (call.Me? ==> r == Identity(user))
    && (call.GetSiteSettings? ==> r == NoSettings)
    && (call.GetPageContent? ==> r == Found(FindBy(db, PageContents, PageKey, call.pageKey)))
    && (call.GetJobListings? ==> r == Listed(ActiveJobListings(db)))
    && (call.GetCourses? ==> r == Listed(ListNewestFirst(db, Courses, CreatedAt)))
    && (call.GetPrograms? ==> r == Listed(ListNewestFirst(db, Programs, CreatedAt)))
    && (call.GetBlogPosts? ==> r == Listed(ListNewestFirst(db, BlogPosts, PublishedAt)))
    && (call.GetAllJobListings? ==> r == Listed(ListNewestFirst(db, JobListings, CreatedAt)))
    && (call.GetApplications? ==> r == Listed(ListNewestFirst(db, Applications, CreatedAt)))
    && (call.GetMessages? ==> r == Listed(ListNewestFirst(db, Messages, CreatedAt)))
  }

  /** The queries: the reply, computed from the store without changing it. */
  method Query(user: Option<Caller>, db: Db, call: Call) returns (r: Reply)
    requires Target(call).None?
    ensures Answered(user, db, call, r)
    ensures call.GetPageContent? ==>
      r.Found? && (r.doc.None? <==> Matching(Col(db, PageContents), PageKey, Str(call.pageKey)) == {})
  {
    match call
    case Me => r := Identity(user);
    case GetPageContent(key) =>
      r := Found(FindBy(db, PageContents, PageKey, key));
    case GetCourses => r := Listed(ListNewestFirst(db, Courses, CreatedAt));
    case GetPrograms => r := Listed(ListNewestFirst(db, Programs, CreatedAt));
    case GetBlogPosts => r := Listed(ListNewestFirst(db, BlogPosts, PublishedAt));
    case GetJobListings => r := Listed(ActiveJobListings(db));
    case GetAllJobListings => r := Listed(ListNewestFirst(db, JobListings, CreatedAt));
    case GetApplications => r := Listed(ListNewestFirst(db, Applications, CreatedAt));
    case GetMessages => r := Listed(ListNewestFirst(db, Messages, CreatedAt));
    case GetSiteSettings => r := NoSettings;
  }

  /** The update procedures: merge the patch into record `id` of `k`; `{ success: true }`, or
      the store's `NotFound` for a missing id. */
  method Change(db: Db, k: Kind, id: Id, now: int, patch: Doc) returns (db': Db, r: Result<Reply, StoreError>)
    requires Editable(k)
    ensures r.Err? <==> id !in Col(db, k)
    ensures r.Err? ==> db' == db
    ensures r.Ok? ==> r.value == Success && Entities.Update(db, k, id, now, patch) == Ok(db')
    ensures forall k' :: k' != k ==> Col(db', k') == Col(db, k')
  {
    match Entities.Update(db, k, id, now, patch)
    case Ok(d) => db', r := d, Ok(Success);
    case Err(e) => db', r := db, Err(e);
  }

  /** `admin.updatePageContent`: the shaped page stored under its key, replacing the existing one. */
  method SavePage(db: Db, i: PageInput, now: int, freshId: Id) returns (db': Db)
    requires Fresh(db, freshId)
    ensures forall k' :: k' != PageContents ==> Col(db', k') == Col(db, k')
    ensures
      var before := Matching(Col(db, PageContents), PageKey, Str(i.pageKey));
      var after := Matching(Col(db', PageContents), PageKey, Str(i.pageKey));
      (before != {} ==> after == before) && (before == {} ==> after == {freshId})
    ensures db' == Entities.UpdatePageContent(db, i.pageKey, PageDoc(i), now, freshId)
  {
    var data := PageDoc(i);
    UpdatePageContentMatches(db, i.pageKey, data, now, freshId);
    db' := Entities.UpdatePageContent(db, i.pageKey, data, now, freshId);
  }

  /** `admin.updateSiteSetting`: the value stored under its key, read back by the next lookup. */
  method SaveSetting(db: Db, key: string, value: string, now: int, freshId: Id) returns (db': Db)
    requires Fresh(db, freshId)
    ensures forall k' :: k' != Settings ==> Col(db', k') == Col(db, k')
    ensures
      var found := FindBy(db', Settings, Key, key);
      found.Some? && Value in found.value && found.value[Value] == Str(value)
    ensures db' == SetSiteSetting(db, key, value, now, freshId)
  {
    SetSiteSettingThenGet(db, key, value, now, freshId);
    db' := SetSiteSetting(db, key, value, now, freshId);
  }

  /** `admin.createCourse`: the input shaped with its prices as text, stored in the courses. */
  method MakeCourse(db: Db, i: CourseInput, now: int, freshId: Id) returns (db': Db, r: Reply)
    requires Fresh(db, freshId)
    ensures forall k' :: k' != Courses ==> Col(db', k') == Col(db, k')
    ensures forall x :: x in Col(db', Courses) <==> x in Col(db, Courses) || x == freshId
    ensures CourseCreated(db', r, i, now, freshId)
    ensures r.Created? && (db', r.record) == Create(db, Courses, freshId, now, CourseDoc(i))
  {
    var data := CourseDoc(i);
    CoursePricesReadBack(i);
    assert freshId !in Col(db, Courses);
    var (d, record) := Create(db, Courses, freshId, now, data);
    db', r := d, Created(record);
  }

  /** `admin.createProgram`: the shaped input stored in the programs. */
  method MakeProgram(db: Db, i: ProgramInput, now: int, freshId: Id) returns (db': Db, r: Reply)
    requires Fresh(db, freshId)
    ensures forall k' :: k' != Programs ==> Col(db', k') == Col(db, k')
    ensures forall x :: x in Col(db', Programs) <==> x in Col(db, Programs) || x == freshId
    ensures r.Created? && (db', r.record) == Create(db, Programs, freshId, now, ProgramDoc(i))
  {
    var data := ProgramDoc(i);
    assert freshId !in Col(db, Programs);
    var (d, record) := Create(db, Programs, freshId, now, data);
    db', r := d, Created(record);
  }

  /** `admin.createBlogPost`: the shaped input stored in the posts, dated now unless a date is given. */
  method MakePost(db: Db, i: BlogInput, now: int, freshId: Id) returns (db': Db, r: Reply)
    requires Fresh(db, freshId)
    ensures forall k' :: k' != BlogPosts ==> Col(db', k') == Col(db, k')
    ensures forall x :: x in Col(db', BlogPosts) <==> x in Col(db, BlogPosts) || x == freshId
    ensures PostCreated(db', i, now, freshId)
    ensures r.Created? && (db', r.record) == Create(db, BlogPosts, freshId, now, BlogDoc(i, now))
  {
    var data := BlogDoc(i, now);
    assert freshId !in Col(db, BlogPosts);
    var (d, record) := Create(db, BlogPosts, freshId, now, data);
    db', r := d, Created(record);
  }

  /** `admin.createJobListing`: the input stored as an active listing. */
  method MakeJob(db: Db, i: JobInput, now: int, freshId: Id) returns (db': Db, r: Reply)
    requires Fresh(db, freshId)
    ensures forall k' :: k' != JobListings ==> Col(db', k') == Col(db, k')
    ensures forall x :: x in Col(db', JobListings) <==> x in Col(db, JobListings) || x == freshId
    ensures JobCreated(db', freshId)
    ensures r.Created? && (db', r.record) == Create(db, JobListings, freshId, now, JobDoc(i))
  {
    var data := JobDoc(i);
    assert freshId !in Col(db, JobListings);
    var (d, record) := Create(db, JobListings, freshId, now, data);
    db', r := d, Created(record);
  }

  /** `admin.createApplication`: the application stored, stamped and returned. */
  method Apply(db: Db, i: ApplicationInput, now: int, freshId: Id) returns (db': Db, r: Reply)
    requires Fresh(db, freshId)
    ensures forall k' :: k' != Applications ==> Col(db', k') == Col(db, k')
    ensures Submitted(db, db', Applications, r, now, freshId)
    ensures r.Created? && (db', r.record) == Submit(db, Applications, freshId, now, ApplicationDoc(i))
  {
    var data := ApplicationDoc(i);
    assert freshId !in Col(db, Applications);
    var (d, record) := Submit(db, Applications, freshId, now, data);
    db', r := d, Created(record);
  }

  /** `admin.createMessage`: the message stored with its type, stamped and returned. */
  method Contact(db: Db, i: MessageInput, now: int, freshId: Id) returns (db': Db, r: Reply)
    requires Fresh(db, freshId)
    ensures forall k' :: k' != Messages ==> Col(db', k') == Col(db, k')
    ensures Submitted(db, db', Messages, r, now, freshId)
    ensures MessageTyped(db', i, freshId)
    ensures r.Created? && (db', r.record) == Submit(db, Messages, freshId, now, MessageDoc(i))
  {
    var data := MessageDoc(i);
    assert freshId !in Col(db, Messages);
    var (d, record) := Submit(db, Messages, freshId, now, data);
    db', r := d, Created(record);
  }

  /** `admin.updateCourse`: the patch with its prices as text, merged into the course. */
  method ReviseCourse(db: Db, i: CoursePatch, now: int) returns (db': Db, r: Result<Reply, StoreError>)
    ensures r.Err? <==> i.id !in Col(db, Courses)
    ensures r.Err? ==> db' == db
    ensures r.Ok? ==> r.value == Success && CoursePatched(db, db', i, now)
    ensures r.Ok? ==> Entities.Update(db, Courses, i.id, now, CoursePatchDoc(i)) == Ok(db')
    ensures forall k' :: k' != Courses ==> Col(db', k') == Col(db, k')
  {
    var patch := CoursePatchDoc(i);
    CoursePatchPricesReadBack(i);
    db', r := Change(db, Courses, i.id, now, patch);
  }

  /** `admin.updateJobListing`: the shaped patch merged into the listing. */
  method ReviseJob(db: Db, i: JobPatch, now: int) returns (db': Db, r: Result<Reply, StoreError>)
    ensures r.Err? <==> i.id !in Col(db, JobListings)
    ensures r.Err? ==> db' == db
    ensures r.Ok? ==> r.value == Success && JobPatched(db, db', i)
    ensures r.Ok? ==> Entities.Update(db, JobListings, i.id, now, JobPatchDoc(i)) == Ok(db')
    ensures forall k' :: k' != JobListings ==> Col(db', k') == Col(db, k')
  {
    var patch := JobPatchDoc(i);
    db', r := Change(db, JobListings, i.id, now, patch);
  }

  /** `admin.updateBlogPost`: the shaped patch merged into the post. */
  method RevisePost(db: Db, i: BlogPatch, now: int) returns (db': Db, r: Result<Reply, StoreError>)
    ensures r.Err? <==> i.id !in Col(db, BlogPosts)
    ensures r.Err? ==> db' == db
    ensures r.Ok? ==> r.value == Success && PostPatched(db, db', i)
    ensures r.Ok? ==> Entities.Update(db, BlogPosts, i.id, now, BlogPatchDoc(i)) == Ok(db')
    ensures forall k' :: k' != BlogPosts ==> Col(db', k') == Col(db, k')
  {
    var patch := BlogPatchDoc(i);
    db', r := Change(db, BlogPosts, i.id, now, patch);
  }

  /** An update procedure without further promises (`admin.updateProgram`): the patch merged into `k`. */
  method Revise(db: Db, k: Kind, id: Id, now: int, patch: Doc) returns (db': Db, r: Result<Reply, StoreError>)
    requires Editable(k)
    ensures r.Err? <==> id !in Col(db, k)
    ensures r.Err? ==> db' == db
    ensures r.Ok? ==> r.value == Success && Entities.Update(db, k, id, now, patch) == Ok(db')
    ensures r.Ok? ==> UpdatedAt in Col(db', k)[id] && Col(db', k)[id][UpdatedAt] == Time(now)
    ensures r.Ok? ==> forall f :: f in patch && f != UpdatedAt ==> Col(db', k)[id][f] == patch[f]
    ensures forall k' :: k' != k ==> Col(db', k') == Col(db, k')
    ensures forall x :: x in Col(db', k) <==> x in Col(db, k)
  {
    db', r := Change(db, k, id, now, patch);
  }

  /** The delete procedures: record `id` of `k` removed, a missing one ignored. */
  method Remove(db: Db, k: Kind, id: Id) returns (db': Db)
    ensures forall k' :: k' != k ==> Col(db', k') == Col(db, k')
    ensures forall x :: x in Col(db', k) <==> x in Col(db, k) && x != id
    ensures forall x :: x in Col(db', k) ==> Col(db', k)[x] == Col(db, k)[x]
    ensures db' == Entities.Delete(db, k, id)
  {
    db' := Entities.Delete(db, k, id);
  }

  /** Every procedure with a target adds, changes, removes or upserts. */
  lemma TargetClasses(call: Call)
    requires Target(call).Some?
    ensures Creates(call) || Updates(call) || Deletes(call) || call.UpdatePageContent? || call.UpdateSiteSetting?
  {
  }

  /** No procedure belongs to two of the classes. */
  lemma Disjoint(call: Call)
    ensures Creates(call) ==> !Updates(call) && !Deletes(call) && !call.UpdatePageContent? && !call.UpdateSiteSetting?
    ensures Deletes(call) ==> !Updates(call) && !call.UpdatePageContent? && !call.UpdateSiteSetting?
    ensures Updates(call) ==> !call.UpdatePageContent? && !call.UpdateSiteSetting?
  {
  }

  /** The record an update procedure names. */
  function PatchedId(call: Call): Id
    requires Updates(call)
  {
    match call
    case UpdateCourse(i) => i.id
    case UpdateProgram(i) => i.id
    case UpdateBlogPost(i) => i.id
    case UpdateJobListing(i) => i.id
  }

  /** The procedures that add one record, under the fresh id. */
  predicate Creates(call: Call)
    ensures Creates(call) ==> Target(call).Some?
  {
    call.CreateCourse? || call.CreateProgram? || call.CreateBlogPost? || call.CreateJobListing? ||
    call.CreateApplication? || call.CreateMessage?
  }

  /** The store and the returned record of a create procedure: `Entities.Create` (or, for
      the write-once kinds, `Entities.Submit`) of the shaped input under the fresh id. */
  function Creation(db: Db, call: Call, now: int, freshId: Id): (Db, Doc)
    requires Creates(call) && Fresh(db, freshId)
  {
    match call
    case CreateCourse(i) => Create(db, Courses, freshId, now, CourseDoc(i))
    case CreateProgram(i) => Create(db, Programs, freshId, now, ProgramDoc(i))
    case CreateBlogPost(i) => Create(db, BlogPosts, freshId, now, BlogDoc(i, now))
    case CreateJobListing(i) => Create(db, JobListings, freshId, now, JobDoc(i))
    case CreateApplication(i) => Submit(db, Applications, freshId, now, ApplicationDoc(i))
    case CreateMessage(i) => Submit(db, Messages, freshId, now, MessageDoc(i))
  }

  /** The shaped patch an update procedure passes on. */
  function PatchOf(call: Call): Doc
    requires Updates(call)
  {
    match call
    case UpdateCourse(i) => CoursePatchDoc(i)
    case UpdateProgram(i) => ProgramPatchDoc(i)
    case UpdateBlogPost(i) => BlogPatchDoc(i)
    case UpdateJobListing(i) => JobPatchDoc(i)
  }

  /** The store after one of the two upsert procedures. */
  function Upserted(db: Db, call: Call, now: int, freshId: Id): Db
    requires call.UpdatePageContent? || call.UpdateSiteSetting?
    requires Fresh(db, freshId)
  {
    match call
    case UpdatePageContent(page) => Entities.UpdatePageContent(db, page.pageKey, PageDoc(page), now, freshId)
    case UpdateSiteSetting(key, value) => SetSiteSetting(db, key, value, now, freshId)
  }

  method MutateCreate(db: Db, call: Call, now: int, freshId: Id) returns (db': Db, r: Result<Reply, Failure>)
    requires Creates(call)
    requires Fresh(db, freshId)
    ensures CreateDone(db, call, now, freshId, db', r)
    ensures forall k :: Some(k) != Target(call) ==> Col(db', k) == Col(db, k)
    ensures forall x :: x in Col(db', Target(call).value) <==> x in Col(db, Target(call).value) || x == freshId
  {
    var reply;
    match call {
      case CreateCourse(i) =>
        assert Target(call) == Some(Courses);
        db', reply := MakeCourse(db, i, now, freshId);
      case CreateProgram(i) =>
        assert Target(call) == Some(Programs);
        db', reply := MakeProgram(db, i, now, freshId);
      case CreateBlogPost(i) =>
        assert Target(call) == Some(BlogPosts);
        db', reply := MakePost(db, i, now, freshId);
      case CreateJobListing(i) =>
        assert Target(call) == Some(JobListings);
        db', reply := MakeJob(db, i, now, freshId);
      case CreateApplication(i) =>
        assert Target(call) == Some(Applications);
        db', reply := Apply(db, i, now, freshId);
      case CreateMessage(i) =>
        assert Target(call) == Some(Messages);
        db', reply := Contact(db, i, now, freshId);
    }
    r := Ok(reply);
  }

  method MutateUpdate(db: Db, call: Call, now: int) returns (db': Db, r: Result<Reply, Failure>)
    requires Updates(call)
    ensures r.Err? ==> db' == db && r.error.StoreFailure?
    ensures UpdateDone(db, call, now, db', r)
    ensures forall k :: Some(k) != Target(call) ==> Col(db', k) == Col(db, k)
  {
    var res;
    match call {
      case UpdateCourse(i) =>
        assert Target(call) == Some(Courses);
        db', res := ReviseCourse(db, i, now);
      case UpdateProgram(i) =>
        assert Target(call) == Some(Programs);
        db', res := Revise(db, Programs, i.id, now, ProgramPatchDoc(i));
      case UpdateBlogPost(i) =>
        assert Target(call) == Some(BlogPosts);
        db', res := RevisePost(db, i, now);
      case UpdateJobListing(i) =>
        assert Target(call) == Some(JobListings);
        db', res := ReviseJob(db, i, now);
    }
    r := Lift(res);
  }

  method MutateUpsert(db: Db, call: Call, now: int, freshId: Id) returns (db': Db, r: Result<Reply, Failure>)
    requires call.UpdatePageContent? || call.UpdateSiteSetting?
    requires Fresh(db, freshId)
    ensures forall k :: Some(k) != Target(call) ==> Col(db', k) == Col(db, k)
    ensures UpsertDone(db, call, now, freshId, db', r)
  {
    r := Ok(Success);
    match call {
      case UpdatePageContent(page) =>
        assert Target(call) == Some(PageContents);
        db' := SavePage(db, page, now, freshId);
      case UpdateSiteSetting(key, value) =>
        assert Target(call) == Some(Settings);
        db' := SaveSetting(db, key, value, now, freshId);
    }
  }

  method MutateDelete(db: Db, call: Call) returns (db': Db, r: Result<Reply, Failure>)
    requires Deletes(call)
    ensures forall k :: Some(k) != Target(call) ==> Col(db', k) == Col(db, k)
    ensures forall x :: x in Col(db', Target(call).value) <==> x in Col(db, Target(call).value) && x != call.id
    ensures DeleteDone(db, call, db', r)
  {
    r := Ok(Success);
    match call {
      case DeleteCourse(id) =>
        assert Target(call) == Some(Courses);
        db' := Remove(db, Courses, id);
      case DeleteProgram(id) =>
        assert Target(call) == Some(Programs);
        db' := Remove(db, Programs, id);
      case DeleteBlogPost(id) =>
        assert Target(call) == Some(BlogPosts);
        db' := Remove(db, BlogPosts, id);
      case DeleteJobListing(id) =>
        assert Target(call) == Some(JobListings);
        db' := Remove(db, JobListings, id);
      case DeleteApplication(id) =>
        assert Target(call) == Some(Applications);
        db' := Remove(db, Applications, id);
      case DeleteMessage(id) =>
        assert Target(call) == Some(Messages);
        db' := Remove(db, Messages, id);
    }
  }

  /** One procedure call by `user`: the role guard first, with no store access when it
      refuses, then the resolver. A failure leaves the store as it was, and only the call's
      target collection can change. */
  method Dispatch(user: Option<Caller>, db: Db, call: Call, now: int, freshId: Id) returns (db': Db, r: Result<Reply, Failure>)
    requires Fresh(db, freshId)
    ensures Guarded(call) && !IsAdmin(user) ==> db' == db && r == Err(Forbidden(AdminRequired))
    ensures r.Err? && r.error.Forbidden? ==> Guarded(call) && !IsAdmin(user)
    ensures r.Err? ==> db' == db
    ensures Target(call).None? ==> db' == db
    ensures forall k :: Some(k) != Target(call) ==> Col(db', k) == Col(db, k)
    ensures (IsAdmin(user) || !Guarded(call)) && Target(call).None? ==> r.Ok? && Answered(user, db, call, r.value)
    ensures (IsAdmin(user) || !Guarded(call)) && Target(call).Some? ==> Resolved(db, call, now, freshId, db', r)
  {
    if Guarded(call) && !IsAdmin(user) {
      return db, Err(Forbidden(AdminRequired));
    }
    if Target(call).None? {
      var reply := Query(user, db, call);
      return db, Ok(reply);
    }
    db', r := Mutate(db, call, now, freshId);
  }

  /** What a create procedure does: it stores and returns `Creation`. */
  ghost predicate CreateDone(db: Db, call: Call, now: int, freshId: Id, db': Db, r: Result<Reply, Failure>)
    requires Creates(call) && Fresh(db, freshId)
  {
    r.Ok? && r.value.Created? && (db', r.value.record) == Creation(db, call, now, freshId)
  }

  /** What an update procedure does: it fails exactly when the named record is missing, and
      otherwise it is `Entities.Update` with the shaped patch. */
  ghost predicate UpdateDone(db: Db, call: Call, now: int, db': Db, r: Result<Reply, Failure>)
    requires Updates(call)
  {
    && (r.Err? <==> PatchedId(call) !in Col(db, Target(call).value))
    && (r.Ok? ==> r.value == Success)
    && (r.Ok? ==> Entities.Update(db, Target(call).value, PatchedId(call), now, PatchOf(call)) == Ok(db'))
  }

  /** What a delete procedure does: `Entities.Delete` of the named id. */
  ghost predicate DeleteDone(db: Db, call: Call, db': Db, r: Result<Reply, Failure>)
    requires Deletes(call)
  {
    r == Ok(Success) && db' == Entities.Delete(db, Target(call).value, call.id)
  }

  /** What an upsert procedure does: `Upserted`. */
  ghost predicate UpsertDone(db: Db, call: Call, now: int, freshId: Id, db': Db, r: Result<Reply, Failure>)
    requires call.UpdatePageContent? || call.UpdateSiteSetting?
    requires Fresh(db, freshId)
  {
    r == Ok(Success) && db' == Upserted(db, call, now, freshId)
  }

  /** What a procedure with a target collection does to the store and replies, by class. */
  ghost predicate Resolved(db: Db, call: Call, now: int, freshId: Id, db': Db, r: Result<Reply, Failure>)
    requires Target(call).Some? && Fresh(db, freshId)
  {
    && (Creates(call) ==> CreateDone(db, call, now, freshId, db', r))
    && (Updates(call) ==> UpdateDone(db, call, now, db', r))
    && (Deletes(call) ==> DeleteDone(db, call, db', r))
    && (call.UpdatePageContent? || call.UpdateSiteSetting? ==> UpsertDone(db, call, now, freshId, db', r))
  }

  /** Every procedure with a target collection, once the guard has let it through. */
  method Mutate(db: Db, call: Call, now: int, freshId: Id) returns (db': Db, r: Result<Reply, Failure>)
    requires Target(call).Some?
    requires Fresh(db, freshId)
    ensures r.Err? ==> db' == db && r.error.StoreFailure?
    ensures forall k :: Some(k) != Target(call) ==> Col(db', k) == Col(db, k)
    ensures Resolved(db, call, now, freshId, db', r)
  {
    TargetClasses(call);
    if Creates(call) {
      Disjoint(call);
      db', r := MutateCreate(db, call, now, freshId);
    } else if Deletes(call) {
      Disjoint(call);
      db', r := MutateDelete(db, call);
    } else if Updates(call) {
      db', r := MutateUpdate(db, call, now);
    } else {
      db', r := MutateUpsert(db, call, now, freshId);
    }
  }

  function Lift(res: Result<Reply, StoreError>): (r: Result<Reply, Failure>)
    ensures r.Ok? <==> res.Ok?
    ensures r.Ok? ==> r.value == res.value
    ensures r.Err? ==> r.error == StoreFailure(res.error)
  {
    match res
    case Ok(reply) => Ok(reply)
    case Err(e) => Err(StoreFailure(e))
  }

  // ---- the request path ----

  /** One request end to end: resolve the caller, then run the procedure as that caller.
      Outside development mode, a request whose verification failed is refused every guarded
      procedure and can change no collection but the applications and the messages. */
  method Handle<Req, Res>(req: Req, res: Res, auth: AuthOutcome, nodeEnv: string,
                          db: Db, call: Call, now: int, freshId: Id)
    returns (db': Db, r: Result<Reply, Failure>)
    requires Fresh(db, freshId)
    ensures auth.Rejected? && nodeEnv != Development && Guarded(call) ==>
      db' == db && r == Err(Forbidden(AdminRequired))
    ensures auth.Rejected? && nodeEnv != Development ==>
      forall k :: k != Applications && k != Messages ==> Col(db', k) == Col(db, k)
    ensures auth.Verified? && auth.user.role != "admin" && Guarded(call) ==>
      db' == db && r == Err(Forbidden(AdminRequired))
    ensures auth.Rejected? && nodeEnv == Development ==> !(r.Err? && r.error.Forbidden?)
  {
    var ctx := CreateContext(req, res, auth, nodeEnv);
    AdminIff(req, res, auth, nodeEnv);
    if !Guarded(call) {
      PublicTargets(call);
    }
    db', r := Dispatch(ctx.user, db, call, now, freshId);
  }
}
