/** The validated inputs of the admin procedures and the documents they are shaped into
    before they reach the entity layer: optional fields are written only when supplied,
    prices become decimal strings, and the fixed defaults are filled in. */
module Inputs {
  import opened Base
  import opened Store
  import Decimal

  // ---- optional fields ----

  function Text(o: Option<string>): Option<Value> {
    match o
    case Some(s) => Some(Str(s))
    case None => None
  }

  function Number(o: Option<Decimal.JsNumber>): Option<Value> {
    match o
    case Some(n) => Some(Num(n))
    case None => None
  }

  function Flag(o: Option<bool>): Option<Value> {
    match o
    case Some(b) => Some(Bool(b))
    case None => None
  }

  function Moment(o: Option<int>): Option<Value> {
    match o
    case Some(t) => Some(Time(t))
    case None => None
  }

  /** A number written the way `String(n)` writes it. */
  function DecimalText(o: Option<Decimal.JsNumber>): Option<Value> {
    match o
    case Some(n) => Some(Str(Decimal.NumberText(n)))
    case None => None
  }

  /** A supplied number, once written as text, parses back to itself. */
  lemma DecimalTextReadsBack(o: Option<Decimal.JsNumber>)
    ensures o.Some? ==> DecimalText(o).Some? && DecimalText(o).value.Str?
    ensures o.Some? ==> Decimal.ParseNumber(DecimalText(o).value.s) == Some(o.value)
  {
    if o.Some? {
      Decimal.ParseNumberText(o.value);
    }
  }

  /** Field `f` of `d` is present exactly when `o` is, with its value. */
  predicate Carries(d: Doc, f: Field, o: Option<Value>) {
    (f in d <==> o.Some?) && (f in d ==> d[f] == o.value)
  }

  /** The object an input schema yields from its slots (field to supplied value, if any):
      an omitted optional field is absent rather than present and empty. */
  function Compact(slots: map<Field, Option<Value>>): (r: Doc)
    ensures forall f :: f in r ==> f in slots
    ensures forall f :: f in slots ==> Carries(r, f, slots[f])
  {
    map f | f in slots && slots[f].Some? :: slots[f].value
  }


  // ---- page content ----

  datatype PageInput = PageInput(
    pageKey: string,
    headline: Option<string>, subHeadline: Option<string>,
    missionText: Option<string>, visionText: Option<string>,
    studentsTrained: Option<Decimal.JsNumber>, expertInstructors: Option<Decimal.JsNumber>,
    jobPlacementRate: Option<Decimal.JsNumber>,
    heroImageUrl: Option<string>, bannerImageUrl: Option<string>, founderImageUrl: Option<string>,
    companyImageUrl: Option<string>, missionImageUrl: Option<string>, visionImageUrl: Option<string>,
    founderBio: Option<string>, founderMessage: Option<string>, aboutCompany: Option<string>)

  /** The page-content schema: each field with the value the input supplies, if any. */
  function PageSlots(i: PageInput): (m: map<Field, Option<Value>>)
    ensures Id !in m && CreatedAt !in m && UpdatedAt !in m
  {
    map[
      AboutCompany := Text(i.aboutCompany), FounderMessage := Text(i.founderMessage),
      FounderBio := Text(i.founderBio), VisionImageUrl := Text(i.visionImageUrl),
      MissionImageUrl := Text(i.missionImageUrl), CompanyImageUrl := Text(i.companyImageUrl),
      FounderImageUrl := Text(i.founderImageUrl), BannerImageUrl := Text(i.bannerImageUrl),
      HeroImageUrl := Text(i.heroImageUrl), JobPlacementRate := Number(i.jobPlacementRate),
      ExpertInstructors := Number(i.expertInstructors), StudentsTrained := Number(i.studentsTrained),
      VisionText := Text(i.visionText), MissionText := Text(i.missionText),
      SubHeadline := Text(i.subHeadline), Headline := Text(i.headline),
      PageKey := Some(Str(i.pageKey))]
  }

  /** The page input as passed whole to `updatePageContent`: the page key and exactly the
      supplied fields, and no id or timestamp. */
  function PageDoc(i: PageInput): (r: Doc)
    ensures forall f :: f in r ==> f in PageSlots(i)
    ensures forall f :: f in PageSlots(i) ==> Carries(r, f, PageSlots(i)[f])
    ensures PageKey in r && r[PageKey] == Str(i.pageKey)
    ensures Id !in r && CreatedAt !in r && UpdatedAt !in r
  {
    Compact(PageSlots(i))
  }

  // ---- courses ----

  /** `createCourse` input; the prices default to 0. */
  datatype CourseInput = CourseInput(
    title: string, description: Option<string>, imageUrl: Option<string>, duration: Option<string>,
    level: Option<string>, instructor: Option<string>, priceEgp: Option<Decimal.JsNumber>, priceUsd: Option<Decimal.JsNumber>)

  function CourseSlots(i: CourseInput): (m: map<Field, Option<Value>>)
    ensures Id !in m && CreatedAt !in m && UpdatedAt !in m
  {
    map[
      Instructor := Text(i.instructor), Level := Text(i.level), Duration := Text(i.duration),
      ImageUrl := Text(i.imageUrl), Description := Text(i.description), Title := Some(Str(i.title)),
      PriceUsd := DecimalText(Some(i.priceUsd.GetOr(Decimal.Zero))), PriceEgp := DecimalText(Some(i.priceEgp.GetOr(Decimal.Zero)))]
  }

  /** The course data `createCourse` stores: the input with both prices replaced by their
      decimal strings, so that a price reads back as the number given (0 when omitted). */
  function CourseDoc(i: CourseInput): (r: Doc)
    ensures forall f :: f in r ==> f in CourseSlots(i)
    ensures forall f :: f in CourseSlots(i) ==> Carries(r, f, CourseSlots(i)[f])
    ensures Title in r && r[Title] == Str(i.title)
    ensures PriceEgp in r && PriceUsd in r
    ensures Id !in r && CreatedAt !in r && UpdatedAt !in r
  {
    Compact(CourseSlots(i))
  }

  /** Both stored prices are text that reads back as the numbers given, 0 for an omitted one. */
  lemma CoursePricesReadBack(i: CourseInput)
    ensures CourseDoc(i)[PriceEgp].Str? && Decimal.ParseNumber(CourseDoc(i)[PriceEgp].s) == Some(i.priceEgp.GetOr(Decimal.Zero))
    ensures CourseDoc(i)[PriceUsd].Str? && Decimal.ParseNumber(CourseDoc(i)[PriceUsd].s) == Some(i.priceUsd.GetOr(Decimal.Zero))
  {
    DecimalTextReadsBack(Some(i.priceEgp.GetOr(Decimal.Zero)));
    DecimalTextReadsBack(Some(i.priceUsd.GetOr(Decimal.Zero)));
  }

  /** `updateCourse` input: the id and any subset of the course fields. */
  datatype CoursePatch = CoursePatch(
    id: string, title: Option<string>, description: Option<string>, imageUrl: Option<string>,
    duration: Option<string>, level: Option<string>, instructor: Option<string>,
    priceEgp: Option<Decimal.JsNumber>, priceUsd: Option<Decimal.JsNumber>)

  function CoursePatchSlots(i: CoursePatch): (m: map<Field, Option<Value>>)
    ensures Id !in m && CreatedAt !in m && UpdatedAt !in m
  {
    map[
      Instructor := Text(i.instructor), Level := Text(i.level), Duration := Text(i.duration),
      ImageUrl := Text(i.imageUrl), Description := Text(i.description), Title := Text(i.title),
      PriceUsd := DecimalText(i.priceUsd), PriceEgp := DecimalText(i.priceEgp)]
  }

  /** The update `updateCourse` passes on: without the id, with the supplied fields only, and
      a price present only when supplied, then as its decimal string. */
  function CoursePatchDoc(i: CoursePatch): (r: Doc)
    ensures forall f :: f in r ==> f in CoursePatchSlots(i)
    ensures forall f :: f in CoursePatchSlots(i) ==> Carries(r, f, CoursePatchSlots(i)[f])
    ensures PriceEgp in r <==> i.priceEgp.Some?
    ensures PriceUsd in r <==> i.priceUsd.Some?
    ensures Id !in r && CreatedAt !in r && UpdatedAt !in r
  {
    Compact(CoursePatchSlots(i))
  }

  /** A supplied price is passed on as text that reads back as the number given. */
  lemma CoursePatchPricesReadBack(i: CoursePatch)
    ensures PriceEgp in CoursePatchDoc(i) ==>
      CoursePatchDoc(i)[PriceEgp].Str? && Decimal.ParseNumber(CoursePatchDoc(i)[PriceEgp].s) == Some(i.priceEgp.value)
    ensures PriceUsd in CoursePatchDoc(i) ==>
      CoursePatchDoc(i)[PriceUsd].Str? && Decimal.ParseNumber(CoursePatchDoc(i)[PriceUsd].s) == Some(i.priceUsd.value)
  {
    DecimalTextReadsBack(i.priceEgp);
    DecimalTextReadsBack(i.priceUsd);
  }

  // ---- programs ----

  datatype ProgramInput = ProgramInput(
    title: string, description: Option<string>, imageUrl: Option<string>, duration: Option<string>,
    skills: Option<string>)

  function ProgramSlots(i: ProgramInput): (m: map<Field, Option<Value>>)
    ensures Id !in m && CreatedAt !in m && UpdatedAt !in m
  {
    map[
      Skills := Text(i.skills), Duration := Text(i.duration), ImageUrl := Text(i.imageUrl),
      Description := Text(i.description), Title := Some(Str(i.title))]
  }

  /** The program data `createProgram` stores: the input as given. */
  function ProgramDoc(i: ProgramInput): (r: Doc)
    ensures forall f :: f in r ==> f in ProgramSlots(i)
    ensures forall f :: f in ProgramSlots(i) ==> Carries(r, f, ProgramSlots(i)[f])
    ensures Title in r && r[Title] == Str(i.title)
    ensures Id !in r && CreatedAt !in r && UpdatedAt !in r
  {
    Compact(ProgramSlots(i))
  }

  datatype ProgramPatch = ProgramPatch(
    id: string, title: Option<string>, description: Option<string>, imageUrl: Option<string>,
    duration: Option<string>, skills: Option<string>)

  function ProgramPatchSlots(i: ProgramPatch): (m: map<Field, Option<Value>>)
    ensures Id !in m && CreatedAt !in m && UpdatedAt !in m
  {
    map[
      Skills := Text(i.skills), Duration := Text(i.duration), ImageUrl := Text(i.imageUrl),
      Description := Text(i.description), Title := Text(i.title)]
  }

  /** The update `updateProgram` passes on: the supplied fields, without the id. */
  function ProgramPatchDoc(i: ProgramPatch): (r: Doc)
    ensures forall f :: f in r ==> f in ProgramPatchSlots(i)
    ensures forall f :: f in ProgramPatchSlots(i) ==> Carries(r, f, ProgramPatchSlots(i)[f])
    ensures Id !in r && CreatedAt !in r && UpdatedAt !in r
  {
    Compact(ProgramPatchSlots(i))
  }

  // ---- blog posts ----

  datatype BlogInput = BlogInput(
    title: string, author: string, content: string, summary: Option<string>,
    imageUrl: Option<string>, publishedAt: Option<int>)

  /** The post schema, with `publishedAt` the supplied date or else the current time. */
  function BlogSlots(i: BlogInput, now: int): (m: map<Field, Option<Value>>)
    ensures Id !in m && CreatedAt !in m && UpdatedAt !in m
  {
    map[
      ImageUrl := Text(i.imageUrl), Summary := Text(i.summary), Content := Some(Str(i.content)),
      Author := Some(Str(i.author)), Title := Some(Str(i.title)),
      PublishedAt := Some(Time(i.publishedAt.GetOr(now)))]
  }

  /** The post data `createBlogPost` stores: the input, always with a publication date, which
      is the current time when none is supplied. */
  function BlogDoc(i: BlogInput, now: int): (r: Doc)
    ensures forall f :: f in r ==> f in BlogSlots(i, now)
    ensures forall f :: f in BlogSlots(i, now) ==> Carries(r, f, BlogSlots(i, now)[f])
    ensures Title in r && Author in r && Content in r
    ensures PublishedAt in r
    ensures i.publishedAt.Some? ==> r[PublishedAt] == Time(i.publishedAt.value)
    ensures i.publishedAt.None? ==> r[PublishedAt] == Time(now)
    ensures Id !in r && CreatedAt !in r && UpdatedAt !in r
  {
    Compact(BlogSlots(i, now))
  }

  datatype BlogPatch = BlogPatch(
    id: string, title: Option<string>, author: Option<string>, content: Option<string>,
    summary: Option<string>, imageUrl: Option<string>, publishedAt: Option<int>)

  function BlogPatchSlots(i: BlogPatch): (m: map<Field, Option<Value>>)
    ensures Id !in m && CreatedAt !in m && UpdatedAt !in m
  {
    map[
      ImageUrl := Text(i.imageUrl), Summary := Text(i.summary), Content := Text(i.content),
      Author := Text(i.author), Title := Text(i.title), PublishedAt := Moment(i.publishedAt)]
  }

  /** The update `updateBlogPost` passes on: the supplied fields, without the id; an omitted
      `publishedAt` is left alone rather than defaulted. */
  function BlogPatchDoc(i: BlogPatch): (r: Doc)
    ensures forall f :: f in r ==> f in BlogPatchSlots(i)
    ensures forall f :: f in BlogPatchSlots(i) ==> Carries(r, f, BlogPatchSlots(i)[f])
    ensures PublishedAt in r <==> i.publishedAt.Some?
    ensures i.publishedAt.Some? ==> r[PublishedAt] == Time(i.publishedAt.value)
    ensures Id !in r && CreatedAt !in r && UpdatedAt !in r
  {
    Compact(BlogPatchSlots(i))
  }

  // ---- job listings ----

  /** `createJobListing` input; it has no `isActive` field, so a caller cannot set one. */
  datatype JobInput = JobInput(
    title: string, location: string, description: string, requirements: Option<string>,
    jobType: Option<string>, salary: Option<string>)

  function JobSlots(i: JobInput): (m: map<Field, Option<Value>>)
    ensures Id !in m && CreatedAt !in m && UpdatedAt !in m
  {
    map[
      Salary := Text(i.salary), JobType := Text(i.jobType), Requirements := Text(i.requirements),
      Description := Some(Str(i.description)), Location := Some(Str(i.location)),
      Title := Some(Str(i.title)), IsActive := Some(Bool(true))]
  }

  /** The listing data `createJobListing` stores: the input, always active. */
  function JobDoc(i: JobInput): (r: Doc)
    ensures forall f :: f in r ==> f in JobSlots(i)
    ensures forall f :: f in JobSlots(i) ==> Carries(r, f, JobSlots(i)[f])
    ensures Title in r && Location in r && Description in r
    ensures IsActive in r && r[IsActive] == Bool(true)
    ensures Id !in r && CreatedAt !in r && UpdatedAt !in r
  {
    Compact(JobSlots(i))
  }

  datatype JobPatch = JobPatch(
    id: string, title: Option<string>, location: Option<string>, description: Option<string>,
    requirements: Option<string>, jobType: Option<string>, salary: Option<string>,
    isActive: Option<bool>)

  function JobPatchSlots(i: JobPatch): (m: map<Field, Option<Value>>)
    ensures Id !in m && CreatedAt !in m && UpdatedAt !in m
  {
    map[
      Salary := Text(i.salary), JobType := Text(i.jobType), Requirements := Text(i.requirements),
      Description := Text(i.description), Location := Text(i.location), Title := Text(i.title),
      IsActive := Flag(i.isActive)]
  }

  /** The update `updateJobListing` passes on: the supplied fields, without the id; here
      `isActive` may be switched either way. */
  function JobPatchDoc(i: JobPatch): (r: Doc)
    ensures forall f :: f in r ==> f in JobPatchSlots(i)
    ensures forall f :: f in JobPatchSlots(i) ==> Carries(r, f, JobPatchSlots(i)[f])
    ensures Carries(r, IsActive, Flag(i.isActive))
    ensures Id !in r && CreatedAt !in r && UpdatedAt !in r
  {
    Compact(JobPatchSlots(i))
  }

  // ---- public submissions ----

  datatype ApplicationInput = ApplicationInput(
    fullName: string, email: string, phone: Option<string>, message: Option<string>, courseId: string)

  function ApplicationSlots(i: ApplicationInput): (m: map<Field, Option<Value>>)
    ensures Id !in m && CreatedAt !in m && UpdatedAt !in m
  {
    map[
      Message := Text(i.message), Phone := Text(i.phone), CourseId := Some(Str(i.courseId)),
      Email := Some(Str(i.email)), FullName := Some(Str(i.fullName))]
  }

  /** The application data `createApplication` stores: the input as given. */
  function ApplicationDoc(i: ApplicationInput): (r: Doc)
    ensures forall f :: f in r ==> f in ApplicationSlots(i)
    ensures forall f :: f in ApplicationSlots(i) ==> Carries(r, f, ApplicationSlots(i)[f])
    ensures FullName in r && Email in r && CourseId in r
    ensures Id !in r && CreatedAt !in r && UpdatedAt !in r
  {
    Compact(ApplicationSlots(i))
  }

  /** `createMessage` input; the message type defaults to `"contact"`. */
  datatype MessageInput = MessageInput(
    name: string, email: string, phone: Option<string>, subject: Option<string>, message: string,
    messageType: Option<string>)

  function MessageSlots(i: MessageInput): (m: map<Field, Option<Value>>)
    ensures Id !in m && CreatedAt !in m && UpdatedAt !in m
  {
    map[
      Subject := Text(i.subject), Phone := Text(i.phone), Message := Some(Str(i.message)),
      Email := Some(Str(i.email)), Name := Some(Str(i.name)),
      MessageType := Some(Str(i.messageType.GetOr("contact")))]
  }

  /** The message data `createMessage` stores: the input, with the message type `"contact"`
      unless one is supplied. */
  function MessageDoc(i: MessageInput): (r: Doc)
    ensures forall f :: f in r ==> f in MessageSlots(i)
    ensures forall f :: f in MessageSlots(i) ==> Carries(r, f, MessageSlots(i)[f])
    ensures Name in r && Email in r && Message in r
    ensures MessageType in r
    ensures i.messageType.Some? ==> r[MessageType] == Str(i.messageType.value)
    ensures i.messageType.None? ==> r[MessageType] == Str("contact")
    ensures Id !in r && CreatedAt !in r && UpdatedAt !in r
  {
    Compact(MessageSlots(i))
  }
}
