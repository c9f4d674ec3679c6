/** The entity access layer over the document store: one collection per entity kind,
    upserts keyed by a secondary field, timestamped creates and partial-merge updates. */
module Entities {
  import opened Base
  import opened Store

  /** The collections the site keeps, one per entity kind. */
  datatype Kind =
    | Users | PageContents | Courses | Programs | BlogPosts | JobListings
    | Applications | Messages | Settings

  /** The whole store: one collection per kind; a kind never written to is empty. */
  datatype Db = Db(cols: map<Kind, Collection>)

  function Col(db: Db, k: Kind): Collection {
    if k in db.cols then db.cols[k] else map[]
  }

  /** `db` with collection `k` replaced by `c` and every other collection untouched. */
  function Put(db: Db, k: Kind, c: Collection): (r: Db)
    ensures Col(r, k) == c
    ensures forall k' :: k' != k ==> Col(r, k') == Col(db, k')
  {
    Db(db.cols[k := c])
  }

  /** Kinds whose records the admin creates, edits and deletes by id. */
  predicate Editable(k: Kind) {
    k == Courses || k == Programs || k == BlogPosts || k == JobListings
  }

  /** Kinds whose records are submitted once and only ever deleted afterwards. */
  predicate WriteOnce(k: Kind) {
    k == Applications || k == Messages
  }

  // ---- users ----

  datatype Role = UserRole | AdminRole

  function RoleName(r: Role): string {
    match r
    case UserRole => "user"
    case AdminRole => "admin"
  }

  /** The fields a caller passes to `upsertUser`; absent name/email/login method are
      written as null. */
  datatype InsertUser = InsertUser(
    openId: string, name: Option<string>, email: Option<string>, loginMethod: Option<string>,
    role: Option<Role>, lastSignedIn: Option<int>)

  /** The role a user is written with: the explicit one, else admin exactly for the owner. */
  function ResolveRole(u: InsertUser, ownerOpenId: string): (r: Role)
    ensures u.role.Some? ==> r == u.role.value
    ensures u.role.None? ==> (r == AdminRole <==> u.openId == ownerOpenId)
  {
    match u.role
    case Some(r) => r
    case None => if u.openId == ownerOpenId then AdminRole else UserRole
  }

  function Nullable(o: Option<string>): Value {
    match o
    case Some(s) => Str(s)
    case None => Null
  }

  /** The user fields both branches of `upsertUser` write. */
  predicate SignedIn(d: Doc, u: InsertUser, ownerOpenId: string, now: int) {
    && Name in d && d[Name] == Nullable(u.name)
    && Email in d && d[Email] == Nullable(u.email)
    && LoginMethod in d && d[LoginMethod] == Nullable(u.loginMethod)
    && Role in d && d[Role] == Str(RoleName(ResolveRole(u, ownerOpenId)))
    && LastSignedIn in d && d[LastSignedIn] == Time(u.lastSignedIn.GetOr(now))
    && UpdatedAt in d && d[UpdatedAt] == Time(now)
  }

  /** The user document `d` with the fields `upsertUser` writes in both branches. */
  function SignIn(d: Doc, u: InsertUser, ownerOpenId: string, now: int): (d': Doc)
    ensures SignedIn(d', u, ownerOpenId, now)
    ensures forall f :: f != Name && f != Email && f != LoginMethod && f != Role && f != LastSignedIn && f != UpdatedAt ==>
      (f in d' <==> f in d) && (f in d ==> d'[f] == d[f])
    ensures OpenId in d ==> OpenId in d' && d'[OpenId] == d[OpenId]
    ensures CreatedAt in d ==> CreatedAt in d' && d'[CreatedAt] == d[CreatedAt]
  {
    d[Name := Nullable(u.name)]
     [Email := Nullable(u.email)]
     [LoginMethod := Nullable(u.loginMethod)]
     [Role := Str(RoleName(ResolveRole(u, ownerOpenId)))]
     [LastSignedIn := Time(u.lastSignedIn.GetOr(now))]
     [UpdatedAt := Time(now)]
  }

  /** The update branch of `upsertUser`: rewrite the sign-in fields of the user `id`,
      keeping its open id, its creation time and every other user. */
  function RefreshUser(db: Db, id: Id, u: InsertUser, ownerOpenId: string, now: int): (db': Db)
    requires id in Col(db, Users)
    ensures forall k :: k != Users ==> Col(db', k) == Col(db, k)
    ensures forall x :: x in Col(db', Users) <==> x in Col(db, Users)
    ensures SignedIn(Col(db', Users)[id], u, ownerOpenId, now)
    ensures OpenId in Col(db, Users)[id] ==>
      OpenId in Col(db', Users)[id] && Col(db', Users)[id][OpenId] == Col(db, Users)[id][OpenId]
    ensures CreatedAt in Col(db, Users)[id] ==>
      CreatedAt in Col(db', Users)[id] && Col(db', Users)[id][CreatedAt] == Col(db, Users)[id][CreatedAt]
    ensures Col(db', Users) == Col(db, Users)[id := Col(db', Users)[id]]
  {
    var users := Col(db, Users);
    Put(db, Users, users[id := SignIn(users[id], u, ownerOpenId, now)])
  }

  /** The create branch of `upsertUser`: one new user under `newId`, created and updated now. */
  function RegisterUser(db: Db, newId: Id, u: InsertUser, ownerOpenId: string, now: int): (db': Db)
    requires newId !in Col(db, Users)
    ensures forall k :: k != Users ==> Col(db', k) == Col(db, k)
    ensures forall x :: x in Col(db', Users) <==> x in Col(db, Users) || x == newId
    ensures |Col(db', Users)| == |Col(db, Users)| + 1
    ensures SignedIn(Col(db', Users)[newId], u, ownerOpenId, now)
    ensures OpenId in Col(db', Users)[newId] && Col(db', Users)[newId][OpenId] == Str(u.openId)
    ensures CreatedAt in Col(db', Users)[newId] && Col(db', Users)[newId][CreatedAt] == Time(now)
    ensures Col(db', Users) == Col(db, Users)[newId := Col(db', Users)[newId]]
  {
    var first := map[OpenId := Str(u.openId), CreatedAt := Time(now)];
    assert OpenId in first && CreatedAt in first;
    Put(db, Users, Add(Col(db, Users), newId, SignIn(first, u, ownerOpenId, now)))
  }

  /** `upsertUser`: refresh the user with this open id if there is one, else register one
      under the fresh id `newId`; no other collection changes and at most one user is added. */
  function UpsertUser(db: Db, u: InsertUser, ownerOpenId: string, now: int, newId: Id): (db': Db)
    requires newId !in Col(db, Users)
    ensures forall k :: k != Users ==> Col(db', k) == Col(db, k)
    ensures FindFirst(Col(db, Users), OpenId, Str(u.openId)).Some? ==>
      db' == RefreshUser(db, FindFirst(Col(db, Users), OpenId, Str(u.openId)).value, u, ownerOpenId, now)
    ensures FindFirst(Col(db, Users), OpenId, Str(u.openId)).None? ==>
      db' == RegisterUser(db, newId, u, ownerOpenId, now)
  {
    match FindFirst(Col(db, Users), OpenId, Str(u.openId))
    case Some(id) => RefreshUser(db, id, u, ownerOpenId, now)
    case None => RegisterUser(db, newId, u, ownerOpenId, now)
  }

  /** The equality lookups `getUserByOpenId`, `getPageContent` and `getSiteSetting`: the first
      document of `k` whose `field` is `value`, with its id merged in. */
  function FindBy(db: Db, k: Kind, field: Field, value: string): (r: Option<Doc>)
    requires field != Id
    ensures r.None? <==> forall id :: id in Col(db, k) ==> !(field in Col(db, k)[id] && Col(db, k)[id][field] == Str(value))
    ensures r.Some? ==> field in r.value && r.value[field] == Str(value)
    ensures r.None? <==> Matching(Col(db, k), field, Str(value)) == {}
  {
    assert FindFirst(Col(db, k), field, Str(value)).Some? ==>
      FindFirst(Col(db, k), field, Str(value)).value in Matching(Col(db, k), field, Str(value));
    match FindFirst(Col(db, k), field, Str(value))
    case Some(id) => Some(WithId(id, Col(db, k)[id]))
    case None => None
  }

  // ---- page content ----

  /** The update branch of `updatePageContent`: merge `data` into page document `id` and
      refresh `updatedAt`; `createdAt`, the other fields and the other pages are kept. */
  function MergePage(db: Db, id: Id, data: Doc, now: int): (db': Db)
    requires id in Col(db, PageContents)
    ensures forall k :: k != PageContents ==> Col(db', k) == Col(db, k)
    ensures forall x :: x in Col(db', PageContents) <==> x in Col(db, PageContents)
    ensures forall f :: f in Col(db', PageContents)[id] <==> f in Col(db, PageContents)[id] || f in data || f == UpdatedAt
    ensures forall f :: f in data && f != UpdatedAt ==> Col(db', PageContents)[id][f] == data[f]
    ensures Col(db', PageContents)[id][UpdatedAt] == Time(now)
    ensures forall f :: f in Col(db, PageContents)[id] && f !in data && f != UpdatedAt ==>
      Col(db', PageContents)[id][f] == Col(db, PageContents)[id][f]
    ensures Col(db', PageContents) == Col(db, PageContents)[id := Col(db', PageContents)[id]]
  {
    Put(db, PageContents, Merge(Col(db, PageContents), id, data[UpdatedAt := Time(now)]))
  }

  /** The create branch of `updatePageContent`: one new document holding the page key, the
      data and both timestamps set to now. */
  function AddPage(db: Db, newId: Id, pageKey: string, data: Doc, now: int): (db': Db)
    requires newId !in Col(db, PageContents)
    ensures forall k :: k != PageContents ==> Col(db', k) == Col(db, k)
    ensures forall x :: x in Col(db', PageContents) <==> x in Col(db, PageContents) || x == newId
    ensures forall f :: f in Col(db', PageContents)[newId] <==> f in data || f == PageKey || f == CreatedAt || f == UpdatedAt
    ensures forall f :: f in data && f != CreatedAt && f != UpdatedAt ==> Col(db', PageContents)[newId][f] == data[f]
    ensures PageKey !in data ==> Col(db', PageContents)[newId][PageKey] == Str(pageKey)
    ensures Col(db', PageContents)[newId][CreatedAt] == Time(now)
    ensures Col(db', PageContents)[newId][UpdatedAt] == Time(now)
    ensures Col(db', PageContents) == Col(db, PageContents)[newId := Col(db', PageContents)[newId]]
  {
    var d := (if PageKey in data then data else data[PageKey := Str(pageKey)])[CreatedAt := Time(now)][UpdatedAt := Time(now)];
    Put(db, PageContents, Add(Col(db, PageContents), newId, d))
  }

  /** `updatePageContent`: merge into the page's document if there is one, else add one. */
  function UpdatePageContent(db: Db, pageKey: string, data: Doc, now: int, newId: Id): (db': Db)
    requires newId !in Col(db, PageContents)
    ensures forall k :: k != PageContents ==> Col(db', k) == Col(db, k)
    ensures FindFirst(Col(db, PageContents), PageKey, Str(pageKey)).Some? ==>
      db' == MergePage(db, FindFirst(Col(db, PageContents), PageKey, Str(pageKey)).value, data, now)
    ensures FindFirst(Col(db, PageContents), PageKey, Str(pageKey)).None? ==>
      db' == AddPage(db, newId, pageKey, data, now)
  {
    match FindFirst(Col(db, PageContents), PageKey, Str(pageKey))
    case Some(id) => MergePage(db, id, data, now)
    case None => AddPage(db, newId, pageKey, data, now)
  }

  // ---- site settings ----

  /** The update branch of `setSiteSetting`: only the `value` field of setting `id` changes;
      no timestamp is written. */
  function ChangeSetting(db: Db, id: Id, value: string): (db': Db)
    requires id in Col(db, Settings)
    ensures forall k :: k != Settings ==> Col(db', k) == Col(db, k)
    ensures forall x :: x in Col(db', Settings) <==> x in Col(db, Settings)
    ensures forall f :: f in Col(db', Settings)[id] <==> f in Col(db, Settings)[id] || f == Value
    ensures Col(db', Settings)[id][Value] == Str(value)
    ensures forall f :: f in Col(db, Settings)[id] && f != Value ==> Col(db', Settings)[id][f] == Col(db, Settings)[id][f]
    ensures Col(db', Settings) == Col(db, Settings)[id := Col(db', Settings)[id]]
  {
    var settings := Col(db, Settings);
    Put(db, Settings, settings[id := settings[id][Value := Str(value)]])
  }

  /** The create branch of `setSiteSetting`: one new document `{key, value, createdAt}`. */
  function AddSetting(db: Db, newId: Id, key: string, value: string, now: int): (db': Db)
    requires newId !in Col(db, Settings)
    ensures forall k :: k != Settings ==> Col(db', k) == Col(db, k)
    ensures forall x :: x in Col(db', Settings) <==> x in Col(db, Settings) || x == newId
    ensures forall f :: f in Col(db', Settings)[newId] <==> f == Key || f == Value || f == CreatedAt
    ensures Col(db', Settings)[newId][Key] == Str(key)
    ensures Col(db', Settings)[newId][Value] == Str(value)
    ensures Col(db', Settings)[newId][CreatedAt] == Time(now)
    ensures Col(db', Settings) == Col(db, Settings)[newId := Col(db', Settings)[newId]]
  {
    Put(db, Settings, Add(Col(db, Settings), newId, map[Key := Str(key), Value := Str(value), CreatedAt := Time(now)]))
  }

  /** `setSiteSetting`: change the value of the setting with this key if there is one, else
      add one. */
  function SetSiteSetting(db: Db, key: string, value: string, now: int, newId: Id): (db': Db)
    requires newId !in Col(db, Settings)
    ensures forall k :: k != Settings ==> Col(db', k) == Col(db, k)
    ensures FindFirst(Col(db, Settings), Key, Str(key)).Some? ==>
      db' == ChangeSetting(db, FindFirst(Col(db, Settings), Key, Str(key)).value, value)
    ensures FindFirst(Col(db, Settings), Key, Str(key)).None? ==>
      db' == AddSetting(db, newId, key, value, now)
  {
    match FindFirst(Col(db, Settings), Key, Str(key))
    case Some(id) => ChangeSetting(db, id, value)
    case None => AddSetting(db, newId, key, value, now)
  }

  // ---- id-keyed entities ----

  /** The `get*` listings: every document of `k` carrying a timestamp in `field`, newest
      first, each with its id merged in. */
  function ListNewestFirst(db: Db, k: Kind, field: Field): (r: seq<Doc>)
    requires field != Id
    ensures var ids := NewestFirst(Col(db, k), field);
      |r| == |ids| && forall i :: 0 <= i < |r| ==> r[i] == WithId(ids[i], Col(db, k)[ids[i]])
    ensures forall id :: id in Col(db, k) && TimeOf(Col(db, k)[id], field).Some? ==>
      WithId(id, Col(db, k)[id]) in r
    ensures forall i, j :: 0 <= i < j < |r| ==>
      TimeOf(r[i], field).Some? && TimeOf(r[j], field).Some? &&
      TimeOf(r[i], field).value >= TimeOf(r[j], field).value
  {
    var c := Col(db, k);
    var ids := NewestFirst(c, field);
    MaterializeTimes(c, ids, field);
    forall id | id in c && TimeOf(c[id], field).Some?
      ensures WithId(id, c[id]) in Materialize(c, ids)
    {
      MaterializeHas(c, ids, id);
    }
    Materialize(c, ids)
  }

  /** `getJobListings`: exactly the listings whose `isActive` is true. */
  function ActiveJobListings(db: Db): (r: seq<Doc>)
    ensures forall i :: 0 <= i < |r| ==> IsActive in r[i] && r[i][IsActive] == Bool(true)
    ensures var ids := AllMatching(Col(db, JobListings), IsActive, Bool(true));
      |r| == |ids| && forall i :: 0 <= i < |r| ==> r[i] == WithId(ids[i], Col(db, JobListings)[ids[i]])
    ensures forall id :: id in Col(db, JobListings) && IsActive in Col(db, JobListings)[id] && Col(db, JobListings)[id][IsActive] == Bool(true) ==>
      WithId(id, Col(db, JobListings)[id]) in r
  {
    var c := Col(db, JobListings);
    var ids := AllMatching(c, IsActive, Bool(true));
    forall id | id in c && IsActive in c[id] && c[id][IsActive] == Bool(true)
      ensures WithId(id, c[id]) in Materialize(c, ids)
    {
      MaterializeHas(c, ids, id);
    }
    Materialize(c, ids)
  }

  /** `createCourse`, `createProgram`, `createBlogPost`, `createJobListing`: store the data
      with both timestamps under the fresh id; the returned record is the id and the data,
      without timestamps. */
  function Create(db: Db, k: Kind, id: Id, now: int, data: Doc): (res: (Db, Doc))
    requires Editable(k) && id !in Col(db, k)
    ensures forall k' :: k' != k ==> Col(res.0, k') == Col(db, k')
    ensures forall x :: x in Col(res.0, k) <==> x in Col(db, k) || x == id
    ensures id in Col(res.0, k)
    ensures Col(res.0, k) == Col(db, k)[id := Col(res.0, k)[id]]
    ensures forall f :: f in Col(res.0, k)[id] <==> f in data || f == CreatedAt || f == UpdatedAt
    ensures forall f :: f in data && f != CreatedAt && f != UpdatedAt ==> Col(res.0, k)[id][f] == data[f]
    ensures Col(res.0, k)[id][CreatedAt] == Time(now) && Col(res.0, k)[id][UpdatedAt] == Time(now)
    ensures forall f :: f in res.1 <==> f in data || f == Id
    ensures forall f :: f in data ==> res.1[f] == data[f]
    ensures Id !in data ==> res.1[Id] == Str(id)
  {
    (Put(db, k, Add(Col(db, k), id, Stamped(data, now))), WithId(id, data))
  }

  /** `data` with `createdAt` and `updatedAt` set to `now`. */
  function Stamped(data: Doc, now: int): (d: Doc)
    ensures forall f :: f in d <==> f in data || f == CreatedAt || f == UpdatedAt
    ensures forall f :: f in data && f != CreatedAt && f != UpdatedAt ==> d[f] == data[f]
    ensures d[CreatedAt] == Time(now) && d[UpdatedAt] == Time(now)
  {
    data[CreatedAt := Time(now)][UpdatedAt := Time(now)]
  }

  /** `createStudentApplication`, `createContactMessage`: as `Create`, but only `createdAt`
      is stamped. */
  function Submit(db: Db, k: Kind, id: Id, now: int, data: Doc): (res: (Db, Doc))
    requires WriteOnce(k) && id !in Col(db, k)
    ensures forall k' :: k' != k ==> Col(res.0, k') == Col(db, k')
    ensures forall x :: x in Col(res.0, k) <==> x in Col(db, k) || x == id
    ensures id in Col(res.0, k)
    ensures Col(res.0, k) == Col(db, k)[id := Col(res.0, k)[id]]
    ensures forall f :: f in Col(res.0, k)[id] <==> f in data || f == CreatedAt
    ensures forall f :: f in data && f != CreatedAt ==> Col(res.0, k)[id][f] == data[f]
    ensures Col(res.0, k)[id][CreatedAt] == Time(now)
    ensures forall f :: f in res.1 <==> f in data || f == Id
    ensures forall f :: f in data ==> res.1[f] == data[f]
    ensures Id !in data ==> res.1[Id] == Str(id)
  {
    var d := data[CreatedAt := Time(now)];
    assert forall f :: f in data && f != CreatedAt ==> d[f] == data[f];
    (Put(db, k, Add(Col(db, k), id, d)), WithId(id, data))
  }

  /** `updateCourse`, `updateProgram`, `updateBlogPost`, `updateJobListing`: merge the supplied
      fields and refresh `updatedAt`; a missing id fails with `NotFound`. */
  function Update(db: Db, k: Kind, id: Id, now: int, patch: Doc): (r: Result<Db, StoreError>)
    requires Editable(k)
    ensures r.Err? <==> id !in Col(db, k)
    ensures r.Ok? ==>
      && (forall k' :: k' != k ==> Col(r.value, k') == Col(db, k'))
      && (forall x :: x in Col(r.value, k) <==> x in Col(db, k))
      && Col(r.value, k) == Col(db, k)[id := Col(r.value, k)[id]]
      && (forall f :: f in Col(r.value, k)[id] <==> f in Col(db, k)[id] || f in patch || f == UpdatedAt)
      && (forall f :: f in patch && f != UpdatedAt ==> Col(r.value, k)[id][f] == patch[f])
      && Col(r.value, k)[id][UpdatedAt] == Time(now)
      && (forall f :: f in Col(db, k)[id] && f !in patch && f != UpdatedAt ==>
            Col(r.value, k)[id][f] == Col(db, k)[id][f])
  {
    match Store.Update(Col(db, k), id, patch[UpdatedAt := Time(now)])
    case Ok(c) => Ok(Put(db, k, c))
    case Err(e) => Err(e)
  }

  /** The `delete*` operations: remove the id from the collection; a missing id is no error. */
  function Delete(db: Db, k: Kind, id: Id): (db': Db)
    ensures forall k' :: k' != k ==> Col(db', k') == Col(db, k')
    ensures forall x :: x in Col(db', k) <==> x in Col(db, k) && x != id
    ensures Col(db', k) == Col(db, k) - {id}
  {
    Put(db, k, Store.Delete(Col(db, k), id))
  }

  // ---- properties relating several operations ----

  /** `getJobListings` offers a stored listing exactly when its `isActive` flag is true. */
  lemma ListedIffActive(db: Db, id: Id)
    requires id in Col(db, JobListings)
    ensures
      var d := Col(db, JobListings)[id];
      WithId(id, d) in ActiveJobListings(db) <==> IsActive in d && d[IsActive] == Bool(true)
  {
    var d := Col(db, JobListings)[id];
    var r := ActiveJobListings(db);
    if WithId(id, d) in r {
      var n :| 0 <= n < |r| && r[n] == WithId(id, d);
      assert WithId(id, d)[IsActive] == d[IsActive];
    }
  }

  /** A secondary key (open id, page key, setting key) names at most one document. */
  predicate KeyedUniquely(db: Db) {
    && UniqueBy(Col(db, Users), OpenId)
    && UniqueBy(Col(db, PageContents), PageKey)
    && UniqueBy(Col(db, Settings), Key)
  }

  /** `upsertUser` never creates a second user for an open id. */
  lemma UpsertUserKeepsOpenIdUnique(db: Db, u: InsertUser, ownerOpenId: string, now: int, newId: Id)
    requires newId !in Col(db, Users)
    requires UniqueBy(Col(db, Users), OpenId)
    ensures UniqueBy(Col(UpsertUser(db, u, ownerOpenId, now, newId), Users), OpenId)
  {
    var before := Col(db, Users);
    var after := Col(UpsertUser(db, u, ownerOpenId, now, newId), Users);
    match FindFirst(before, OpenId, Str(u.openId))
    case Some(id) =>
      RewriteSameField(before, id, after[id], OpenId);
      SameFieldUnique(before, after, OpenId);
    case None =>
      FindFirstNone(before, OpenId, Str(u.openId));
      AddUnique(before, newId, after[newId], OpenId);
  }

  /** After `upsertUser`, looking the open id up finds a user carrying the written sign-in
      fields, whichever branch ran. */
  lemma UpsertUserThenFind(db: Db, u: InsertUser, ownerOpenId: string, now: int, newId: Id)
    requires newId !in Col(db, Users)
    ensures var found := FindBy(UpsertUser(db, u, ownerOpenId, now, newId), Users, OpenId, u.openId);
      found.Some? && SignedIn(found.value, u, ownerOpenId, now) && found.value[OpenId] == Str(u.openId)
  {
    match FindFirst(Col(db, Users), OpenId, Str(u.openId)) {
      case Some(id) =>
        RefreshUserThenFind(db, id, u, ownerOpenId, now);
        SignedInWithId(id, Col(RefreshUser(db, id, u, ownerOpenId, now), Users)[id], u, ownerOpenId, now);
      case None =>
        RegisterUserThenFind(db, newId, u, ownerOpenId, now);
        SignedInWithId(newId, Col(RegisterUser(db, newId, u, ownerOpenId, now), Users)[newId], u, ownerOpenId, now);
    }
  }

  /** The refresh branch: the refreshed user is still the first one with its open id. */
  lemma RefreshUserThenFind(db: Db, id: Id, u: InsertUser, ownerOpenId: string, now: int)
    requires FindFirst(Col(db, Users), OpenId, Str(u.openId)) == Some(id)
    ensures var db' := RefreshUser(db, id, u, ownerOpenId, now);
      FindBy(db', Users, OpenId, u.openId) == Some(WithId(id, Col(db', Users)[id]))
  {
    var c' := Col(RefreshUser(db, id, u, ownerOpenId, now), Users);
    RewriteKeepsFound(Col(db, Users), id, c'[id], OpenId, Str(u.openId));
  }

  /** The register branch: the new user is the only one with its open id. */
  lemma RegisterUserThenFind(db: Db, newId: Id, u: InsertUser, ownerOpenId: string, now: int)
    requires newId !in Col(db, Users)
    requires FindFirst(Col(db, Users), OpenId, Str(u.openId)).None?
    ensures var db' := RegisterUser(db, newId, u, ownerOpenId, now);
      FindBy(db', Users, OpenId, u.openId) == Some(WithId(newId, Col(db', Users)[newId]))
  {
    var c' := Col(RegisterUser(db, newId, u, ownerOpenId, now), Users);
    AddedIsFound(Col(db, Users), newId, c'[newId], OpenId, Str(u.openId));
  }

  /** Merging the id into a user document keeps the sign-in fields. */
  lemma SignedInWithId(id: Id, d: Doc, u: InsertUser, ownerOpenId: string, now: int)
    requires SignedIn(d, u, ownerOpenId, now)
    ensures SignedIn(WithId(id, d), u, ownerOpenId, now)
  {
  }

  /** The documents whose page key is `pageKey`, before and after `updatePageContent` on that
      key: unchanged when there was one, exactly the new document when there was none. The
      data must not carry a different page key (the router passes its own input, whose page
      key is the one queried). */
  lemma UpdatePageContentMatches(db: Db, pageKey: string, data: Doc, now: int, newId: Id)
    requires newId !in Col(db, PageContents)
    requires PageKey in data ==> data[PageKey] == Str(pageKey)
    ensures var before := Matching(Col(db, PageContents), PageKey, Str(pageKey));
      var after := Matching(Col(UpdatePageContent(db, pageKey, data, now, newId), PageContents), PageKey, Str(pageKey));
      (before != {} ==> after == before) && (before == {} ==> after == {newId})
  {
    var c := Col(db, PageContents);
    var v := Str(pageKey);
    match FindFirst(c, PageKey, v)
    case Some(id) =>
      MergedPageKeepsKey(db, id, pageKey, data, now);
      SameFieldQueries(c, Col(MergePage(db, id, data, now), PageContents), PageKey, v);
    case None =>
      FindFirstNone(c, PageKey, v);
      AddedPageHasKey(db, newId, pageKey, data, now);
      AddMatching(c, newId, Col(AddPage(db, newId, pageKey, data, now), PageContents)[newId], PageKey, v);
  }

  /** The merge branch leaves every page key as it was, given data that does not carry a
      different page key than the merged document's. */
  lemma MergedPageKeepsKey(db: Db, id: Id, pageKey: string, data: Doc, now: int)
    requires id in Col(db, PageContents)
    requires PageKey in Col(db, PageContents)[id] && Col(db, PageContents)[id][PageKey] == Str(pageKey)
    requires PageKey in data ==> data[PageKey] == Str(pageKey)
    ensures SameField(Col(db, PageContents), Col(MergePage(db, id, data, now), PageContents), PageKey)
  {
    var c := Col(db, PageContents);
    var c' := Col(MergePage(db, id, data, now), PageContents);
    assert c'[id][PageKey] == c[id][PageKey];
    RewriteSameField(c, id, c'[id], PageKey);
  }

  /** The create branch writes the queried page key into the new document. */
  lemma AddedPageHasKey(db: Db, newId: Id, pageKey: string, data: Doc, now: int)
    requires newId !in Col(db, PageContents)
    requires PageKey in data ==> data[PageKey] == Str(pageKey)
    ensures var c' := Col(AddPage(db, newId, pageKey, data, now), PageContents);
      PageKey in c'[newId] && c'[newId][PageKey] == Str(pageKey)
      && c' == Col(db, PageContents)[newId := c'[newId]]
  {
  }

  /** `updatePageContent` never leaves two documents for one page key, given a data record
      that does not carry a different page key. */
  lemma UpdatePageContentKeepsUnique(db: Db, pageKey: string, data: Doc, now: int, newId: Id)
    requires newId !in Col(db, PageContents)
    requires PageKey in data ==> data[PageKey] == Str(pageKey)
    requires UniqueBy(Col(db, PageContents), PageKey)
    ensures UniqueBy(Col(UpdatePageContent(db, pageKey, data, now, newId), PageContents), PageKey)
  {
    var c := Col(db, PageContents);
    var v := Str(pageKey);
    match FindFirst(c, PageKey, v)
    case Some(id) =>
      MergedPageKeepsKey(db, id, pageKey, data, now);
      SameFieldUnique(c, Col(MergePage(db, id, data, now), PageContents), PageKey);
    case None =>
      FindFirstNone(c, PageKey, v);
      AddedPageHasKey(db, newId, pageKey, data, now);
      AddUnique(c, newId, Col(AddPage(db, newId, pageKey, data, now), PageContents)[newId], PageKey);
  }

  /** Two sequential `updatePageContent` calls on a page key that had no document: the first
      adds exactly one document, the second updates that same document and adds none. */
  lemma UpdatePageContentTwice(db: Db, pageKey: string, d1: Doc, d2: Doc, t1: int, t2: int, id1: Id, id2: Id)
    requires id1 !in Col(db, PageContents) && id2 !in Col(db, PageContents) && id1 != id2
    requires PageKey in d1 ==> d1[PageKey] == Str(pageKey)
    requires PageKey in d2 ==> d2[PageKey] == Str(pageKey)
    requires Matching(Col(db, PageContents), PageKey, Str(pageKey)) == {}
    ensures var db2 := UpdatePageContent(UpdatePageContent(db, pageKey, d1, t1, id1), pageKey, d2, t2, id2);
      && Matching(Col(db2, PageContents), PageKey, Str(pageKey)) == {id1}
      && (forall x :: x in Col(db2, PageContents) <==> x in Col(db, PageContents) || x == id1)
  {
    var db1 := UpdatePageContent(db, pageKey, d1, t1, id1);
    UpdatePageContentMatches(db, pageKey, d1, t1, id1);
    UpdatePageContentMatches(db1, pageKey, d2, t2, id2);
    FindFirstOnly(Col(db1, PageContents), PageKey, Str(pageKey), id1);
  }

  /** `setSiteSetting` never leaves two documents for one setting key. */
  lemma SetSiteSettingKeepsUnique(db: Db, key: string, value: string, now: int, newId: Id)
    requires newId !in Col(db, Settings)
    requires UniqueBy(Col(db, Settings), Key)
    ensures UniqueBy(Col(SetSiteSetting(db, key, value, now, newId), Settings), Key)
  {
    var c := Col(db, Settings);
    var c' := Col(SetSiteSetting(db, key, value, now, newId), Settings);
    match FindFirst(c, Key, Str(key))
    case Some(id) =>
      RewriteSameField(c, id, c'[id], Key);
      SameFieldUnique(c, c', Key);
    case None =>
      FindFirstNone(c, Key, Str(key));
      AddUnique(c, newId, c'[newId], Key);
  }

  /** After `setSiteSetting(key, value)`, `getSiteSetting(key)` finds a setting with that value. */
  lemma SetSiteSettingThenGet(db: Db, key: string, value: string, now: int, newId: Id)
    requires newId !in Col(db, Settings)
    ensures var found := FindBy(SetSiteSetting(db, key, value, now, newId), Settings, Key, key);
      found.Some? && Value in found.value && found.value[Value] == Str(value)
  {
    match FindFirst(Col(db, Settings), Key, Str(key)) {
      case Some(id) => ChangeSettingThenGet(db, id, key, value);
      case None => AddSettingThenGet(db, newId, key, value, now);
    }
  }

  /** The update branch: the changed setting is still the first one with its key. */
  lemma ChangeSettingThenGet(db: Db, id: Id, key: string, value: string)
    requires FindFirst(Col(db, Settings), Key, Str(key)) == Some(id)
    ensures var db' := ChangeSetting(db, id, value);
      FindBy(db', Settings, Key, key) == Some(WithId(id, Col(db', Settings)[id]))
  {
    var c' := Col(ChangeSetting(db, id, value), Settings);
    RewriteKeepsFound(Col(db, Settings), id, c'[id], Key, Str(key));
  }

  /** The create branch: the added setting is the only one with its key. */
  lemma AddSettingThenGet(db: Db, newId: Id, key: string, value: string, now: int)
    requires newId !in Col(db, Settings)
    requires FindFirst(Col(db, Settings), Key, Str(key)).None?
    ensures var db' := AddSetting(db, newId, key, value, now);
      FindBy(db', Settings, Key, key) == Some(WithId(newId, Col(db', Settings)[newId]))
  {
    var c' := Col(AddSetting(db, newId, key, value, now), Settings);
    AddedIsFound(Col(db, Settings), newId, c'[newId], Key, Str(key));
  }

  /** A created record is listed afterwards: the newest-first listing of its kind holds it,
      with its id, its data and both timestamps. */
  lemma CreateThenList(db: Db, k: Kind, id: Id, now: int, data: Doc)
    requires Editable(k) && id !in Col(db, k)
    ensures var db' := Create(db, k, id, now, data).0;
      WithId(id, Col(db', k)[id]) in ListNewestFirst(db', k, CreatedAt)
  {
    var db' := Create(db, k, id, now, data).0;
    assert TimeOf(Col(db', k)[id], CreatedAt) == Some(now);
  }

  /** Deleting twice is the same as deleting once: `delete*` is idempotent. */
  lemma DeleteTwice(db: Db, k: Kind, id: Id)
    ensures Delete(Delete(db, k, id), k, id) == Delete(db, k, id)
  {
    var once := Delete(db, k, id);
    assert Col(once, k) - {id} == Col(once, k);
    assert Delete(once, k, id).cols == once.cols;
  }

}
