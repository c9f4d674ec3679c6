/** The document store the entity layer talks to, as a value: a collection maps store-assigned
    ids to documents, and a document maps field names to values. */
module Store {
  import opened Base
  import Lex
  import Decimal

  type Id = string

  /** A field value: strings, finite numbers, booleans, timestamps (milliseconds) and null. */
  datatype Value = Str(s: string) | Num(n: Decimal.JsNumber) | Bool(b: bool) | Time(t: int) | Null

  /** The field names the site's documents use (the record interfaces of the entity layer). */
  datatype Field =
    | Id | OpenId | Name | Email | LoginMethod | Role | LastSignedIn | CreatedAt | UpdatedAt
    | PageKey | Headline | SubHeadline | MissionText | VisionText
    | StudentsTrained | ExpertInstructors | JobPlacementRate
    | HeroImageUrl | VisionImageUrl | BannerImageUrl | FounderImageUrl | CompanyImageUrl | MissionImageUrl
    | FounderBio | FounderMessage | AboutCompany
    | Title | Description | ImageUrl | Duration | Level | Instructor | PriceEgp | PriceUsd
    | Skills | Author | Content | Summary | PublishedAt
    | Location | Requirements | JobType | Salary | IsActive
    | FullName | Phone | Message | CourseId | Subject | MessageType
    | Key | Value

  type Doc = map<Field, Value>
  type Collection = map<Id, Doc>

  datatype StoreError = NotFound

  /** Among documents of equal rank, `a` comes no later than `b`: by ascending id, or by
      descending id when `desc` (the store breaks ties in the direction of the order). */
  predicate IdFirst(desc: bool, a: Id, b: Id) {
    if desc then Lex.Le(b, a) else Lex.Le(a, b)
  }

  /** `a` is listed no later than `b` when documents are ordered by ascending `rank`,
      ties broken by id in direction `desc`. */
  predicate Ahead(rank: Id -> int, desc: bool, a: Id, b: Id) {
    rank(a) < rank(b) || (rank(a) == rank(b) && IdFirst(desc, a, b))
  }

  predicate IsLeast(s: set<Id>, rank: Id -> int, desc: bool, m: Id) {
    m in s && forall y :: y in s ==> Ahead(rank, desc, m, y)
  }

  lemma AheadTrans(rank: Id -> int, desc: bool, a: Id, b: Id, c: Id)
    requires Ahead(rank, desc, a, b) && Ahead(rank, desc, b, c)
    ensures Ahead(rank, desc, a, c)
  {
    if rank(a) == rank(b) && rank(b) == rank(c) {
      if desc { Lex.LeTrans(c, b, a); } else { Lex.LeTrans(a, b, c); }
    }
  }

  lemma AheadTotal(rank: Id -> int, desc: bool, a: Id, b: Id)
    ensures Ahead(rank, desc, a, b) || Ahead(rank, desc, b, a)
  {
    Lex.LeTotal(a, b);
  }

  lemma {:induction false} LeastExists(s: set<Id>, rank: Id -> int, desc: bool)
    requires s != {}
    ensures exists m :: IsLeast(s, rank, desc, m)
    decreases |s|
  {
    var x :| x in s;
    if s == {x} {
      Lex.LeRefl(x);
      assert IsLeast(s, rank, desc, x);
    } else {
      var rest := s - {x};
      LeastExists(rest, rank, desc);
      var m :| IsLeast(rest, rank, desc, m);
      AheadTotal(rank, desc, x, m);
      if Ahead(rank, desc, x, m) {
        Lex.LeRefl(x);
        forall y | y in s
          ensures Ahead(rank, desc, x, y)
        {
          if y != x {
            AheadTrans(rank, desc, x, m, y);
          }
        }
        assert IsLeast(s, rank, desc, x);
      } else {
        assert IsLeast(s, rank, desc, m);
      }
    }
  }

  lemma LeastUnique(s: set<Id>, rank: Id -> int, desc: bool)
    ensures forall m, m' :: IsLeast(s, rank, desc, m) && IsLeast(s, rank, desc, m') ==> m == m'
  {
    forall m, m' | IsLeast(s, rank, desc, m) && IsLeast(s, rank, desc, m')
      ensures m == m'
    {
      assert Ahead(rank, desc, m, m') && Ahead(rank, desc, m', m);
      if desc { Lex.LeAntisym(m', m); } else { Lex.LeAntisym(m, m'); }
    }
  }

  /** The first id of `s` in (rank, id) order. */
  function Least(s: set<Id>, rank: Id -> int, desc: bool): (m: Id)
    requires s != {}
    ensures IsLeast(s, rank, desc, m)
  {
    LeastExists(s, rank, desc);
    LeastUnique(s, rank, desc);
    var m :| IsLeast(s, rank, desc, m); m
  }

  /** All ids of `s`, each once, in (rank, id) order. */
  function Ordered(s: set<Id>, rank: Id -> int, desc: bool): (r: seq<Id>)
    ensures |r| == |s|
    ensures forall i :: 0 <= i < |r| ==> r[i] in s
    ensures forall x :: x in s ==> x in r
    ensures forall i, j :: 0 <= i < j < |r| ==> r[i] != r[j] && Ahead(rank, desc, r[i], r[j])
    decreases |s|
  {
    if s == {} then []
    else
      var m := Least(s, rank, desc);
      var rest := Ordered(s - {m}, rank, desc);
      OrderedCons(s, rank, desc, m, rest);
      [m] + rest
  }

  /** Putting the least id of `s` in front of an ordering of the others orders `s`. */
  lemma OrderedCons(s: set<Id>, rank: Id -> int, desc: bool, m: Id, rest: seq<Id>)
    requires IsLeast(s, rank, desc, m)
    requires |rest| == |s - {m}|
    requires forall i :: 0 <= i < |rest| ==> rest[i] in s - {m}
    requires forall x :: x in s - {m} ==> x in rest
    requires forall i, j :: 0 <= i < j < |rest| ==> rest[i] != rest[j] && Ahead(rank, desc, rest[i], rest[j])
    ensures |[m] + rest| == |s|
    ensures forall i :: 0 <= i < |[m] + rest| ==> ([m] + rest)[i] in s
    ensures forall x :: x in s ==> x in [m] + rest
    ensures forall i, j :: 0 <= i < j < |[m] + rest| ==>
      ([m] + rest)[i] != ([m] + rest)[j] && Ahead(rank, desc, ([m] + rest)[i], ([m] + rest)[j])
  {
    var r := [m] + rest;
    forall i, j | 0 <= i < j < |r|
      ensures r[i] != r[j] && Ahead(rank, desc, r[i], r[j])
    {
      if i == 0 {
        assert r[j] == rest[j - 1] && r[j] in s - {m};
      } else {
        assert r[i] == rest[i - 1] && r[j] == rest[j - 1];
      }
    }
  }

  // ---- the adapter operations ----

  /** Ids of the documents whose `field` equals `v` (an equality `where` query). */
  function Matching(c: Collection, field: Field, v: Value): (ids: set<Id>)
    ensures forall id :: id in ids <==> id in c && field in c[id] && c[id][field] == v
  {
    set id | id in c && field in c[id] && c[id][field] == v
  }

  /** `where(field, "==", v).limit(1)`: the first matching id in document-id order, or
      `None` when nothing matches. */
  function FindFirst(c: Collection, field: Field, v: Value): (r: Option<Id>)
    ensures r.None? ==> forall id :: id in c ==> !(field in c[id] && c[id][field] == v)
    ensures r.Some? ==> r.value in c && field in c[r.value] && c[r.value][field] == v
    ensures r.Some? ==> forall id :: id in c && field in c[id] && c[id][field] == v ==> Lex.Le(r.value, id)
  {
    var ids := Matching(c, field, v);
    if ids == {} then None else Some(Least(ids, _ => 0, false))
  }

  /** `add(data)` under the id the store generates; the id must be new. */
  function Add(c: Collection, id: Id, data: Doc): (c': Collection)
    requires id !in c
    ensures forall x :: x in c' <==> x in c || x == id
    ensures |c'| == |c| + 1
    ensures c'[id] == data
    ensures forall k :: k in c ==> c'[k] == c[k]
  {
    c[id := data]
  }

  /** `doc(id).update(patch)` on a document known to exist: the supplied fields are
      overwritten or added, every other field is kept. */
  function Merge(c: Collection, id: Id, patch: Doc): (c': Collection)
    requires id in c
    ensures forall x :: x in c' <==> x in c
    ensures forall f :: f in c'[id] <==> f in c[id] || f in patch
    ensures forall f :: f in patch ==> c'[id][f] == patch[f]
    ensures forall f :: f in c[id] && f !in patch ==> c'[id][f] == c[id][f]
    ensures forall k :: k in c && k != id ==> c'[k] == c[k]
  {
    c[id := c[id] + patch]
  }

  /** `doc(id).update(patch)`: fails with `NotFound` when there is no such document. */
  function Update(c: Collection, id: Id, patch: Doc): (r: Result<Collection, StoreError>)
    ensures r.Err? <==> id !in c
    ensures r.Ok? ==> r.value == Merge(c, id, patch)
  {
    if id in c then Ok(Merge(c, id, patch)) else Err(NotFound)
  }

  /** `doc(id).delete()`: removes the document; a missing id is not an error. */
  function Delete(c: Collection, id: Id): (c': Collection)
    ensures forall x :: x in c' <==> x in c && x != id
    ensures forall k :: k in c' ==> c'[k] == c[k]
  {
    c - {id}
  }

  /** `{ id: doc.id, ...doc.data() }`: the id first, so a stored `id` field would win. */
  function WithId(id: Id, d: Doc): (r: Doc)
    ensures forall f :: f in r <==> f in d || f == Id
    ensures forall f :: f in d ==> r[f] == d[f]
    ensures Id !in d ==> r[Id] == Str(id)
  {
    if Id in d then d else d[Id := Str(id)]
  }

  /** The timestamp in `field`, or `None` when the field is missing or not a timestamp. */
  function TimeOf(d: Doc, field: Field): Option<int> {
    if field in d && d[field].Time? then Some(d[field].t) else None
  }

  /** The documents of `c` at `ids`, each with its id merged in. */
  function Materialize(c: Collection, ids: seq<Id>): (r: seq<Doc>)
    requires forall i :: 0 <= i < |ids| ==> ids[i] in c
    ensures |r| == |ids|
    ensures forall i :: 0 <= i < |r| ==> r[i] == WithId(ids[i], c[ids[i]])
  {
    seq(|ids|, i requires 0 <= i < |ids| => WithId(ids[i], c[ids[i]]))
  }

  lemma MaterializeHas(c: Collection, ids: seq<Id>, id: Id)
    requires forall i :: 0 <= i < |ids| ==> ids[i] in c
    requires id in ids
    ensures WithId(id, c[id]) in Materialize(c, ids)
  {
    var i :| 0 <= i < |ids| && ids[i] == id;
    assert Materialize(c, ids)[i] == WithId(id, c[id]);
  }

  lemma MaterializeTimes(c: Collection, ids: seq<Id>, field: Field)
    requires forall i :: 0 <= i < |ids| ==> ids[i] in c
    requires field != Id
    ensures forall i :: 0 <= i < |ids| ==> TimeOf(Materialize(c, ids)[i], field) == TimeOf(c[ids[i]], field)
  {
  }

  /** `orderBy(field, "desc").get()`: the documents that carry a timestamp in `field`, newest
      first; the store breaks ties by id in the direction of the order, so descending. */
  function NewestFirst(c: Collection, field: Field): (r: seq<Id>)
    ensures forall i :: 0 <= i < |r| ==> r[i] in c && TimeOf(c[r[i]], field).Some?
    ensures forall id :: id in c && TimeOf(c[id], field).Some? ==> id in r
    ensures forall i, j :: 0 <= i < j < |r| ==>
      r[i] != r[j] && TimeOf(c[r[i]], field).value >= TimeOf(c[r[j]], field).value
    ensures forall i, j :: 0 <= i < j < |r| && TimeOf(c[r[i]], field) == TimeOf(c[r[j]], field) ==>
      Lex.Le(r[j], r[i])
  {
    var ids := set id | id in c && TimeOf(c[id], field).Some?;
    var rank := (id: Id) => if id in c && TimeOf(c[id], field).Some? then -TimeOf(c[id], field).value else 0;
    Ordered(ids, rank, true)
  }

  /** `where(field, "==", v).get()` with no order: every match, in document-id order. */
  function AllMatching(c: Collection, field: Field, v: Value): (r: seq<Id>)
    ensures forall i :: 0 <= i < |r| ==> r[i] in c && field in c[r[i]] && c[r[i]][field] == v
    ensures forall id :: id in c && field in c[id] && c[id][field] == v ==> id in r
    ensures forall i, j :: 0 <= i < j < |r| ==> r[i] != r[j] && Lex.Le(r[i], r[j])
  {
    Ordered(Matching(c, field, v), _ => 0, false)
  }

  /** No two documents of `c` share a value of `field`. */
  predicate UniqueBy(c: Collection, field: Field) {
    forall a, b :: a in c && b in c && field in c[a] && field in c[b] && c[a][field] == c[b][field] ==> a == b
  }

  /** `c'` has the ids of `c`, and each document keeps its value (or its absence) in `field`. */
  ghost predicate SameField(c: Collection, c': Collection, field: Field) {
    && (forall x :: x in c' <==> x in c)
    && (forall x :: x in c ==> (field in c'[x] <==> field in c[x]) && (field in c[x] ==> c'[x][field] == c[x][field]))
  }

  /** Rewriting one document without touching `field` keeps `field` everywhere. */
  lemma RewriteSameField(c: Collection, id: Id, d: Doc, field: Field)
    requires id in c
    requires field in d <==> field in c[id]
    requires field in d ==> d[field] == c[id][field]
    ensures SameField(c, c[id := d], field)
  {
  }

  /** Equality queries on a field that did not change give the same answers. */
  lemma SameFieldQueries(c: Collection, c': Collection, field: Field, v: Value)
    requires SameField(c, c', field)
    ensures Matching(c', field, v) == Matching(c, field, v)
    ensures FindFirst(c', field, v) == FindFirst(c, field, v)
  {
    assert Matching(c', field, v) == Matching(c, field, v);
  }

  lemma SameFieldUnique(c: Collection, c': Collection, field: Field)
    requires SameField(c, c', field) && UniqueBy(c, field)
    ensures UniqueBy(c', field)
  {
  }

  /** Adding a document adds its id to the matches of its own value and to no others. */
  lemma AddMatching(c: Collection, id: Id, d: Doc, field: Field, v: Value)
    requires id !in c
    ensures Matching(c[id := d], field, v) ==
      if field in d && d[field] == v then Matching(c, field, v) + {id} else Matching(c, field, v)
  {
    var lhs := Matching(c[id := d], field, v);
    var rhs := if field in d && d[field] == v then Matching(c, field, v) + {id} else Matching(c, field, v);
    assert forall x :: x in lhs <==> x in rhs;
  }

  /** Adding a document whose value is not taken keeps a field unique. */
  lemma AddUnique(c: Collection, id: Id, d: Doc, field: Field)
    requires id !in c && UniqueBy(c, field)
    requires field in d ==> Matching(c, field, d[field]) == {}
    ensures UniqueBy(c[id := d], field)
  {
    var c' := c[id := d];
    forall a, b | a in c' && b in c' && field in c'[a] && field in c'[b] && c'[a][field] == c'[b][field]
      ensures a == b
    {
      if field in d {
        assert a !in Matching(c, field, d[field]) && b !in Matching(c, field, d[field]);
      }
    }
  }

  /** The first match, when there is exactly one. */
  lemma FindFirstOnly(c: Collection, field: Field, v: Value, id: Id)
    requires Matching(c, field, v) == {id}
    ensures FindFirst(c, field, v) == Some(id)
  {
  }

  /** No first match means no match at all. */
  lemma FindFirstNone(c: Collection, field: Field, v: Value)
    requires FindFirst(c, field, v).None?
    ensures Matching(c, field, v) == {}
  {
  }

  /** Adding the first document with `field == v` makes it the one found. */
  lemma AddedIsFound(c: Collection, id: Id, d: Doc, field: Field, v: Value)
    requires id !in c && FindFirst(c, field, v).None?
    requires field in d && d[field] == v
    ensures FindFirst(c[id := d], field, v) == Some(id)
  {
    FindFirstNone(c, field, v);
    AddMatching(c, id, d, field, v);
    FindFirstOnly(c[id := d], field, v, id);
  }

  /** Rewriting a document without touching `field` keeps every lookup by `field`. */
  lemma RewriteKeepsFound(c: Collection, id: Id, d: Doc, field: Field, v: Value)
    requires id in c
    requires field in d <==> field in c[id]
    requires field in d ==> d[field] == c[id][field]
    ensures FindFirst(c[id := d], field, v) == FindFirst(c, field, v)
  {
    RewriteSameField(c, id, d, field);
    SameFieldQueries(c, c[id := d], field, v);
  }

  /** Under `UniqueBy`, the first match is the only one. */
  lemma FindFirstUnique(c: Collection, field: Field, v: Value, id: Id)
    requires UniqueBy(c, field)
    requires id in c && field in c[id] && c[id][field] == v
    ensures FindFirst(c, field, v) == Some(id)
  {
  }
}
