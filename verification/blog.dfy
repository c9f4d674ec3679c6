/** The public blog page's list derivation: a newest-first copy of the posts, the first of
    them featured and the rest listed below, each shown with a short excerpt. */
module BlogPage {
  import opened Base

  /** A post as the page uses it; `publishedAt` is the timestamp in milliseconds. */
  datatype Post = Post(id: string, summary: Option<string>, content: string, publishedAt: int)

  /** Newest first: no post is followed by a newer one. */
  predicate NewestFirst(s: seq<Post>) {
    forall i, j :: 0 <= i < j < |s| ==> s[i].publishedAt >= s[j].publishedAt
  }

  /** The posts of `s` published at `t`, in their order in `s`. */
  function At(s: seq<Post>, t: int): (r: seq<Post>)
    ensures |r| <= |s|
  {
    if s == [] then []
    else if s[0].publishedAt == t then [s[0]] + At(s[1..], t)
    else At(s[1..], t)
  }

  /** Places `p` before the first post not newer than it, so that it stays ahead of the
      posts published at the same time that come after it in the input. */
  function Insert(p: Post, s: seq<Post>): (r: seq<Post>)
    ensures multiset(r) == multiset(s) + multiset{p}
    ensures |r| == |s| + 1
    decreases |s|
  {
    if s == [] || p.publishedAt >= s[0].publishedAt then [p] + s
    else
      assert s == [s[0]] + s[1..];
      [s[0]] + Insert(p, s[1..])
  }

  /** `[...posts].sort((a, b) => b.publishedAt - a.publishedAt)`: a stable sort, newest first,
      of a copy (the input sequence is a value and is never changed). */
  function SortNewestFirst(posts: seq<Post>): (r: seq<Post>)
    ensures multiset(r) == multiset(posts)
    ensures |r| == |posts|
    decreases |posts|
  {
    if posts == [] then []
    else
      assert posts == [posts[0]] + posts[1..];
      Insert(posts[0], SortNewestFirst(posts[1..]))
  }

  lemma {:induction false} InsertKeepsOrder(p: Post, s: seq<Post>)
    requires NewestFirst(s)
    ensures NewestFirst(Insert(p, s))
    decreases |s|
  {
    if s != [] && p.publishedAt < s[0].publishedAt {
      InsertKeepsOrder(p, s[1..]);
      var r := Insert(p, s);
      var t := Insert(p, s[1..]);
      assert r == [s[0]] + t;
      assert t[0] == p || t[0] == s[1];
      forall i, j | 0 <= i < j < |r|
        ensures r[i].publishedAt >= r[j].publishedAt
      {
        if i == 0 {
          assert r[j] in multiset(t);
          assert r[j] in multiset(s[1..]) + multiset{p};
          if r[j] != p {
            var k :| 0 <= k < |s[1..]| && s[1..][k] == r[j];
            assert s[k + 1] == r[j];
          }
        } else {
          assert r[i] == t[i - 1] && r[j] == t[j - 1];
        }
      }
    }
  }

  /** The sorted copy is newest first. */
  lemma {:induction false} SortIsNewestFirst(posts: seq<Post>)
    ensures NewestFirst(SortNewestFirst(posts))
    decreases |posts|
  {
    if posts != [] {
      SortIsNewestFirst(posts[1..]);
      InsertKeepsOrder(posts[0], SortNewestFirst(posts[1..]));
    }
  }

  lemma {:induction false} InsertAt(p: Post, s: seq<Post>, t: int)
    requires NewestFirst(s)
    ensures At(Insert(p, s), t) == if p.publishedAt == t then [p] + At(s, t) else At(s, t)
    decreases |s|
  {
    if s != [] && p.publishedAt < s[0].publishedAt {
      InsertAt(p, s[1..], t);
      assert Insert(p, s)[1..] == Insert(p, s[1..]);
      if p.publishedAt == t {
        assert s[0].publishedAt != t;
        assert NewestFirst(s[1..]);
      }
    }
  }

  /** The sort is stable: the posts published at any one time keep their input order. */
  lemma {:induction false} SortIsStable(posts: seq<Post>, t: int)
    ensures At(SortNewestFirst(posts), t) == At(posts, t)
    decreases |posts|
  {
    if posts != [] {
      SortIsStable(posts[1..], t);
      SortIsNewestFirst(posts[1..]);
      InsertAt(posts[0], SortNewestFirst(posts[1..]), t);
    }
  }

  lemma {:induction false} NewestFirstTail(s: seq<Post>)
    requires NewestFirst(s) && s != []
    ensures NewestFirst(s[1..])
    ensures forall i :: 0 <= i < |s| ==> s[0].publishedAt >= s[i].publishedAt
  {
    forall i | 0 <= i < |s|
      ensures s[0].publishedAt >= s[i].publishedAt
    {
      if i > 0 {
        assert s[0].publishedAt >= s[i].publishedAt;
      }
    }
  }

  /** A sequence the server already listed newest first, with no two posts at the same time
      out of order, comes back unchanged. */
  lemma {:induction false} SortOfSorted(posts: seq<Post>)
    requires NewestFirst(posts)
    ensures SortNewestFirst(posts) == posts
    decreases |posts|
  {
    if posts != [] {
      NewestFirstTail(posts);
      SortOfSorted(posts[1..]);
      var rest := posts[1..];
      if rest != [] {
        assert posts[0].publishedAt >= rest[0].publishedAt;
      }
      assert Insert(posts[0], rest) == [posts[0]] + rest;
      assert [posts[0]] + rest == posts;
    }
  }

  /** What the page shows: the featured post, if any, and the remaining posts. */
  datatype View = View(featured: Option<Post>, remaining: seq<Post>)

  /** `featuredPost = sortedPosts[0]`, `remainingPosts = sortedPosts.slice(1)`. */
  function Derive(posts: seq<Post>): (v: View)
    ensures v.featured.None? <==> posts == []
    ensures v.featured.Some? ==> [v.featured.value] + v.remaining == SortNewestFirst(posts)
    ensures v.featured.None? ==> v.remaining == []
    ensures v.featured.Some? ==>
      multiset(v.remaining) + multiset{v.featured.value} == multiset(posts)
  {
    var sorted := SortNewestFirst(posts);
    if sorted == [] then View(None, [])
    else
      assert sorted == [sorted[0]] + sorted[1..];
      View(Some(sorted[0]), sorted[1..])
  }

  /** The featured post is one of the posts and none is newer; the remaining ones are
      newest first. */
  lemma FeaturedIsNewest(posts: seq<Post>)
    requires posts != []
    ensures var v := Derive(posts);
      && v.featured.value in posts
      && (forall p :: p in posts ==> v.featured.value.publishedAt >= p.publishedAt)
      && NewestFirst(v.remaining)
  {
    var sorted := SortNewestFirst(posts);
    SortIsNewestFirst(posts);
    NewestFirstTail(sorted);
    assert sorted[0] in multiset(posts);
    forall p | p in posts
      ensures sorted[0].publishedAt >= p.publishedAt
    {
      assert p in multiset(sorted);
      var k :| 0 <= k < |sorted| && sorted[k] == p;
    }
  }

  // ---- excerpts, counted in UTF-16 code units as JavaScript strings are ----

  type CodeUnit = u: int | 0 <= u < 0x1_0000

  /** The UTF-16 code units of one character: itself below U+10000, else a surrogate pair. */
  function Units(c: char): (u: seq<CodeUnit>)
    ensures |u| == if c as int < 0x1_0000 then 1 else 2
  {
    var v := c as int;
    if v < 0x1_0000 then [v]
    else [0xD800 + (v - 0x1_0000) / 0x400, 0xDC00 + (v - 0x1_0000) % 0x400]
  }

  /** The UTF-16 form of a text, character by character. */
  function Utf16(s: string): (u: seq<CodeUnit>)
    ensures |u| >= |s|
  {
    if s == [] then [] else Units(s[0]) + Utf16(s[1..])
  }

  /** The UTF-16 form of a joined text is the join of the forms. */
  lemma {:induction false} Utf16Append(a: string, b: string)
    ensures Utf16(a + b) == Utf16(a) + Utf16(b)
    decreases |a|
  {
    if a != [] {
      assert (a + b)[0] == a[0] && (a + b)[1..] == a[1..] + b;
      Utf16Append(a[1..], b);
    } else {
      assert a + b == b;
    }
  }

  /** A text with no character beyond U+FFFF is its own UTF-16 form, one unit per character. */
  lemma {:induction false} Utf16Basic(s: string)
    requires forall i :: 0 <= i < |s| ==> s[i] as int < 0x1_0000
    ensures |Utf16(s)| == |s|
    ensures forall i :: 0 <= i < |s| ==> Utf16(s)[i] == s[i] as int
    decreases |s|
  {
    if s != [] {
      Utf16Basic(s[1..]);
    }
  }

  /** The two units of a character beyond U+FFFF are a high then a low surrogate. */
  lemma PairOf(c: char)
    requires c as int >= 0x1_0000
    ensures 0xD800 <= Units(c)[0] < 0xDC00 && 0xDC00 <= Units(c)[1] < 0xE000
    ensures (Units(c)[0] as int - 0xD800) * 0x400 + (Units(c)[1] as int - 0xDC00) + 0x1_0000 == c as int
  {
  }

  /** `content.substring(0, n)`: the first `n` code units, or all of a shorter content; a
      cut can fall between the two halves of a surrogate pair. */
  function Prefix(content: string, n: nat): (r: seq<CodeUnit>)
    ensures |r| == if |Utf16(content)| < n then |Utf16(content)| else n
    ensures r == Utf16(content)[..|r|]
  {
    var u := Utf16(content);
    if |u| < n then u else u[..n]
  }

  /** A cut after whole characters keeps exactly those characters. */
  lemma PrefixAtBoundary(a: string, b: string, n: nat)
    requires |Utf16(a)| == n
    ensures Prefix(a + b, n) == Utf16(a)
  {
    Utf16Append(a, b);
  }

  /** `post.summary || post.content.substring(0, n)`: a non-empty summary, else the start of
      the content. */
  function Excerpt(p: Post, n: nat): (r: seq<CodeUnit>)
    ensures p.summary.Some? && p.summary.value != [] ==> r == Utf16(p.summary.value)
    ensures !(p.summary.Some? && p.summary.value != []) ==>
      var u := Utf16(p.content);
      |r| <= n && |r| <= |u| && r == u[..|r|] && (|u| <= n ==> r == u)
  {
    if p.summary.Some? && p.summary.value != [] then Utf16(p.summary.value) else Prefix(p.content, n)
  }

  /** The featured card shows 200 characters of content, the others 150. */
  const FeaturedLength: nat := 200
  const CardLength: nat := 150

  /** The featured card never shows less of a summary-less post than a regular card. */
  lemma FeaturedShowsMore(p: Post)
    requires !(p.summary.Some? && p.summary.value != [])
    ensures Excerpt(p, CardLength) == Excerpt(p, FeaturedLength)[..|Excerpt(p, CardLength)|]
  {
    var long, short := Excerpt(p, FeaturedLength), Excerpt(p, CardLength);
    assert |short| <= |long|;
    var u := Utf16(p.content);
    assert short == u[..|short|] && long == u[..|long|];
  }
}
