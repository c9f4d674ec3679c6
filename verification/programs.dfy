/** The public programs page's derivations: the search filter over program titles, the skill
    chips, and the link of the Apply button. */
module ProgramsPage {
  import opened Base
  import Text
  import Uri

  /** A program as the page uses it. */
  datatype Program = Program(id: string, title: string, skills: Option<string>)

  /** `toLowerCase` on one character, for the ASCII letters. */
  function LowerChar(c: char): (r: char)
    ensures !('A' <= r <= 'Z')
    ensures !('A' <= c <= 'Z') ==> r == c
    ensures 'A' <= c <= 'Z' ==> 'a' <= r <= 'z' && r as int - c as int == 32
  {
    if 'A' <= c <= 'Z' then (c as int + 32) as char else c
  }

  /** `s.toLowerCase()`, character by character. */
  function Lower(s: string): (r: string)
    ensures |r| == |s|
    ensures forall i :: 0 <= i < |s| ==> r[i] == LowerChar(s[i])
  {
    if s == [] then [] else [LowerChar(s[0])] + Lower(s[1..])
  }

  /** Lower-casing twice is lower-casing once. */
  lemma LowerTwice(s: string)
    ensures Lower(Lower(s)) == Lower(s)
  {
  }

  /** `s.includes(q)`: `q` starts at some position of `s`. */
  function Includes(s: string, q: string): bool
    decreases |s|
  {
    if |q| <= |s| && s[..|q|] == q then true
    else if s == [] then false
    else Includes(s[1..], q)
  }

  /** `q` sits in `s` at position `i`. */
  predicate OccursAt(s: string, q: string, i: nat) {
    i + |q| <= |s| && s[i..i + |q|] == q
  }

  /** The reference meaning of `includes`: some slice of `s` equals `q`. */
  ghost predicate Occurs(s: string, q: string) {
    exists i: nat :: OccursAt(s, q, i)
  }

  /** `Includes` finds an occurrence exactly when there is one. */
  lemma {:induction false} IncludesIff(s: string, q: string)
    ensures Includes(s, q) <==> Occurs(s, q)
    decreases |s|
  {
    if |q| <= |s| && s[..|q|] == q {
      assert OccursAt(s, q, 0);
    } else if s != [] {
      IncludesIff(s[1..], q);
      if Occurs(s[1..], q) {
        var i: nat :| OccursAt(s[1..], q, i);
        assert s[i + 1..i + 1 + |q|] == s[1..][i..i + |q|];
        assert OccursAt(s, q, i + 1);
      }
      if Occurs(s, q) {
        var i: nat :| OccursAt(s, q, i);
        assert i != 0;
        assert s[1..][i - 1..i - 1 + |q|] == s[i..i + |q|];
        assert OccursAt(s[1..], q, i - 1);
      }
    }
  }

  /** The search rule: the lower-cased title contains the lower-cased query. */
  predicate Matches(p: Program, query: string) {
    Includes(Lower(p.title), Lower(query))
  }

  /** `programs.filter(...)`. */
  function Filter(programs: seq<Program>, query: string): (r: seq<Program>)
    ensures |r| <= |programs|
    decreases |programs|
  {
    if programs == [] then []
    else if Matches(programs[0], query) then [programs[0]] + Filter(programs[1..], query)
    else Filter(programs[1..], query)
  }

  /** The filter keeps exactly the matching programs. */
  lemma {:induction false} FilterMembers(programs: seq<Program>, query: string, p: Program)
    ensures p in Filter(programs, query) <==> p in programs && Matches(p, query)
    decreases |programs|
  {
    if programs != [] {
      FilterMembers(programs[1..], query, p);
      assert programs == [programs[0]] + programs[1..];
    }
  }

  /** `a` is `b` with some elements left out, the rest in their order. */
  predicate Subsequence<T(==)>(a: seq<T>, b: seq<T>)
    decreases |b|
  {
    if a == [] then true
    else if b == [] then false
    else (a[0] == b[0] && Subsequence(a[1..], b[1..])) || Subsequence(a, b[1..])
  }

  /** The filter keeps the programs in their listed order. */
  lemma {:induction false} FilterIsSubsequence(programs: seq<Program>, query: string)
    ensures Subsequence(Filter(programs, query), programs)
    decreases |programs|
  {
    if programs != [] {
      FilterIsSubsequence(programs[1..], query);
      var r := Filter(programs, query);
      if Matches(programs[0], query) {
        assert r[1..] == Filter(programs[1..], query);
      }
    }
  }

  /** An empty query, as after Reset, keeps every program. */
  lemma {:induction false} EmptyQueryKeepsAll(programs: seq<Program>)
    ensures Filter(programs, "") == programs
    decreases |programs|
  {
    if programs != [] {
      assert Lower(programs[0].title)[..0] == [];
      EmptyQueryKeepsAll(programs[1..]);
      assert programs == [programs[0]] + programs[1..];
    }
  }

  /** The search ignores the case of the query's letters. */
  lemma {:induction false} FilterIgnoresCase(programs: seq<Program>, query: string)
    ensures Filter(programs, query) == Filter(programs, Lower(query))
    decreases |programs|
  {
    LowerTwice(query);
    if programs != [] {
      FilterIgnoresCase(programs[1..], query);
    }
  }

  /** `program.skills && program.skills.split(",").map(s => s.trim())`: no chips for a
      missing or empty skills text. */
  function Chips(skills: Option<string>): (r: seq<string>)
    ensures skills.None? || skills.value == [] ==> r == []
  {
    if skills.None? || skills.value == [] then []
    else
      var pieces := Text.Split(skills.value, ',');
      seq(|pieces|, k requires 0 <= k < |pieces| => Text.Trim(pieces[k]))
  }

  /** A non-empty skills text gives one chip more than it has commas, each chip being one
      comma-separated piece with its white space trimmed. */
  lemma ChipsOf(skills: string)
    requires skills != []
    ensures var r := Chips(Some(skills));
      && |r| == Text.Count(skills, ',') + 1
      && (forall k :: 0 <= k < |r| ==> r[k] == Text.Trim(Text.Split(skills, ',')[k]))
  {
    Text.SplitCount(skills, ',');
  }

  /** No chip holds a comma, and none starts or ends with white space. */
  lemma ChipsClean(skills: string)
    requires skills != []
    ensures var r := Chips(Some(skills));
      && (forall k :: 0 <= k < |r| ==> ',' !in r[k])
      && (forall k :: 0 <= k < |r| ==> r[k] == [] || (!Text.IsSpace(r[k][0]) && !Text.IsSpace(r[k][|r[k]| - 1])))
  {
    var pieces := Text.Split(skills, ',');
    Text.SplitNoSeparator(skills, ',');
    var r := Chips(Some(skills));
    forall k | 0 <= k < |r|
      ensures ',' !in r[k]
    {
      Text.TrimWithin(pieces[k], ',');
    }
  }

  /** The chips are the skills text's pieces: joined back with commas they give the text
      again, up to the white space trimmed around each piece. */
  lemma ChipsRejoin(skills: string)
    requires skills != []
    ensures Text.Join(Text.Split(skills, ','), ',') == skills
    ensures |Chips(Some(skills))| == |Text.Split(skills, ',')|
  {
    Text.JoinSplit(skills, ',');
  }

  const ApplyPath := "/apply/"
  const CourseNameParam := "?courseName="

  /** The Apply button's target: the program's id in the path and its title, encoded, as
      the `courseName` parameter. */
  function ApplyLink(p: Program): string {
    ApplyPath + p.id + CourseNameParam + Uri.Encode(p.title)
  }

  /** Reads an Apply link back: the id up to the first `?`, and the decoded `courseName`. */
  function ParseApplyLink(link: string): (r: Option<(string, string)>)
  {
    if |link| < |ApplyPath| || link[..|ApplyPath|] != ApplyPath then None
    else
      var rest := link[|ApplyPath|..];
      var i := Text.IndexOf(rest, '?');
      var query := rest[i..];
      if |query| < |CourseNameParam| || query[..|CourseNameParam|] != CourseNameParam then None
      else match Uri.Decode(query[|CourseNameParam|..])
        case Some(title) => Some((rest[..i], title))
        case None => None
  }

  /** The link carries the program's id and title intact, whatever characters the title
      holds, as long as the id holds no `?`. */
  lemma ApplyLinkRoundTrip(p: Program)
    requires '?' !in p.id
    ensures ParseApplyLink(ApplyLink(p)) == Some((p.id, p.title))
  {
    var value := Uri.Encode(p.title);
    var tail := CourseNameParam + value;
    var rest := p.id + tail;
    var link := ApplyLink(p);
    Uri.Associative(ApplyPath + p.id, CourseNameParam, value);
    Uri.Associative(ApplyPath, p.id, tail);
    assert link == ApplyPath + rest;
    assert link[..|ApplyPath|] == ApplyPath && link[|ApplyPath|..] == rest;
    Text.IndexOfPrefix(p.id, '?', tail);
    assert rest[..|p.id|] == p.id && rest[|p.id|..] == tail;
    assert tail[..|CourseNameParam|] == CourseNameParam && tail[|CourseNameParam|..] == value;
    Uri.DecodeEncode(p.title);
  }
}
