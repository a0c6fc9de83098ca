/**
 * The blog post collection route: validation of a post body, the listing
 * filter and order, the derived `slug` and `readTime`, the JSON-text `tags`
 * column, and the create, partial-update and delete handlers.
 */
module BlogApi {
  import opened Wrappers
  import opened Text
  import opened Json
  import opened Store
  import opened Http

  /** A stored blog post row. `tags` holds JSON text (or nothing); `createdAt` is a timestamp. */
  datatype BlogPost = BlogPost(
    id: string,
    title: string,
    slug: string,
    content: string,
    excerpt: Option<string>,
    imageUrl: Option<string>,
    published: bool,
    author: string,
    tags: Option<string>,
    readTime: Option<int>,
    viewCount: int,
    likes: int,
    isTrending: bool,
    createdAt: int)

  /** A post as a route answers it: the stored row with `tags` replaced by the decoded array. */
  datatype PostView = PostView(post: BlogPost, tags: seq<string>)

  /** The outcome of a handler: its reply and the table afterwards. */
  datatype Handled<T> = Handled(reply: Reply<T>, posts: seq<BlogPost>)

  // ---------------------------------------------------------------------------
  // Slug

  predicate IsSlugChar(c: char)
  {
    'a' <= c <= 'z' || '0' <= c <= '9'
  }

  /** The text after a leading run of characters outside `[a-z0-9]`. */
  function DropSeparators(s: string): (r: string)
    ensures |r| <= |s|
    ensures r == [] || IsSlugChar(r[0])
    ensures r == s[|s| - |r|..]
    ensures forall i :: 0 <= i < |s| - |r| ==> !IsSlugChar(s[i])
  {
    if |s| > 0 && !IsSlugChar(s[0]) then DropSeparators(s[1..]) else s
  }

  /** `replace(/[^a-z0-9]+/g, '-')`: every maximal run of other characters becomes one hyphen. */
  function Collapse(s: string): (r: string)
    ensures s == [] <==> r == []
    ensures |r| <= |s|
    decreases |s|
  {
    if s == [] then []
    else if IsSlugChar(s[0]) then [s[0]] + Collapse(s[1..])
    else ['-'] + Collapse(DropSeparators(s[1..]))
  }

  /** Only letters, digits and hyphens. */
  predicate SlugAlphabet(r: string)
  {
    forall i :: 0 <= i < |r| ==> IsSlugChar(r[i]) || r[i] == '-'
  }

  /** No two hyphens in a row. */
  predicate SingleHyphens(r: string)
  {
    forall i :: 0 <= i < |r| - 1 ==> !(r[i] == '-' && r[i + 1] == '-')
  }

  lemma PrependSlugChar(c: char, r: string)
    requires SlugAlphabet(r) && SingleHyphens(r)
    requires IsSlugChar(c) || (c == '-' && (r == [] || r[0] != '-'))
    ensures SlugAlphabet([c] + r) && SingleHyphens([c] + r)
  {
    var t := [c] + r;
    forall i | 0 <= i < |t| ensures IsSlugChar(t[i]) || t[i] == '-' {
      if i > 0 { assert t[i] == r[i - 1]; }
    }
    forall i | 0 <= i < |t| - 1 ensures !(t[i] == '-' && t[i + 1] == '-') {
      if i > 0 { assert t[i] == r[i - 1] && t[i + 1] == r[i]; }
    }
  }

  /** Only letters, digits and single hyphens; the first character is a hyphen exactly when the input starts with a separator. */
  lemma {:induction false} CollapseWellFormed(s: string)
    ensures SlugAlphabet(Collapse(s)) && SingleHyphens(Collapse(s))
    ensures |s| > 0 ==> (Collapse(s)[0] == '-' <==> !IsSlugChar(s[0]))
    decreases |s|
  {
    if s != [] {
      if IsSlugChar(s[0]) {
        CollapseWellFormed(s[1..]);
        PrependSlugChar(s[0], Collapse(s[1..]));
      } else {
        var d := DropSeparators(s[1..]);
        CollapseWellFormed(d);
        PrependSlugChar('-', Collapse(d));
      }
    }
  }

  /** `replace(/(^-|-$)/g, '')`: one leading and one trailing hyphen removed. */
  function TrimHyphens(s: string): (r: string)
    ensures |r| <= |s| && |r| + 2 >= |s|
    ensures (s == [] || (s[0] != '-' && s[|s| - 1] != '-')) ==> r == s
  {
    var a := if |s| > 0 && s[0] == '-' then s[1..] else s;
    if |a| > 0 && a[|a| - 1] == '-' then a[..|a| - 1] else a
  }

  /** The URL slug of a title: lower-cased, runs of other characters turned into single hyphens, hyphens trimmed. */
  function Slug(title: string): (r: string)
    ensures |r| <= |title|
  {
    TrimHyphens(Collapse(Lower(title)))
  }

  lemma SliceWellFormed(a: string, i: nat, j: nat)
    requires i <= j <= |a|
    requires SlugAlphabet(a) && SingleHyphens(a)
    ensures SlugAlphabet(a[i..j]) && SingleHyphens(a[i..j])
  {
    var t := a[i..j];
    forall k | 0 <= k < |t| ensures IsSlugChar(t[k]) || t[k] == '-' {
      assert t[k] == a[i + k];
    }
    forall k | 0 <= k < |t| - 1 ensures !(t[k] == '-' && t[k + 1] == '-') {
      assert t[k] == a[i + k] && t[k + 1] == a[i + k + 1];
    }
  }

  /** Trimming the hyphens of a collapsed string leaves no hyphen at either end. */
  lemma TrimHyphensWellFormed(c: string)
    requires SlugAlphabet(c) && SingleHyphens(c)
    ensures var r := TrimHyphens(c);
      SlugAlphabet(r) && SingleHyphens(r) && (r == [] || (r[0] != '-' && r[|r| - 1] != '-'))
  {
    var a := if |c| > 0 && c[0] == '-' then c[1..] else c;
    if |c| > 0 && c[0] == '-' {
      SliceWellFormed(c, 1, |c|);
      if |c| > 1 {
        assert a[0] == c[1];
      }
    }
    assert a == [] || a[0] != '-';
    if |a| > 0 && a[|a| - 1] == '-' {
      SliceWellFormed(a, 0, |a| - 1);
      if |a| > 1 {
        assert a[|a| - 2] != '-';
      }
    }
  }

  /** A slug uses only `[a-z0-9-]`, never has two hyphens in a row, and neither starts nor ends with one. */
  lemma SlugWellFormed(title: string)
    ensures var r := Slug(title);
      SlugAlphabet(r) && SingleHyphens(r) && (r == [] || (r[0] != '-' && r[|r| - 1] != '-'))
  {
    var c := Collapse(Lower(title));
    CollapseWellFormed(Lower(title));
    TrimHyphensWellFormed(c);
    assert Slug(title) == TrimHyphens(c);
  }

  /** The characters of `s` that are in `[a-z0-9]`, in order. */
  function SlugChars(s: string): (r: string)
  {
    if s == [] then [] else (if IsSlugChar(s[0]) then [s[0]] else []) + SlugChars(s[1..])
  }

  lemma {:induction false} SlugCharsOfSeparators(s: string)
    requires forall i :: 0 <= i < |s| ==> !IsSlugChar(s[i])
    ensures SlugChars(s) == []
  {
    if s != [] { SlugCharsOfSeparators(s[1..]); }
  }

  lemma {:induction false} CollapseKeepsSlugChars(s: string)
    ensures SlugChars(Collapse(s)) == SlugChars(s)
    decreases |s|
  {
    if s != [] {
      if IsSlugChar(s[0]) {
        CollapseKeepsSlugChars(s[1..]);
        assert ([s[0]] + Collapse(s[1..]))[1..] == Collapse(s[1..]);
      } else {
        var d := DropSeparators(s[1..]);
        CollapseKeepsSlugChars(d);
        assert (['-'] + Collapse(d))[1..] == Collapse(d);
        var k := |s[1..]| - |d|;
        assert s[1..] == s[1..][..k] + d;
        SlugCharsOfSeparators(s[1..][..k]);
        SlugCharsAppend(s[1..][..k], d);
      }
    }
  }

  lemma {:induction false} SlugCharsAppend(a: string, b: string)
    ensures SlugChars(a + b) == SlugChars(a) + SlugChars(b)
  {
    if a != [] {
      assert (a + b)[1..] == a[1..] + b;
      SlugCharsAppend(a[1..], b);
    } else {
      assert a + b == b;
    }
  }

  /** The slug keeps every letter and digit of the lower-cased title, in order, and nothing else but hyphens. */
  lemma SlugKeepsLettersAndDigits(title: string)
    ensures SlugChars(Slug(title)) == SlugChars(Lower(title))
  {
    var c := Collapse(Lower(title));
    CollapseKeepsSlugChars(Lower(title));
    var a := if |c| > 0 && c[0] == '-' then c[1..] else c;
    if |c| > 0 && c[0] == '-' {
      assert c == ['-'] + a;
      SlugCharsAppend(['-'], a);
    }
    if |a| > 0 && a[|a| - 1] == '-' {
      assert a == a[..|a| - 1] + ['-'];
      SlugCharsAppend(a[..|a| - 1], ['-']);
    }
  }

  lemma {:induction false} SlugCharsEmpty(s: string)
    ensures SlugChars(s) == [] <==> forall i :: 0 <= i < |s| ==> !IsSlugChar(s[i])
  {
    if s != [] {
      SlugCharsEmpty(s[1..]);
      assert forall i :: 1 <= i < |s| ==> s[i] == s[1..][i - 1];
    }
  }

  /** The slug is empty exactly when the title has no ASCII letter or digit, as with a title of punctuation only. */
  lemma EmptySlugIffNoLettersOrDigits(title: string)
    ensures Slug(title) == "" <==> forall i :: 0 <= i < |title| ==> !IsSlugChar(AsciiLower(title[i]))
  {
    var l := Lower(title);
    SlugCharsEmpty(l);
    SlugKeepsLettersAndDigits(title);
    if forall i :: 0 <= i < |l| ==> !IsSlugChar(l[i]) {
      if l != [] {
        var d := DropSeparators(l[1..]);
        assert d == [];
        assert Collapse(l) == "-";
      }
    }
  }

  lemma {:induction false} CollapseWord(w: string, rest: string)
    requires forall i :: 0 <= i < |w| ==> IsSlugChar(w[i])
    ensures Collapse(w + rest) == w + Collapse(rest)
  {
    if w != [] {
      var t := w + rest;
      assert t[0] == w[0] && IsSlugChar(t[0]);
      assert t[1..] == w[1..] + rest;
      assert Collapse(t) == [w[0]] + Collapse(w[1..] + rest);
      CollapseWord(w[1..], rest);
      assert [w[0]] + (w[1..] + Collapse(rest)) == w + Collapse(rest);
    } else {
      assert w + rest == rest;
    }
  }

  lemma {:induction false} DropSeparatorsPrefix(sep: string, rest: string)
    requires forall i :: 0 <= i < |sep| ==> !IsSlugChar(sep[i])
    requires rest == [] || IsSlugChar(rest[0])
    ensures DropSeparators(sep + rest) == rest
  {
    if sep != [] {
      assert (sep + rest)[1..] == sep[1..] + rest;
      DropSeparatorsPrefix(sep[1..], rest);
    } else {
      assert sep + rest == rest;
    }
  }

  lemma CollapseSeparator(sep: string, rest: string)
    requires |sep| > 0 && forall i :: 0 <= i < |sep| ==> !IsSlugChar(sep[i])
    requires rest == [] || IsSlugChar(rest[0])
    ensures Collapse(sep + rest) == ['-'] + Collapse(rest)
  {
    var t := sep + rest;
    assert t[1..] == sep[1..] + rest;
    DropSeparatorsPrefix(sep[1..], rest);
  }

  predicate AllSlugChars(w: string)
  {
    |w| > 0 && forall i :: 0 <= i < |w| ==> IsSlugChar(w[i])
  }

  predicate NoSlugChars(w: string)
  {
    |w| > 0 && forall i :: 0 <= i < |w| ==> !IsSlugChar(w[i])
  }

  /** A word followed by a run of separators collapses to the word and one hyphen. */
  lemma CollapseWordThenSeparator(w: string, sep: string, rest: string)
    requires AllSlugChars(w) && NoSlugChars(sep) && (rest == [] || IsSlugChar(rest[0]))
    ensures Collapse(w + sep + rest) == w + "-" + Collapse(rest)
  {
    var t := sep + rest;
    assert w + sep + rest == w + t;
    CollapseWord(w, t);
    CollapseSeparator(sep, rest);
  }

  lemma CollapseFiveWords(w: seq<string>, s: seq<string>)
    requires |w| == 5 && |s| == 5
    requires forall i :: 0 <= i < 5 ==> AllSlugChars(w[i]) && NoSlugChars(s[i])
    ensures Collapse(w[0] + s[0] + (w[1] + s[1] + (w[2] + s[2] + (w[3] + s[3] + (w[4] + s[4] + [])))))
         == w[0] + "-" + (w[1] + "-" + (w[2] + "-" + (w[3] + "-" + (w[4] + "-" + []))))
  {
    var r5 := w[4] + s[4] + [];
    var r4 := w[3] + s[3] + r5;
    var r3 := w[2] + s[2] + r4;
    var r2 := w[1] + s[1] + r3;
    CollapseWordThenSeparator(w[4], s[4], []);
    CollapseWordThenSeparator(w[3], s[3], r5);
    CollapseWordThenSeparator(w[2], s[2], r4);
    CollapseWordThenSeparator(w[1], s[1], r3);
    CollapseWordThenSeparator(w[0], s[0], r2);
  }

  lemma ExampleLower(title: string)
    requires title == "Getting Started: Next.js 14!"
    ensures Lower(title) == "getting started: next.js 14!"
  {
  }

  lemma ExampleWords(t: string)
    requires t == "getting started: next.js 14!"
    ensures t == "getting" + " " + ("started" + ": " + ("next" + "." + ("js" + " " + ("14" + "!" + []))))
  {
  }

  lemma ExampleHyphens(t: string)
    requires t == "getting" + "-" + ("started" + "-" + ("next" + "-" + ("js" + "-" + ("14" + "-" + []))))
    ensures t == "getting-started-next-js-14-"
  {
  }

  /** The worked example: "Getting Started: Next.js 14!" gives "getting-started-next-js-14". */
  lemma SlugExample(title: string)
    requires title == "Getting Started: Next.js 14!"
    ensures Slug(title) == "getting-started-next-js-14"
  {
    ExampleLower(title);
    ExampleWords(Lower(title));
    CollapseFiveWords(["getting", "started", "next", "js", "14"], [" ", ": ", ".", " ", "!"]);
    ExampleHyphens(Collapse(Lower(title)));
  }

  // ---------------------------------------------------------------------------
  // Read time

  /** `s.split(/\s+/)`: the pieces between maximal whitespace runs; leading or trailing whitespace gives an empty piece. */
  function Pieces(s: string): (r: seq<string>)
    ensures |r| >= 1
    decreases |s|
  {
    if s == [] then [[]]
    else if IsSpace(s[0]) then [[]] + Pieces(TrimStart(s[1..]))
    else
      var rest := Pieces(s[1..]);
      [[s[0]] + rest[0]] + rest[1..]
  }

  /** The number of maximal whitespace runs: the spaces not followed by another space. */
  function Runs(s: string): nat
  {
    if s == [] then 0
    else (if IsSpace(s[0]) && (|s| == 1 || !IsSpace(s[1])) then 1 else 0) + Runs(s[1..])
  }

  /** The characters of `s` that are not whitespace, in order. */
  function NonSpace(s: string): string
  {
    if s == [] then [] else (if IsSpace(s[0]) then [] else [s[0]]) + NonSpace(s[1..])
  }

  function Concat(xs: seq<string>): string
  {
    if xs == [] then [] else xs[0] + Concat(xs[1..])
  }

  /** A string that opens with whitespace has one run more than the text after that leading run. */
  lemma {:induction false} RunsOfLeadingSpace(s: string)
    requires |s| > 0 && IsSpace(s[0])
    ensures Runs(s) == 1 + Runs(TrimStart(s[1..]))
  {
    if |s| == 1 || !IsSpace(s[1]) {
      assert TrimStart(s[1..]) == s[1..];
    } else {
      RunsOfLeadingSpace(s[1..]);
      assert TrimStart(s[1..]) == TrimStart(s[1..][1..]);
    }
  }

  /** Splitting on whitespace gives one piece more than there are whitespace runs. */
  lemma {:induction false} PiecesCount(s: string)
    ensures |Pieces(s)| == 1 + Runs(s)
    decreases |s|
  {
    if s != [] {
      if IsSpace(s[0]) {
        PiecesCount(TrimStart(s[1..]));
        RunsOfLeadingSpace(s);
      } else {
        PiecesCount(s[1..]);
      }
    }
  }

  lemma {:induction false} NonSpaceOfTrimStart(s: string)
    ensures NonSpace(TrimStart(s)) == NonSpace(s)
  {
    if |s| > 0 && IsSpace(s[0]) {
      assert TrimStart(s) == TrimStart(s[1..]);
      assert NonSpace(s) == NonSpace(s[1..]);
      NonSpaceOfTrimStart(s[1..]);
    }
  }

  /**
   * The pieces hold no whitespace, every piece but the first and the last is
   * non-empty, and together they hold exactly the non-whitespace characters
   * of `s`, in order.
   */
  lemma {:induction false} PiecesSplitOnRuns(s: string)
    ensures var p := Pieces(s);
      && (forall i, j :: 0 <= i < |p| && 0 <= j < |p[i]| ==> !IsSpace(p[i][j]))
      && (forall i :: 0 < i < |p| - 1 ==> p[i] != [])
      && Concat(p) == NonSpace(s)
    decreases |s|
  {
    if s != [] {
      var p := Pieces(s);
      if IsSpace(s[0]) {
        var t := TrimStart(s[1..]);
        PiecesSplitOnRuns(t);
        var q := Pieces(t);
        assert p == [[]] + q;
        assert p[1..] == q;
        if |q| > 1 {
          assert q[0] != [] by {
            assert t != [];
            PiecesHead(t);
          }
        }
        NonSpaceOfTrimStart(s[1..]);
        assert Concat(p) == Concat(q);
      } else {
        PiecesSplitOnRuns(s[1..]);
        var q := Pieces(s[1..]);
        assert p == [[s[0]] + q[0]] + q[1..];
        assert p[1..] == q[1..];
        forall i, j | 0 <= i < |p| && 0 <= j < |p[i]| ensures !IsSpace(p[i][j]) {
          if i == 0 {
            if j > 0 { assert p[0][j] == q[0][j - 1]; }
          } else {
            assert p[i] == q[i];
          }
        }
        assert q == [q[0]] + q[1..];
        assert Concat(q) == q[0] + Concat(q[1..]);
        assert Concat(p) == [s[0]] + q[0] + Concat(q[1..]);
      }
    }
  }

  /** A string that starts with a non-space character has a non-empty first piece. */
  lemma PiecesHead(s: string)
    requires s != [] && !IsSpace(s[0])
    ensures Pieces(s)[0] != []
  {
    var rest := Pieces(s[1..]);
    assert Pieces(s)[0] == [s[0]] + rest[0];
  }

  /** `Math.ceil(words / 200)`: the minutes at 200 words per minute. */
  function Minutes(words: nat): (r: nat)
    ensures (r - 1) * 200 < words <= r * 200 || (words == 0 && r == 0)
  {
    (words + 199) / 200
  }

  /** The read time stored with a post: minutes for the number of whitespace-separated pieces of its content. */
  function ReadTime(content: string): (r: int)
    ensures r >= 1
    ensures (r - 1) * 200 < |Pieces(content)| <= r * 200
  {
    Minutes(|Pieces(content)|)
  }

  // ---------------------------------------------------------------------------
  // Stored tags

  /** The rows as answered, each with its tags decoded; `None` when some row's tags fail to parse. */
  function ViewAll(rows: seq<BlogPost>): (r: Option<seq<PostView>>)
    ensures r.Some? <==> forall i :: 0 <= i < |rows| ==> DecodeColumn(rows[i].tags).Some?
    ensures r.Some? ==> (|r.value| == |rows|
      && forall i :: 0 <= i < |rows| ==> r.value[i] == PostView(rows[i], DecodeColumn(rows[i].tags).value))
  {
    if rows == [] then Some([])
    else
      match (DecodeColumn(rows[0].tags), ViewAll(rows[1..]))
      case (Some(tags), Some(rest)) =>
        assert forall i :: 1 <= i < |rows| ==> rows[i] == rows[1..][i - 1];
        Some([PostView(rows[0], tags)] + rest)
      case _ =>
        assert forall i :: 1 <= i < |rows| ==> rows[i] == rows[1..][i - 1];
        None
  }

  /** The stored rows behind a list of views. */
  function Rows(views: seq<PostView>): (r: seq<BlogPost>)
    ensures |r| == |views| && forall i :: 0 <= i < |views| ==> r[i] == views[i].post
  {
    seq(|views|, i requires 0 <= i < |views| => views[i].post)
  }

  /** Reading the tags back keeps every row as stored: the answered posts are the table's rows, in order. */
  lemma ViewAllRows(rows: seq<BlogPost>)
    ensures ViewAll(rows).Some? ==> Rows(ViewAll(rows).value) == rows
  {
    if ViewAll(rows).Some? {
      assert forall i :: 0 <= i < |rows| ==> Rows(ViewAll(rows).value)[i] == rows[i];
    }
  }

  // ---------------------------------------------------------------------------
  // Listing

  /** The `where` clause of a listing: no constraint, or one value of `published`. */
  datatype PostFilter = AllPosts | PublishedIs(published: bool)

  predicate Matches(where: PostFilter, p: BlogPost)
  {
    match where
    case AllPosts => true
    case PublishedIs(b) => p.published == b
  }

  /**
   * Which posts a listing shows, stated as one rule: everything for an admin,
   * otherwise drafts when `unpublished=true` or `published=false` was asked
   * for, and published posts in every other case.
   */
  predicate Listed(query: Query, p: BlogPost)
  {
    || Param(query, "admin") == Some("true")
    || p.published == !(Param(query, "unpublished") == Some("true") || Param(query, "published") == Some("false"))
  }

  /** The `where` of a listing, chosen by the first flag that applies: `admin`, then `unpublished`, then `published`. */
  method ListingFilter(query: Query) returns (where: PostFilter)
    ensures where.AllPosts? <==> Param(query, "admin") == Some("true")
    ensures forall p :: Matches(where, p) <==> Listed(query, p)
  {
    var admin := Param(query, "admin") == Some("true");
    var published := Param(query, "published");
    var unpublished := Param(query, "unpublished") == Some("true");
    where := AllPosts;
    if admin {
      where := AllPosts;
    } else if unpublished {
      where := PublishedIs(false);
    } else if published == Some("false") {
      where := PublishedIs(false);
    } else {
      where := PublishedIs(true);
    }
  }

  /** `orderBy: { createdAt: 'desc' }`. */
  function NewestFirst(p: BlogPost): seq<int>
  {
    [-p.createdAt]
  }

  lemma NewestFirstDescending(rows: seq<BlogPost>)
    requires SortedBy(rows, NewestFirst)
    ensures forall i, j :: 0 <= i < j < |rows| ==> rows[i].createdAt >= rows[j].createdAt
  {
    forall i, j | 0 <= i < j < |rows| ensures rows[i].createdAt >= rows[j].createdAt {
      assert LexLe(NewestFirst(rows[i]), NewestFirst(rows[j]));
    }
  }

  /**
   * `GET /api/blog`: the listed posts, newest first, each with its tags
   * decoded. A store failure or a stored `tags` text that does not parse
   * answers 500.
   */
  method Get(rows: seq<BlogPost>, available: bool, query: Query) returns (reply: Reply<seq<PostView>>)
    ensures reply.Fail? ==> reply == Fail(500, "Failed to fetch blog posts", None, None)
    ensures reply.Ok? <==> available && forall p :: p in rows && Listed(query, p) ==> DecodeColumn(p.tags).Some?
    ensures reply.Ok? ==> (reply.status == 200
      && (forall p :: multiset(Rows(reply.body))[p] == if Listed(query, p) then multiset(rows)[p] else 0)
      && (forall i, j :: 0 <= i < j < |reply.body| ==> reply.body[i].post.createdAt >= reply.body[j].post.createdAt)
      && (forall i :: 0 <= i < |reply.body| ==> DecodeColumn(reply.body[i].post.tags) == Some(reply.body[i].tags)))
  {
    var where := ListingFilter(query);
    if !available {
      return Fail(500, "Failed to fetch blog posts", None, None);
    }
    var listed := FindMany(rows, p => Matches(where, p), NewestFirst, None);
    var views := ViewAll(listed);
    ListedRows(rows, listed, query, where);
    if views.None? {
      return Fail(500, "Failed to fetch blog posts", None, None);
    }
    NewestFirstDescending(listed);
    assert Rows(views.value) == listed;
    reply := Ok(200, views.value);
  }

  lemma ListedRows(rows: seq<BlogPost>, listed: seq<BlogPost>, query: Query, where: PostFilter)
    requires forall p :: Matches(where, p) <==> Listed(query, p)
    requires multiset(listed) == multiset(Select(rows, p => Matches(where, p)))
    ensures forall p :: multiset(listed)[p] == if Listed(query, p) then multiset(rows)[p] else 0
    ensures (forall i :: 0 <= i < |listed| ==> DecodeColumn(listed[i].tags).Some?)
        <==> (forall p :: p in rows && Listed(query, p) ==> DecodeColumn(p.tags).Some?)
  {
    SelectedRows(rows, listed, p => Matches(where, p), p => Listed(query, p));
    EveryListed(rows, listed, p => Listed(query, p), (p: BlogPost) => DecodeColumn(p.tags).Some?);
  }

  // ---------------------------------------------------------------------------
  // Validation

  /** The fields of the post schema, in the order it declares them. */
  const PostFields: seq<string> := ["title", "content", "excerpt", "imageUrl", "published", "author", "tags", "readTime"]

  /** A post body after `blogPostSchema.parse`: unknown keys dropped, defaults filled in. */
  datatype PostInput = PostInput(
    title: string,
    content: string,
    excerpt: Option<string>,
    imageUrl: Option<string>,
    published: bool,
    author: string,
    tags: seq<string>,
    readTime: Option<int>)

  /** A body after the partial schema: only the supplied fields, no defaults. */
  datatype PostPatch = PostPatch(
    title: Option<string>,
    content: Option<string>,
    excerpt: Option<string>,
    imageUrl: Option<string>,
    published: Option<bool>,
    author: Option<string>,
    tags: Option<seq<string>>,
    readTime: Option<int>)

  /** The name zod uses for the type of a received value. */
  function TypeName(v: JsonValue): string
  {
    match v
    case JNull => "null"
    case JBool(_) => "boolean"
    case JNum(_) => "number"
    case JStr(_) => "string"
    case JArr(_) => "array"
  }

  /** The type the schema expects for a field. */
  function Expected(field: string): string
  {
    if field == "published" then "boolean"
    else if field == "tags" then "array"
    else if field == "readTime" then "number"
    else "string"
  }

  /**
   * The schema's rule for one field. An absent field is allowed unless it is
   * `title` or `content` of a full body; a present one must have the right
   * type, `title` and `content` must not be empty, and `imageUrl` must be
   * empty or a URL.
   */
  predicate FieldValid(body: map<string, JsonValue>, field: string, partial: bool, isUrl: string -> bool)
  {
    if field !in body then partial || (field != "title" && field != "content")
    else match body[field]
      case JStr(s) =>
        && field !in {"published", "tags", "readTime"}
        && (field == "title" || field == "content" ==> s != "")
        && (field == "imageUrl" ==> s == "" || isUrl(s))
      case JBool(_) => field == "published"
      case JArr(_) => field == "tags"
      case JNum(_) => field == "readTime"
      case JNull => false
  }

  /** The issue zod reports for one field of the schema, if any. */
  function FieldIssue(body: map<string, JsonValue>, field: string, partial: bool, isUrl: string -> bool): (r: Option<Issue>)
    requires field in PostFields
    ensures r.None? <==> FieldValid(body, field, partial, isUrl)
    ensures r.Some? ==> r.value.path == [field]
  {
    if field !in body then
      if !partial && (field == "title" || field == "content") then Some(Issue([field], "Required")) else None
    else
      var v := body[field];
      if TypeName(v) != Expected(field) then
        Some(Issue([field], "Expected " + Expected(field) + ", received " + TypeName(v)))
      else if field == "title" && v.s == "" then Some(Issue([field], "Title is required"))
      else if field == "content" && v.s == "" then Some(Issue([field], "Content is required"))
      else if field == "imageUrl" && v.s != "" && !isUrl(v.s) then Some(Issue([field], "Must be a valid URL or empty"))
      else None
  }

  /** The issues of the given fields, in field order. */
  function IssuesFor(fields: seq<string>, body: map<string, JsonValue>, partial: bool, isUrl: string -> bool): (r: seq<Issue>)
    requires forall i :: 0 <= i < |fields| ==> fields[i] in PostFields
    ensures forall i :: 0 <= i < |r| ==> exists j :: 0 <= j < |fields| && FieldIssue(body, fields[j], partial, isUrl) == Some(r[i])
    ensures forall j :: 0 <= j < |fields| && !FieldValid(body, fields[j], partial, isUrl) ==> FieldIssue(body, fields[j], partial, isUrl).value in r
  {
    if fields == [] then []
    else
      var rest := IssuesFor(fields[1..], body, partial, isUrl);
      assert forall j :: 1 <= j < |fields| ==> fields[j] == fields[1..][j - 1];
      match FieldIssue(body, fields[0], partial, isUrl)
      case None => rest
      case Some(issue) => [issue] + rest
  }

  /** Every issue names one failing field. */
  lemma IssuesNameFailingFields(fields: seq<string>, body: map<string, JsonValue>, partial: bool, isUrl: string -> bool)
    requires forall i :: 0 <= i < |fields| ==> fields[i] in PostFields
    ensures var issues := IssuesFor(fields, body, partial, isUrl);
      forall i :: 0 <= i < |issues| ==>
        (|issues[i].path| == 1 && issues[i].path[0] in fields && !FieldValid(body, issues[i].path[0], partial, isUrl))
  {
    var issues := IssuesFor(fields, body, partial, isUrl);
    forall i | 0 <= i < |issues|
      ensures |issues[i].path| == 1 && issues[i].path[0] in fields && !FieldValid(body, issues[i].path[0], partial, isUrl)
    {
      var j :| 0 <= j < |fields| && FieldIssue(body, fields[j], partial, isUrl) == Some(issues[i]);
    }
  }

  /** A failing field has an issue naming it. */
  lemma FailingFieldHasIssue(fields: seq<string>, body: map<string, JsonValue>, partial: bool, isUrl: string -> bool, f: string)
    requires forall i :: 0 <= i < |fields| ==> fields[i] in PostFields
    requires f in fields && !FieldValid(body, f, partial, isUrl)
    ensures exists i :: 0 <= i < |IssuesFor(fields, body, partial, isUrl)| && IssuesFor(fields, body, partial, isUrl)[i].path == [f]
  {
    var issues := IssuesFor(fields, body, partial, isUrl);
    var j :| 0 <= j < |fields| && fields[j] == f;
    var found := FieldIssue(body, fields[j], partial, isUrl);
    assert found.value in issues;
    var i :| 0 <= i < |issues| && issues[i] == found.value;
    assert issues[i].path == [f];
  }

  /** There are no issues exactly when every field keeps its rule. */
  lemma NoIssuesIffValid(fields: seq<string>, body: map<string, JsonValue>, partial: bool, isUrl: string -> bool)
    requires forall i :: 0 <= i < |fields| ==> fields[i] in PostFields
    ensures IssuesFor(fields, body, partial, isUrl) == [] <==> forall f :: f in fields ==> FieldValid(body, f, partial, isUrl)
  {
    var issues := IssuesFor(fields, body, partial, isUrl);
    if issues == [] {
      forall f | f in fields ensures FieldValid(body, f, partial, isUrl) {
        var j :| 0 <= j < |fields| && fields[j] == f;
      }
    } else {
      IssuesNameFailingFields(fields, body, partial, isUrl);
    }
  }

  function StrField(body: map<string, JsonValue>, field: string): Option<string>
  {
    if field in body && body[field].JStr? then Some(body[field].s) else None
  }

  function BoolField(body: map<string, JsonValue>, field: string): Option<bool>
  {
    if field in body && body[field].JBool? then Some(body[field].b) else None
  }

  function ArrField(body: map<string, JsonValue>, field: string): Option<seq<string>>
  {
    if field in body && body[field].JArr? then Some(body[field].items) else None
  }

  function NumField(body: map<string, JsonValue>, field: string): Option<int>
  {
    if field in body && body[field].JNum? then Some(body[field].n) else None
  }

  /**
   * `blogPostSchema.parse(body)`: the validated post, or every issue found.
   * It succeeds exactly when every field keeps its rule; then `published`,
   * `author` and `tags` fall back to `false`, "Admin" and `[]`.
   */
  function Validate(body: map<string, JsonValue>, isUrl: string -> bool): (r: Result<PostInput, seq<Issue>>)
    ensures r.Success? <==> forall f :: f in PostFields ==> FieldValid(body, f, false, isUrl)
    ensures r.Failure? ==> r.error != [] && r.error == IssuesFor(PostFields, body, false, isUrl)
    ensures r.Success? ==> var d := r.value;
      && "title" in body && body["title"] == JStr(d.title) && d.title != ""
      && "content" in body && body["content"] == JStr(d.content) && d.content != ""
      && d.excerpt == StrField(body, "excerpt")
      && d.imageUrl == StrField(body, "imageUrl")
      && (d.imageUrl.Some? ==> d.imageUrl.value == "" || isUrl(d.imageUrl.value))
      && d.published == BoolField(body, "published").GetOr(false)
      && d.author == StrField(body, "author").GetOr("Admin")
      && d.tags == ArrField(body, "tags").GetOr([])
      && d.readTime == NumField(body, "readTime")
  {
    var issues := IssuesFor(PostFields, body, false, isUrl);
    NoIssuesIffValid(PostFields, body, false, isUrl);
    if issues != [] then Failure(issues)
    else
      assert FieldValid(body, "title", false, isUrl) && FieldValid(body, "content", false, isUrl);
      assert FieldValid(body, "imageUrl", false, isUrl);
      Success(PostInput(
        StrField(body, "title").GetOr(""),
        StrField(body, "content").GetOr(""),
        StrField(body, "excerpt"),
        StrField(body, "imageUrl"),
        BoolField(body, "published").GetOr(false),
        StrField(body, "author").GetOr("Admin"),
        ArrField(body, "tags").GetOr([]),
        NumField(body, "readTime")))
  }

  /**
   * `blogPostSchema.partial().parse(body)`: every field may be left out and
   * none gets a default, but a supplied field keeps its rule.
   */
  function ValidatePatch(body: map<string, JsonValue>, isUrl: string -> bool): (r: Result<PostPatch, seq<Issue>>)
    ensures r.Success? <==> forall f :: f in PostFields ==> FieldValid(body, f, true, isUrl)
    ensures r.Failure? ==> r.error != [] && r.error == IssuesFor(PostFields, body, true, isUrl)
    ensures r.Success? ==> var d := r.value;
      && d.title == StrField(body, "title") && (d.title.Some? ==> d.title.value != "")
      && d.content == StrField(body, "content") && (d.content.Some? ==> d.content.value != "")
      && d.excerpt == StrField(body, "excerpt")
      && d.imageUrl == StrField(body, "imageUrl")
      && (d.imageUrl.Some? ==> d.imageUrl.value == "" || isUrl(d.imageUrl.value))
      && d.published == BoolField(body, "published")
      && d.author == StrField(body, "author")
      && d.tags == ArrField(body, "tags")
      && d.readTime == NumField(body, "readTime")
  {
    var issues := IssuesFor(PostFields, body, true, isUrl);
    NoIssuesIffValid(PostFields, body, true, isUrl);
    if issues != [] then Failure(issues)
    else
      assert FieldValid(body, "title", true, isUrl) && FieldValid(body, "content", true, isUrl);
      assert FieldValid(body, "imageUrl", true, isUrl);
      Success(PostPatch(
        StrField(body, "title"),
        StrField(body, "content"),
        StrField(body, "excerpt"),
        StrField(body, "imageUrl"),
        BoolField(body, "published"),
        StrField(body, "author"),
        ArrField(body, "tags"),
        NumField(body, "readTime")))
  }

  // ---------------------------------------------------------------------------
  // Create

  const ValidationError := "Validation error"
  const CheckFormData := "Please check the form data and try again"

  /**
   * `POST /api/blog`: validate, then store the post with its slug and read
   * time derived (any supplied `readTime` is replaced) and its tags as JSON
   * text. The store assigns `newId`, the clock gives `now`, and `available`
   * says whether the write goes through. Answers 201 with the stored post
   * and its tags read back.
   */
  function Create(rows: seq<BlogPost>, available: bool, body: map<string, JsonValue>, isUrl: string -> bool,
                  newId: string, now: int): (h: Handled<PostView>)
    ensures Validate(body, isUrl).Failure? ==>
      h == Handled(Fail(400, ValidationError, Some(CheckFormData), Some(Validate(body, isUrl).error)), rows)
    ensures Validate(body, isUrl).Success? && !available ==>
      h == Handled(Fail(500, "Failed to create blog post", None, None), rows)
    ensures Validate(body, isUrl).Success? && available ==>
      var d := Validate(body, isUrl).value;
      && h.reply.Ok? && h.reply.status == 201
      && h.posts == rows + [h.reply.body.post]
      && var p := h.reply.body.post;
      && p.id == newId && p.createdAt == now
      && p.title == d.title && p.content == d.content && p.excerpt == d.excerpt && p.imageUrl == d.imageUrl
      && p.published == d.published && p.author == d.author
      && p.slug == Slug(d.title)
      && p.readTime == Some(ReadTime(d.content))
      && DecodeColumn(p.tags) == Some(d.tags)
      && h.reply.body.tags == d.tags
      && p.viewCount == 0 && p.likes == 0 && !p.isTrending
  {
    match Validate(body, isUrl)
    case Failure(issues) => Handled(Fail(400, ValidationError, Some(CheckFormData), Some(issues)), rows)
    case Success(d) =>
      if !available then Handled(Fail(500, "Failed to create blog post", None, None), rows)
      else
        var post := BlogPost(newId, d.title, Slug(d.title), d.content, d.excerpt, d.imageUrl, d.published, d.author,
                             Some(Encode(d.tags)), Some(ReadTime(d.content)), 0, 0, false, now);
        ColumnRoundTrip(d.tags);
        Handled(Ok(201, PostView(post, DecodeColumn(post.tags).value)), rows + [post])
  }

  // ---------------------------------------------------------------------------
  // Partial update

  /** The `data` of an update: the fields to overwrite, the derived ones included. */
  datatype PostUpdate = PostUpdate(
    title: Option<string>,
    content: Option<string>,
    excerpt: Option<string>,
    imageUrl: Option<string>,
    published: Option<bool>,
    author: Option<string>,
    tags: Option<string>,
    readTime: Option<int>,
    slug: Option<string>)

  /**
   * The update record of a PATCH, assembled step by step: the validated
   * fields, then a slug when the title gives a non-empty one, a read time
   * when content is supplied (replacing any supplied `readTime`), and the
   * tags as JSON text when supplied.
   */
  method BuildUpdate(data: PostPatch) returns (update: PostUpdate)
    ensures update.slug.Some? <==> data.title.Some? && data.title.value != "" && Slug(data.title.value) != ""
    ensures update.slug.Some? ==> update.slug.value == Slug(data.title.value)
    ensures update.readTime == if data.content.Some? && data.content.value != "" then Some(ReadTime(data.content.value)) else data.readTime
    ensures update.tags.Some? <==> data.tags.Some?
    ensures data.tags.Some? ==> DecodeColumn(update.tags) == Some(data.tags.value)
    ensures update.title == data.title && update.content == data.content && update.excerpt == data.excerpt
    ensures update.imageUrl == data.imageUrl && update.published == data.published && update.author == data.author
  {
    var slug: Option<string> := None;
    if data.title.Some? && data.title.value != "" {
      slug := Some(Slug(data.title.value));
    }
    var readTime: Option<int> := None;
    if data.content.Some? && data.content.value != "" {
      readTime := Some(ReadTime(data.content.value));
    }
    update := PostUpdate(data.title, data.content, data.excerpt, data.imageUrl, data.published, data.author,
                         None, data.readTime, None);
    if slug.Some? && slug.value != "" {
      update := update.(slug := slug);
    }
    if readTime.Some? && readTime.value != 0 {
      update := update.(readTime := readTime);
    }
    if data.tags.Some? {
      update := update.(tags := Some(Encode(data.tags.value)));
      ColumnRoundTrip(data.tags.value);
    }
  }

  /** `update({ data })` on one row: every field the update carries is overwritten, the rest kept. */
  function ApplyUpdate(row: BlogPost, u: PostUpdate): (r: BlogPost)
    ensures r.id == row.id && r.viewCount == row.viewCount && r.likes == row.likes
    ensures r.isTrending == row.isTrending && r.createdAt == row.createdAt
  {
    row.(
      title := u.title.GetOr(row.title),
      content := u.content.GetOr(row.content),
      excerpt := if u.excerpt.Some? then u.excerpt else row.excerpt,
      imageUrl := if u.imageUrl.Some? then u.imageUrl else row.imageUrl,
      published := u.published.GetOr(row.published),
      author := u.author.GetOr(row.author),
      tags := if u.tags.Some? then u.tags else row.tags,
      readTime := if u.readTime.Some? then u.readTime else row.readTime,
      slug := u.slug.GetOr(row.slug))
  }

  /** The position of the first row with the given id. */
  function IndexOf(rows: seq<BlogPost>, id: string): (r: Option<nat>)
    ensures r.Some? ==> r.value < |rows| && rows[r.value].id == id && forall i :: 0 <= i < r.value ==> rows[i].id != id
    ensures r.None? ==> forall i :: 0 <= i < |rows| ==> rows[i].id != id
  {
    if rows == [] then None
    else if rows[0].id == id then Some(0)
    else match IndexOf(rows[1..], id)
      case None => None
      case Some(k) => Some(k + 1)
  }

  /**
   * `PATCH /api/blog/[id]`: validate the partial body, build the update,
   * write it to the row with that id, and answer the row with its tags read
   * back. A missing row or a failed write answers 500; so does a stored
   * `tags` text that does not parse, after the write has happened.
   */
  method Patch(rows: seq<BlogPost>, available: bool, id: string, body: map<string, JsonValue>, isUrl: string -> bool)
    returns (h: Handled<PostView>)
    ensures ValidatePatch(body, isUrl).Failure? ==>
      h == Handled(Fail(400, ValidationError, None, Some(ValidatePatch(body, isUrl).error)), rows)
    ensures ValidatePatch(body, isUrl).Success? && (!available || IndexOf(rows, id).None?) ==>
      h == Handled(Fail(500, "Failed to update blog post", None, None), rows)
    ensures ValidatePatch(body, isUrl).Success? && available && IndexOf(rows, id).Some? ==>
      var d := ValidatePatch(body, isUrl).value;
      var k := IndexOf(rows, id).value;
      && |h.posts| == |rows| && (forall i :: 0 <= i < |rows| && i != k ==> h.posts[i] == rows[i])
      && var was, now := rows[k], h.posts[k];
      && now.id == id && now.viewCount == was.viewCount && now.likes == was.likes
      && now.isTrending == was.isTrending && now.createdAt == was.createdAt
      && now.title == d.title.GetOr(was.title) && now.content == d.content.GetOr(was.content)
      && now.excerpt == (if d.excerpt.Some? then d.excerpt else was.excerpt)
      && now.imageUrl == (if d.imageUrl.Some? then d.imageUrl else was.imageUrl)
      && now.published == d.published.GetOr(was.published) && now.author == d.author.GetOr(was.author)
      && now.slug == (if d.title.Some? && Slug(d.title.value) != "" then Slug(d.title.value) else was.slug)
      && now.readTime == (if d.content.Some? then Some(ReadTime(d.content.value))
                          else if d.readTime.Some? then d.readTime else was.readTime)
      && (d.tags.Some? ==> DecodeColumn(now.tags) == Some(d.tags.value))
      && (d.tags.None? ==> now.tags == was.tags)
      && (h.reply.Ok? <==> DecodeColumn(now.tags).Some?)
      && (h.reply.Ok? ==> h.reply == Ok(200, PostView(now, DecodeColumn(now.tags).value)))
      && (h.reply.Fail? ==> h.reply == Fail(500, "Failed to update blog post", None, None))
  {
    var validated := ValidatePatch(body, isUrl);
    if validated.Failure? {
      return Handled(Fail(400, ValidationError, None, Some(validated.error)), rows);
    }
    var update := BuildUpdate(validated.value);
    var at := IndexOf(rows, id);
    if !available || at.None? {
      return Handled(Fail(500, "Failed to update blog post", None, None), rows);
    }
    var post := ApplyUpdate(rows[at.value], update);
    var written := rows[at.value := post];
    var tags := DecodeColumn(post.tags);
    if tags.None? {
      return Handled(Fail(500, "Failed to update blog post", None, None), written);
    }
    h := Handled(Ok(200, PostView(post, tags.value)), written);
  }

  // ---------------------------------------------------------------------------
  // Delete

  /** `DELETE /api/blog/[id]`: remove the row with that id; a missing row or a failed write answers 500. */
  function Delete(rows: seq<BlogPost>, available: bool, id: string): (h: Handled<string>)
    ensures h.reply.Ok? <==> available && exists i :: 0 <= i < |rows| && rows[i].id == id
    ensures h.reply.Ok? ==> (h.reply == Ok(200, "Blog post deleted successfully")
      && exists k :: 0 <= k < |rows| && rows[k].id == id && h.posts == rows[..k] + rows[k + 1..])
    ensures h.reply.Fail? ==> h == Handled(Fail(500, "Failed to delete blog post", None, None), rows)
  {
    match IndexOf(rows, id)
    case Some(k) =>
      if available then Handled(Ok(200, "Blog post deleted successfully"), rows[..k] + rows[k + 1..])
      else Handled(Fail(500, "Failed to delete blog post", None, None), rows)
    case None => Handled(Fail(500, "Failed to delete blog post", None, None), rows)
  }

  /** Ids name rows: no two rows share one. */
  predicate UniqueIds(rows: seq<BlogPost>)
  {
    forall i, j :: 0 <= i < j < |rows| ==> rows[i].id != rows[j].id
  }

  /** With unique ids, a delete removes exactly the row with that id and nothing else. */
  lemma DeleteRemovesExactly(rows: seq<BlogPost>, available: bool, id: string)
    requires UniqueIds(rows)
    ensures var h := Delete(rows, available, id);
      h.reply.Ok? ==> |h.posts| == |rows| - 1 && forall p :: p in h.posts <==> p in rows && p.id != id
  {
    var h := Delete(rows, available, id);
    if h.reply.Ok? {
      var k :| 0 <= k < |rows| && rows[k].id == id && h.posts == rows[..k] + rows[k + 1..];
      RemoveAtExactly(rows, k, id);
    }
  }

  lemma RemoveAtExactly(rows: seq<BlogPost>, k: nat, id: string)
    requires UniqueIds(rows) && k < |rows| && rows[k].id == id
    ensures var rest := rows[..k] + rows[k + 1..];
      |rest| == |rows| - 1 && forall p :: p in rest <==> p in rows && p.id != id
  {
    var rest := rows[..k] + rows[k + 1..];
    forall p | p in rest ensures p in rows && p.id != id {
      var i :| 0 <= i < |rest| && rest[i] == p;
      if i < k {
        assert p == rows[i];
      } else {
        assert p == rows[i + 1];
      }
    }
    forall p | p in rows && p.id != id ensures p in rest {
      var i :| 0 <= i < |rows| && rows[i] == p;
      if i < k {
        assert rest[i] == p;
      } else {
        assert i != k;
        assert rest[i - 1] == p;
      }
    }
  }
}
