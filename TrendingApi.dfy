/**
 * The trending posts route: a likes threshold read from the query, the
 * posts that are published, marked trending and liked at least that much,
 * the most liked ten of them, each with its tags read back.
 */
module TrendingApi {
  import opened Wrappers
  import opened Text
  import opened Json
  import opened Store
  import opened Http
  import opened BlogApi

  /** The threshold used when the parameter gives none. */
  const DefaultMinLikes := 10

  /** The most posts one answer holds. */
  const Cap: nat := 10

  /**
   * `parseInt(searchParams.get('minLikes')) || 10`: an absent parameter is
   * parsed as the text "null"; NaN and 0 both fall back to 10.
   */
  function MinLikes(param: Option<string>): (r: int)
    ensures r != 0
    ensures param.None? ==> r == DefaultMinLikes
    ensures param.Some? ==> match ParseInt(param.value)
      case Some(n) => r == if n == 0 then DefaultMinLikes else n
      case None => r == DefaultMinLikes
  {
    var text := match param case Some(text) => text case None => "null";
    assert param.None? ==> ParseInt(text) == None by {
      if param.None? { NullIsNotANumber(text); }
    }
    var parsed := ParseInt(text);
    if parsed.None? || parsed.value == 0 then DefaultMinLikes else parsed.value
  }

  lemma NullIsNotANumber(text: string)
    requires text == "null"
    ensures ParseInt(text) == None
  {
    assert text[0] == 'n';
    ParseIntOfNonDigit(text);
  }

  /** A parameter written as a non-zero integer is that threshold; "0" means 10. */
  lemma MinLikesOfDecimal(n: int)
    ensures MinLikes(Some(IntToString(n))) == if n == 0 then DefaultMinLikes else n
  {
    ParseIntOfIntToString(n);
  }

  /** The trending `where`: published, marked trending, and at least `minLikes` likes. */
  predicate Trending(minLikes: int, p: BlogPost)
  {
    p.published && p.isTrending && p.likes >= minLikes
  }

  function TrendingWhere(minLikes: int): BlogPost -> bool
  {
    p => Trending(minLikes, p)
  }

  /** `orderBy: [{ likes: 'desc' }, { viewCount: 'desc' }, { createdAt: 'desc' }]`. */
  function Popularity(p: BlogPost): seq<int>
  {
    [-p.likes, -p.viewCount, -p.createdAt]
  }

  /** `a` ranks no lower than `b`: more likes, or as many and more views, or as many of both and newer. */
  predicate RanksBefore(a: BlogPost, b: BlogPost)
  {
    || a.likes > b.likes
    || (a.likes == b.likes && a.viewCount > b.viewCount)
    || (a.likes == b.likes && a.viewCount == b.viewCount && a.createdAt >= b.createdAt)
  }

  lemma PopularityMeaning(a: BlogPost, b: BlogPost)
    requires LexLe(Popularity(a), Popularity(b))
    ensures RanksBefore(a, b)
  {
    var x, y := Popularity(a), Popularity(b);
    if a.likes == b.likes {
      assert x[1..] == [-a.viewCount, -a.createdAt] && y[1..] == [-b.viewCount, -b.createdAt];
      assert LexLe(x[1..], y[1..]);
      if a.viewCount == b.viewCount {
        assert x[1..][1..] == [-a.createdAt] && y[1..][1..] == [-b.createdAt];
        assert LexLe([-a.createdAt], [-b.createdAt]);
      }
    }
  }

  lemma RankedInOrder(posts: seq<BlogPost>)
    requires SortedBy(posts, Popularity)
    ensures forall i, j :: 0 <= i < j < |posts| ==> RanksBefore(posts[i], posts[j])
  {
    forall i, j | 0 <= i < j < |posts| ensures RanksBefore(posts[i], posts[j]) {
      PopularityMeaning(posts[i], posts[j]);
    }
  }

  /** The body of a trending answer. */
  datatype TrendingPosts = TrendingPosts(count: int, posts: seq<PostView>)

  /** The first `Cap` trending posts by popularity. */
  function Top(rows: seq<BlogPost>, minLikes: int): (r: seq<BlogPost>)
    ensures |r| <= Cap
    ensures forall i :: 0 <= i < |r| ==> Trending(minLikes, r[i])
  {
    var r := FindMany(rows, TrendingWhere(minLikes), Popularity, Some(Cap));
    assert forall i :: 0 <= i < |r| ==> TrendingWhere(minLikes)(r[i]);
    r
  }

  /** What the capped query promises: trending posts only, most popular first, at most ten, and as many as there are up to ten. */
  lemma TopFacts(rows: seq<BlogPost>, minLikes: int)
    ensures var top := Top(rows, minLikes);
      && |top| <= Cap
      && (forall i :: 0 <= i < |top| ==> Trending(minLikes, top[i]))
      && (forall i, j :: 0 <= i < j < |top| ==> RanksBefore(top[i], top[j]))
      && multiset(top) <= multiset(Select(rows, TrendingWhere(minLikes)))
      && |top| == if Cap < |Select(rows, TrendingWhere(minLikes))| then Cap else |Select(rows, TrendingWhere(minLikes))|
  {
    var top := Top(rows, minLikes);
    RankedInOrder(top);
    assert forall i :: 0 <= i < |top| ==> TrendingWhere(minLikes)(top[i]);
  }

  /** The answer for the posts found: their number and the posts with their tags read back. */
  function Answer(top: seq<BlogPost>, available: bool): (reply: Reply<TrendingPosts>)
    ensures reply.Fail? ==> reply == Fail(500, "Failed to fetch trending posts", None, None)
    ensures reply.Ok? <==> available && forall i :: 0 <= i < |top| ==> DecodeColumn(top[i].tags).Some?
    ensures reply.Ok? ==> (reply.status == 200 && reply.body.count == |reply.body.posts| == |top|
      && forall i :: 0 <= i < |top| ==> reply.body.posts[i] == PostView(top[i], DecodeColumn(top[i].tags).value))
  {
    if !available then Fail(500, "Failed to fetch trending posts", None, None)
    else match ViewAll(top)
      case None => Fail(500, "Failed to fetch trending posts", None, None)
      case Some(views) =>
        Ok(200, TrendingPosts(|views|, views))
  }

  /** What the answer for the top rows promises, for any like threshold. */
  lemma AnswerFacts(rows: seq<BlogPost>, m: int, available: bool)
    ensures var reply := Answer(Top(rows, m), available);
      reply.Ok? ==> var posts := reply.body.posts;
      && |posts| <= Cap
      && (forall i :: 0 <= i < |posts| ==> Trending(m, posts[i].post))
      && (forall i, j :: 0 <= i < j < |posts| ==> RanksBefore(posts[i].post, posts[j].post))
      && multiset(Rows(posts)) <= multiset(Select(rows, TrendingWhere(m)))
      && |posts| == if Cap < |Select(rows, TrendingWhere(m))| then Cap else |Select(rows, TrendingWhere(m))|
  {
    var top := Top(rows, m);
    TopFacts(rows, m);
    var reply := Answer(top, available);
    if reply.Ok? {
      var posts := reply.body.posts;
      assert Rows(posts) == top;
      forall i | 0 <= i < |posts| ensures Trending(m, posts[i].post) {
        assert posts[i].post == top[i];
      }
      forall i, j | 0 <= i < j < |posts| ensures RanksBefore(posts[i].post, posts[j].post) {
        assert posts[i].post == top[i] && posts[j].post == top[j];
      }
    }
  }

  /**
   * `GET /api/blog/trending`: the first ten trending posts by popularity,
   * their number, and their tags read back. A store failure or a `tags` text
   * that does not parse answers 500.
   */
  function Get(rows: seq<BlogPost>, available: bool, query: Query): (reply: Reply<TrendingPosts>)
    ensures reply.Fail? ==> reply == Fail(500, "Failed to fetch trending posts", None, None)
    ensures var top := Top(rows, MinLikes(Param(query, "minLikes")));
      reply.Ok? <==> available && forall i :: 0 <= i < |top| ==> DecodeColumn(top[i].tags).Some?
    ensures reply.Ok? ==> var m, posts := MinLikes(Param(query, "minLikes")), reply.body.posts;
      && reply.status == 200
      && reply.body.count == |posts|
      && |posts| <= Cap
      && (forall i :: 0 <= i < |posts| ==> Trending(m, posts[i].post))
      && (forall i, j :: 0 <= i < j < |posts| ==> RanksBefore(posts[i].post, posts[j].post))
      && (forall i :: 0 <= i < |posts| ==> DecodeColumn(posts[i].post.tags) == Some(posts[i].tags))
      && multiset(Rows(posts)) <= multiset(Select(rows, TrendingWhere(m)))
      && |posts| == if Cap < |Select(rows, TrendingWhere(m))| then Cap else |Select(rows, TrendingWhere(m))|
  {
    var m := MinLikes(Param(query, "minLikes"));
    AnswerFacts(rows, m, available);
    Answer(Top(rows, m), available)
  }

  /**
   * The answer holds the most popular trending posts: a trending row left
   * out of it ranks no higher than any post it holds.
   */
  lemma TopTen(rows: seq<BlogPost>, available: bool, query: Query, x: BlogPost)
    requires Get(rows, available, query).Ok?
    requires var m := MinLikes(Param(query, "minLikes"));
      multiset(Rows(Get(rows, available, query).body.posts))[x] < multiset(Select(rows, TrendingWhere(m)))[x]
    ensures Trending(MinLikes(Param(query, "minLikes")), x)
    ensures forall y :: y in Rows(Get(rows, available, query).body.posts) ==> RanksBefore(y, x)
  {
    var m := MinLikes(Param(query, "minLikes"));
    var top := Top(rows, m);
    var posts := Get(rows, available, query).body.posts;
    assert Rows(posts) == top;
    FindManyKeepsTop(rows, TrendingWhere(m), Popularity, Cap, x);
    forall y | y in Rows(posts) ensures RanksBefore(y, x) {
      PopularityMeaning(y, x);
    }
  }
}
