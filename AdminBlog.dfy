/**
 * The admin blog page: the posts it loads with the `admin=true` listing, and
 * how deleting a post and toggling its published flag change that list once
 * the server has answered.
 */
module AdminBlog {
  import opened Wrappers
  import opened Json
  import opened Http
  import opened AdminList
  import BlogApi

  type PostView = BlogApi.PostView

  /** The query of the page's listing request, `/api/blog?admin=true`. */
  const AdminQuery: Query := map["admin" := "true"]

  function IdOf(v: PostView): string
  {
    v.post.id
  }

  /** `{ ...post, published: b }`. */
  function PublishedAs(b: bool): PostView -> PostView
  {
    (v: PostView) => v.(post := v.post.(published := b))
  }

  /** The body of a toggle request: `{ published: !published }` and nothing else. */
  function ToggleBody(published: bool): (body: map<string, JsonValue>)
    ensures body.Keys == {"published"} && body["published"] == JBool(!published)
  {
    map["published" := JBool(!published)]
  }

  /** The admin listing lets every post through, drafts included. */
  lemma AdminQueryListsAll(query: Query, p: BlogApi.BlogPost)
    requires query == AdminQuery
    ensures BlogApi.Listed(query, p)
  {
    assert Param(query, "admin") == Some("true");
  }

  /** The same toggle answered twice leaves the list as one answer does. */
  lemma ToggleTwice(xs: seq<PostView>, id: string, shown: bool)
    ensures Update(Update(xs, id, IdOf, PublishedAs(!shown)), id, IdOf, PublishedAs(!shown)) ==
      Update(xs, id, IdOf, PublishedAs(!shown))
  {
    UpdateIdempotent(xs, id, IdOf, PublishedAs(!shown));
  }

  /** A toggle changes only `published`, and only on the posts with that id. */
  lemma ToggleChangesOneFlag(xs: seq<PostView>, id: string, b: bool, i: nat)
    requires i < |xs|
    ensures var v := Update(xs, id, IdOf, PublishedAs(b))[i];
      && v.post.published == (if xs[i].post.id == id then b else xs[i].post.published)
      && v.(post := v.post.(published := xs[i].post.published)) == xs[i]
  {
  }

  /** With ids unique, a confirmed deletion drops exactly the one post, keeping the others in order. */
  lemma DeleteDropsOne(xs: seq<PostView>, k: nat)
    requires k < |xs|
    requires forall i, j :: 0 <= i < j < |xs| ==> IdOf(xs[i]) != IdOf(xs[j])
    ensures Remove(xs, IdOf(xs[k]), IdOf) == xs[..k] + xs[k + 1..]
  {
    forall i | 0 <= i < |xs| && i != k ensures IdOf(xs[i]) != IdOf(xs[k]) {
      if i > k {
        assert IdOf(xs[k]) != IdOf(xs[i]);
      }
    }
    RemovePresent(xs, IdOf(xs[k]), IdOf, k);
  }

  /** The page component's state. */
  class Page {
    var posts: seq<PostView>
    var loading: bool

    constructor()
      ensures posts == [] && loading
    {
      posts := [];
      loading := true;
    }

    /**
     * `fetchPosts`: a successful reply replaces the list; a failed reply or a
     * request that throws (`None`) leaves it. Loading ends either way.
     */
    method FetchPosts(response: Option<Reply<seq<PostView>>>) returns (query: Query)
      modifies this
      ensures query == AdminQuery
      ensures posts == (if response.Some? && response.value.Ok? then response.value.body else old(posts))
      ensures !loading
    {
      query := AdminQuery;
      if response.Some? && response.value.Ok? {
        posts := response.value.body;
      }
      loading := false;
    }

    /**
     * `deletePost`: nothing is sent unless confirmed; the post leaves the list
     * only when the server says yes (`outcome` is `None` when the request
     * throws, else whether the reply was ok), and any other answer is alerted.
     */
    method DeletePost(id: string, confirmed: bool, outcome: Option<bool>) returns (sent: bool, alert: Option<string>)
      modifies this
      ensures sent == confirmed
      ensures confirmed && outcome == Some(true) ==> posts == Remove(old(posts), id, IdOf) && alert == None
      ensures confirmed && outcome != Some(true) ==> posts == old(posts) && alert == Some("Failed to delete blog post")
      ensures !confirmed ==> posts == old(posts) && alert == None
      ensures loading == old(loading)
    {
      if !confirmed {
        return false, None;
      }
      sent := true;
      alert := None;
      if outcome == Some(true) {
        posts := Remove(posts, id, IdOf);
      } else {
        alert := Some("Failed to delete blog post");
      }
    }

    /**
     * `togglePublished`: asks for the opposite of the shown value and, on
     * success, shows it; a failure is alerted and the list kept.
     */
    method TogglePublished(id: string, published: bool, outcome: Option<bool>) returns (patch: map<string, JsonValue>, alert: Option<string>)
      modifies this
      ensures patch == ToggleBody(published)
      ensures outcome == Some(true) ==> posts == Update(old(posts), id, IdOf, PublishedAs(!published)) && alert == None
      ensures outcome != Some(true) ==> posts == old(posts) && alert == Some("Failed to update blog post")
      ensures loading == old(loading)
    {
      patch := ToggleBody(published);
      alert := None;
      if outcome == Some(true) {
        posts := Update(posts, id, IdOf, PublishedAs(!published));
      } else {
        alert := Some("Failed to update blog post");
      }
    }
  }

  /**
   * Opening the page: once the store answers and every post's tags read back,
   * the page holds every post of the table, drafts included, as often as the
   * table does, newest first.
   */
  method Open(rows: seq<BlogApi.BlogPost>, available: bool) returns (page: Page)
    ensures fresh(page) && !page.loading
    ensures available && (forall p :: p in rows ==> DecodeColumn(p.tags).Some?) ==>
      && multiset(BlogApi.Rows(page.posts)) == multiset(rows)
      && forall i, j :: 0 <= i < j < |page.posts| ==> page.posts[i].post.createdAt >= page.posts[j].post.createdAt
    ensures !available ==> page.posts == []
  {
    page := new Page();
    var reply := BlogApi.Get(rows, available, AdminQuery);
    var _ := page.FetchPosts(Some(reply));
    if reply.Ok? {
      forall p ensures multiset(BlogApi.Rows(page.posts))[p] == multiset(rows)[p] {
        AdminQueryListsAll(AdminQuery, p);
      }
    }
  }

  // ---------------------------------------------------------------------------
  // The toggle against the update handlers

  /**
   * The single-post `PUT` handler parses its body with the full post schema,
   * whose `title` and `content` are required, so the toggle's body, which
   * holds `published` alone, is always refused, and the refusal names `title`.
   */
  lemma FullSchemaRefusesToggle(published: bool, isUrl: string -> bool)
    ensures BlogApi.Validate(ToggleBody(published), isUrl).Failure?
    ensures var issues := BlogApi.Validate(ToggleBody(published), isUrl).error;
      exists i :: 0 <= i < |issues| && issues[i].path == ["title"]
  {
    var body := ToggleBody(published);
    assert !BlogApi.FieldValid(body, "title", false, isUrl);
    BlogApi.FailingFieldHasIssue(BlogApi.PostFields, body, false, isUrl, "title");
  }

  /**
   * The toggle as the page sends it: the `PUT` answers ok only when the full
   * schema accepts the body and the write (`written`) succeeds. The post list
   * never changes and the failure is always alerted, whatever is stored.
   */
  method ToggleThroughPut(posts: seq<PostView>, id: string, published: bool, isUrl: string -> bool, written: bool)
    returns (after: seq<PostView>, alert: Option<string>)
    ensures after == posts
    ensures alert == Some("Failed to update blog post")
  {
    var page := new Page();
    page.posts := posts;
    FullSchemaRefusesToggle(published, isUrl);
    var ok := BlogApi.Validate(ToggleBody(published), isUrl).Success? && written;
    var _, shown := page.TogglePublished(id, published, Some(ok));
    after, alert := page.posts, shown;
  }

  /** The partial schema accepts the toggle's body: only `published` is set. */
  lemma PartialSchemaAcceptsToggle(published: bool, isUrl: string -> bool)
    ensures BlogApi.ValidatePatch(ToggleBody(published), isUrl).Success?
    ensures BlogApi.ValidatePatch(ToggleBody(published), isUrl).value ==
      BlogApi.PostPatch(None, None, None, None, Some(!published), None, None, None)
  {
    var body := ToggleBody(published);
    forall f | f in BlogApi.PostFields ensures BlogApi.FieldValid(body, f, true, isUrl) {
    }
  }

  /**
   * The toggle sent to the partial-update handler instead: when the store
   * answers, the post exists and its stored tags read back, the handler sets
   * that post's `published` to the requested value and nothing else, and the
   * page shows the new value without an alert.
   */
  method ToggleThroughPatch(rows: seq<BlogApi.BlogPost>, available: bool, posts: seq<PostView>, id: string,
                            published: bool, isUrl: string -> bool)
    returns (h: BlogApi.Handled<PostView>, after: seq<PostView>, alert: Option<string>)
    ensures var k := BlogApi.IndexOf(rows, id);
      available && k.Some? && DecodeColumn(rows[k.value].tags).Some? ==>
        && h.reply.Ok?
        && h.posts == rows[k.value := rows[k.value].(published := !published)]
        && after == Update(posts, id, IdOf, PublishedAs(!published))
        && alert == None
    ensures !available || BlogApi.IndexOf(rows, id).None? ==>
      h.posts == rows && after == posts && alert == Some("Failed to update blog post")
  {
    PartialSchemaAcceptsToggle(published, isUrl);
    h := BlogApi.Patch(rows, available, id, ToggleBody(published), isUrl);
    var k := BlogApi.IndexOf(rows, id);
    if available && k.Some? {
      var was, now := rows[k.value], h.posts[k.value];
      assert now == was.(published := !published);
    }
    var page := new Page();
    page.posts := posts;
    var _, shown := page.TogglePublished(id, published, Some(h.reply.Ok?));
    after, alert := page.posts, shown;
  }
}
