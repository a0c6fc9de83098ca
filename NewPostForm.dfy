/**
 * The "new blog post" admin page: the form state it keeps, how typing, adding
 * and removing tags change that state, the body it posts and the alert it
 * shows for the reply.
 */
module NewPostForm {
  import opened Wrappers
  import opened Text
  import opened Json
  import opened Http
  import BlogApi

  /** The page's `formData` state object. */
  datatype FormData = FormData(
    title: string,
    content: string,
    excerpt: string,
    imageUrl: string,
    published: bool,
    author: string,
    tags: seq<string>,
    tagInput: string)

  /** The form as the page first shows it. */
  const Blank := FormData("", "", "", "", false, "Admin", [], "")

  /** The text inputs of the form, by their `name` attribute. */
  datatype TextInput = Title | Content | Excerpt | ImageUrl | Author | TagInput

  /** The input an edit comes from; `published` is the only checkbox. */
  datatype Input = Text(name: TextInput) | PublishedCheckbox

  function TextOf(f: FormData, name: TextInput): string
  {
    match name
    case Title => f.title
    case Content => f.content
    case Excerpt => f.excerpt
    case ImageUrl => f.imageUrl
    case Author => f.author
    case TagInput => f.tagInput
  }

  /**
   * `handleInputChange`: the field named by the input takes the checkbox's
   * `checked` or the text input's `value`; every other field keeps its value.
   */
  function Changed(f: FormData, input: Input, value: string, checked: bool): (r: FormData)
    ensures input == PublishedCheckbox ==> r == f.(published := checked)
    ensures input.Text? ==>
      && TextOf(r, input.name) == value
      && (forall n :: n != input.name ==> TextOf(r, n) == TextOf(f, n))
      && r.published == f.published && r.tags == f.tags
  {
    match input
    case PublishedCheckbox => f.(published := checked)
    case Text(name) =>
      match name
      case Title => f.(title := value)
      case Content => f.(content := value)
      case Excerpt => f.(excerpt := value)
      case ImageUrl => f.(imageUrl := value)
      case Author => f.(author := value)
      case TagInput => f.(tagInput := value)
  }

  // ---------------------------------------------------------------------------
  // The tag list

  /** Tags as the page can build them: trimmed, non-empty and without repeats. */
  ghost predicate CleanTags(tags: seq<string>)
  {
    && (forall i :: 0 <= i < |tags| ==> tags[i] != "" && Trim(tags[i]) == tags[i])
    && (forall i, j :: 0 <= i < j < |tags| ==> tags[i] != tags[j])
  }

  /**
   * `addTag`: the trimmed tag input joins the end of the list and the input is
   * cleared, unless it is blank or already listed; then nothing changes.
   */
  function WithTagAdded(f: FormData): (r: FormData)
    ensures r.(tags := f.tags, tagInput := f.tagInput) == f
    ensures Trim(f.tagInput) != "" ==> Trim(f.tagInput) in r.tags
    ensures Trim(f.tagInput) == "" || Trim(f.tagInput) in f.tags ==> r == f
    ensures forall t :: t in r.tags <==> t in f.tags || (t == Trim(f.tagInput) && t != "")
    ensures Trim(f.tagInput) != "" && Trim(f.tagInput) !in f.tags ==>
      r.tags == f.tags + [Trim(f.tagInput)] && r.tagInput == ""
  {
    var t := Trim(f.tagInput);
    if t != "" && t !in f.tags then
      assert forall x :: x in f.tags + [t] <==> x in f.tags || x == t;
      f.(tags := f.tags + [t], tagInput := "")
    else f
  }

  /** `tags.filter(tag => tag !== t)`. */
  function Without(tags: seq<string>, t: string): (r: seq<string>)
    ensures forall x :: x in r <==> x in tags && x != t
    ensures |r| <= |tags|
  {
    if tags == [] then []
    else if tags[0] == t then Without(tags[1..], t)
    else [tags[0]] + Without(tags[1..], t)
  }

  /** `removeTag`: every copy of `t` leaves the list; nothing else changes. */
  function WithTagRemoved(f: FormData, t: string): (r: FormData)
    ensures r.(tags := f.tags) == f
    ensures t !in r.tags
  {
    f.(tags := Without(f.tags, t))
  }

  /** Filtering distributes over concatenation, so the kept tags keep their order. */
  lemma {:induction false} WithoutAppend(a: seq<string>, b: seq<string>, t: string)
    ensures Without(a + b, t) == Without(a, t) + Without(b, t)
  {
    if a != [] {
      assert (a + b)[0] == a[0];
      assert (a + b)[1..] == a[1..] + b;
      WithoutAppend(a[1..], b, t);
    } else {
      assert a + b == b;
    }
  }

  /** Removing a tag that is not listed leaves the list as it is. */
  lemma {:induction false} WithoutAbsent(tags: seq<string>, t: string)
    requires t !in tags
    ensures Without(tags, t) == tags
  {
    if tags != [] {
      assert tags[0] != t;
      WithoutAbsent(tags[1..], t);
      assert tags == [tags[0]] + tags[1..];
    }
  }

  lemma CleanTail(tags: seq<string>)
    requires tags != [] && CleanTags(tags)
    ensures CleanTags(tags[1..]) && tags[0] !in tags[1..]
  {
    var rest := tags[1..];
    forall k | 0 <= k < |rest| ensures rest[k] != tags[0] && rest[k] != "" && Trim(rest[k]) == rest[k] {
      assert rest[k] == tags[k + 1];
    }
    forall i, j | 0 <= i < j < |rest| ensures rest[i] != rest[j] {
      assert rest[i] == tags[i + 1] && rest[j] == tags[j + 1];
    }
  }

  /** Removing a tag keeps the list clean. */
  lemma {:induction false} WithoutKeepsClean(tags: seq<string>, t: string)
    requires CleanTags(tags)
    ensures CleanTags(Without(tags, t))
  {
    if tags != [] {
      CleanTail(tags);
      WithoutKeepsClean(tags[1..], t);
      var rest := Without(tags[1..], t);
      if tags[0] != t {
        var r := [tags[0]] + rest;
        assert tags[0] !in rest;
        forall i, j | 0 <= i < j < |r| ensures r[i] != r[j] {
          if i == 0 {
            assert r[j] == rest[j - 1];
          } else {
            assert r[i] == rest[i - 1] && r[j] == rest[j - 1];
          }
        }
        forall i | 0 <= i < |r| ensures r[i] != "" && Trim(r[i]) == r[i] {
          if i > 0 {
            assert r[i] == rest[i - 1];
          } else {
            assert r[i] == tags[0];
          }
        }
        assert Without(tags, t) == r;
      } else {
        assert Without(tags, t) == rest;
      }
    }
  }

  /** Adding a tag keeps the list clean. */
  lemma AddKeepsClean(f: FormData)
    requires CleanTags(f.tags)
    ensures CleanTags(WithTagAdded(f).tags)
  {
    var t := Trim(f.tagInput);
    if t != "" && t !in f.tags {
      TrimIdempotent(f.tagInput);
      var r := f.tags + [t];
      assert r[|f.tags|] == t;
      forall i | 0 <= i < |r| ensures r[i] != "" && Trim(r[i]) == r[i] {
        if i < |f.tags| {
          assert r[i] == f.tags[i];
        }
      }
      forall i, j | 0 <= i < j < |r| ensures r[i] != r[j] {
        assert r[i] == f.tags[i];
        if j < |f.tags| {
          assert r[j] == f.tags[j];
        }
      }
      assert WithTagAdded(f).tags == r;
    }
  }

  /** Removing the tag just added gives the tag list back. */
  lemma RemoveUndoesAdd(f: FormData)
    requires Trim(f.tagInput) != "" && Trim(f.tagInput) !in f.tags
    ensures WithTagRemoved(WithTagAdded(f), Trim(f.tagInput)).tags == f.tags
  {
    var t := Trim(f.tagInput);
    WithoutAppend(f.tags, [t], t);
    WithoutAbsent(f.tags, t);
    assert Without([t], t) == [];
  }

  // ---------------------------------------------------------------------------
  // Submitting

  /**
   * The JSON body the page posts: every field of the form, the tag input
   * included (the schema drops it); the read time is left to the server.
   */
  function Body(f: FormData): (r: map<string, JsonValue>)
    ensures "readTime" !in r && "tagInput" in r
  {
    map["title" := JStr(f.title), "content" := JStr(f.content), "excerpt" := JStr(f.excerpt),
        "imageUrl" := JStr(f.imageUrl), "published" := JBool(f.published), "author" := JStr(f.author),
        "tags" := JArr(f.tags), "tagInput" := JStr(f.tagInput)]
  }

  /**
   * The server accepts the form exactly when the title and the content are
   * filled in and the image URL is empty or a URL; it then keeps the form's
   * values, the tags in their order, and computes the read time itself.
   */
  lemma FormAcceptedIff(f: FormData, isUrl: string -> bool)
    ensures BlogApi.Validate(Body(f), isUrl).Success? <==>
      f.title != "" && f.content != "" && (f.imageUrl == "" || isUrl(f.imageUrl))
    ensures BlogApi.Validate(Body(f), isUrl).Success? ==>
      BlogApi.Validate(Body(f), isUrl).value ==
        BlogApi.PostInput(f.title, f.content, Some(f.excerpt), Some(f.imageUrl), f.published, f.author, f.tags, None)
  {
    var b := Body(f);
    assert BlogApi.FieldValid(b, "excerpt", false, isUrl);
    assert BlogApi.FieldValid(b, "published", false, isUrl);
    assert BlogApi.FieldValid(b, "author", false, isUrl);
    assert BlogApi.FieldValid(b, "tags", false, isUrl);
    assert BlogApi.FieldValid(b, "readTime", false, isUrl);
    assert BlogApi.FieldValid(b, "title", false, isUrl) <==> f.title != "";
    assert BlogApi.FieldValid(b, "content", false, isUrl) <==> f.content != "";
    assert BlogApi.FieldValid(b, "imageUrl", false, isUrl) <==> f.imageUrl == "" || isUrl(f.imageUrl);
  }

  /** One line of the validation alert: the issue's path joined with dots, then its message. */
  function IssueLine(d: Issue): string
  {
    Join(d.path, ".") + ": " + d.message
  }

  function IssueLines(details: seq<Issue>): (r: seq<string>)
    ensures |r| == |details|
    ensures forall i :: 0 <= i < |r| ==> r[i] == IssueLine(details[i])
  {
    seq(|details|, i requires 0 <= i < |details| => IssueLine(details[i]))
  }

  /**
   * The alert after submitting: success, the validation issues one per line,
   * the reply's `error` or `message`, or the network failure (`None`).
   */
  function Alert(response: Option<Reply<BlogApi.PostView>>): (r: string)
    ensures response.Some? && response.value.Ok? ==> r == "Blog post created successfully!"
    ensures response.None? ==> r == "Failed to create blog post"
    ensures response.Some? && response.value.Fail? && response.value.details.None? ==>
      r == "Error: " + (if response.value.error != "" then response.value.error
                        else if response.value.message.Some? && response.value.message.value != "" then response.value.message.value
                        else "Unknown error")
  {
    match response
    case None => "Failed to create blog post"
    case Some(Ok(_, _)) => "Blog post created successfully!"
    case Some(Fail(_, error, message, details)) =>
      if details.Some? then "Validation Error:\n" + Join(IssueLines(details.value), "\n")
      else if error != "" then "Error: " + error
      else if message.Some? && message.value != "" then "Error: " + message.value
      else "Error: Unknown error"
  }

  lemma {:induction false} JoinWithout(parts: seq<string>, sep: string, c: char)
    requires c !in sep
    requires forall i :: 0 <= i < |parts| ==> c !in parts[i]
    ensures c !in Join(parts, sep)
  {
    if |parts| > 1 {
      JoinWithout(parts[1..], sep, c);
    }
  }

  /** An issue whose path and message hold no line break. */
  predicate SingleLine(d: Issue)
  {
    && (forall i :: 0 <= i < |d.path| ==> '\n' !in d.path[i])
    && '\n' !in d.message
  }

  /**
   * Splitting a validation alert at its line breaks gives the heading and then
   * one line per issue, in the reply's order.
   */
  lemma ValidationAlertLines(status: int, error: string, message: Option<string>, details: seq<Issue>)
    requires |details| >= 1
    requires forall i :: 0 <= i < |details| ==> SingleLine(details[i])
    ensures Split(Alert(Some(Fail(status, error, message, Some(details)))), '\n') ==
      ["Validation Error:"] + IssueLines(details)
  {
    var lines := IssueLines(details);
    forall i | 0 <= i < |lines| ensures '\n' !in lines[i] {
      JoinWithout(details[i].path, ".", '\n');
    }
    var all := ["Validation Error:"] + lines;
    assert all[1..] == lines;
    assert Join(all, "\n") == "Validation Error:" + "\n" + Join(lines, "\n");
    assert "Validation Error:\n" + Join(lines, "\n") == "Validation Error:" + "\n" + Join(lines, "\n");
    SplitJoin(all, '\n');
  }

  lemma ExpectedSingleLine(field: string)
    ensures '\n' !in BlogApi.Expected(field)
  {
  }

  lemma TypeNameSingleLine(v: JsonValue)
    ensures '\n' !in BlogApi.TypeName(v)
  {
  }

  lemma FieldNameSingleLine(field: string)
    requires field in BlogApi.PostFields
    ensures '\n' !in field
  {
  }

  lemma FixedMessagesSingleLine(m: string)
    requires m == "Required" || m == "Title is required" || m == "Content is required" || m == "Must be a valid URL or empty"
    ensures '\n' !in m
  {
  }

  lemma ConcatSingleLine(a: string, b: string, c: string, d: string)
    requires a == "Expected " && c == ", received "
    requires '\n' !in b && '\n' !in d
    ensures '\n' !in a + b + c + d
  {
  }

  /** The issues the post schema reports hold no line break. */
  lemma FieldIssueSingleLine(body: map<string, JsonValue>, field: string, partial: bool, isUrl: string -> bool)
    requires field in BlogApi.PostFields
    ensures BlogApi.FieldIssue(body, field, partial, isUrl).Some? ==>
      SingleLine(BlogApi.FieldIssue(body, field, partial, isUrl).value)
  {
    FieldNameSingleLine(field);
    var r := BlogApi.FieldIssue(body, field, partial, isUrl);
    if r.Some? {
      assert r.value.path == [field];
      if field in body {
        var v := body[field];
        ExpectedSingleLine(field);
        TypeNameSingleLine(v);
        var m := r.value.message;
        var e := BlogApi.Expected(field);
        var t := BlogApi.TypeName(v);
        ConcatSingleLine("Expected ", e, ", received ", t);
        if m != "Expected " + e + ", received " + t {
          FixedMessagesSingleLine(m);
        }
      }
    }
  }

  lemma IssuesSingleLine(body: map<string, JsonValue>, partial: bool, isUrl: string -> bool)
    ensures forall i :: 0 <= i < |BlogApi.IssuesFor(BlogApi.PostFields, body, partial, isUrl)| ==>
      SingleLine(BlogApi.IssuesFor(BlogApi.PostFields, body, partial, isUrl)[i])
  {
    var fields := BlogApi.PostFields;
    var issues := BlogApi.IssuesFor(fields, body, partial, isUrl);
    forall i | 0 <= i < |issues| ensures SingleLine(issues[i]) {
      var j :| 0 <= j < |fields| && BlogApi.FieldIssue(body, fields[j], partial, isUrl) == Some(issues[i]);
      FieldIssueSingleLine(body, fields[j], partial, isUrl);
    }
  }

  /**
   * When the server rejects the form, the alert is the heading followed by
   * one line per issue it reported, in its order.
   */
  lemma RejectedFormAlert(f: FormData, isUrl: string -> bool, rows: seq<BlogApi.BlogPost>, available: bool, newId: string, now: int)
    requires BlogApi.Validate(Body(f), isUrl).Failure?
    ensures Split(Alert(Some(BlogApi.Create(rows, available, Body(f), isUrl, newId, now).reply)), '\n') ==
      ["Validation Error:"] + IssueLines(BlogApi.Validate(Body(f), isUrl).error)
  {
    var issues := BlogApi.Validate(Body(f), isUrl).error;
    IssuesSingleLine(Body(f), false, isUrl);
    ValidationAlertLines(400, BlogApi.ValidationError, Some(BlogApi.CheckFormData), issues);
  }

  // ---------------------------------------------------------------------------
  // The page

  /** The page component: its form state and whether a submission is in flight. */
  class Page {
    var form: FormData
    var loading: bool

    ghost predicate Valid()
      reads this
    {
      CleanTags(form.tags)
    }

    constructor()
      ensures form == Blank && !loading
      ensures Valid()
    {
      form := Blank;
      loading := false;
    }

    method HandleInputChange(input: Input, value: string, checked: bool)
      requires Valid()
      modifies this
      ensures form == Changed(old(form), input, value, checked) && loading == old(loading)
      ensures Valid()
    {
      form := Changed(form, input, value, checked);
    }

    method AddTag()
      requires Valid()
      modifies this
      ensures form == WithTagAdded(old(form)) && loading == old(loading)
      ensures Valid()
    {
      AddKeepsClean(form);
      form := WithTagAdded(form);
    }

    method RemoveTag(t: string)
      requires Valid()
      modifies this
      ensures form == WithTagRemoved(old(form), t) && loading == old(loading)
      ensures Valid()
    {
      WithoutKeepsClean(form.tags, t);
      form := WithTagRemoved(form, t);
    }

    /** Enter in the tag input adds the tag; any other key leaves the state alone. */
    method HandleTagKeyPress(key: string)
      requires Valid()
      modifies this
      ensures form == (if key == "Enter" then WithTagAdded(old(form)) else old(form)) && loading == old(loading)
      ensures Valid()
    {
      if key == "Enter" {
        AddTag();
      }
    }

    /**
     * `handleSubmit`: posts the form, given the server's reply (`None` when the
     * request fails), and reports the alert and whether the page navigates
     * back to the post list. The form is kept and loading ends.
     */
    method HandleSubmit(response: Option<Reply<BlogApi.PostView>>) returns (body: map<string, JsonValue>, alert: string, navigate: bool)
      requires Valid()
      modifies this
      ensures body == Body(old(form)) && alert == Alert(response)
      ensures navigate <==> response.Some? && response.value.Ok?
      ensures form == old(form) && !loading && Valid()
    {
      loading := true;
      body := Body(form);
      alert := Alert(response);
      navigate := response.Some? && response.value.Ok?;
      loading := false;
    }
  }
}
