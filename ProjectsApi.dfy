/**
 * The project collection route: the listing filter built from the
 * `published` and `featured` flags, the two-column order, the reading of the
 * JSON-text `technologies` and `features` columns, and the create handler
 * with its required-field gate, its removal of the form-only fields and its
 * encoding of the array fields.
 */
module ProjectsApi {
  import opened Wrappers
  import opened Text
  import opened Json
  import opened Store
  import opened Http

  /** A stored project row. `technologies` and `features` hold JSON text (or nothing). */
  datatype Project = Project(
    id: string,
    title: string,
    description: string,
    longDescription: Option<string>,
    category: string,
    technologies: Option<string>,
    features: Option<string>,
    imageUrl: Option<string>,
    liveUrl: Option<string>,
    githubUrl: Option<string>,
    published: bool,
    featured: bool,
    order: int,
    difficulty: Option<string>,
    createdAt: int)

  /** A project as the routes answer it: the row with both array columns decoded. */
  datatype ProjectView = ProjectView(project: Project, technologies: seq<string>, features: seq<string>)

  /** The outcome of a handler: its reply and the table afterwards. */
  datatype Handled<T> = Handled(reply: Reply<T>, projects: seq<Project>)

  // ---------------------------------------------------------------------------
  // Listing

  /** The `where` object of a listing: each flag constrains its column only when it was given. */
  datatype ProjectFilter = ProjectFilter(published: Option<bool>, featured: Option<bool>)

  predicate Matches(where: ProjectFilter, p: Project)
  {
    && (where.published.Some? ==> p.published == where.published.value)
    && (where.featured.Some? ==> p.featured == where.featured.value)
  }

  /** A flag that was not given allows any value; a given one asks for `true` exactly when it reads "true". */
  predicate FlagAllows(flag: Option<string>, value: bool)
  {
    flag.None? || value == (flag.value == "true")
  }

  /** Which projects a listing shows: the two flags apply independently. */
  predicate Shown(query: Query, p: Project)
  {
    FlagAllows(Param(query, "published"), p.published) && FlagAllows(Param(query, "featured"), p.featured)
  }

  /** The `where` of a listing, filled in one column at a time. */
  method ListingFilter(query: Query) returns (where: ProjectFilter)
    ensures where.published.Some? <==> "published" in query
    ensures where.featured.Some? <==> "featured" in query
    ensures forall p :: Matches(where, p) <==> Shown(query, p)
  {
    var published := Param(query, "published");
    var featured := Param(query, "featured");
    where := ProjectFilter(None, None);
    if published.Some? {
      where := where.(published := Some(published.value == "true"));
    }
    if featured.Some? {
      where := where.(featured := Some(featured.value == "true"));
    }
  }

  /** `orderBy: [{ order: 'asc' }, { createdAt: 'desc' }]`. */
  function DisplayOrder(p: Project): seq<int>
  {
    [p.order, -p.createdAt]
  }

  /** Rows in display order have ascending `order`, and newer rows first among equal `order`. */
  lemma DisplayOrderMeaning(rows: seq<Project>)
    requires SortedBy(rows, DisplayOrder)
    ensures forall i, j :: 0 <= i < j < |rows| ==>
      rows[i].order < rows[j].order || (rows[i].order == rows[j].order && rows[i].createdAt >= rows[j].createdAt)
  {
    forall i, j | 0 <= i < j < |rows|
      ensures rows[i].order < rows[j].order || (rows[i].order == rows[j].order && rows[i].createdAt >= rows[j].createdAt)
    {
      var a, b := DisplayOrder(rows[i]), DisplayOrder(rows[j]);
      assert LexLe(a, b);
      if rows[i].order == rows[j].order {
        assert a[1..] == [-rows[i].createdAt] && b[1..] == [-rows[j].createdAt];
        assert LexLe([-rows[i].createdAt], [-rows[j].createdAt]);
      }
    }
  }

  // ---------------------------------------------------------------------------
  // Reading the array columns

  /**
   * `JSON.parse(project.technologies || '[]')`: a missing or empty column is
   * read as the text `[]`; `None` is a parse error, which escapes. It reads
   * the same as `column ? JSON.parse(column) : []`.
   */
  function DecodeTechnologies(stored: Option<string>): (r: Option<seq<string>>)
    ensures r == DecodeColumn(stored)
  {
    var text := if stored.None? || stored.value == "" then "[]" else stored.value;
    assert Decode("[]") == Some([]) by { DecodeEncode([]); }
    Decode(text)
  }

  /** The features of a listed project: the parsed column, or `[]` when it is missing, empty or does not parse. */
  function DecodeFeatures(stored: Option<string>): (r: seq<string>)
    ensures stored.Some? && stored.value != "" && Decode(stored.value).Some? ==> r == Decode(stored.value).value
    ensures stored.None? || stored.value == "" || Decode(stored.value).None? ==> r == []
  {
    if stored.Some? && stored.value != "" then
      match Decode(stored.value)
      case Some(items) => items
      case None => []
    else []
  }

  /** Both columns read back what `JSON.stringify` wrote. */
  lemma ArrayColumnsRoundTrip(items: seq<string>)
    ensures DecodeTechnologies(Some(Encode(items))) == Some(items)
    ensures DecodeFeatures(Some(Encode(items))) == items
  {
    ColumnRoundTrip(items);
  }

  /** The listed projects as answered; `None` when some row's `technologies` does not parse. */
  function ViewAll(rows: seq<Project>): (r: Option<seq<ProjectView>>)
    ensures r.Some? <==> forall i :: 0 <= i < |rows| ==> DecodeTechnologies(rows[i].technologies).Some?
    ensures r.Some? ==> (|r.value| == |rows|
      && forall i :: 0 <= i < |rows| ==> r.value[i] == ProjectView(rows[i],
           DecodeTechnologies(rows[i].technologies).value, DecodeFeatures(rows[i].features)))
  {
    if rows == [] then Some([])
    else
      assert forall i :: 1 <= i < |rows| ==> rows[i] == rows[1..][i - 1];
      match (DecodeTechnologies(rows[0].technologies), ViewAll(rows[1..]))
      case (Some(technologies), Some(rest)) =>
        Some([ProjectView(rows[0], technologies, DecodeFeatures(rows[0].features))] + rest)
      case _ => None
  }

  /** The stored rows behind a list of views. */
  function Rows(views: seq<ProjectView>): (r: seq<Project>)
    ensures |r| == |views| && forall i :: 0 <= i < |views| ==> r[i] == views[i].project
  {
    seq(|views|, i requires 0 <= i < |views| => views[i].project)
  }

  /** Reading the array columns back keeps every row as stored: the answered projects are the table's rows, in order. */
  lemma ViewAllRows(rows: seq<Project>)
    ensures ViewAll(rows).Some? ==> Rows(ViewAll(rows).value) == rows
  {
    if ViewAll(rows).Some? {
      assert forall i :: 0 <= i < |rows| ==> Rows(ViewAll(rows).value)[i] == rows[i];
    }
  }

  lemma ShownRows(rows: seq<Project>, listed: seq<Project>, query: Query, where: ProjectFilter)
    requires forall p :: Matches(where, p) <==> Shown(query, p)
    requires multiset(listed) == multiset(Select(rows, p => Matches(where, p)))
    ensures forall p :: multiset(listed)[p] == if Shown(query, p) then multiset(rows)[p] else 0
    ensures (forall i :: 0 <= i < |listed| ==> DecodeTechnologies(listed[i].technologies).Some?)
        <==> (forall p :: p in rows && Shown(query, p) ==> DecodeTechnologies(p.technologies).Some?)
  {
    SelectedRows(rows, listed, p => Matches(where, p), p => Shown(query, p));
    EveryListed(rows, listed, p => Shown(query, p), (p: Project) => DecodeTechnologies(p.technologies).Some?);
  }

  /**
   * `GET /api/projects`: the shown projects in display order, with both
   * array columns read. A store failure, or a `technologies` text that does
   * not parse, answers 500; a `features` text that does not parse reads as `[]`.
   */
  method Get(rows: seq<Project>, available: bool, query: Query) returns (reply: Reply<seq<ProjectView>>)
    ensures reply.Fail? ==> reply == Fail(500, "Failed to fetch projects", None, None)
    ensures reply.Ok? <==> available && forall p :: p in rows && Shown(query, p) ==> DecodeTechnologies(p.technologies).Some?
    ensures reply.Ok? ==> (reply.status == 200
      && (forall p :: multiset(Rows(reply.body))[p] == if Shown(query, p) then multiset(rows)[p] else 0)
      && (forall i, j :: 0 <= i < j < |reply.body| ==>
            var a, b := reply.body[i].project, reply.body[j].project;
            a.order < b.order || (a.order == b.order && a.createdAt >= b.createdAt))
      && (forall i :: 0 <= i < |reply.body| ==>
            && DecodeTechnologies(reply.body[i].project.technologies) == Some(reply.body[i].technologies)
            && reply.body[i].features == DecodeFeatures(reply.body[i].project.features)))
  {
    var where := ListingFilter(query);
    if !available {
      return Fail(500, "Failed to fetch projects", None, None);
    }
    var listed := FindMany(rows, p => Matches(where, p), DisplayOrder, None);
    ShownRows(rows, listed, query, where);
    var views := ViewAll(listed);
    if views.None? {
      return Fail(500, "Failed to fetch projects", None, None);
    }
    DisplayOrderMeaning(listed);
    assert Rows(views.value) == listed;
    reply := Ok(200, views.value);
  }

  // ---------------------------------------------------------------------------
  // Create

  const MissingFields := "Missing required fields: title, description, category"

  /** The fields the project form sends that are not columns. */
  const UiFields: set<string> := {"techInput", "featureInput"}

  /** The columns a created row can be given. */
  const ProjectColumns: set<string> := {
    "title", "description", "longDescription", "category", "technologies", "features",
    "imageUrl", "liveUrl", "githubUrl", "published", "featured", "order", "difficulty"}

  function Field(body: map<string, JsonValue>, key: string): Option<JsonValue>
  {
    if key in body then Some(body[key]) else None
  }

  /** JavaScript truthiness of a body field; an absent field is `undefined`, which is falsy. */
  predicate Truthy(v: Option<JsonValue>)
  {
    match v
    case None => false
    case Some(JNull) => false
    case Some(JBool(b)) => b
    case Some(JNum(n)) => n != 0
    case Some(JStr(s)) => s != ""
    case Some(JArr(_)) => true
  }

  /** The gate before any write: `title`, `description` and `category` must all be truthy. */
  predicate HasRequiredFields(body: map<string, JsonValue>)
  {
    Truthy(Field(body, "title")) && Truthy(Field(body, "description")) && Truthy(Field(body, "category"))
  }

  /**
   * How an array field is stored: a string is kept as it is (it is taken to
   * be JSON text already), a falsy value becomes `"[]"`, and anything else is
   * written with `JSON.stringify`.
   */
  function EncodeArrayField(v: Option<JsonValue>): (r: string)
    ensures v.Some? && v.value.JStr? ==> r == v.value.s
    ensures v.Some? && v.value.JArr? ==> Decode(r) == Some(v.value.items) && DecodeColumn(Some(r)) == Some(v.value.items)
    ensures !Truthy(v) && !(v.Some? && v.value.JStr?) ==> DecodeColumn(Some(r)) == Some([])
  {
    if v.Some? && v.value.JStr? then v.value.s
    else if !Truthy(v) then
      ColumnRoundTrip([]);
      Stringify(JArr([]))
    else if v.value.JArr? then
      ColumnRoundTrip(v.value.items);
      Stringify(v.value)
    else
      Stringify(v.value)
  }

  /** The `data` given to the store: the form-only fields removed and both array fields encoded. */
  function CreateData(body: map<string, JsonValue>): (data: map<string, JsonValue>)
    ensures "techInput" !in data && "featureInput" !in data
    ensures "technologies" in data && data["technologies"] == JStr(EncodeArrayField(Field(body, "technologies")))
    ensures "features" in data && data["features"] == JStr(EncodeArrayField(Field(body, "features")))
    ensures forall k :: k !in UiFields && k != "technologies" && k != "features" ==>
      (k in data <==> k in body) && (k in body ==> data[k] == body[k])
  {
    var clean := body - UiFields;
    clean["technologies" := JStr(EncodeArrayField(Field(clean, "technologies")))]
         ["features" := JStr(EncodeArrayField(Field(clean, "features")))]
  }

  /** A text column: `None` when the value has the wrong type, `Some(None)` when it is absent or null. */
  function OptionalText(data: map<string, JsonValue>, key: string): Option<Option<string>>
  {
    if key !in data || data[key].JNull? then Some(None)
    else if data[key].JStr? then Some(Some(data[key].s))
    else None
  }

  function RequiredText(data: map<string, JsonValue>, key: string): Option<string>
  {
    if key in data && data[key].JStr? then Some(data[key].s) else None
  }

  /** A boolean column that defaults to `false`. */
  function Flag(data: map<string, JsonValue>, key: string): Option<bool>
  {
    if key !in data then Some(false) else if data[key].JBool? then Some(data[key].b) else None
  }

  /** An integer column that defaults to 0. */
  function Number(data: map<string, JsonValue>, key: string): Option<int>
  {
    if key !in data then Some(0) else if data[key].JNum? then Some(data[key].n) else None
  }

  /**
   * `project.create({ data })`: the new row, or `None` when the store refuses
   * the data (a key that is not a column, or a value of the wrong type).
   */
  function ToRow(data: map<string, JsonValue>, id: string, now: int): (r: Option<Project>)
    ensures r.Some? ==> data.Keys <= ProjectColumns && r.value.id == id && r.value.createdAt == now
    ensures r.Some? && "technologies" in data && data["technologies"].JStr? ==> r.value.technologies == Some(data["technologies"].s)
    ensures r.Some? && "features" in data && data["features"].JStr? ==> r.value.features == Some(data["features"].s)
  {
    var title, description, category := RequiredText(data, "title"), RequiredText(data, "description"), RequiredText(data, "category");
    var longDescription, difficulty := OptionalText(data, "longDescription"), OptionalText(data, "difficulty");
    var technologies, features := OptionalText(data, "technologies"), OptionalText(data, "features");
    var imageUrl, liveUrl, githubUrl := OptionalText(data, "imageUrl"), OptionalText(data, "liveUrl"), OptionalText(data, "githubUrl");
    var published, featured, order := Flag(data, "published"), Flag(data, "featured"), Number(data, "order");
    if && data.Keys <= ProjectColumns
       && title.Some? && description.Some? && category.Some?
       && longDescription.Some? && difficulty.Some? && technologies.Some? && features.Some?
       && imageUrl.Some? && liveUrl.Some? && githubUrl.Some?
       && published.Some? && featured.Some? && order.Some?
    then
      Some(Project(id, title.value, description.value, longDescription.value, category.value,
                   technologies.value, features.value, imageUrl.value, liveUrl.value, githubUrl.value,
                   published.value, featured.value, order.value, difficulty.value, now))
    else None
  }

  /**
   * `POST /api/projects`: the required-field gate, then the store write of
   * `CreateData(body)`; the reply reads both array columns back, and a
   * column that does not parse answers 500 after the row was written.
   */
  function Create(rows: seq<Project>, available: bool, body: map<string, JsonValue>, newId: string, now: int): (h: Handled<ProjectView>)
    ensures !HasRequiredFields(body) ==> h == Handled(Fail(400, MissingFields, None, None), rows)
    ensures HasRequiredFields(body) && (!available || ToRow(CreateData(body), newId, now).None?) ==>
      h == Handled(Fail(500, "Failed to create project", None, None), rows)
    ensures HasRequiredFields(body) && available && ToRow(CreateData(body), newId, now).Some? ==>
      var row := ToRow(CreateData(body), newId, now).value;
      && h.projects == rows + [row]
      && (h.reply.Ok? <==> DecodeColumn(row.technologies).Some? && DecodeColumn(row.features).Some?)
      && (h.reply.Ok? ==> h.reply == Ok(201, ProjectView(row, DecodeColumn(row.technologies).value, DecodeColumn(row.features).value)))
      && (h.reply.Fail? ==> h.reply == Fail(500, "Failed to create project", None, None))
  {
    if !HasRequiredFields(body) then Handled(Fail(400, MissingFields, None, None), rows)
    else
      var created := ToRow(CreateData(body), newId, now);
      if !available || created.None? then Handled(Fail(500, "Failed to create project", None, None), rows)
      else
        var row := created.value;
        var technologies, features := DecodeTechnologies(row.technologies), DecodeColumn(row.features);
        if technologies.Some? && features.Some? then
          Handled(Ok(201, ProjectView(row, technologies.value, features.value)), rows + [row])
        else
          Handled(Fail(500, "Failed to create project", None, None), rows + [row])
  }

  /** A string sent for an array field is stored as it is: never encoded a second time. */
  lemma StringFieldStoredAsIs(rows: seq<Project>, body: map<string, JsonValue>, newId: string, now: int)
    requires HasRequiredFields(body)
    requires "technologies" in body && body["technologies"].JStr?
    requires ToRow(CreateData(body), newId, now).Some?
    ensures ToRow(CreateData(body), newId, now).value.technologies == Some(body["technologies"].s)
  {
  }

  /**
   * Arrays sent for both array fields (or left out) come back in the reply
   * as sent, whenever the store accepts the row.
   */
  lemma CreateRoundTrip(rows: seq<Project>, body: map<string, JsonValue>, newId: string, now: int)
    requires HasRequiredFields(body)
    requires "technologies" !in body || body["technologies"].JArr?
    requires "features" !in body || body["features"].JArr?
    requires ToRow(CreateData(body), newId, now).Some?
    ensures var h := Create(rows, true, body, newId, now);
      && h.reply.Ok? && h.reply.status == 201
      && h.reply.body.technologies == (if "technologies" in body then body["technologies"].items else [])
      && h.reply.body.features == (if "features" in body then body["features"].items else [])
  {
    var data := CreateData(body);
    var row := ToRow(data, newId, now).value;
    assert row.technologies == Some(EncodeArrayField(Field(body, "technologies")));
    assert row.features == Some(EncodeArrayField(Field(body, "features")));
  }
}
