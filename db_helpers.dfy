/**
 * The document-store facade over the relational tables: six named
 * collections, each a sequence of rows; the `$id` response shape; the
 * mapping of filter keys to columns; the filter, sort and pagination of
 * `listDocuments`; and the create / get / update / delete operations.
 *
 * A row is a map from column name (camelCase) to value. Rows keep their
 * storage order; the database's own tie-breaking for equal sort keys is
 * modelled as that order.
 */
module DbHelpers {
  import opened Common

  datatype Value =
    | VStr(s: string)
    | VInt(i: int)
    | VReal(r: real)
    | VBool(b: bool)
    | VTime(t: int)
    | VNull
    | VList(items: seq<string>)

  type Doc = map<string, Value>

  /** The contents of the database: the rows of each collection. */
  type Tables = map<string, seq<Doc>>

  const USERS: string := "user"
  const WORKSPACES: string := "workspaces"
  const MEMBERS: string := "members"
  const PROJECTS: string := "projects"
  const TASKS: string := "tasks"
  const USER_SKILLS: string := "user_skills"

  const Collections: set<string> := {USERS, WORKSPACES, MEMBERS, PROJECTS, TASKS, USER_SKILLS}

  datatype DbError = UnknownCollection(collection: string) | UnknownColumn

  const UserColumns: set<string> := {"id", "email", "name", "emailVerified", "image", "createdAt", "updatedAt"}
  const WorkspaceColumns: set<string> := {"id", "name", "imageUrl", "inviteCode", "userId", "createdAt", "updatedAt"}
  const MemberColumns: set<string> := {"id", "workspaceId", "userId", "role", "projectId", "createdAt", "updatedAt"}
  const ProjectColumns: set<string> :=
    {"id", "name", "imageUrl", "workspaceId", "generationType", "prompt", "createdAt", "updatedAt"}
  const TaskColumns: set<string> :=
    {"id", "name", "status", "workspaceId", "assigneeId", "projectId", "position", "dueDate",
     "description", "dependsOn", "aiSuggestedAssignees", "createdAt", "updatedAt"}
  const SkillColumns: set<string> :=
    {"id", "memberId", "workspaceId", "name", "category", "experienceYears", "proficiencyScore", "createdAt", "updatedAt"}

  /** The column names of each collection; none for an unknown collection. */
  function Columns(collection: string): set<string>
  {
    if collection == USERS then UserColumns
    else if collection == WORKSPACES then WorkspaceColumns
    else if collection == MEMBERS then MemberColumns
    else if collection == PROJECTS then ProjectColumns
    else if collection == TASKS then TaskColumns
    else if collection == USER_SKILLS then SkillColumns
    else {}
  }

  predicate NoUnderscore(s: string)
  {
    forall i :: 0 <= i < |s| ==> s[i] != '_'
  }

  /** No column of the users, workspaces or members tables holds '_'. */
  lemma AccountColumnsShape()
    ensures forall col :: col in UserColumns ==> NoUnderscore(col)
    ensures forall col :: col in WorkspaceColumns ==> NoUnderscore(col)
    ensures forall col :: col in MemberColumns ==> NoUnderscore(col)
  {
  }

  /** No column of the projects, tasks or skills tables holds '_'. */
  lemma WorkColumnsShape()
    ensures forall col :: col in ProjectColumns ==> NoUnderscore(col)
    ensures forall col :: col in TaskColumns ==> NoUnderscore(col)
    ensures forall col :: col in SkillColumns ==> NoUnderscore(col)
  {
  }

  /** Every collection has an id and the two timestamps, and no column name holds '_'. */
  lemma ColumnsShape(collection: string)
    requires collection in Collections
    ensures "id" in Columns(collection) && "createdAt" in Columns(collection) && "updatedAt" in Columns(collection)
    ensures forall col :: col in Columns(collection) ==> NoUnderscore(col)
  {
    AccountColumnsShape();
    WorkColumnsShape();
  }

  function Rows(t: Tables, collection: string): seq<Doc>
  {
    if collection in t then t[collection] else []
  }

  function IdOf(d: Doc): Value
  {
    if "id" in d then d["id"] else VNull
  }

  predicate HasId(d: Doc, id: string)
  {
    "id" in d && d["id"] == VStr(id)
  }

  /** A text field holding exactly s. */
  predicate FieldIs(d: Doc, key: string, s: string)
  {
    key in d && d[key] == VStr(s)
  }

  /** A text field as JavaScript sees it: null when absent or not text. */
  function StrField(d: Doc, key: string): Option<string>
  {
    if key in d && d[key].VStr? then Some(d[key].s) else None
  }

  /** Every row has a text id and no two rows share one. */
  predicate UniqueIds(rows: seq<Doc>)
  {
    (forall i :: 0 <= i < |rows| ==> "id" in rows[i] && rows[i]["id"].VStr?) && DistinctBy(rows, IdOf)
  }

  predicate WellFormed(t: Tables)
  {
    forall c :: c in t ==> UniqueIds(t[c])
  }

  predicate IdFree(rows: seq<Doc>, id: string)
  {
    forall i :: 0 <= i < |rows| ==> !HasId(rows[i], id)
  }

  /** `toApiResponse`: null stays null; otherwise `id` is renamed to `$id`. */
  function ToApiResponse(doc: Option<Doc>): (r: Option<Doc>)
    requires doc.Some? ==> "id" in doc.value
    ensures r.None? <==> doc.None?
    ensures r.Some? ==> "$id" in r.value && r.value["$id"] == doc.value["id"] && "id" !in r.value
    ensures r.Some? ==> forall k :: k in doc.value && k != "id" && k != "$id" ==> k in r.value && r.value[k] == doc.value[k]
    ensures r.Some? ==> forall k :: k in r.value ==> k == "$id" || k in doc.value
  {
    match doc
    case None => None
    case Some(d) => Some((d - {"id"})["$id" := d["id"]])
  }

  /** The inverse rename, `$id` back to `id`. */
  function FromApiResponse(api: Doc): Doc
    requires "$id" in api
  {
    (api - {"$id"})["id" := api["$id"]]
  }

  /** A row without a `$id` column survives the round trip through the response shape. */
  lemma ApiResponseRoundTrip(d: Doc)
    requires "id" in d && "$id" !in d
    ensures FromApiResponse(ToApiResponse(Some(d)).value) == d
  {
    var back := FromApiResponse(ToApiResponse(Some(d)).value);
    assert back.Keys == d.Keys;
  }

  /** `toApiResponseArray`: every row in its response shape, in order. */
  function ToApiResponseArray(docs: seq<Doc>): (r: seq<Doc>)
    requires forall i :: 0 <= i < |docs| ==> "id" in docs[i]
    ensures |r| == |docs|
    ensures forall i :: 0 <= i < |docs| ==> Some(r[i]) == ToApiResponse(Some(docs[i]))
    decreases |docs|
  {
    if docs == [] then []
    else ToApiResponseArray(docs[..|docs| - 1]) + [ToApiResponse(Some(docs[|docs| - 1])).value]
  }

  /** The first row with the given id, as the `limit(1)` lookups return. */
  function FindById(rows: seq<Doc>, id: string): (r: Option<Doc>)
    ensures r.None? <==> IdFree(rows, id)
    ensures r.Some? ==> exists i :: 0 <= i < |rows| && rows[i] == r.value && HasId(r.value, id)
  {
    if rows == [] then None
    else if HasId(rows[0], id) then Some(rows[0])
    else
      var r := FindById(rows[1..], id);
      assert forall i :: 0 <= i < |rows[1..]| ==> rows[1..][i] == rows[i + 1];
      r
  }

  /** With unique ids, every row holding the id is the one the lookup finds. */
  lemma FoundById(rows: seq<Doc>, id: string)
    requires UniqueIds(rows)
    ensures forall m :: m in rows && HasId(m, id) ==> FindById(rows, id) == Some(m)
  {
    forall m | m in rows && HasId(m, id)
      ensures FindById(rows, id) == Some(m)
    {
      var i :| 0 <= i < |rows| && rows[i] == m;
      FindByIdUnique(rows, id, i);
    }
  }

  /** With distinct ids, the row found is the only row with that id. */
  lemma FindByIdUnique(rows: seq<Doc>, id: string, i: int)
    requires UniqueIds(rows) && 0 <= i < |rows| && HasId(rows[i], id)
    ensures FindById(rows, id) == Some(rows[i])
  {
    assert !IdFree(rows, id);
    var j :| 0 <= j < |rows| && rows[j] == FindById(rows, id).value && HasId(rows[j], id);
    assert IdOf(rows[i]) == VStr(id) == IdOf(rows[j]);
  }

  /** `getDocument`. */
  function GetDocument(t: Tables, collection: string, id: string): (r: Result<Option<Doc>, DbError>)
    ensures r.Err? <==> collection !in Collections
    ensures r.Ok? ==> r.value == FindById(Rows(t, collection), id)
  {
    if collection !in Collections then Err(UnknownCollection(collection)) else Ok(FindById(Rows(t, collection), id))
  }

  predicate IsUpper(c: char)
  {
    'A' <= c <= 'Z'
  }

  function ToLower(c: char): char
  {
    if IsUpper(c) then (c as int + 32) as char else c
  }

  /** `key.replace(/([A-Z])/g, "_$1").toLowerCase()` for ASCII letters. */
  function SnakeKey(key: string): string
  {
    if key == [] then []
    else (if IsUpper(key[0]) then ['_', ToLower(key[0])] else [key[0]]) + SnakeKey(key[1..])
  }

  lemma {:induction false} SnakeKeyOfLowercase(key: string)
    requires forall i :: 0 <= i < |key| ==> !IsUpper(key[i])
    ensures SnakeKey(key) == key
  {
    if key != [] {
      SnakeKeyOfLowercase(key[1..]);
    }
  }

  lemma {:induction false} SnakeKeyMarksCapitals(key: string, i: int)
    requires 0 <= i < |key| && IsUpper(key[i])
    ensures !NoUnderscore(SnakeKey(key))
  {
    var head := if IsUpper(key[0]) then ['_', ToLower(key[0])] else [key[0]];
    assert SnakeKey(key) == head + SnakeKey(key[1..]);
    if i > 0 {
      SnakeKeyMarksCapitals(key[1..], i - 1);
      var j :| 0 <= j < |SnakeKey(key[1..])| && SnakeKey(key[1..])[j] == '_';
      assert SnakeKey(key)[|head| + j] == '_';
    } else {
      assert SnakeKey(key)[0] == '_';
    }
  }

  /** `getColumn`: the column named by the key itself, or by its snake_case form. */
  function GetColumn(collection: string, key: string): Option<string>
  {
    var columns := Columns(collection);
    if key in columns then Some(key)
    else if SnakeKey(key) in columns then Some(SnakeKey(key))
    else None
  }

  /** The snake_case fallback never finds a column the key itself does not name. */
  lemma SnakeFallbackUnused(collection: string, key: string)
    ensures GetColumn(collection, key) == (if key in Columns(collection) then Some(key) else None)
  {
    if collection in Collections && key !in Columns(collection) && SnakeKey(key) in Columns(collection) {
      ColumnsShape(collection);
      if i :| 0 <= i < |key| && IsUpper(key[i]) {
        SnakeKeyMarksCapitals(key, i);
      } else {
        SnakeKeyOfLowercase(key);
      }
    }
  }

  /** A filter value: absent, a single value, an array, or `{ $in: [...] }`. */
  datatype FilterValue = Undefined | Scalar(v: Value) | ArrayOf(items: seq<Value>) | InOperator(items: seq<Value>)

  datatype FilterEntry = FilterEntry(key: string, value: FilterValue)

  type Criteria = seq<FilterEntry>

  /** Entries whose value is null or undefined are skipped. */
  predicate Nullish(v: FilterValue)
  {
    v.Undefined? || v == Scalar(VNull)
  }

  /** `id` and `_id` name the id column; every other key goes through `getColumn`. */
  function ColumnFor(collection: string, key: string): Option<string>
  {
    if key == "id" || key == "_id" then Some("id") else GetColumn(collection, key)
  }

  /** One SQL predicate: `col = v` or `col IN (...)`; a NULL column satisfies neither. */
  datatype Condition = Eq(column: string, value: Value) | In(column: string, items: seq<Value>)

  predicate Holds(c: Condition, d: Doc)
  {
    match c
    case Eq(col, v) => col in d && d[col] != VNull && d[col] == v
    case In(col, items) => col in d && d[col] != VNull && d[col] in items
  }

  function ConditionOf(column: string, v: FilterValue): Condition
  {
    match v
    case ArrayOf(items) => In(column, items)
    case InOperator(items) => In(column, items)
    case Scalar(x) => Eq(column, x)
    case Undefined => Eq(column, VNull)
  }

  predicate AllHold(conditions: seq<Condition>, d: Doc)
  {
    forall i :: 0 <= i < |conditions| ==> Holds(conditions[i], d)
  }

  /** Every key that takes part in the filter names a column. */
  predicate FilterResolves(collection: string, filter: Criteria)
  {
    forall i :: 0 <= i < |filter| && !Nullish(filter[i].value) ==> ColumnFor(collection, filter[i].key).Some?
  }

  predicate EntryHolds(collection: string, e: FilterEntry, d: Doc)
  {
    Nullish(e.value) ||
    (ColumnFor(collection, e.key).Some? && Holds(ConditionOf(ColumnFor(collection, e.key).value, e.value), d))
  }

  /** A row is selected when it satisfies every non-null filter entry. */
  predicate MatchesFilter(collection: string, filter: Criteria, d: Doc)
  {
    forall i :: 0 <= i < |filter| ==> EntryHolds(collection, filter[i], d)
  }

  function Matcher(collection: string, filter: Criteria): Doc -> bool
  {
    d => MatchesFilter(collection, filter, d)
  }

  lemma MatchesFilterSnoc(collection: string, filter: Criteria, e: FilterEntry, d: Doc)
    ensures MatchesFilter(collection, filter + [e], d) <==> MatchesFilter(collection, filter, d) && EntryHolds(collection, e, d)
  {
    var f := filter + [e];
    assert forall i :: 0 <= i < |filter| ==> f[i] == filter[i];
    assert f[|filter|] == e;
  }

  /**
   * The condition-building loop of `listDocuments`: one condition per
   * non-null entry, or no result when some key names no column.
   */
  method BuildConditions(collection: string, filter: Criteria) returns (conditions: Option<seq<Condition>>)
    ensures conditions.None? <==> !FilterResolves(collection, filter)
    ensures conditions.Some? ==> |conditions.value| <= |filter|
    ensures conditions.Some? ==> forall d :: AllHold(conditions.value, d) <==> MatchesFilter(collection, filter, d)
  {
    var acc: seq<Condition> := [];
    for i := 0 to |filter|
      invariant FilterResolves(collection, filter[..i])
      invariant |acc| <= i
      invariant forall d :: AllHold(acc, d) <==> MatchesFilter(collection, filter[..i], d)
    {
      var entry := filter[i];
      assert filter[..i + 1] == filter[..i] + [entry];
      forall d ensures MatchesFilter(collection, filter[..i + 1], d) <==> MatchesFilter(collection, filter[..i], d) && EntryHolds(collection, entry, d) {
        MatchesFilterSnoc(collection, filter[..i], entry, d);
      }
      if Nullish(entry.value) {
        continue;
      }
      var column := ColumnFor(collection, entry.key);
      if column.None? {
        assert !FilterResolves(collection, filter) by {
          assert filter[i] == entry;
        }
        return None;
      }
      var condition := ConditionOf(column.value, entry.value);
      forall d ensures AllHold(acc + [condition], d) <==> AllHold(acc, d) && Holds(condition, d) {
        assert forall j :: 0 <= j < |acc| ==> (acc + [condition])[j] == acc[j];
        assert (acc + [condition])[|acc|] == condition;
      }
      acc := acc + [condition];
    }
    assert filter[..|filter|] == filter;
    conditions := Some(acc);
  }

  datatype SortDirection = Ascending | Descending

  datatype SortSpec = SortSpec(key: string, direction: SortDirection)

  /** `limit` and `offset` of 0 mean absent, as their falsy test does. */
  datatype ListOptions = ListOptions(limit: nat, offset: nat, sort: Option<SortSpec>)

  const NoOptions: ListOptions := ListOptions(0, 0, None)

  datatype ListResult = ListResult(documents: seq<Doc>, total: nat)

  /** The ordering value of a timestamp or integer column; other values order as 0. */
  function SortValue(d: Doc, column: string): int
  {
    if column in d then
      match d[column]
      case VTime(t) => t
      case VInt(i) => i
      case _ => 0
    else 0
  }

  function SortKey(column: string, direction: SortDirection): Doc -> int
  {
    if direction == Ascending then d => SortValue(d, column) else d => -SortValue(d, column)
  }

  /** Writing another column leaves a row's ordering value alone. */
  lemma SortValueOther(d: Doc, k: string, v: Value, column: string)
    requires k != column
    ensures SortValue(d[k := v], column) == SortValue(d, column)
  {
    assert (column in d[k := v]) == (column in d);
  }

  /** Newest first by creation time: the default order. */
  ghost predicate NewestFirst(docs: seq<Doc>)
  {
    forall i, j :: 0 <= i < j < |docs| ==> SortValue(docs[i], "createdAt") >= SortValue(docs[j], "createdAt")
  }

  /**
   * `offset` then `limit`, each applied only when non-zero: the page starts
   * at row `offset` (or is empty past the end) and holds `limit` rows, or
   * every remaining row when fewer remain or no limit is given.
   */
  function Paginate(rows: seq<Doc>, offset: nat, limit: nat): (r: seq<Doc>)
    ensures |r| == (var remaining := if offset <= |rows| then |rows| - offset else 0;
      if limit != 0 && limit < remaining then limit else remaining)
    ensures forall i :: 0 <= i < |r| ==> offset + i < |rows| && r[i] == rows[offset + i]
    ensures limit > 0 ==> |r| <= limit
    ensures offset == 0 && limit == 0 ==> r == rows
    ensures exists a :: 0 <= a <= |rows| && r <= rows[a..]
    ensures offset == 0 ==> r <= rows && (rows != [] ==> r != [])
  {
    var a := if offset <= |rows| then offset else |rows|;
    var skipped := rows[a..];
    var page := if limit != 0 && limit < |skipped| then skipped[..limit] else skipped;
    assert page <= rows[a..];
    page
  }

  /** The rows of a collection that satisfy the filter, in storage order. */
  function Selected(t: Tables, collection: string, filter: Criteria): seq<Doc>
  {
    Filter(Rows(t, collection), Matcher(collection, filter))
  }

  /** A contiguous run of a newest-first sequence is newest first. */
  lemma NewestFirstSlice(ordered: seq<Doc>, page: seq<Doc>, a: int)
    requires NewestFirst(ordered) && 0 <= a <= |ordered| && page <= ordered[a..]
    ensures NewestFirst(page)
  {
    forall i, j | 0 <= i < j < |page|
      ensures SortValue(page[i], "createdAt") >= SortValue(page[j], "createdAt")
    {
      assert page[i] == ordered[a + i] && page[j] == ordered[a + j];
    }
  }

  /** Sorting by the descending creation-time key yields newest first. */
  lemma SortedDescendingIsNewestFirst(rows: seq<Doc>)
    ensures NewestFirst(SortBy(rows, SortKey("createdAt", Descending)))
  {
    var key := SortKey("createdAt", Descending);
    var ordered := SortBy(rows, key);
    assert forall x :: key(x) == -SortValue(x, "createdAt");
    assert SortedBy(ordered, key);
  }

  /** After sorting newest first, no row is newer than the first. */
  lemma NewestAtFront(rows: seq<Doc>)
    requires rows != []
    ensures forall x :: x in rows ==>
      SortValue(x, "createdAt") <= SortValue(SortBy(rows, SortKey("createdAt", Descending))[0], "createdAt")
  {
    var ordered := SortBy(rows, SortKey("createdAt", Descending));
    SortedDescendingIsNewestFirst(rows);
    SortByMembers(rows, SortKey("createdAt", Descending));
    forall x | x in rows ensures SortValue(x, "createdAt") <= SortValue(ordered[0], "createdAt") {
      var i :| 0 <= i < |ordered| && ordered[i] == x;
      if i > 0 {
        assert SortValue(ordered[0], "createdAt") >= SortValue(ordered[i], "createdAt");
      }
    }
  }

  /** A page of a sorted copy holds rows of the input, at most as many, and all of them when unpaged. */
  lemma PageOfSorted(rows: seq<Doc>, key: Doc -> int, offset: nat, limit: nat)
    ensures var page := Paginate(SortBy(rows, key), offset, limit);
      (forall i :: 0 <= i < |page| ==> page[i] in rows) && |page| <= |rows| &&
      (offset == 0 && limit == 0 ==> multiset(page) == multiset(rows)) &&
      (offset == 0 ==> (page == [] <==> rows == []))
  {
    var ordered := SortBy(rows, key);
    SortByMembers(rows, key);
    var page := Paginate(ordered, offset, limit);
    var a :| 0 <= a <= |ordered| && page <= ordered[a..];
    assert forall i :: 0 <= i < |page| ==> page[i] == ordered[a + i];
  }

  /** A page of the newest-first order is newest first, and an unskipped page starts with the newest row. */
  lemma NewestPage(rows: seq<Doc>, offset: nat, limit: nat)
    ensures var page := Paginate(SortBy(rows, SortKey("createdAt", Descending)), offset, limit);
      NewestFirst(page) &&
      (offset == 0 && page != [] ==> forall x :: x in rows ==> SortValue(x, "createdAt") <= SortValue(page[0], "createdAt"))
  {
    var ordered := SortBy(rows, SortKey("createdAt", Descending));
    var page := Paginate(ordered, offset, limit);
    var a :| 0 <= a <= |ordered| && page <= ordered[a..];
    SortedDescendingIsNewestFirst(rows);
    NewestFirstSlice(ordered, page, a);
    if offset == 0 && page != [] {
      NewestAtFront(rows);
    }
  }

  /** Orders the selected rows by the column, then pages them. */
  function Arrange(rows: seq<Doc>, column: string, direction: SortDirection, offset: nat, limit: nat): (r: seq<Doc>)
    ensures r == Paginate(SortBy(rows, SortKey(column, direction)), offset, limit)
    ensures forall i :: 0 <= i < |r| ==> r[i] in rows
    ensures |r| <= |rows|
    ensures limit > 0 ==> |r| <= limit
    ensures offset == 0 && limit == 0 ==> multiset(r) == multiset(rows)
    ensures column == "createdAt" && direction == Descending ==> NewestFirst(r)
    ensures offset == 0 ==> (r == [] <==> rows == [])
    ensures offset == 0 && column == "createdAt" && direction == Descending && r != [] ==>
      forall x :: x in rows ==> SortValue(x, "createdAt") <= SortValue(r[0], "createdAt")
  {
    PageOfSorted(rows, SortKey(column, direction), offset, limit);
    if column == "createdAt" && direction == Descending then
      NewestPage(rows, offset, limit);
      Paginate(SortBy(rows, SortKey(column, direction)), offset, limit)
    else
      Paginate(SortBy(rows, SortKey(column, direction)), offset, limit)
  }

  /**
   * `listDocuments`: the rows matching every filter entry, ordered by the
   * requested column or newest first, then paged; `total` counts every
   * matching row regardless of paging.
   */
  function ListDocuments(t: Tables, collection: string, filter: Criteria, options: ListOptions): (r: Result<ListResult, DbError>)
    ensures collection !in Collections ==> r == Err(UnknownCollection(collection))
    ensures collection in Collections && !FilterResolves(collection, filter) ==> r == Err(UnknownColumn)
    ensures r.Ok? <==> (collection in Collections && FilterResolves(collection, filter) &&
      (options.sort.None? || ColumnFor(collection, options.sort.value.key).Some?))
    ensures r.Ok? ==> r.value.total == |Selected(t, collection, filter)|
    ensures r.Ok? && options.sort.None? ==>
      r.value.documents == Arrange(Selected(t, collection, filter), "createdAt", Descending, options.offset, options.limit)
    ensures r.Ok? && options.sort.Some? ==>
      r.value.documents == Arrange(Selected(t, collection, filter), ColumnFor(collection, options.sort.value.key).value,
        options.sort.value.direction, options.offset, options.limit)
    ensures r.Ok? ==> forall i :: 0 <= i < |r.value.documents| ==>
      r.value.documents[i] in Rows(t, collection) && MatchesFilter(collection, filter, r.value.documents[i])
    ensures r.Ok? ==> |r.value.documents| <= r.value.total
    ensures r.Ok? && options.limit > 0 ==> |r.value.documents| <= options.limit
    ensures r.Ok? && options.limit == 0 && options.offset == 0 ==>
      multiset(r.value.documents) == multiset(Selected(t, collection, filter))
    ensures r.Ok? && (options.sort.None? || options.sort.value == SortSpec("createdAt", Descending)) ==>
      NewestFirst(r.value.documents)
    ensures r.Ok? && options.offset == 0 ==> (r.value.documents == [] <==> r.value.total == 0)
    ensures r.Ok? && options.offset == 0 && options.sort.None? && r.value.documents != [] ==>
      forall x :: x in Selected(t, collection, filter) ==>
        SortValue(x, "createdAt") <= SortValue(r.value.documents[0], "createdAt")
  {
    if collection !in Collections then Err(UnknownCollection(collection))
    else if !FilterResolves(collection, filter) then Err(UnknownColumn)
    else
      ColumnsShape(collection);
      SnakeFallbackUnused(collection, "createdAt");
      var column := if options.sort.Some? then ColumnFor(collection, options.sort.value.key) else Some("createdAt");
      if column.None? then Err(UnknownColumn)
      else
        var matching := Selected(t, collection, filter);
        var direction := if options.sort.Some? then options.sort.value.direction else Descending;
        Ok(ListResult(Arrange(matching, column.value, direction, options.offset, options.limit), |matching|))
  }

  /** Selection by one text column equal to s. */
  function ByField(key: string, s: string): Criteria
  {
    [FilterEntry(key, Scalar(VStr(s)))]
  }

  function FieldMatcher(key: string, s: string): Doc -> bool
  {
    d => FieldIs(d, key, s)
  }

  /** Filtering on one column of the collection selects exactly the rows holding that value. */
  lemma ByFieldSelects(t: Tables, collection: string, key: string, s: string, options: ListOptions)
    requires collection in Collections && key in Columns(collection)
    requires options.sort.None?
    ensures ListDocuments(t, collection, ByField(key, s), options).Ok?
    ensures forall d :: MatchesFilter(collection, ByField(key, s), d) <==> FieldIs(d, key, s)
    ensures Selected(t, collection, ByField(key, s)) == Filter(Rows(t, collection), FieldMatcher(key, s))
  {
    SnakeFallbackUnused(collection, key);
    var f := ByField(key, s);
    assert ColumnFor(collection, key) == Some(key);
    assert FilterResolves(collection, f);
    forall d ensures MatchesFilter(collection, f, d) <==> FieldIs(d, key, s) {
      assert MatchesFilter(collection, f, d) <==> EntryHolds(collection, f[0], d);
    }
    FilterCongruent(Rows(t, collection), Matcher(collection, f), FieldMatcher(key, s));
  }

  /** Without paging, a listing holds exactly the matching rows, and as many as its total. */
  lemma UnpagedListing(t: Tables, collection: string, filter: Criteria, options: ListOptions)
    requires options.offset == 0 && options.limit == 0
    requires ListDocuments(t, collection, filter, options).Ok?
    ensures var r := ListDocuments(t, collection, filter, options).value;
      |r.documents| == r.total &&
      multiset(r.documents) == multiset(Selected(t, collection, filter)) &&
      forall x :: x in r.documents <==> x in Rows(t, collection) && MatchesFilter(collection, filter, x)
  {
    var r := ListDocuments(t, collection, filter, options).value;
    var selected := Selected(t, collection, filter);
    var rows := Rows(t, collection);
    assert |r.documents| == |multiset(r.documents)| == |multiset(selected)| == |selected|;
    forall x ensures x in r.documents <==> x in rows && MatchesFilter(collection, filter, x) {
      assert x in r.documents <==> x in multiset(selected);
      if x in rows && MatchesFilter(collection, filter, x) {
        var i :| 0 <= i < |rows| && rows[i] == x;
        assert Matcher(collection, filter)(rows[i]);
      }
    }
  }

  /** Selection by `{ id: { $in: ids } }`: the rows whose id is listed; a row without id is never selected. */
  lemma IdInSelects(collection: string, ids: seq<Value>)
    ensures FilterResolves(collection, [FilterEntry("id", InOperator(ids))])
    ensures forall d :: MatchesFilter(collection, [FilterEntry("id", InOperator(ids))], d) <==>
      IdOf(d) != VNull && IdOf(d) in ids
  {
    var f := [FilterEntry("id", InOperator(ids))];
    assert ColumnFor(collection, "id") == Some("id");
    forall d ensures MatchesFilter(collection, f, d) <==> IdOf(d) != VNull && IdOf(d) in ids {
      assert MatchesFilter(collection, f, d) <==> EntryHolds(collection, f[0], d);
    }
  }

  /**
   * `listDocuments(collection, { key: s })` with no options: every row
   * holding s in that column, newest first, and as many as the total.
   */
  function ListByField(t: Tables, collection: string, key: string, s: string): (r: ListResult)
    requires collection in Collections && key in Columns(collection)
    ensures r.total == |r.documents| == |Filter(Rows(t, collection), FieldMatcher(key, s))|
    ensures forall d :: d in r.documents <==> d in Rows(t, collection) && FieldIs(d, key, s)
    ensures multiset(r.documents) == multiset(Filter(Rows(t, collection), FieldMatcher(key, s)))
    ensures NewestFirst(r.documents)
  {
    ByFieldSelects(t, collection, key, s, NoOptions);
    UnpagedListing(t, collection, ByField(key, s), NoOptions);
    ListDocuments(t, collection, ByField(key, s), NoOptions).value
  }

  /** Every stored row carries an id. */
  lemma RowsHaveIds(t: Tables, collection: string, d: Doc)
    requires WellFormed(t) && d in Rows(t, collection)
    ensures "id" in d && d["id"].VStr?
  {
    var rows := Rows(t, collection);
    var k :| 0 <= k < |rows| && rows[k] == d;
    assert collection in t;
  }

  /** The response shape keeps a row's creation time, and so its place in the default order. */
  lemma ResponseKeepsCreatedAt(d: Doc)
    requires "id" in d
    ensures SortValue(ToApiResponse(Some(d)).value, "createdAt") == SortValue(d, "createdAt")
  {
    var shaped := ToApiResponse(Some(d)).value;
    assert |"createdAt"| != |"id"| && |"createdAt"| != |"$id"|;
    assert ("createdAt" in shaped) == ("createdAt" in d);
  }

  /** `listDocuments(collection, { key: s })` answered through `toApiResponseArray`. */
  function ApiListByField(t: Tables, collection: string, key: string, s: string): (r: ListResult)
    requires WellFormed(t) && collection in Collections && key in Columns(collection)
    ensures r.total == |r.documents| == |ListByField(t, collection, key, s).documents|
    ensures forall i :: 0 <= i < |r.documents| ==>
      var d := ListByField(t, collection, key, s).documents[i];
      "id" in d && r.documents[i] == ToApiResponse(Some(d)).value
    ensures NewestFirst(r.documents)
  {
    var listed := ListByField(t, collection, key, s);
    var docs := listed.documents;
    assert forall i :: 0 <= i < |docs| ==> "id" in docs[i] by {
      forall i | 0 <= i < |docs| ensures "id" in docs[i] {
        RowsHaveIds(t, collection, docs[i]);
      }
    }
    var shaped := ToApiResponseArray(docs);
    assert NewestFirst(shaped) by {
      forall i | 0 <= i < |shaped| ensures SortValue(shaped[i], "createdAt") == SortValue(docs[i], "createdAt") {
        ResponseKeepsCreatedAt(docs[i]);
      }
    }
    ListResult(shaped, listed.total)
  }

  /** A second write to a collection replaces the first. */
  lemma WriteTwice(t: Tables, collection: string, first: seq<Doc>, second: seq<Doc>)
    ensures t[collection := first][collection := second] == t[collection := second]
  {
  }

  /** Writing back a collection's own rows changes nothing. */
  lemma WriteSame(t: Tables, collection: string)
    requires collection in t
    ensures t[collection := t[collection]] == t
  {
  }

  /** Filtering cannot bring back an id. */
  lemma FilterKeepsIdFree(rows: seq<Doc>, p: Doc -> bool, id: string)
    requires IdFree(rows, id)
    ensures IdFree(Filter(rows, p), id)
  {
    var r := Filter(rows, p);
    forall i | 0 <= i < |r| ensures !HasId(r[i], id) {
      var k :| 0 <= k < |rows| && rows[k] == r[i];
    }
  }

  /** Keeps the rows whose id is none of the given values. */
  function NoneOf(ids: seq<Value>): Doc -> bool
  {
    d => IdOf(d) !in ids
  }

  /** Deleting by one more id is filtering by one more excluded value. */
  lemma DeleteOneMore(rows: seq<Doc>, ids: seq<Value>, k: int, id: string)
    requires 0 <= k < |ids| && ids[k] == VStr(id)
    ensures Filter(Filter(rows, NoneOf(ids[..k])), NotId(id)) == Filter(rows, NoneOf(ids[..k + 1]))
  {
    assert ids[..k + 1] == ids[..k] + [VStr(id)];
    FilterFilter(rows, NoneOf(ids[..k]), NotId(id), NoneOf(ids[..k + 1]));
  }

  /** Under unique ids, deleting by the id of row i removes exactly that row. */
  lemma {:induction false} DeleteRemovesOne(rows: seq<Doc>, id: string, i: int)
    requires UniqueIds(rows) && 0 <= i < |rows| && HasId(rows[i], id)
    ensures Filter(rows, NotId(id)) == rows[..i] + rows[i + 1..]
    decreases |rows|
  {
    var init, last := rows[..|rows| - 1], rows[|rows| - 1];
    UniqueIdsInit(rows);
    if i == |rows| - 1 {
      forall k | 0 <= k < |init| ensures NotId(id)(init[k]) {
        assert init[k] == rows[k];
      }
      FilterAll(init, NotId(id));
      assert rows[..i] == init;
    } else {
      DeleteRemovesOne(init, id, i);
      assert NotId(id)(last) by {
        assert IdOf(rows[i]) != IdOf(rows[|rows| - 1]);
      }
      assert Filter(rows, NotId(id)) == Filter(init, NotId(id)) + [last];
      RemoveBeforeLast(rows, i);
    }
  }

  /** Dropping the last row keeps the ids unique. */
  lemma UniqueIdsInit(rows: seq<Doc>)
    requires UniqueIds(rows) && |rows| > 0
    ensures UniqueIds(rows[..|rows| - 1])
  {
    var init := rows[..|rows| - 1];
    forall a, b | 0 <= a < |init| && 0 <= b < |init| && IdOf(init[a]) == IdOf(init[b]) ensures a == b {
      assert init[a] == rows[a] && init[b] == rows[b];
    }
  }

  /** The row stored by an insert: defaults, then the supplied columns, then id and timestamps. */
  function NewRow(collection: string, data: Doc, now: int, newId: string, defaults: Doc): (r: Doc)
    requires collection in Collections
    ensures r.Keys <= Columns(collection)
    ensures HasId(r, newId) && "createdAt" in r && "updatedAt" in r
    ensures r["createdAt"] == VTime(now) && r["updatedAt"] == VTime(now)
    ensures forall k :: k in data && k in Columns(collection) && k != "id" && k != "createdAt" && k != "updatedAt" ==>
      k in r && r[k] == data[k]
    ensures forall k :: k in r && k != "id" && k != "createdAt" && k != "updatedAt" ==>
      if k in data then r[k] == data[k] else k in defaults && r[k] == defaults[k]
  {
    ColumnsShape(collection);
    var columns := Columns(collection);
    var fromDefaults := map k | k in defaults && k in columns :: defaults[k];
    var fromData := map k | k in data && k in columns :: data[k];
    var row := (fromDefaults + fromData)["id" := VStr(newId)]["createdAt" := VTime(now)]["updatedAt" := VTime(now)];
    assert forall k :: k in row && k != "id" && k != "createdAt" && k != "updatedAt" ==>
      (k in fromData ==> row[k] == data[k]) && (k !in fromData ==> k in fromDefaults && row[k] == defaults[k]);
    row
  }

  /** The columns an update writes: the supplied ones that exist, and `updatedAt`. */
  function UpdatePatch(collection: string, data: Doc, now: int): Doc
  {
    (map k | k in data && k in Columns(collection) :: data[k])["updatedAt" := VTime(now)]
  }

  /** Applies a patch to every row with the given id. */
  function UpdateRows(rows: seq<Doc>, id: string, patch: Doc): (r: seq<Doc>)
    ensures |r| == |rows|
    ensures forall i :: 0 <= i < |rows| ==> r[i] == (if HasId(rows[i], id) then rows[i] + patch else rows[i])
  {
    seq(|rows|, i requires 0 <= i < |rows| => if HasId(rows[i], id) then rows[i] + patch else rows[i])
  }

  /** Under unique ids, an update by the id of row i patches that row alone, and reads back the patched row. */
  lemma UpdateOneRow(rows: seq<Doc>, id: string, i: int, patch: Doc)
    requires UniqueIds(rows) && 0 <= i < |rows| && HasId(rows[i], id) && "id" !in patch
    ensures UpdateRows(rows, id, patch) == rows[i := rows[i] + patch]
    ensures FindById(UpdateRows(rows, id, patch), id) == Some(rows[i] + patch)
  {
    var updated := UpdateRows(rows, id, patch);
    forall k | 0 <= k < |rows| && k != i ensures !HasId(rows[k], id) {
      assert IdOf(rows[k]) != IdOf(rows[i]);
    }
    assert updated == rows[i := rows[i] + patch];
    assert forall k :: 0 <= k < |rows| ==> IdOf(updated[k]) == IdOf(rows[k]);
    FindByIdUnique(updated, id, i);
  }

  /** The rows a batch of inserts stores, one per supplied document, in order. */
  function NewRows(collection: string, data: seq<Doc>, now: int, newIds: seq<string>, defaults: Doc): (r: seq<Doc>)
    requires collection in Collections && |newIds| == |data|
    ensures |r| == |data|
    ensures forall i :: 0 <= i < |r| ==> r[i] == NewRow(collection, data[i], now, newIds[i], defaults)
  {
    seq(|data|, i requires 0 <= i < |data| => NewRow(collection, data[i], now, newIds[i], defaults))
  }

  /**
   * The k-th insert of a batch: its fresh id is still free after the k
   * inserts before it, and appending its row extends the stored prefix.
   */
  lemma {:induction false} InsertStep(t: Tables, collection: string, kept: seq<Doc>, rows: seq<Doc>, newIds: seq<string>, k: int)
    requires |rows| == |newIds| && 0 <= k < |rows|
    requires forall i, j :: 0 <= i < j < |newIds| ==> newIds[i] != newIds[j]
    requires forall i :: 0 <= i < |newIds| ==> IdFree(kept, newIds[i])
    requires forall i :: 0 <= i < |rows| ==> HasId(rows[i], newIds[i])
    ensures IdFree(kept + rows[..k], newIds[k])
    ensures t[collection := kept + rows[..k]][collection := kept + rows[..k] + [rows[k]]] ==
      t[collection := kept + rows[..k + 1]]
  {
    var all := kept + rows[..k];
    forall i | 0 <= i < |all| ensures !HasId(all[i], newIds[k]) {
      if i < |kept| {
        assert all[i] == kept[i];
      } else {
        assert all[i] == rows[i - |kept|];
      }
    }
    assert all + [rows[k]] == kept + rows[..k + 1];
  }

  /** Appending a row whose id is free keeps the ids unique. */
  lemma AppendFresh(rows: seq<Doc>, row: Doc, id: string)
    requires UniqueIds(rows) && IdFree(rows, id) && HasId(row, id)
    ensures UniqueIds(rows + [row])
  {
    var all := rows + [row];
    assert forall i :: 0 <= i < |rows| ==> all[i] == rows[i] && IdOf(rows[i]) != IdOf(row);
  }

  function NotId(id: string): Doc -> bool
  {
    d => !HasId(d, id)
  }

  /** The store, as a mutable object holding every collection's rows. */
  class Database {
    var tables: Tables

    ghost predicate Valid()
      reads this
    {
      tables.Keys == Collections && WellFormed(tables)
    }

    constructor ()
      ensures Valid()
      ensures forall c :: c in tables ==> tables[c] == []
    {
      tables := map c | c in Collections :: [];
    }

    /** `createDocument`. */
    method Create(collection: string, data: Doc, now: int, newId: string, defaults: Doc) returns (r: Result<Doc, DbError>)
      requires Valid()
      requires "id" !in data
      requires collection in Collections ==> IdFree(tables[collection], newId)
      modifies this
      ensures Valid()
      ensures collection !in Collections ==> r == Err(UnknownCollection(collection)) && tables == old(tables)
      ensures collection in Collections ==>
        r == Ok(NewRow(collection, data, now, newId, defaults)) &&
        tables == old(tables)[collection := old(tables)[collection] + [r.value]]
    {
      if collection !in Collections {
        return Err(UnknownCollection(collection));
      }
      var row := NewRow(collection, data, now, newId, defaults);
      var old_rows := tables[collection];
      var rows := old_rows + [row];
      AppendFresh(old_rows, row, newId);
      tables := tables[collection := rows];
      r := Ok(row);
    }

    /** `getDocument`. */
    method Get(collection: string, id: string) returns (r: Result<Option<Doc>, DbError>)
      requires Valid()
      ensures r == GetDocument(tables, collection, id)
      ensures r.Ok? && r.value.Some? ==> r.value.value in tables[collection] && HasId(r.value.value, id)
    {
      if collection !in Collections {
        return Err(UnknownCollection(collection));
      }
      r := Ok(FindById(tables[collection], id));
    }

    /** `updateDocument`: the patched row, or null when no row has the id. */
    method Update(collection: string, id: string, data: Doc, now: int) returns (r: Result<Option<Doc>, DbError>)
      requires Valid()
      requires "id" !in data && "createdAt" !in data
      modifies this
      ensures Valid()
      ensures collection !in Collections ==> r == Err(UnknownCollection(collection)) && tables == old(tables)
      ensures collection in Collections ==>
        tables == old(tables)[collection := UpdateRows(old(tables)[collection], id, UpdatePatch(collection, data, now))] &&
        r == Ok(FindById(tables[collection], id))
    {
      if collection !in Collections {
        return Err(UnknownCollection(collection));
      }
      var rows := UpdateRows(tables[collection], id, UpdatePatch(collection, data, now));
      assert forall i :: 0 <= i < |rows| ==> IdOf(rows[i]) == IdOf(tables[collection][i]);
      tables := tables[collection := rows];
      r := Ok(FindById(rows, id));
    }

    /** `deleteDocument`: removes every row with the id; true for any known collection. */
    method Delete(collection: string, id: string) returns (r: Result<bool, DbError>)
      requires Valid()
      modifies this
      ensures Valid()
      ensures collection !in Collections ==> r == Err(UnknownCollection(collection)) && tables == old(tables)
      ensures collection in Collections ==>
        r == Ok(true) && tables == old(tables)[collection := Filter(old(tables)[collection], NotId(id))]
    {
      if collection !in Collections {
        return Err(UnknownCollection(collection));
      }
      var rows := Filter(tables[collection], NotId(id));
      FilterKeepsDistinct(tables[collection], NotId(id), IdOf);
      tables := tables[collection := rows];
      r := Ok(true);
    }

    /** One `createDocument` per supplied document, in order; the ids are fresh and distinct. */
    method CreateAll(collection: string, data: seq<Doc>, now: int, newIds: seq<string>, defaults: Doc) returns (created: seq<Doc>)
      requires Valid() && collection in Collections
      requires |newIds| == |data| && forall i :: 0 <= i < |data| ==> "id" !in data[i]
      requires forall i, j :: 0 <= i < j < |newIds| ==> newIds[i] != newIds[j]
      requires forall i :: 0 <= i < |newIds| ==> IdFree(tables[collection], newIds[i])
      modifies this
      ensures Valid()
      ensures created == NewRows(collection, data, now, newIds, defaults)
      ensures tables == old(tables)[collection := old(tables)[collection] + created]
    {
      ghost var before := tables;
      ghost var kept := tables[collection];
      ghost var rows := NewRows(collection, data, now, newIds, defaults);
      created := [];
      assert kept + rows[..0] == kept;
      WriteSame(before, collection);
      for k := 0 to |data|
        invariant Valid()
        invariant created == rows[..k]
        invariant tables == before[collection := kept + rows[..k]]
      {
        var row := CreateNext(collection, data, now, newIds, defaults, before, kept, k);
        PrefixStep(rows, k);
        created := created + [row];
      }
      assert rows[..|data|] == rows;
    }

    /** The k-th insert of `CreateAll`: it appends the k-th new row after the k before it. */
    method CreateNext(collection: string, data: seq<Doc>, now: int, newIds: seq<string>, defaults: Doc,
                      ghost before: Tables, ghost kept: seq<Doc>, k: nat) returns (row: Doc)
      requires Valid() && collection in Collections
      requires |newIds| == |data| && k < |data| && "id" !in data[k]
      requires forall i, j :: 0 <= i < j < |newIds| ==> newIds[i] != newIds[j]
      requires forall i :: 0 <= i < |newIds| ==> IdFree(kept, newIds[i])
      requires tables == before[collection := kept + NewRows(collection, data, now, newIds, defaults)[..k]]
      modifies this
      ensures Valid()
      ensures row == NewRows(collection, data, now, newIds, defaults)[k]
      ensures tables == before[collection := kept + NewRows(collection, data, now, newIds, defaults)[..k + 1]]
    {
      ghost var rows := NewRows(collection, data, now, newIds, defaults);
      assert forall i :: 0 <= i < |rows| ==> HasId(rows[i], newIds[i]);
      InsertStep(before, collection, kept, rows, newIds, k);
      var r := Create(collection, data[k], now, newIds[k], defaults);
      row := r.value;
    }

    /** `listDocuments`, building its conditions one filter entry at a time. */
    method List(collection: string, filter: Criteria, options: ListOptions) returns (r: Result<ListResult, DbError>)
      requires Valid()
      ensures r == ListDocuments(tables, collection, filter, options)
    {
      if collection !in Collections {
        return Err(UnknownCollection(collection));
      }
      var conditions := BuildConditions(collection, filter);
      if conditions.None? {
        return Err(UnknownColumn);
      }
      var column := if options.sort.Some? then ColumnFor(collection, options.sort.value.key) else Some("createdAt");
      if column.None? {
        return Err(UnknownColumn);
      }
      var where := conditions.value;
      var matching := Filter(tables[collection], d => AllHold(where, d));
      FilterCongruent(tables[collection], d => AllHold(where, d), Matcher(collection, filter));
      var direction := if options.sort.Some? then options.sort.value.direction else Descending;
      var ordered := SortBy(matching, SortKey(column.value, direction));
      r := Ok(ListResult(Paginate(ordered, options.offset, options.limit), |matching|));
    }
  }
}
