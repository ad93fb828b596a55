/**
 * The request schemas as parsers from an untyped value to the typed request
 * or a list of issues. Each field is parsed in the order the schema object
 * declares it and the issues of all fields are collected; keys outside the
 * schema are dropped. The UUID and ISO-datetime tests are parameters.
 */
module Schemas {
  import opened Wrappers
  import opened Text
  import Todos
  import Categories

  /** A request body or query object as it reaches a schema. */
  datatype Raw =
    | Undefined
    | Null
    | Bool(b: bool)
    | Num(n: int)
    | Str(s: string)
    | Arr(items: seq<Raw>)
    | Obj(fields: map<string, Raw>)

  /** The type name that appears in "Expected …, received …". */
  function TypeName(v: Raw): string {
    match v
    case Undefined => "undefined"
    case Null => "null"
    case Bool(_) => "boolean"
    case Num(_) => "number"
    case Str(_) => "string"
    case Arr(_) => "array"
    case Obj(_) => "object"
  }

  /** One validation failure: where, and what. */
  datatype Issue = Issue(path: seq<string>, message: string)

  /** `z.string().uuid()` and `z.string().datetime()` as given tests. */
  datatype Formats = Formats(isUuid: string -> bool, isDatetime: string -> bool)

  /** A string refinement and the message it reports. */
  datatype Check =
    | MinLength(n: nat, message: string)
    | MaxLength(n: nat, message: string)
    | IsUuid(message: string)
    | IsDatetime(message: string)

  predicate Passes(c: Check, s: string, fmt: Formats) {
    match c
    case MinLength(n, _) => |s| >= n
    case MaxLength(n, _) => |s| <= n
    case IsUuid(_) => fmt.isUuid(s)
    case IsDatetime(_) => fmt.isDatetime(s)
  }

  /** The string passes every check of the list. */
  predicate AllPass(checks: seq<Check>, s: string, fmt: Formats) {
    |checks| == 0 || (Passes(checks[0], s, fmt) && AllPass(checks[1..], s, fmt))
  }

  lemma LengthRange(s: string, lo: nat, hi: nat, m1: string, m2: string, fmt: Formats)
    ensures AllPass([MinLength(lo, m1), MaxLength(hi, m2)], s, fmt) <==> lo <= |s| <= hi
  {
    assert [MinLength(lo, m1), MaxLength(hi, m2)][1..] == [MaxLength(hi, m2)];
    SingleCheck(MaxLength(hi, m2), s, fmt);
  }

  lemma SingleCheck(c: Check, s: string, fmt: Formats)
    ensures AllPass([c], s, fmt) <==> Passes(c, s, fmt)
  {
    assert [c][1..] == [];
  }

  /** A key the object does not have reads as `undefined`. */
  function Get(fields: map<string, Raw>, key: string): Raw {
    if key in fields then fields[key] else Undefined
  }

  function InvalidType(path: seq<string>, expected: string, v: Raw): Issue {
    Issue(path, if v.Undefined? then "Required" else "Expected " + expected + ", received " + TypeName(v))
  }

  /** The issues of a field result; none when it parsed. */
  function IssuesOf<T>(r: Result<T, seq<Issue>>): seq<Issue> {
    if r.Err? then r.error else []
  }

  // ---------------------------------------------------------------------------
  // Field parsers
  // ---------------------------------------------------------------------------

  /** Every failing check reports, in declaration order; one failure does not stop the next check. */
  function CheckIssues(key: string, s: string, checks: seq<Check>, fmt: Formats): (r: seq<Issue>)
    ensures |r| <= |checks|
    ensures r == [] <==> AllPass(checks, s, fmt)
    ensures forall i | 0 <= i < |r| :: r[i].path == [key]
  {
    if |checks| == 0 then []
    else
      var first := if Passes(checks[0], s, fmt) then [] else [Issue([key], checks[0].message)];
      first + CheckIssues(key, s, checks[1..], fmt)
  }

  /**
   * `z.string()` with `checks`, then `.trim()` when `trim` is set. The
   * checks see the string before trimming; the output is the trimmed string.
   */
  function ParseString(key: string, v: Raw, checks: seq<Check>, trim: bool, fmt: Formats)
    : (r: Result<string, seq<Issue>>)
    ensures r.Ok? <==> v.Str? && AllPass(checks, v.s, fmt)
    ensures r.Ok? ==> r.value == if trim then Trim(v.s) else v.s
    ensures !v.Str? ==> r == Err([InvalidType([key], "string", v)])
    ensures r.Err? ==> 0 < |r.error| && forall i | 0 <= i < |r.error| :: r.error[i].path == [key]
  {
    if !v.Str? then Err([InvalidType([key], "string", v)])
    else
      var issues := CheckIssues(key, v.s, checks, fmt);
      if issues != [] then Err(issues)
      else Ok(if trim then Trim(v.s) else v.s)
  }

  /** `.optional()` around a string: `undefined` passes as absent. */
  function ParseOptional(key: string, v: Raw, checks: seq<Check>, trim: bool, fmt: Formats)
    : (r: Result<Option<string>, seq<Issue>>)
    ensures v.Undefined? ==> r == Ok(None)
    ensures !v.Undefined? ==> r.Ok? == ParseString(key, v, checks, trim, fmt).Ok?
    ensures !v.Undefined? && r.Ok? ==> r.value == Some(ParseString(key, v, checks, trim, fmt).value)
    ensures r.Err? ==> 0 < |r.error| && forall i | 0 <= i < |r.error| :: r.error[i].path == [key]
  {
    if v.Undefined? then Ok(None)
    else
      match ParseString(key, v, checks, trim, fmt)
      case Ok(s) => Ok(Some(s))
      case Err(e) => Err(e)
  }

  /** `.optional().nullable()` around a string: left out, `null`, or a value. */
  function ParseNullable(key: string, v: Raw, checks: seq<Check>, fmt: Formats)
    : (r: Result<Todos.Patch<string>, seq<Issue>>)
    ensures v.Undefined? ==> r == Ok(Todos.Absent)
    ensures v.Null? ==> r == Ok(Todos.Clear)
    ensures !v.Undefined? && !v.Null? ==> r.Ok? == ParseString(key, v, checks, false, fmt).Ok?
    ensures !v.Undefined? && !v.Null? && r.Ok? ==> r.value == Todos.Set(v.s)
    ensures r.Err? ==> 0 < |r.error| && forall i | 0 <= i < |r.error| :: r.error[i].path == [key]
  {
    if v.Undefined? then Ok(Todos.Absent)
    else if v.Null? then Ok(Todos.Clear)
    else
      match ParseString(key, v, checks, false, fmt)
      case Ok(s) => Ok(Todos.Set(s))
      case Err(e) => Err(e)
  }

  /** `z.boolean().optional()`. */
  function ParseOptionalBool(key: string, v: Raw): (r: Result<Option<bool>, seq<Issue>>)
    ensures r.Ok? <==> v.Undefined? || v.Bool?
    ensures r.Ok? ==> r.value == if v.Bool? then Some(v.b) else None
    ensures r.Err? ==> r.error == [InvalidType([key], "boolean", v)]
  {
    match v
    case Undefined => Ok(None)
    case Bool(b) => Ok(Some(b))
    case _ => Err([InvalidType([key], "boolean", v)])
  }

  /** `'a' | 'b' | …`, the way the enum lists its options. */
  function Options<T>(values: seq<(string, T)>): string {
    if |values| == 0 then []
    else if |values| == 1 then "'" + values[0].0 + "'"
    else "'" + values[0].0 + "' | " + Options(values[1..])
  }

  /** The value paired with the first option named `s`. */
  function Lookup<T>(values: seq<(string, T)>, s: string): (r: Option<T>)
    ensures r.None? <==> forall i | 0 <= i < |values| :: values[i].0 != s
    ensures r.Some? ==> exists i | 0 <= i < |values| :: values[i] == (s, r.value)
  {
    if |values| == 0 then None
    else if values[0].0 == s then Some(values[0].1)
    else
      var r := Lookup(values[1..], s);
      assert r.Some? ==> exists i | 0 <= i < |values[1..]| :: values[1..][i] == (s, r.value);
      assert r.Some? ==> exists i | 0 <= i < |values| :: values[i] == (s, r.value);
      r
  }

  /** `z.enum(names).default(default)`: a missing value takes the default; a string must name an option. */
  function ParseEnum<T>(key: string, v: Raw, values: seq<(string, T)>, default: T): (r: Result<T, seq<Issue>>)
    ensures v.Undefined? ==> r == Ok(default)
    ensures !v.Undefined? ==> (r.Ok? <==> v.Str? && exists i | 0 <= i < |values| :: values[i].0 == v.s)
    ensures r.Ok? && v.Str? ==> exists i | 0 <= i < |values| :: values[i] == (v.s, r.value)
    ensures r.Ok? && v.Str? ==> (v.s, r.value) in values
    ensures r.Err? ==> |r.error| == 1 && r.error[0].path == [key]
  {
    match v
    case Undefined => Ok(default)
    case Str(s) =>
      (match Lookup(values, s)
       case Some(x) => Ok(x)
       case None => Err([Issue([key], "Invalid enum value. Expected " + Options(values) + ", received '" + s + "'")]))
    case _ => Err([InvalidType([key], Options(values), v)])
  }

  /** The top level must be an object. */
  function ParseObject(v: Raw): (r: Result<map<string, Raw>, seq<Issue>>)
    ensures r.Ok? <==> v.Obj?
    ensures r.Ok? ==> r.value == v.fields
    ensures r.Err? ==> r.error == [InvalidType([], "object", v)]
  {
    if v.Obj? then Ok(v.fields) else Err([InvalidType([], "object", v)])
  }

  // ---------------------------------------------------------------------------
  // createTodoSchema
  // ---------------------------------------------------------------------------

  const TitleRule := [MinLength(1, "Title is required"), MaxLength(200, "Title must be 200 characters or less")]
  const DescriptionRule := [MaxLength(2000, "Description must be 2000 characters or less")]
  const DueDateRule := [IsDatetime("Invalid date format")]
  const CategoryIdRule := [IsUuid("Invalid category ID")]

  /** A present string whose length lies in `lo..hi`. */
  predicate StrLength(v: Raw, lo: nat, hi: nat) {
    v.Str? && lo <= |v.s| <= hi
  }

  /** `title`: required, 1 to 200 characters counted before trimming, trimmed on output. */
  function CreateTitle(v: Raw, fmt: Formats): (r: Result<string, seq<Issue>>)
    ensures r.Ok? <==> StrLength(v, 1, 200)
    ensures r.Ok? ==> r.value == Trim(v.s)
    ensures r.Err? ==> 0 < |r.error|
  {
    LengthRange(if v.Str? then v.s else "", 1, 200, TitleRule[0].message, TitleRule[1].message, fmt);
    ParseString("title", v, TitleRule, true, fmt)
  }

  /** `description`: optional, at most 2000 characters. */
  function CreateDescription(v: Raw, fmt: Formats): (r: Result<Option<string>, seq<Issue>>)
    ensures r.Ok? <==> v.Undefined? || StrLength(v, 0, 2000)
    ensures r.Ok? ==> r.value == if v.Str? then Some(v.s) else None
    ensures r.Err? ==> 0 < |r.error|
  {
    SingleCheck(DescriptionRule[0], if v.Str? then v.s else "", fmt);
    ParseOptional("description", v, DescriptionRule, false, fmt)
  }

  /** `dueDate`: optional ISO datetime. */
  function CreateDueDate(v: Raw, fmt: Formats): (r: Result<Option<string>, seq<Issue>>)
    ensures r.Ok? <==> v.Undefined? || (v.Str? && fmt.isDatetime(v.s))
    ensures r.Ok? ==> r.value == if v.Str? then Some(v.s) else None
    ensures r.Err? ==> 0 < |r.error|
  {
    SingleCheck(DueDateRule[0], if v.Str? then v.s else "", fmt);
    ParseOptional("dueDate", v, DueDateRule, false, fmt)
  }

  /** `categoryId`: a required UUID. */
  function CreateCategoryId(v: Raw, fmt: Formats): (r: Result<string, seq<Issue>>)
    ensures r.Ok? <==> v.Str? && fmt.isUuid(v.s)
    ensures r.Ok? ==> r.value == v.s
    ensures r.Err? ==> 0 < |r.error|
  {
    SingleCheck(CategoryIdRule[0], if v.Str? then v.s else "", fmt);
    ParseString("categoryId", v, CategoryIdRule, false, fmt)
  }

  /** What `createTodoSchema` accepts, field by field. */
  predicate CreateAcceptable(v: Raw, fmt: Formats) {
    && v.Obj?
    && StrLength(Get(v.fields, "title"), 1, 200)
    && (Get(v.fields, "description").Undefined? || StrLength(Get(v.fields, "description"), 0, 2000))
    && (Get(v.fields, "dueDate").Undefined? || (Get(v.fields, "dueDate").Str? && fmt.isDatetime(Get(v.fields, "dueDate").s)))
    && Get(v.fields, "categoryId").Str? && fmt.isUuid(Get(v.fields, "categoryId").s)
  }

  /** `createTodoSchema.safeParse`: the request with a trimmed title, or the issues of every field. */
  function ParseCreateTodo(v: Raw, fmt: Formats): (r: Result<Todos.CreateTodoRequest, seq<Issue>>)
    ensures r.Ok? <==> CreateAcceptable(v, fmt)
    ensures r.Ok? ==> r.value.title == Trim(Get(v.fields, "title").s)
                      && r.value.categoryId == Get(v.fields, "categoryId").s
    ensures r.Ok? ==> r.value.description == if Get(v.fields, "description").Str? then Some(Get(v.fields, "description").s) else None
    ensures r.Ok? ==> r.value.dueDate == if Get(v.fields, "dueDate").Str? then Some(Get(v.fields, "dueDate").s) else None
    ensures r.Err? ==> 0 < |r.error|
  {
    match ParseObject(v)
    case Err(e) => Err(e)
    case Ok(o) =>
      var title := CreateTitle(Get(o, "title"), fmt);
      var description := CreateDescription(Get(o, "description"), fmt);
      var dueDate := CreateDueDate(Get(o, "dueDate"), fmt);
      var categoryId := CreateCategoryId(Get(o, "categoryId"), fmt);
      var issues := IssuesOf(title) + IssuesOf(description) + IssuesOf(dueDate) + IssuesOf(categoryId);
      if issues != [] then Err(issues)
      else Ok(Todos.CreateTodoRequest(title.value, description.value, dueDate.value, categoryId.value))
  }

  /** The JSON body a client sends for a create request: absent fields are left out. */
  function EncodeCreate(req: Todos.CreateTodoRequest): Raw {
    var base := map["title" := Str(req.title), "categoryId" := Str(req.categoryId)];
    var withDescription := if req.description.Some? then base["description" := Str(req.description.value)] else base;
    Obj(if req.dueDate.Some? then withDescription["dueDate" := Str(req.dueDate.value)] else withDescription)
  }

  /** The requests the schema lets through unchanged. */
  predicate CreateWellFormed(req: Todos.CreateTodoRequest, fmt: Formats) {
    && 1 <= |req.title| <= 200 && Trimmed(req.title)
    && (req.description.Some? ==> |req.description.value| <= 2000)
    && (req.dueDate.Some? ==> fmt.isDatetime(req.dueDate.value))
    && fmt.isUuid(req.categoryId)
  }

  /** A well-formed request survives encoding and parsing unchanged. */
  lemma {:induction false} CreateRoundTrip(req: Todos.CreateTodoRequest, fmt: Formats)
    requires CreateWellFormed(req, fmt)
    ensures ParseCreateTodo(EncodeCreate(req), fmt) == Ok(req)
  {
    var v := EncodeCreate(req);
    var f := v.fields;
    assert Get(f, "title") == Str(req.title);
    assert Get(f, "categoryId") == Str(req.categoryId);
    assert Get(f, "description") == if req.description.Some? then Str(req.description.value) else Undefined;
    assert Get(f, "dueDate") == if req.dueDate.Some? then Str(req.dueDate.value) else Undefined;
    assert CreateAcceptable(v, fmt);
    var r := ParseCreateTodo(v, fmt);
    TrimOfTrimmed(req.title);
    assert r.value.title == req.title && r.value.categoryId == req.categoryId;
    assert r.value.description == req.description && r.value.dueDate == req.dueDate;
  }

  /** Keys the schema does not declare make no difference. */
  lemma {:induction false} CreateIgnoresUnknownKeys(fields: map<string, Raw>, key: string, x: Raw, fmt: Formats)
    requires key !in {"title", "description", "dueDate", "categoryId"}
    ensures ParseCreateTodo(Obj(fields[key := x]), fmt) == ParseCreateTodo(Obj(fields), fmt)
  {
    var f := fields[key := x];
    assert Get(f, "title") == Get(fields, "title");
    assert Get(f, "description") == Get(fields, "description");
    assert Get(f, "dueDate") == Get(fields, "dueDate");
    assert Get(f, "categoryId") == Get(fields, "categoryId");
  }

  /**
   * The length check runs before trimming, so a title of blanks is
   * accepted and stored as the empty string.
   */
  lemma BlankTitleAccepted(categoryId: string, fmt: Formats)
    requires fmt.isUuid(categoryId)
    ensures ParseCreateTodo(Obj(map["title" := Str("   "), "categoryId" := Str(categoryId)]), fmt)
            == Ok(Todos.CreateTodoRequest("", None, None, categoryId))
  {
    TrimEmptyIff("   ");
  }

  // ---------------------------------------------------------------------------
  // updateTodoSchema
  // ---------------------------------------------------------------------------

  const UpdateTitleRule := [MinLength(1, "String must contain at least 1 character(s)"),
                            MaxLength(200, "String must contain at most 200 character(s)")]
  const UpdateDescriptionRule := [MaxLength(2000, "String must contain at most 2000 character(s)")]
  const UpdateDueDateRule := [IsDatetime("Invalid datetime")]
  const UpdateCategoryIdRule := [IsUuid("Invalid uuid")]

  /** How a patch field was sent: left out, `null`, or a value. */
  function PatchOf(v: Raw): Todos.Patch<string> {
    if v.Str? then Todos.Set(v.s) else if v.Null? then Todos.Clear else Todos.Absent
  }

  function UpdateTitle(v: Raw, fmt: Formats): (r: Result<Option<string>, seq<Issue>>)
    ensures r.Ok? <==> v.Undefined? || StrLength(v, 1, 200)
    ensures r.Ok? ==> r.value == if v.Str? then Some(Trim(v.s)) else None
    ensures r.Err? ==> 0 < |r.error|
  {
    LengthRange(if v.Str? then v.s else "", 1, 200, UpdateTitleRule[0].message, UpdateTitleRule[1].message, fmt);
    ParseOptional("title", v, UpdateTitleRule, true, fmt)
  }

  function UpdateDescription(v: Raw, fmt: Formats): (r: Result<Todos.Patch<string>, seq<Issue>>)
    ensures r.Ok? <==> v.Undefined? || v.Null? || StrLength(v, 0, 2000)
    ensures r.Ok? ==> r.value == PatchOf(v)
    ensures r.Err? ==> 0 < |r.error|
  {
    SingleCheck(UpdateDescriptionRule[0], if v.Str? then v.s else "", fmt);
    ParseNullable("description", v, UpdateDescriptionRule, fmt)
  }

  function UpdateDueDate(v: Raw, fmt: Formats): (r: Result<Todos.Patch<string>, seq<Issue>>)
    ensures r.Ok? <==> v.Undefined? || v.Null? || (v.Str? && fmt.isDatetime(v.s))
    ensures r.Ok? ==> r.value == PatchOf(v)
    ensures r.Err? ==> 0 < |r.error|
  {
    SingleCheck(UpdateDueDateRule[0], if v.Str? then v.s else "", fmt);
    ParseNullable("dueDate", v, UpdateDueDateRule, fmt)
  }

  function UpdateCategoryId(v: Raw, fmt: Formats): (r: Result<Option<string>, seq<Issue>>)
    ensures r.Ok? <==> v.Undefined? || (v.Str? && fmt.isUuid(v.s))
    ensures r.Ok? ==> r.value == if v.Str? then Some(v.s) else None
    ensures r.Err? ==> 0 < |r.error|
  {
    SingleCheck(UpdateCategoryIdRule[0], if v.Str? then v.s else "", fmt);
    ParseOptional("categoryId", v, UpdateCategoryIdRule, false, fmt)
  }

  /** What `updateTodoSchema` accepts: every field may be left out; only description and due date may be `null`. */
  predicate UpdateAcceptable(v: Raw, fmt: Formats) {
    && v.Obj?
    && (Get(v.fields, "title").Undefined? || StrLength(Get(v.fields, "title"), 1, 200))
    && (Get(v.fields, "description").Undefined? || Get(v.fields, "description").Null?
        || StrLength(Get(v.fields, "description"), 0, 2000))
    && (Get(v.fields, "dueDate").Undefined? || Get(v.fields, "dueDate").Null?
        || (Get(v.fields, "dueDate").Str? && fmt.isDatetime(Get(v.fields, "dueDate").s)))
    && (Get(v.fields, "completed").Undefined? || Get(v.fields, "completed").Bool?)
    && (Get(v.fields, "categoryId").Undefined?
        || (Get(v.fields, "categoryId").Str? && fmt.isUuid(Get(v.fields, "categoryId").s)))
  }

  /**
   * `updateTodoSchema.safeParse`: a field left out stays absent, a `null`
   * description or due date becomes a clear, and a value is set.
   */
  function ParseUpdateTodo(v: Raw, fmt: Formats): (r: Result<Todos.UpdateTodoRequest, seq<Issue>>)
    ensures r.Ok? <==> UpdateAcceptable(v, fmt)
    ensures r.Ok? ==> r.value.description == PatchOf(Get(v.fields, "description"))
                      && r.value.dueDate == PatchOf(Get(v.fields, "dueDate"))
    ensures r.Ok? ==> r.value.title == if Get(v.fields, "title").Str? then Some(Trim(Get(v.fields, "title").s)) else None
    ensures r.Ok? ==> r.value.completed == if Get(v.fields, "completed").Bool? then Some(Get(v.fields, "completed").b) else None
    ensures r.Ok? ==> r.value.categoryId == if Get(v.fields, "categoryId").Str? then Some(Get(v.fields, "categoryId").s) else None
    ensures r.Err? ==> 0 < |r.error|
  {
    match ParseObject(v)
    case Err(e) => Err(e)
    case Ok(o) =>
      var title := UpdateTitle(Get(o, "title"), fmt);
      var description := UpdateDescription(Get(o, "description"), fmt);
      var dueDate := UpdateDueDate(Get(o, "dueDate"), fmt);
      var completed := ParseOptionalBool("completed", Get(o, "completed"));
      var categoryId := UpdateCategoryId(Get(o, "categoryId"), fmt);
      var issues := IssuesOf(title) + IssuesOf(description) + IssuesOf(dueDate)
                    + IssuesOf(completed) + IssuesOf(categoryId);
      if issues != [] then Err(issues)
      else Ok(Todos.UpdateTodoRequest(title.value, description.value, dueDate.value, completed.value, categoryId.value))
  }

  /** A patch field on the wire: left out, `null`, or the value. */
  function EncodePatch(p: Todos.Patch<string>): Raw {
    match p
    case Absent => Undefined
    case Clear => Null
    case Set(s) => Str(s)
  }

  /** An optional field on the wire: the value, or left out. */
  function EncodeOption<T>(o: Option<T>, f: T -> Raw): Raw {
    if o.Some? then f(o.value) else Undefined
  }

  /** Adds `key` unless the value is left out. */
  function With(fields: map<string, Raw>, key: string, v: Raw): (r: map<string, Raw>)
    ensures Get(r, key) == v
    ensures forall k | k != key :: Get(r, k) == Get(fields, k)
  {
    if v.Undefined? then fields - {key} else fields[key := v]
  }

  /** The JSON body a client sends for an update. */
  function EncodeUpdate(patch: Todos.UpdateTodoRequest): Raw {
    var f0 := With(map[], "title", EncodeOption(patch.title, (s: string) => Str(s)));
    var f1 := With(f0, "description", EncodePatch(patch.description));
    var f2 := With(f1, "dueDate", EncodePatch(patch.dueDate));
    var f3 := With(f2, "completed", EncodeOption(patch.completed, (b: bool) => Bool(b)));
    Obj(With(f3, "categoryId", EncodeOption(patch.categoryId, (s: string) => Str(s))))
  }

  /** The patches the schema lets through unchanged. */
  predicate UpdateWellFormed(patch: Todos.UpdateTodoRequest, fmt: Formats) {
    && (patch.title.Some? ==> 1 <= |patch.title.value| <= 200 && Trimmed(patch.title.value))
    && (patch.description.Set? ==> |patch.description.value| <= 2000)
    && (patch.dueDate.Set? ==> fmt.isDatetime(patch.dueDate.value))
    && (patch.categoryId.Some? ==> fmt.isUuid(patch.categoryId.value))
  }

  lemma {:induction false} EncodedUpdateFields(patch: Todos.UpdateTodoRequest)
    ensures EncodeUpdate(patch).Obj?
    ensures var f := EncodeUpdate(patch).fields;
            && Get(f, "title") == EncodeOption(patch.title, (s: string) => Str(s))
            && Get(f, "description") == EncodePatch(patch.description)
            && Get(f, "dueDate") == EncodePatch(patch.dueDate)
            && Get(f, "completed") == EncodeOption(patch.completed, (b: bool) => Bool(b))
            && Get(f, "categoryId") == EncodeOption(patch.categoryId, (s: string) => Str(s))
  {
    var f0 := With(map[], "title", EncodeOption(patch.title, (s: string) => Str(s)));
    var f1 := With(f0, "description", EncodePatch(patch.description));
    var f2 := With(f1, "dueDate", EncodePatch(patch.dueDate));
    var f3 := With(f2, "completed", EncodeOption(patch.completed, (b: bool) => Bool(b)));
    var f4 := With(f3, "categoryId", EncodeOption(patch.categoryId, (s: string) => Str(s)));
    assert Get(f4, "title") == Get(f3, "title") == Get(f2, "title") == Get(f1, "title") == Get(f0, "title");
    assert Get(f4, "description") == Get(f3, "description") == Get(f2, "description") == Get(f1, "description");
    assert Get(f4, "dueDate") == Get(f3, "dueDate") == Get(f2, "dueDate");
    assert Get(f4, "completed") == Get(f3, "completed");
  }

  lemma EncodedUpdateAcceptable(patch: Todos.UpdateTodoRequest, fmt: Formats)
    requires UpdateWellFormed(patch, fmt)
    ensures UpdateAcceptable(EncodeUpdate(patch), fmt)
  {
    EncodedUpdateFields(patch);
  }

  /** A well-formed patch, `null`s included, survives encoding and parsing unchanged. */
  lemma {:induction false} UpdateRoundTrip(patch: Todos.UpdateTodoRequest, fmt: Formats)
    requires UpdateWellFormed(patch, fmt)
    ensures ParseUpdateTodo(EncodeUpdate(patch), fmt) == Ok(patch)
  {
    var v := EncodeUpdate(patch);
    EncodedUpdateFields(patch);
    EncodedUpdateAcceptable(patch, fmt);
    var r := ParseUpdateTodo(v, fmt);
    if patch.title.Some? {
      TrimOfTrimmed(patch.title.value);
    }
    var description, dueDate := Get(v.fields, "description"), Get(v.fields, "dueDate");
    assert PatchOf(description) == patch.description by {
      assert description == EncodePatch(patch.description);
    }
    assert PatchOf(dueDate) == patch.dueDate by {
      assert dueDate == EncodePatch(patch.dueDate);
    }
    assert r.value.title == patch.title && r.value.categoryId == patch.categoryId;
    assert r.value.description == patch.description && r.value.dueDate == patch.dueDate;
    assert r.value.completed == patch.completed;
  }

  // ---------------------------------------------------------------------------
  // todoQueryParamsSchema
  // ---------------------------------------------------------------------------

  const StatusOptions := [("all", Todos.All), ("active", Todos.Active), ("completed", Todos.Completed)]
  const SortOptions := [("dueDate", Todos.DueDate), ("createdAt", Todos.CreatedAt)]
  const OrderOptions := [("asc", Todos.Asc), ("desc", Todos.Desc)]
  const QueryCategoryRule := [IsUuid("Invalid uuid")]

  function QueryCategoryId(v: Raw, fmt: Formats): (r: Result<Option<string>, seq<Issue>>)
    ensures r.Ok? <==> v.Undefined? || (v.Str? && fmt.isUuid(v.s))
    ensures r.Ok? ==> r.value == if v.Str? then Some(v.s) else None
    ensures r.Err? ==> 0 < |r.error|
  {
    SingleCheck(QueryCategoryRule[0], if v.Str? then v.s else "", fmt);
    ParseOptional("categoryId", v, QueryCategoryRule, false, fmt)
  }

  /** A field of an enum: left out, or one of the names. */
  predicate EnumField(v: Raw, names: set<string>) {
    v.Undefined? || (v.Str? && v.s in names)
  }

  /** The query strings the schema accepts: known status, sort and order names, and a UUID category id. */
  predicate QueryAcceptable(v: Raw, fmt: Formats) {
    && v.Obj?
    && EnumField(Get(v.fields, "status"), {"all", "active", "completed"})
    && EnumField(Get(v.fields, "sort"), {"dueDate", "createdAt"})
    && EnumField(Get(v.fields, "order"), {"asc", "desc"})
    && (Get(v.fields, "categoryId").Undefined? || (Get(v.fields, "categoryId").Str? && fmt.isUuid(Get(v.fields, "categoryId").s)))
  }

  /** The names listed in the three query tables. */
  lemma QueryOptionNames()
    ensures (set i | 0 <= i < |StatusOptions| :: StatusOptions[i].0) == {"all", "active", "completed"}
    ensures (set i | 0 <= i < |SortOptions| :: SortOptions[i].0) == {"dueDate", "createdAt"}
    ensures (set i | 0 <= i < |OrderOptions| :: OrderOptions[i].0) == {"asc", "desc"}
  {
    assert StatusOptions[0].0 == "all" && StatusOptions[1].0 == "active" && StatusOptions[2].0 == "completed";
    assert SortOptions[0].0 == "dueDate" && SortOptions[1].0 == "createdAt";
    assert OrderOptions[0].0 == "asc" && OrderOptions[1].0 == "desc";
  }

  /** An enum field parses exactly when it is left out or names one of the table's entries. */
  lemma EnumFieldParses<T>(key: string, v: Raw, values: seq<(string, T)>, default: T, names: set<string>)
    requires names == set i | 0 <= i < |values| :: values[i].0
    ensures ParseEnum(key, v, values, default).Ok? <==> EnumField(v, names)
  {
  }

  /**
   * `todoQueryParamsSchema.safeParse`: status, sort and order are always
   * present afterwards, with `all`, `createdAt` and `desc` filled in for
   * the ones left out and a given name mapped to its value; a present
   * `categoryId` is a UUID.
   */
  function ParseQuery(v: Raw, fmt: Formats): (r: Result<Todos.TodoQuery, seq<Issue>>)
    ensures r.Ok? <==> QueryAcceptable(v, fmt)
    ensures r.Ok? ==> v.Obj? && r.value.status.Some? && r.value.sort.Some? && r.value.order.Some?
    ensures r.Ok? && Get(v.fields, "status").Str? ==> (Get(v.fields, "status").s, r.value.status.value) in StatusOptions
    ensures r.Ok? && Get(v.fields, "sort").Str? ==> (Get(v.fields, "sort").s, r.value.sort.value) in SortOptions
    ensures r.Ok? && Get(v.fields, "order").Str? ==> (Get(v.fields, "order").s, r.value.order.value) in OrderOptions
    ensures r.Ok? && Get(v.fields, "status").Undefined? ==> r.value.status == Some(Todos.All)
    ensures r.Ok? && Get(v.fields, "sort").Undefined? ==> r.value.sort == Some(Todos.CreatedAt)
    ensures r.Ok? && Get(v.fields, "order").Undefined? ==> r.value.order == Some(Todos.Desc)
    ensures r.Ok? ==> (r.value.categoryId.Some? <==> !Get(v.fields, "categoryId").Undefined?)
    ensures r.Ok? && r.value.categoryId.Some? ==> fmt.isUuid(r.value.categoryId.value)
    ensures r.Err? ==> 0 < |r.error|
  {
    match ParseObject(v)
    case Err(e) => Err(e)
    case Ok(o) => QueryFields(o, fmt)
  }

  /** The fields of a query object, parsed each against its own rule. */
  function QueryFields(o: map<string, Raw>, fmt: Formats): (r: Result<Todos.TodoQuery, seq<Issue>>)
    ensures r.Ok? <==> QueryAcceptable(Obj(o), fmt)
    ensures r.Ok? ==> r.value.status.Some? && r.value.sort.Some? && r.value.order.Some?
    ensures r.Ok? ==> r.value.status.value == ParseEnum("status", Get(o, "status"), StatusOptions, Todos.All).value
    ensures r.Ok? ==> r.value.sort.value == ParseEnum("sort", Get(o, "sort"), SortOptions, Todos.CreatedAt).value
    ensures r.Ok? ==> r.value.order.value == ParseEnum("order", Get(o, "order"), OrderOptions, Todos.Desc).value
    ensures r.Ok? ==> (r.value.categoryId.Some? <==> !Get(o, "categoryId").Undefined?)
    ensures r.Ok? && r.value.categoryId.Some? ==> fmt.isUuid(r.value.categoryId.value)
    ensures r.Err? ==> 0 < |r.error|
  {
    var status := ParseEnum("status", Get(o, "status"), StatusOptions, Todos.All);
    var sort := ParseEnum("sort", Get(o, "sort"), SortOptions, Todos.CreatedAt);
    var order := ParseEnum("order", Get(o, "order"), OrderOptions, Todos.Desc);
    var categoryId := QueryCategoryId(Get(o, "categoryId"), fmt);
    QueryFieldsParse(o, fmt);
    var issues := IssuesOf(status) + IssuesOf(sort) + IssuesOf(order) + IssuesOf(categoryId);
    assert issues == [] <==> status.Ok? && sort.Ok? && order.Ok? && categoryId.Ok?;
    if issues != [] then Err(issues)
    else Ok(Todos.TodoQuery(Some(status.value), Some(sort.value), Some(order.value), categoryId.value))
  }

  /** Every field of a query object parses exactly when the object is acceptable. */
  lemma QueryFieldsParse(o: map<string, Raw>, fmt: Formats)
    ensures (&& ParseEnum("status", Get(o, "status"), StatusOptions, Todos.All).Ok?
             && ParseEnum("sort", Get(o, "sort"), SortOptions, Todos.CreatedAt).Ok?
             && ParseEnum("order", Get(o, "order"), OrderOptions, Todos.Desc).Ok?
             && QueryCategoryId(Get(o, "categoryId"), fmt).Ok?)
            <==> QueryAcceptable(Obj(o), fmt)
  {
    QueryOptionNames();
    EnumFieldParses("status", Get(o, "status"), StatusOptions, Todos.All, {"all", "active", "completed"});
    EnumFieldParses("sort", Get(o, "sort"), SortOptions, Todos.CreatedAt, {"dueDate", "createdAt"});
    EnumFieldParses("order", Get(o, "order"), OrderOptions, Todos.Desc, {"asc", "desc"});
  }

  /** A status outside the enum is rejected. */
  lemma {:induction false} QueryRejectsUnknownStatus(fields: map<string, Raw>, s: string, fmt: Formats)
    requires s !in {"all", "active", "completed"}
    ensures ParseQuery(Obj(fields["status" := Str(s)]), fmt).Err?
  {
    var status := ParseEnum("status", Str(s), StatusOptions, Todos.All);
    assert status.Err?;
  }

  /**
   * The schema's defaults are the repository's: an empty query parses to
   * one that selects and orders the todos exactly as the unparsed, empty
   * query does.
   */
  lemma {:induction false} QueryDefaultsAgree(fmt: Formats, clock: Todos.Clock, t: Todos.Todo)
    ensures ParseQuery(Obj(map[]), fmt).Ok?
    ensures var q := ParseQuery(Obj(map[]), fmt).value;
            var none := Todos.TodoQuery(None, None, None, None);
            && Todos.FieldOf(q) == Todos.FieldOf(none)
            && Todos.OrderOf(q) == Todos.OrderOf(none)
            && (Todos.Matches(q, clock, t) <==> Todos.Matches(none, clock, t))
  {
  }

  // ---------------------------------------------------------------------------
  // createCategorySchema and updateCategorySchema
  // ---------------------------------------------------------------------------

  const NameRule := [MinLength(1, "Name is required"), MaxLength(100, "Name must be 100 characters or less")]

  /** The name rule has no format checks, so any formats will do. */
  const NoFormats := Formats(_ => false, _ => false)

  /** The one rule both category schemas apply: a name of 1 to 100 characters, checked before trimming. */
  function ParseCategory(v: Raw): (r: Result<Categories.CategoryRequest, seq<Issue>>)
    ensures r.Ok? <==> v.Obj? && StrLength(Get(v.fields, "name"), 1, 100)
    ensures r.Ok? ==> r.value.name == Trim(Get(v.fields, "name").s)
    ensures r.Err? ==> 0 < |r.error|
  {
    match ParseObject(v)
    case Err(e) => Err(e)
    case Ok(o) =>
      var name := Get(o, "name");
      LengthRange(if name.Str? then name.s else "", 1, 100, NameRule[0].message, NameRule[1].message, NoFormats);
      match ParseString("name", name, NameRule, true, NoFormats)
      case Err(e) => Err(e)
      case Ok(n) => Ok(Categories.CategoryRequest(n))
  }

  /** Only `name` matters: every other key is dropped. */
  lemma {:induction false} CategoryOnlyName(fields: map<string, Raw>)
    requires "name" in fields
    ensures ParseCategory(Obj(fields)) == ParseCategory(Obj(map["name" := fields["name"]]))
  {
    assert Get(fields, "name") == Get(map["name" := fields["name"]], "name");
  }

  /**
   * The issue a rejected name draws: a missing or non-string name fails the
   * type check, an empty one the minimum length, one over 100 characters the
   * maximum; a body that is not an object fails before the name is read.
   */
  lemma {:induction false} CategoryNameRejections(v: Raw)
    ensures !v.Obj? ==> ParseCategory(v) == Err([InvalidType([], "object", v)])
    ensures v.Obj? && !Get(v.fields, "name").Str? ==>
              ParseCategory(v) == Err([InvalidType(["name"], "string", Get(v.fields, "name"))])
    ensures v.Obj? && Get(v.fields, "name") == Str("") ==>
              ParseCategory(v) == Err([Issue(["name"], "Name is required")])
    ensures v.Obj? && Get(v.fields, "name").Str? && |Get(v.fields, "name").s| > 100 ==>
              ParseCategory(v) == Err([Issue(["name"], "Name must be 100 characters or less")])
  {
    var name := if v.Obj? then Get(v.fields, "name") else Undefined;
    if name.Str? {
      var s := name.s;
      assert CheckIssues("name", s, NameRule[1..][1..], NoFormats) == [];
      if s == "" {
        assert CheckIssues("name", s, NameRule[1..], NoFormats) == [];
        assert CheckIssues("name", s, NameRule, NoFormats) == [Issue(["name"], "Name is required")];
      } else if |s| > 100 {
        assert CheckIssues("name", s, NameRule[1..], NoFormats) == [Issue(["name"], "Name must be 100 characters or less")];
        assert CheckIssues("name", s, NameRule, NoFormats) == [Issue(["name"], "Name must be 100 characters or less")];
      }
    }
  }

  /** A name of blanks passes the length rule and is stored empty. */
  lemma BlankNameAccepted()
    ensures ParseCategory(Obj(map["name" := Str("   ")])) == Ok(Categories.CategoryRequest(""))
  {
    TrimEmptyIff("   ");
  }
}
