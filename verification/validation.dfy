/**
 * Turning schema issues into the API's validation error, and the
 * `validate` helper that returns either the parsed data or that error.
 */
module Validation {
  import opened Wrappers
  import opened Text
  import Lists
  import Errors
  import Schemas

  /** `issue.path.join('.') || 'root'`. */
  function PathKey(path: seq<string>): (k: string)
    ensures k != ""
    ensures |path| == 0 ==> k == "root"
    ensures |path| == 1 && path[0] != "" ==> k == path[0]
    ensures |path| >= 2 ==> k == Join(path[..|path| - 1], ".") + "." + path[|path| - 1]
  {
    var joined := Join(path, ".");
    assert |path| >= 2 ==> joined == Join(path[..|path| - 1], ".") + "." + path[|path| - 1] by {
      if |path| >= 2 {
        var init := path[..|path| - 1];
        assert path == init + [path[|path| - 1]];
        JoinAppend(init, [path[|path| - 1]], ".");
      }
    }
    if joined == "" then "root" else joined
  }

  function KeyOf(issue: Schemas.Issue): string {
    PathKey(issue.path)
  }

  function MessageOf(issue: Schemas.Issue): string {
    issue.message
  }

  /**
   * `formatZodError`: always `VALIDATION_ERROR` / "Validation failed", with
   * each issue's message filed under its path key. The keys are exactly the
   * path keys that occur, and each key's messages are those of its issues in
   * issue order.
   */
  function FormatZodError(issues: seq<Schemas.Issue>): (e: Errors.ApiError)
    ensures e.code == Errors.ValidationError && e.message == "Validation failed"
    ensures e.details.Some?
    ensures e.details.value.Keys == set i | 0 <= i < |issues| :: PathKey(issues[i].path)
    ensures forall k | k in e.details.value :: e.details.value[k] == Lists.Select(issues, KeyOf, MessageOf, k)
  {
    var details := Lists.GroupBy(issues, KeyOf, MessageOf);
    Lists.GroupByMeaning(issues, KeyOf, MessageOf);
    assert Lists.KeysOf(issues, KeyOf) == set i | 0 <= i < |issues| :: PathKey(issues[i].path);
    Errors.ApiError(Errors.ValidationError, "Validation failed", Some(details))
  }

  /** No message is lost or repeated: summed over the keys, the groups hold one message per issue. */
  lemma {:induction false} FormatZodErrorCount(issues: seq<Schemas.Issue>, keys: seq<string>)
    requires Lists.Distinct(keys)
    requires forall i | 0 <= i < |issues| :: PathKey(issues[i].path) in keys
    ensures Lists.SumSizes(FormatZodError(issues).details.value, keys) == |issues|
  {
    var details := FormatZodError(issues).details.value;
    assert details == Lists.GroupBy(issues, KeyOf, MessageOf);
    forall k | k in details ensures k in keys {
      var i :| 0 <= i < |issues| && PathKey(issues[i].path) == k;
    }
    Lists.GroupByCount(issues, KeyOf, MessageOf, keys);
  }

  /** The messages of `issues`, in order. */
  function Messages(issues: seq<Schemas.Issue>): (m: seq<string>)
    ensures |m| == |issues| && forall i | 0 <= i < |issues| :: m[i] == issues[i].message
  {
    seq(|issues|, i requires 0 <= i < |issues| => issues[i].message)
  }

  /** Issues all on one named field are listed under that field alone, in the order they were raised. */
  lemma {:induction false} OneFieldIssues(issues: seq<Schemas.Issue>, field: string)
    requires field != "" && |issues| > 0
    requires forall i | 0 <= i < |issues| :: issues[i].path == [field]
    ensures FormatZodError(issues).details == Some(map[field := Messages(issues)])
  {
    var d := FormatZodError(issues).details.value;
    assert d.Keys == {field} by {
      forall i | 0 <= i < |issues| ensures PathKey(issues[i].path) == field {
        assert issues[i].path[0] == field;
      }
      assert PathKey(issues[0].path) in d.Keys;
    }
    SelectOneField(issues, field);
    assert d == map[field := Messages(issues)];
  }

  lemma {:induction false} SelectOneField(issues: seq<Schemas.Issue>, field: string)
    requires field != ""
    requires forall i | 0 <= i < |issues| :: issues[i].path == [field]
    ensures Lists.Select(issues, KeyOf, MessageOf, field) == Messages(issues)
  {
    if |issues| > 0 {
      SelectOneField(issues[1..], field);
      assert KeyOf(issues[0]) == field;
      assert Messages(issues) == [issues[0].message] + Messages(issues[1..]);
    }
  }

  /** `validate(schema, data)`: the parsed data exactly when parsing succeeds, otherwise the formatted issues. */
  function Validate<T>(parse: Schemas.Raw -> Result<T, seq<Schemas.Issue>>, data: Schemas.Raw)
    : (r: Result<T, Errors.ApiError>)
    ensures r.Ok? <==> parse(data).Ok?
    ensures r.Ok? ==> r.value == parse(data).value
    ensures r.Err? ==> r.error.code == Errors.ValidationError && r.error.details.Some?
                       && r.error.details.value.Keys == set i | 0 <= i < |parse(data).error| :: PathKey(parse(data).error[i].path)
  {
    match parse(data)
    case Ok(x) => Ok(x)
    case Err(issues) => Err(FormatZodError(issues))
  }

  /** A create body passes validation exactly when the schema's field rules hold. */
  lemma {:induction false} ValidateCreate(data: Schemas.Raw, fmt: Schemas.Formats)
    ensures Validate(v => Schemas.ParseCreateTodo(v, fmt), data).Ok? <==> Schemas.CreateAcceptable(data, fmt)
  {
    var parse := v => Schemas.ParseCreateTodo(v, fmt);
    assert parse(data) == Schemas.ParseCreateTodo(data, fmt);
  }

  /** A body that is not an object is reported under `root`. */
  lemma {:induction false} NonObjectIsRoot(data: Schemas.Raw, fmt: Schemas.Formats)
    requires !data.Obj?
    ensures var r := Validate(v => Schemas.ParseCreateTodo(v, fmt), data);
            r.Err? && r.error.details.value.Keys == {"root"}
  {
    var parse := v => Schemas.ParseCreateTodo(v, fmt);
    assert parse(data) == Schemas.ParseCreateTodo(data, fmt);
    var issues := parse(data).error;
    assert issues == [Schemas.InvalidType([], "object", data)];
    assert (set i | 0 <= i < |issues| :: PathKey(issues[i].path)) == {"root"} by {
      assert PathKey(issues[0].path) == "root";
    }
  }
}
