/**
 * The API error type of frontend/lib/errors.ts and its problem details document, the
 * members of section 3.1 of RFC 7807 ("Problem Details for HTTP APIs"): type, title,
 * status, detail and instance. A missing type is replaced by a URL that names the status.
 */
module Errors {
  import opened Wrappers
  import opened Strings

  const ErrorBaseUrl: string := "https://heroku-rag.dev/errors"
  const ProblemJson: string := "application/problem+json"

  /** An `APIError`; `errors` is set only on a validation error that was given some. */
  datatype ApiError = ApiError(
    status: int, title: string, detail: Option<string>, errorType: Option<string>,
    errors: Option<map<string, seq<string>>>)

  /** The problem details document; a member the error lacks is `None` and is left out of the JSON. */
  datatype ProblemDetails = ProblemDetails(
    problemType: string, title: string, status: int, detail: Option<string>, instance: Option<string>)

  datatype ProblemResponse = ProblemResponse(status: int, contentType: string, body: ProblemDetails)

  /** Whether an optional string is set and not empty, as JavaScript's `x || ...` tests it. */
  predicate Given(s: Option<string>) {
    s.Some? && s.value != ""
  }

  /** `new APIError(status, title, detail, type)` */
  function NewApiError(status: int, title: string, detail: Option<string>, errorType: Option<string>): (e: ApiError)
    ensures e.status == status && e.title == title && e.detail == detail && e.errorType == errorType
    ensures e.errors.None?
  {
    ApiError(status, title, detail, errorType, None)
  }

  /** The error's `message`: the detail when there is one, the title otherwise. */
  function Message(e: ApiError): (m: string)
    ensures Given(e.detail) ==> m == e.detail.value
    ensures !Given(e.detail) ==> m == e.title
  {
    if Given(e.detail) then e.detail.value else e.title
  }

  /** The type URL of an error that names none: the base URL followed by the status. */
  function DefaultType(status: int): string {
    ErrorBaseUrl + "/" + IntToString(status)
  }

  /** `toProblemDetails(instance)` */
  function ToProblemDetails(e: ApiError, instance: Option<string>): (p: ProblemDetails)
    ensures Given(e.errorType) ==> p.problemType == e.errorType.value
    ensures !Given(e.errorType) ==> p.problemType == DefaultType(e.status)
    ensures p.title == e.title && p.status == e.status && p.detail == e.detail && p.instance == instance
  {
    ProblemDetails(if Given(e.errorType) then e.errorType.value else DefaultType(e.status),
      e.title, e.status, e.detail, instance)
  }

  /** `toResponse(instance)`: the document, sent with the error's status as problem JSON. */
  function ToResponse(e: ApiError, instance: Option<string>): (r: ProblemResponse)
    ensures r.status == r.body.status == e.status
    ensures r.contentType == ProblemJson
    ensures r.body == ToProblemDetails(e, instance)
  {
    ProblemResponse(e.status, ProblemJson, ToProblemDetails(e, instance))
  }

  /** The default type URL names the status: what follows the base URL reads back as the status. */
  lemma DefaultTypeNamesStatus(status: nat)
    ensures var t := DefaultType(status);
      var prefix := ErrorBaseUrl + "/";
      StartsWith(t, prefix) &&
      (forall i :: |prefix| <= i < |t| ==> '0' <= t[i] <= '9') &&
      ParseNat(t[|prefix|..]) == status
  {
    var prefix := ErrorBaseUrl + "/";
    var t := DefaultType(status);
    assert t == prefix + NatToString(status);
    assert t[|prefix|..] == NatToString(status);
    assert t[..|prefix|] == prefix;
    ParseNatToString(status);
  }

  /** Different statuses get different default types. */
  lemma DefaultTypeInjective(a: nat, b: nat)
    requires DefaultType(a) == DefaultType(b)
    ensures a == b
  {
    DefaultTypeNamesStatus(a);
    DefaultTypeNamesStatus(b);
  }

  /** An ID in single quotes. */
  function Quoted(id: string): string {
    "'" + id + "'"
  }

  /** `new NotFoundError(resource, id)` */
  function NotFoundError(resource: string, id: Option<string>): (e: ApiError)
    ensures e.status == 404 && e.title == resource + " Not Found"
    ensures e.errorType == Some(ErrorBaseUrl + "/not-found") && e.errors.None?
    ensures Given(id) ==> e.detail == Some(resource + " with ID " + Quoted(id.value) + " was not found")
    ensures !Given(id) ==> e.detail == Some(resource + " was not found")
  {
    var detail := if Given(id) then resource + " with ID " + Quoted(id.value) + " was not found"
                  else resource + " was not found";
    NewApiError(404, resource + " Not Found", Some(detail), Some(ErrorBaseUrl + "/not-found"))
  }

  /** `new ValidationError(detail, errors)` */
  function ValidationError(detail: string, errors: Option<map<string, seq<string>>>): (e: ApiError)
    ensures e.status == 400 && e.title == "Validation Error" && e.detail == Some(detail)
    ensures e.errorType == Some(ErrorBaseUrl + "/validation-error")
    ensures e.errors == errors
  {
    var base := NewApiError(400, "Validation Error", Some(detail), Some(ErrorBaseUrl + "/validation-error"));
    if errors.Some? then base.(errors := errors) else base
  }

  /** A not-found error's document keeps its own type, and the error's message is the document's detail. */
  lemma NotFoundProblem(resource: string, id: Option<string>, instance: Option<string>)
    ensures var e := NotFoundError(resource, id);
      var p := ToProblemDetails(e, instance);
      p.problemType == ErrorBaseUrl + "/not-found" && p.status == 404 && p.detail.Some? &&
      Message(e) == p.detail.value
  {
  }

  /** The not-found message names the ID, in quotes, when one was given. */
  lemma NotFoundNamesId(resource: string, id: string)
    requires id != ""
    ensures Contains(Message(NotFoundError(resource, Some(id))), Quoted(id))
  {
    ContainsMiddle(resource + " with ID ", Quoted(id), " was not found");
  }

  /** A string contains whatever sits in its middle. */
  lemma {:induction false} ContainsMiddle(a: string, p: string, b: string)
    ensures Contains(a + p + b, p)
    decreases |a|
  {
    if a == [] {
      assert (a + p + b)[..|p|] == p;
    } else {
      ContainsMiddle(a[1..], p, b);
      assert (a + p + b)[1..] == a[1..] + p + b;
    }
  }

  /** A validation error's document never reports its field errors: only the five members are sent. */
  lemma ValidationProblem(detail: string, errors: Option<map<string, seq<string>>>, instance: Option<string>)
    ensures var p := ToProblemDetails(ValidationError(detail, errors), instance);
      p == ProblemDetails(ErrorBaseUrl + "/validation-error", "Validation Error", 400, Some(detail), instance)
  {
  }
}
