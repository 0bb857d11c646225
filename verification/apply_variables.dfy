/**
 * `applyVariablesToRequest`: the request with `replaceVariables` applied to its url,
 * its body (a missing body counts as `''`) and every header key and value.
 */
module RequestSubstitution {
  import opened Wrappers
  import opened Types
  import opened Placeholders

  function ApplyVariablesToRequest(req: Request, vars: seq<Variable>): (r: Request)
    ensures r.httpMethod == req.httpMethod
    ensures r.url == ReplaceVariables(req.url, vars)
    ensures r.body.Some? && r.body.value == ReplaceVariables(req.body.GetOr([]), vars)
    ensures |r.headers| == |req.headers|
    ensures forall i :: 0 <= i < |r.headers| ==>
      r.headers[i] == Header(ReplaceVariables(req.headers[i].key, vars), ReplaceVariables(req.headers[i].value, vars))
  {
    req.(url := ReplaceVariables(req.url, vars),
         body := Some(ReplaceVariables(req.body.GetOr([]), vars)),
         headers := ReplaceVariablesInHeaders(req.headers, vars))
  }

  /** Every text field of a request, headers included, is free of placeholders. */
  predicate PlaceholderFree(req: Request) {
    && NoPlaceholder(req.url)
    && NoPlaceholder(req.body.GetOr([]))
    && forall i :: 0 <= i < |req.headers| ==> NoPlaceholder(req.headers[i].key) && NoPlaceholder(req.headers[i].value)
  }

  /** With an empty variable list every placeholder is removed from url, body and headers. */
  lemma NoVariablesRemovesEveryPlaceholder(req: Request)
    ensures PlaceholderFree(ApplyVariablesToRequest(req, []))
  {
    var r := ApplyVariablesToRequest(req, []);
    EmptyVariablesLeaveNoPlaceholder(req.url);
    EmptyVariablesLeaveNoPlaceholder(req.body.GetOr([]));
    forall i | 0 <= i < |r.headers|
      ensures NoPlaceholder(r.headers[i].key) && NoPlaceholder(r.headers[i].value)
    {
      EmptyVariablesLeaveNoPlaceholder(req.headers[i].key);
      EmptyVariablesLeaveNoPlaceholder(req.headers[i].value);
    }
  }

  /**
   * A request without placeholders comes back as it was, except that a missing
   * body becomes the empty string.
   */
  lemma PlaceholderFreeUnchanged(req: Request, vars: seq<Variable>)
    requires PlaceholderFree(req)
    ensures ApplyVariablesToRequest(req, vars) == req.(body := Some(req.body.GetOr([])))
  {
    NoPlaceholderUnchanged(req.url, vars);
    NoPlaceholderUnchanged(req.body.GetOr([]), vars);
    HeadersWithoutPlaceholders(req.headers, vars);
  }

  /** Substituting twice with an empty variable list is the same as substituting once. */
  lemma NoVariablesIdempotent(req: Request)
    ensures ApplyVariablesToRequest(ApplyVariablesToRequest(req, []), []) == ApplyVariablesToRequest(req, [])
  {
    NoVariablesRemovesEveryPlaceholder(req);
    PlaceholderFreeUnchanged(ApplyVariablesToRequest(req, []), []);
  }
}
