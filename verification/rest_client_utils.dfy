/**
 * `restClient.ts`: the record-based placeholder engine `applyVariablesToString`
 * (pattern `{{\s*([^}]+)\s*}}`), its structural lift `applyVariables`, and
 * `buildRestClientRoute`, which writes a request into a locale-prefixed route.
 */
module RestClientUtils {
  import opened Wrappers
  import opened Types
  import Strings
  import Json
  import Base64
  import FormUrlEncoded
  import OrderedMaps

  /** `String(vars[name] ?? '')` on a record of strings. */
  function Value(vars: map<string, string>, name: string): (v: string)
    ensures name in vars ==> v == vars[name]
    ensures name !in vars ==> v == []
  {
    if name in vars then vars[name] else []
  }

  /**
   * The name the pattern captures from the text between `{{` and the first `}`:
   * `\s*` skips the leading blanks and the greedy `[^}]+` keeps everything after them,
   * trailing blanks included; when the text is all blank, `\s*` gives back one
   * character and the name is the last blank.
   */
  function TokenName(region: string): (name: string)
    requires region != []
    ensures name != [] && |name| <= |region| && name == region[|region| - |name|..]
  {
    var t := Strings.TrimStart(region);
    Strings.TrimStartMeaning(region);
    if t == [] then [region[|region| - 1]] else t
  }

  /**
   * Where a match of `{{\s*([^}]+)\s*}}` starting at the head of `s` ends: `{{`, then at
   * least one character before the first `}`, and that `}` doubled. No other match is
   * possible, since `[^}]+` cannot pass a `}`.
   */
  function TokenEnd(s: string): (e: Option<nat>)
    ensures e.Some? ==> 4 <= e.value <= |s|
  {
    if |s| >= 2 && s[0] == '{' && s[1] == '{' then
      var j := Strings.Find(s[2..], '}');
      if 0 < j && j + 1 < |s[2..]| && s[2..][j + 1] == '}' then Some(j + 4)
      else None
    else None
  }

  /** `input.replace(/{{\s*([^}]+)\s*}}/g, (_, name) => String(vars[name] ?? ''))`. */
  function ApplyVariablesToString(input: string, vars: map<string, string>): string
    decreases |input|
  {
    if input == [] then []
    else if TokenEnd(input).Some? then
      var e := TokenEnd(input).value;
      Value(vars, TokenName(input[2..e - 2])) + ApplyVariablesToString(input[e..], vars)
    else [input[0]] + ApplyVariablesToString(input[1..], vars)
  }

  /** No `{{` anywhere. */
  predicate NoOpen(s: string) {
    forall i :: 0 <= i < |s| - 1 ==> !(s[i] == '{' && s[i + 1] == '{')
  }

  /** Text without `{{` is left as it is, whatever the record holds. */
  lemma {:induction false} NoOpenUnchanged(s: string, vars: map<string, string>)
    requires NoOpen(s)
    ensures ApplyVariablesToString(s, vars) == s
  {
    if s != [] {
      assert TokenEnd(s) == None by {
        assert |s| >= 2 ==> !(s[0] == '{' && s[1] == '{');
      }
      assert NoOpen(s[1..]) by {
        forall i | 0 <= i < |s[1..]| - 1
          ensures !(s[1..][i] == '{' && s[1..][i + 1] == '{')
        {
          assert s[1..][i] == s[i + 1] && s[1..][i + 1] == s[i + 2];
        }
      }
      NoOpenUnchanged(s[1..], vars);
      assert [s[0]] + s[1..] == s;
    }
  }

  lemma TrimStartAfterSpace(lead: string, name: string)
    requires Strings.AllSpace(lead) && name != [] && !Strings.IsSpace(name[0])
    ensures Strings.TrimStart(lead + name) == name
  {
    var s := lead + name;
    Strings.TrimStartMeaning(s);
    assert s[|lead|..] == name;
  }

  /**
   * `{{`, blanks, a name that starts with a non-blank and holds no `}`, then `}}`: the
   * token is replaced by the record's value for the name. Blanks at the end of the name
   * stay part of it, so `{{ a }}` looks up `"a "`.
   */
  lemma TokenReplaced(lead: string, name: string, rest: string, vars: map<string, string>)
    requires Strings.AllSpace(lead) && name != [] && !Strings.IsSpace(name[0]) && '}' !in name
    ensures ApplyVariablesToString("{{" + lead + name + "}}" + rest, vars)
      == Value(vars, name) + ApplyVariablesToString(rest, vars)
  {
    var region := lead + name;
    assert '}' !in region by {
      assert '}' !in lead;
    }
    assert "{{" + lead + name + "}}" + rest == "{{" + region + "}}" + rest;
    TokenAtHead(region, rest, vars);
    TrimStartAfterSpace(lead, name);
    assert TokenName(region) == name;
  }

  /** `{{` followed by blanks only and `}}`: the captured name is the last blank. */
  lemma BlankToken(lead: string, rest: string, vars: map<string, string>)
    requires lead != [] && Strings.AllSpace(lead)
    ensures ApplyVariablesToString("{{" + lead + "}}" + rest, vars)
      == Value(vars, [lead[|lead| - 1]]) + ApplyVariablesToString(rest, vars)
  {
    assert '}' !in lead;
    TokenAtHead(lead, rest, vars);
    Strings.TrimStartMeaning(lead);
    assert Strings.TrimStart(lead) == [];
  }

  /** A token `{{region}}` whose region holds no `}` is replaced by the value for its name. */
  lemma TokenAtHead(region: string, rest: string, vars: map<string, string>)
    requires region != [] && '}' !in region
    ensures ApplyVariablesToString("{{" + region + "}}" + rest, vars)
      == Value(vars, TokenName(region)) + ApplyVariablesToString(rest, vars)
  {
    var s := "{{" + region + "}}" + rest;
    var n := |region|;
    assert s[2..] == region + "}}" + rest;
    assert Strings.Find(s[2..], '}') == n by {
      assert s[2..][n] == '}';
      assert s[2..][..n] == region;
    }
    assert TokenEnd(s) == Some(n + 4);
    assert s[2..n + 2] == region;
    assert s[n + 4..] == rest;
  }

  /** No match starts at any character of `pre` when `rest` follows it. */
  predicate NoTokenStarts(pre: string, rest: string) {
    pre == [] || (TokenEnd(pre + rest).None? && NoTokenStarts(pre[1..], rest))
  }

  /** A character at which no match starts is copied through. */
  lemma PassesOne(pre: string, rest: string, vars: map<string, string>)
    requires pre != [] && NoTokenStarts(pre, rest)
    ensures ApplyVariablesToString(pre + rest, vars) == [pre[0]] + ApplyVariablesToString(pre[1..] + rest, vars)
    ensures NoTokenStarts(pre[1..], rest)
  {
    assert (pre + rest)[1..] == pre[1..] + rest;
  }

  /** Characters at which no match starts are copied through. */
  lemma {:induction false} PassesPrefix(pre: string, rest: string, vars: map<string, string>)
    requires NoTokenStarts(pre, rest)
    ensures ApplyVariablesToString(pre + rest, vars) == pre + ApplyVariablesToString(rest, vars)
  {
    if pre != [] {
      PassesOne(pre, rest, vars);
      PassesPrefix(pre[1..], rest, vars);
      assert [pre[0]] + pre[1..] == pre;
    } else {
      assert pre + rest == rest;
    }
  }

  /** `{{}}` has no name, so it is not a match and stays in the text. */
  lemma EmptyTokenKept(rest: string, vars: map<string, string>)
    ensures ApplyVariablesToString("{{}}" + rest, vars) == "{{}}" + ApplyVariablesToString(rest, vars)
  {
    var pre := "{{}}";
    assert TokenEnd(pre + rest).None? by {
      assert (pre + rest)[2..] == "}}" + rest;
      assert Strings.Find((pre + rest)[2..], '}') == 0;
    }
    assert pre[1..] + rest == "{}}" + rest;
    assert TokenEnd("{}}" + rest).None? by {
      assert ("{}}" + rest)[1] == '}';
    }
    assert pre[1..][1..] == "}}" && pre[1..][1..][1..] == "}" && pre[1..][1..][1..][1..] == [];
    assert NoTokenStarts("}", rest);
    assert NoTokenStarts("}}", rest);
    assert NoTokenStarts("{}}", rest);
    PassesPrefix(pre, rest, vars);
  }

  /** The two readings of trailing blanks: `{{ a }}` finds `"a "` but not `"a"`. */
  lemma TrailingBlankInName()
    ensures ApplyVariablesToString("{{ a }}", map["a" := "1"]) == ""
    ensures ApplyVariablesToString("{{ a }}", map["a " := "1"]) == "1"
  {
    assert "{{ a }}" == "{{" + " " + "a " + "}}" + "";
    TokenReplaced(" ", "a ", "", map["a" := "1"]);
    TokenReplaced(" ", "a ", "", map["a " := "1"]);
  }

  /** `applyVariables` on a JSON value: strings substituted, arrays and objects rebuilt, the rest as is. */
  function ApplyDeep(v: Json.Value, vars: map<string, string>): (r: Json.Value)
    ensures v.JString? <==> r.JString?
    ensures v.JArray? <==> r.JArray?
    ensures v.JArray? ==> |r.items| == |v.items|
    ensures v.JObject? <==> r.JObject?
    ensures v.JObject? ==>
      && |r.members| == |v.members|
      && forall i :: 0 <= i < |v.members| ==> r.members[i].name == v.members[i].name
    ensures !v.JString? && !v.JArray? && !v.JObject? ==> r == v
    decreases v
  {
    match v
    case JString(s) => Json.JString(ApplyVariablesToString(s, vars))
    case JArray(items) => Json.JArray(seq(|items|, i requires 0 <= i < |items| => ApplyDeep(items[i], vars)))
    case JObject(members) => Json.JObject(seq(|members|, i requires 0 <= i < |members| =>
      assert members[i] in members;
      Json.Member(members[i].name, ApplyDeep(members[i].value, vars))))
    case _ => v
  }

  /** Every string inside a value is free of `{{`. */
  predicate NoOpenDeep(v: Json.Value)
    decreases v
  {
    match v
    case JString(s) => NoOpen(s)
    case JArray(items) => forall i :: 0 <= i < |items| ==> NoOpenDeep(items[i])
    case JObject(members) => forall i :: 0 <= i < |members| ==>
      assert members[i] in members;
      NoOpenDeep(members[i].value)
    case _ => true
  }

  /** A value whose strings hold no `{{` comes back equal. */
  lemma {:induction false} NoOpenDeepUnchanged(v: Json.Value, vars: map<string, string>)
    requires NoOpenDeep(v)
    ensures ApplyDeep(v, vars) == v
    decreases v
  {
    match v
    case JString(s) => NoOpenUnchanged(s, vars);
    case JArray(items) =>
      forall i | 0 <= i < |items|
        ensures ApplyDeep(items[i], vars) == items[i]
      {
        NoOpenDeepUnchanged(items[i], vars);
      }
      assert ApplyDeep(v, vars).items == items;
    case JObject(members) =>
      forall i | 0 <= i < |members|
        ensures ApplyDeep(members[i].value, vars) == members[i].value
      {
        assert members[i] in members;
        NoOpenDeepUnchanged(members[i].value, vars);
      }
      assert ApplyDeep(v, vars).members == members;
    case _ =>
  }

  /**
   * `applyVariables(obj, vars)`: recursion over the value; an object's properties are
   * copied into a fresh object one key at a time, in `Object.keys` order.
   */
  method ApplyVariables(obj: Json.Value, vars: map<string, string>) returns (r: Json.Value)
    ensures r == ApplyDeep(obj, vars)
    decreases obj
  {
    match obj {
      case JString(s) =>
        r := Json.JString(ApplyVariablesToString(s, vars));
      case JArray(items) =>
        var out: seq<Json.Value> := [];
        for i := 0 to |items|
          invariant |out| == i && forall j :: 0 <= j < i ==> out[j] == ApplyDeep(items[j], vars)
        {
          var x := ApplyVariables(items[i], vars);
          out := out + [x];
        }
        r := Json.JArray(out);
      case JObject(members) =>
        var out: seq<Json.Member> := [];
        for i := 0 to |members|
          invariant |out| == i
          invariant forall j :: 0 <= j < i ==> out[j] == Json.Member(members[j].name, ApplyDeep(members[j].value, vars))
        {
          assert members[i] in members;
          var x := ApplyVariables(members[i].value, vars);
          out := out + [Json.Member(members[i].name, x)];
        }
        r := Json.JObject(out);
      case _ =>
        r := obj;
    }
  }

  /** The `body` argument: absent, `null`, a string, or an object serialised with `JSON.stringify`. */
  datatype BodyArg = NoBody | NullBody | TextBody(text: string) | ObjectBody(value: Json.Value)

  /** The text put in the body segment, if any: none for undefined, `null` and `''`. */
  function BodyText(body: BodyArg): (t: Option<string>)
    ensures t.None? <==> body.NoBody? || body.NullBody? || body == TextBody([])
    ensures body.TextBody? && body.text != [] ==> t == Some(body.text)
  {
    match body
    case NoBody => None
    case NullBody => None
    case TextBody(s) => if s == [] then None else Some(s)
    case ObjectBody(v) => Some(Json.Stringify(v))
  }

  /** The path `buildRestClientRoute` writes: locale, `rest-client`, method, url segment, body segment. */
  function RoutePath(locale: string, httpMethod: string, url: string, body: BodyArg): string {
    "/" + locale + "/rest-client/" + httpMethod + "/" + Base64.EncodeUnicode(url)
    + (if BodyText(body).Some? then "/" + Base64.EncodeUnicode(BodyText(body).value) else "")
  }

  /** `Object.entries(headers).forEach(([k, v]) => params.set(k, v))` on a fresh list. */
  method SetAll(headers: seq<Header>) returns (params: seq<Header>)
    requires OrderedMaps.Distinct(headers)
    ensures params == headers
  {
    params := [];
    for i := 0 to |headers|
      invariant params == headers[..i]
    {
      assert OrderedMaps.Position(params, headers[i].key) == -1 by {
        forall j | 0 <= j < i
          ensures params[j].key != headers[i].key
        {
          assert params[j] == headers[j];
        }
      }
      OrderedMaps.SetParamIsPut(params, headers[i].key, headers[i].value);
      params := OrderedMaps.SetParam(params, headers[i].key, headers[i].value);
      assert headers[..i + 1] == headers[..i] + [headers[i]];
    }
    assert headers[..|headers|] == headers;
  }

  /**
   * `buildRestClientRoute`: the path grows segment by segment and the headers are
   * `set` into a fresh `URLSearchParams` in record order. `headers` is a record, so its
   * keys are distinct.
   */
  method BuildRestClientRoute(locale: string, httpMethod: string, url: string, body: BodyArg,
                              headers: Option<seq<Header>>) returns (route: string)
    requires headers.Some? ==> OrderedMaps.Distinct(headers.value)
    ensures var query := FormUrlEncoded.Serialize(headers.GetOr([]));
      route == if query == [] then RoutePath(locale, httpMethod, url, body)
        else RoutePath(locale, httpMethod, url, body) + "?" + query
  {
    var urlB64 := Base64.B64EncodeUnicode(url, true);
    var path := "/" + locale + "/rest-client/" + httpMethod + "/" + urlB64;
    if !body.NoBody? && !body.NullBody? && body != TextBody([]) {
      var bodyStr := if body.TextBody? then body.text else Json.Stringify(body.value);
      assert BodyText(body) == Some(bodyStr);
      var bodyB64 := Base64.B64EncodeUnicode(bodyStr, true);
      path := path + "/" + bodyB64;
    }
    assert path == RoutePath(locale, httpMethod, url, body);
    var params: seq<Header> := [];
    if headers.Some? {
      params := SetAll(headers.value);
    }
    assert params == headers.GetOr([]);
    var query := FormUrlEncoded.Serialize(params);
    route := if query != [] then path + "?" + query else path;
  }
}
