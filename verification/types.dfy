/**
 * The request model shared by the editor, the substitution engines and the code
 * generators (`HttpRequestSnapshot`, `HeaderKV`/`Header`, `Variable`).
 */
module Types {
  import opened Wrappers

  /** One header row as the user typed it; keys need not be unique or non-empty. */
  datatype Header = Header(key: string, value: string)

  /** One named placeholder value. */
  datatype Variable = Variable(key: string, value: string)

  /** A request snapshot: `body` is optional (`body?: string`), headers keep their order. */
  datatype Request = Request(httpMethod: string, url: string, headers: seq<Header>, body: Option<string>)

  /** JavaScript truthiness of an optional string (`req.body ? … : …`): present and not `''`. */
  predicate Truthy(s: Option<string>) {
    s.Some? && s.value != []
  }
}
