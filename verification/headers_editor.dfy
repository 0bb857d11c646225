/**
 * The list edits of the header editor: add a blank row, change the key or the value
 * of one row, remove one row. Each handler stores the new list and passes the same
 * list to `onChange`.
 */
module HeadersEditor {
  import opened Wrappers
  import opened Types
  import AddEmptyHeader

  /** `keyof Header`. */
  datatype Field = Key | Value

  /** `{...h, [field]: value}`. */
  function WithField(h: Header, field: Field, value: string): (r: Header)
    ensures field == Key ==> r.key == value && r.value == h.value
    ensures field == Value ==> r.value == value && r.key == h.key
  {
    if field == Key then h.(key := value) else h.(value := value)
  }

  /** `headers.map((h, i) => i === index ? {...h, [field]: value} : h)`. */
  function Updated(headers: seq<Header>, index: int, field: Field, value: string): (r: seq<Header>)
    ensures |r| == |headers|
    ensures forall i :: 0 <= i < |headers| && i != index ==> r[i] == headers[i]
    ensures 0 <= index < |headers| ==> r[index] == WithField(headers[index], field, value)
    ensures !(0 <= index < |headers|) ==> r == headers
  {
    seq(|headers|, i requires 0 <= i < |headers| => if i == index then WithField(headers[i], field, value) else headers[i])
  }

  /** `headers.filter((_, i) => i !== index)`: the rows at every other position, in order. */
  function Removed(headers: seq<Header>, index: int): (r: seq<Header>)
    ensures 0 <= index < |headers| ==> r == headers[..index] + headers[index + 1..]
    ensures !(0 <= index < |headers|) ==> r == headers
  {
    if headers == [] then []
    else
      var n := |headers| - 1;
      var init := Removed(headers[..n], index);
      if n == index then
        assert headers[..n][..index] == headers[..index];
        init
      else
        assert 0 <= index < n ==>
          headers[..index] + headers[index + 1..] == headers[..n][..index] + headers[..n][index + 1..] + [headers[n]];
        assert headers[..n] + [headers[n]] == headers;
        init + [headers[n]]
  }

  /** Updating a row and then putting its old text back gives the list back. */
  lemma UpdateUndo(headers: seq<Header>, index: int, field: Field, value: string)
    requires 0 <= index < |headers|
    ensures var old_ := if field == Key then headers[index].key else headers[index].value;
      Updated(Updated(headers, index, field, value), index, field, old_) == headers
  {
    var old_ := if field == Key then headers[index].key else headers[index].value;
    var r := Updated(Updated(headers, index, field, value), index, field, old_);
    assert forall i :: 0 <= i < |headers| ==> r[i] == headers[i];
  }

  /** Removing the row just added gives the list back. */
  lemma RemoveAdded(headers: seq<Header>)
    ensures Removed(AddEmptyHeader.AddEmptyHeader(headers), |headers|) == headers
  {
    var a := AddEmptyHeader.AddEmptyHeader(headers);
    assert a[..|headers|] + a[|headers| + 1..] == headers;
  }

  /** The editor: its list of rows and the lists it has passed to `onChange`, oldest first. */
  class HeadersEditor {
    var headers: seq<Header>
    var changes: seq<seq<Header>>

    /** `useState(value ?? [])`. */
    constructor (value: Option<seq<Header>>)
      ensures headers == (if value.Some? then value.value else []) && changes == []
    {
      headers := if value.Some? then value.value else [];
      changes := [];
    }

    /** The effect that follows the `value` prop: `setHeaders(value ?? [])`, no `onChange`. */
    method Sync(value: Option<seq<Header>>)
      modifies this
      ensures headers == (if value.Some? then value.value else []) && changes == old(changes)
    {
      headers := if value.Some? then value.value else [];
    }

    method AddHeader()
      modifies this
      ensures headers == AddEmptyHeader.AddEmptyHeader(old(headers))
      ensures changes == old(changes) + [headers]
    {
      var newHeaders := headers + [Header("", "")];
      headers := newHeaders;
      changes := changes + [newHeaders];
    }

    method UpdateHeader(index: int, field: Field, value: string)
      modifies this
      ensures headers == Updated(old(headers), index, field, value)
      ensures changes == old(changes) + [headers]
    {
      var newHeaders := Updated(headers, index, field, value);
      headers := newHeaders;
      changes := changes + [newHeaders];
    }

    method RemoveHeader(index: int)
      modifies this
      ensures headers == Removed(old(headers), index)
      ensures changes == old(changes) + [headers]
    {
      var newHeaders := Removed(headers, index);
      headers := newHeaders;
      changes := changes + [newHeaders];
    }
  }
}
