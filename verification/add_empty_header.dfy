/** `addEmptyHeader`: the header list with one blank row appended. */
module AddEmptyHeader {
  import opened Types

  /** The list extended by `{key: '', value: ''}`; the input rows stay first, in order. */
  function AddEmptyHeader(headers: seq<Header>): (r: seq<Header>)
    ensures |r| == |headers| + 1
    ensures r[..|headers|] == headers
    ensures r[|headers|] == Header("", "")
  {
    headers + [Header("", "")]
  }

  /** The blank row is skipped by every filter that needs a key: it adds nothing to a header record. */
  lemma EmptyHeaderNotKept(headers: seq<Header>)
    ensures forall h :: h in AddEmptyHeader(headers) && h.key != [] ==> h in headers
  {
  }
}
