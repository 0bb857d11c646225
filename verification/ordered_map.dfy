/**
 * JavaScript records with string keys and `URLSearchParams` lists, both as ordered
 * name/value lists. Assigning an existing property keeps its place; a new one goes last.
 */
module OrderedMaps {
  import opened Wrappers
  import opened Types

  /** Keys of a JavaScript object are pairwise distinct. */
  predicate Distinct(m: seq<Header>) {
    forall i, j :: 0 <= i < j < |m| ==> m[i].key != m[j].key
  }

  function Keys(m: seq<Header>): (ks: seq<string>)
    ensures |ks| == |m|
    ensures forall i :: 0 <= i < |m| ==> ks[i] == m[i].key
  {
    seq(|m|, i requires 0 <= i < |m| => m[i].key)
  }

  /** Index of the first entry named `k`, or -1. */
  function Position(m: seq<Header>, k: string): (i: int)
    ensures -1 <= i < |m|
    ensures i >= 0 ==> m[i].key == k && forall j :: 0 <= j < i ==> m[j].key != k
    ensures i == -1 <==> forall j :: 0 <= j < |m| ==> m[j].key != k
  {
    if m == [] then -1
    else if m[0].key == k then 0
    else
      var p := Position(m[1..], k);
      if p == -1 then -1 else p + 1
  }

  /** `obj[k]` (or `params.get(k)`): the value of the first entry named `k`. */
  function Get(m: seq<Header>, k: string): (r: Option<string>)
    ensures r.Some? <==> exists i :: 0 <= i < |m| && m[i].key == k
  {
    var i := Position(m, k);
    if i == -1 then None else Some(m[i].value)
  }

  /** `obj[k] = v`: an existing property keeps its position and takes `v`; a new one is appended. */
  function Put(m: seq<Header>, k: string, v: string): (r: seq<Header>)
    ensures Get(r, k) == Some(v)
    ensures forall k' :: k' != k ==> Get(r, k') == Get(m, k')
    ensures Distinct(m) ==> Distinct(r)
    ensures Keys(r) == if Position(m, k) == -1 then Keys(m) + [k] else Keys(m)
  {
    var i := Position(m, k);
    if i == -1 then
      PositionAppend(m, [Header(k, v)], k);
      var r := m + [Header(k, v)];
      assert forall k' :: k' != k ==> Get(r, k') == Get(m, k') by {
        forall k' | k' != k
          ensures Get(r, k') == Get(m, k')
        {
          PositionAppend(m, [Header(k, v)], k');
        }
      }
      r
    else
      var r := m[i := Header(k, v)];
      assert Keys(r) == Keys(m);
      forall k' | k' != k
        ensures Get(r, k') == Get(m, k')
      {
        PositionByKeys(r, m, k');
      }
      r
  }

  /** Where a key first appears depends only on the keys. */
  lemma {:induction false} PositionByKeys(a: seq<Header>, b: seq<Header>, k: string)
    requires Keys(a) == Keys(b)
    ensures Position(a, k) == Position(b, k)
  {
    if a != [] {
      assert a[0].key == Keys(a)[0] == b[0].key;
      assert Keys(a[1..]) == Keys(a)[1..];
      assert Keys(b[1..]) == Keys(b)[1..];
      PositionByKeys(a[1..], b[1..], k);
    }
  }

  lemma {:induction false} PositionAppend(a: seq<Header>, b: seq<Header>, k: string)
    ensures Position(a + b, k) == if Position(a, k) != -1 then Position(a, k)
      else if Position(b, k) == -1 then -1 else |a| + Position(b, k)
  {
    if a == [] {
      assert a + b == b;
    } else if a[0].key != k {
      assert (a + b)[1..] == a[1..] + b;
      PositionAppend(a[1..], b, k);
    }
  }

  /** The value the last entry named `k` carries: what a left-to-right fold of assignments leaves. */
  function LastValue(hs: seq<Header>, k: string): (r: Option<string>)
    ensures r.Some? <==> exists i :: 0 <= i < |hs| && hs[i].key == k
    ensures r.Some? ==> exists i :: 0 <= i < |hs| && hs[i] == Header(k, r.value)
  {
    if hs == [] then None
    else if hs[|hs| - 1].key == k then Some(hs[|hs| - 1].value)
    else
      var r := LastValue(hs[..|hs| - 1], k);
      assert forall i :: 0 <= i < |hs| - 1 ==> hs[..|hs| - 1][i] == hs[i];
      r
  }

  /** `Object.fromEntries(entries)`: assignments in order, so a repeated key keeps its last value. */
  function FromEntries(hs: seq<Header>): (m: seq<Header>)
    ensures Distinct(m)
    ensures forall k :: Get(m, k) == LastValue(hs, k)
  {
    if hs == [] then []
    else
      var last := hs[|hs| - 1];
      Put(FromEntries(hs[..|hs| - 1]), last.key, last.value)
  }

  /** The headers the `reduce` in the JavaScript and Python generators keeps: key and value both non-empty. */
  function Kept(hs: seq<Header>): (r: seq<Header>)
    ensures forall h :: h in r <==> h in hs && h.key != [] && h.value != []
  {
    if hs == [] then []
    else (if hs[0].key != [] && hs[0].value != [] then [hs[0]] else []) + Kept(hs[1..])
  }

  lemma {:induction false} KeptAppend(a: seq<Header>, b: seq<Header>)
    ensures Kept(a + b) == Kept(a) + Kept(b)
  {
    if a == [] {
      assert a + b == b;
    } else {
      assert (a + b)[1..] == a[1..] + b;
      KeptAppend(a[1..], b);
    }
  }

  /**
   * The header `reduce` of `generateJsFetch` and `generatePython`: the accumulator object
   * is updated in place, one header at a time, when key and value are both non-empty.
   */
  method HeaderRecord(hs: seq<Header>) returns (acc: seq<Header>)
    ensures acc == FromEntries(Kept(hs))
    ensures Distinct(acc)
    ensures forall k :: Get(acc, k) == LastValue(Kept(hs), k)
  {
    acc := [];
    for i := 0 to |hs|
      invariant acc == FromEntries(Kept(hs[..i]))
    {
      var h := hs[i];
      assert hs[..i + 1] == hs[..i] + [h];
      KeptAppend(hs[..i], [h]);
      if h.key != [] && h.value != [] {
        assert Kept([h]) == [h];
        assert Kept(hs[..i + 1])[..|Kept(hs[..i + 1])| - 1] == Kept(hs[..i]);
        acc := Put(acc, h.key, h.value);
      } else {
        assert Kept(hs[..i + 1]) == Kept(hs[..i]);
      }
    }
    assert hs[..|hs|] == hs;
  }

  /** Drop every entry named `k`. */
  function RemoveAll(m: seq<Header>, k: string): (r: seq<Header>)
    ensures forall h :: h in r <==> h in m && h.key != k
    ensures Position(m, k) == -1 ==> r == m
  {
    if m == [] then []
    else (if m[0].key == k then [] else [m[0]]) + RemoveAll(m[1..], k)
  }

  /**
   * `params.set(k, v)`: the first pair named `k` takes `v` and the later ones are
   * removed; without such a pair, `(k, v)` is appended.
   */
  function SetParam(list: seq<Header>, k: string, v: string): (r: seq<Header>)
    ensures Position(r, k) == if Position(list, k) == -1 then |list| else Position(list, k)
    ensures r[Position(r, k)] == Header(k, v)
  {
    var i := Position(list, k);
    PositionAppend(list, [Header(k, v)], k);
    if i == -1 then list + [Header(k, v)]
    else
      PositionAppend(list[..i], [Header(k, v)], k);
      PositionAppend(list[..i] + [Header(k, v)], RemoveAll(list[i + 1..], k), k);
      list[..i] + [Header(k, v)] + RemoveAll(list[i + 1..], k)
  }

  /** On a list whose names are distinct, `set` is the same as assigning a property. */
  lemma SetParamIsPut(list: seq<Header>, k: string, v: string)
    requires Distinct(list)
    ensures SetParam(list, k, v) == Put(list, k, v)
  {
    var i := Position(list, k);
    if i == -1 {
      AppendBoth(list, k, v);
    } else {
      LaterKeysDiffer(list, i);
      ReplaceAt(list, k, v, i);
    }
  }

  lemma AppendBoth(list: seq<Header>, k: string, v: string)
    requires Position(list, k) == -1
    ensures SetParam(list, k, v) == list + [Header(k, v)] == Put(list, k, v)
  {
  }

  /** In a list with distinct names, no entry after position `i` shares its name. */
  lemma LaterKeysDiffer(list: seq<Header>, i: nat)
    requires Distinct(list) && i < |list|
    ensures Position(list[i + 1..], list[i].key) == -1
  {
    var rest := list[i + 1..];
    forall j | 0 <= j < |rest|
      ensures rest[j].key != list[i].key
    {
      assert rest[j] == list[i + 1 + j];
    }
  }

  lemma ReplaceAt(list: seq<Header>, k: string, v: string, i: nat)
    requires i < |list| && Position(list, k) == i && Position(list[i + 1..], k) == -1
    ensures SetParam(list, k, v) == Put(list, k, v)
  {
    SetParamAt(list, k, v, i);
    PutAt(list, k, v, i);
    SpliceIsUpdate(list, i, Header(k, v));
  }

  lemma SetParamAt(list: seq<Header>, k: string, v: string, i: nat)
    requires i < |list| && Position(list, k) == i && Position(list[i + 1..], k) == -1
    ensures SetParam(list, k, v) == list[..i] + [Header(k, v)] + list[i + 1..]
  {
    assert RemoveAll(list[i + 1..], k) == list[i + 1..];
  }

  lemma PutAt(list: seq<Header>, k: string, v: string, i: nat)
    requires i < |list| && Position(list, k) == i
    ensures Put(list, k, v) == list[i := Header(k, v)]
  {
  }

  lemma SpliceIsUpdate(list: seq<Header>, i: nat, h: Header)
    requires i < |list|
    ensures list[..i] + [h] + list[i + 1..] == list[i := h]
  {
  }

  /** Building with `set` alone keeps the names distinct. */
  lemma SetParamKeepsDistinct(list: seq<Header>, k: string, v: string)
    requires Distinct(list)
    ensures Distinct(SetParam(list, k, v))
  {
    SetParamIsPut(list, k, v);
  }
}
