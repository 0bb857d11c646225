/**
 * The code generators are template literals. A template is a list of pieces: literal
 * text written by the generator, and holes filled with text taken from the request.
 * Rendering concatenates the pieces; the holes say which request text reaches the
 * output, where, and in what form.
 */
module Templates {
  import opened Types
  import Strings

  /** The request field a hole's text comes from; header slots carry the header's index. */
  datatype Slot = MethodSlot | UrlSlot | KeySlot(index: nat) | ValueSlot(index: nat) | BodySlot | HeadersSlot

  datatype Piece = Lit(text: string) | Hole(slot: Slot, text: string)

  /** The text a template produces. */
  function Render(ps: seq<Piece>): string {
    if ps == [] then [] else ps[0].text + Render(ps[1..])
  }

  /** The holes of a template, in order. */
  function Holes(ps: seq<Piece>): (r: seq<Piece>)
    ensures forall i :: 0 <= i < |r| ==> r[i].Hole?
  {
    if ps == [] then [] else (if ps[0].Hole? then [ps[0]] else []) + Holes(ps[1..])
  }

  /** The template with the text of every hole erased: what does not depend on the request's text. */
  function Skeleton(ps: seq<Piece>): (r: seq<Piece>)
    ensures |r| == |ps|
  {
    if ps == [] then [] else [if ps[0].Hole? then Hole(ps[0].slot, []) else ps[0]] + Skeleton(ps[1..])
  }

  lemma {:induction false} RenderAppend(a: seq<Piece>, b: seq<Piece>)
    ensures Render(a + b) == Render(a) + Render(b)
  {
    if a == [] {
      assert a + b == b;
    } else {
      assert (a + b)[1..] == a[1..] + b;
      RenderAppend(a[1..], b);
    }
  }

  lemma {:induction false} HolesAppend(a: seq<Piece>, b: seq<Piece>)
    ensures Holes(a + b) == Holes(a) + Holes(b)
  {
    if a == [] {
      assert a + b == b;
    } else {
      assert (a + b)[1..] == a[1..] + b;
      HolesAppend(a[1..], b);
    }
  }

  lemma {:induction false} SkeletonAppend(a: seq<Piece>, b: seq<Piece>)
    ensures Skeleton(a + b) == Skeleton(a) + Skeleton(b)
  {
    if a == [] {
      assert a + b == b;
    } else {
      assert (a + b)[1..] == a[1..] + b;
      SkeletonAppend(a[1..], b);
    }
  }

  /** `parts.join(sep)` on templates: a literal separator between consecutive parts. */
  function JoinPieces(parts: seq<seq<Piece>>, sep: string): seq<Piece> {
    if |parts| == 0 then []
    else if |parts| == 1 then parts[0]
    else parts[0] + [Lit(sep)] + JoinPieces(parts[1..], sep)
  }

  function Concat(xs: seq<seq<Piece>>): seq<Piece> {
    if xs == [] then [] else xs[0] + Concat(xs[1..])
  }

  /** Joining parts renders as joining their renderings, as `Array.prototype.join` does. */
  lemma {:induction false} RenderJoin(parts: seq<seq<Piece>>, sep: string)
    ensures Render(JoinPieces(parts, sep))
      == Strings.Join(seq(|parts|, i requires 0 <= i < |parts| => Render(parts[i])), sep)
  {
    var rs := seq(|parts|, i requires 0 <= i < |parts| => Render(parts[i]));
    if |parts| >= 2 {
      var tail := JoinPieces(parts[1..], sep);
      RenderAppend(parts[0] + [Lit(sep)], tail);
      RenderAppend(parts[0], [Lit(sep)]);
      RenderJoin(parts[1..], sep);
      assert rs[1..] == seq(|parts[1..]|, i requires 0 <= i < |parts[1..]| => Render(parts[1..][i]));
    }
  }

  /** The separator adds no hole: the holes of a join are those of the parts, in order. */
  lemma {:induction false} HolesJoin(parts: seq<seq<Piece>>, sep: string)
    ensures Holes(JoinPieces(parts, sep)) == Concat(seq(|parts|, i requires 0 <= i < |parts| => Holes(parts[i])))
  {
    var hs := seq(|parts|, i requires 0 <= i < |parts| => Holes(parts[i]));
    if |parts| == 1 {
      assert Concat(hs) == hs[0] + Concat([]);
    } else if |parts| >= 2 {
      HolesAppend(parts[0] + [Lit(sep)], JoinPieces(parts[1..], sep));
      HolesAppend(parts[0], [Lit(sep)]);
      HolesJoin(parts[1..], sep);
      assert hs[1..] == seq(|parts[1..]|, i requires 0 <= i < |parts[1..]| => Holes(parts[1..][i]));
    }
  }

  /** The skeleton of a join depends only on the parts' skeletons. */
  lemma {:induction false} SkeletonJoin(a: seq<seq<Piece>>, b: seq<seq<Piece>>, sep: string)
    requires |a| == |b| && forall i :: 0 <= i < |a| ==> Skeleton(a[i]) == Skeleton(b[i])
    ensures Skeleton(JoinPieces(a, sep)) == Skeleton(JoinPieces(b, sep))
  {
    if |a| >= 2 {
      SkeletonAppend(a[0] + [Lit(sep)], JoinPieces(a[1..], sep));
      SkeletonAppend(a[0], [Lit(sep)]);
      SkeletonAppend(b[0] + [Lit(sep)], JoinPieces(b[1..], sep));
      SkeletonAppend(b[0], [Lit(sep)]);
      SkeletonJoin(a[1..], b[1..], sep);
    }
  }

  /** Text, a hole, text: the shape of most interpolations. */
  function Three(a: string, s: Slot, t: string, b: string): seq<Piece> {
    [Lit(a), Hole(s, t), Lit(b)]
  }

  /** Text, a hole, text, a hole, text. */
  function Five(a: string, s1: Slot, t1: string, b: string, s2: Slot, t2: string, c: string): seq<Piece> {
    [Lit(a), Hole(s1, t1), Lit(b), Hole(s2, t2), Lit(c)]
  }

  lemma ThreeHoles(a: string, s: Slot, t: string, b: string)
    ensures Holes(Three(a, s, t, b)) == [Hole(s, t)]
  {
    var p := Three(a, s, t, b);
    assert p[2..][1..] == [];
    assert p[1..][1..] == p[2..];
    assert Holes(p[2..]) == [];
  }

  lemma ThreeRender(a: string, s: Slot, t: string, b: string)
    ensures Render(Three(a, s, t, b)) == a + t + b
  {
    var p := Three(a, s, t, b);
    assert p[2..][1..] == [];
    assert p[1..][1..] == p[2..];
    assert Render(p[2..]) == b;
    assert Render(p[1..]) == t + b;
  }

  lemma ThreeSkeleton(a: string, s: Slot, t: string, b: string)
    ensures Skeleton(Three(a, s, t, b)) == Three(a, s, [], b)
  {
    var p := Three(a, s, t, b);
    assert p[2..][1..] == [];
    assert p[1..][1..] == p[2..];
    assert Skeleton(p[2..]) == [Lit(b)];
    assert Skeleton(p[1..]) == [Hole(s, []), Lit(b)];
  }

  /** The last two pieces of a five-piece template: a hole and the closing text. */
  lemma FiveTail(p: seq<Piece>, s2: Slot, t2: string, c: string)
    requires |p| == 5 && p[3] == Hole(s2, t2) && p[4] == Lit(c)
    ensures Holes(p[3..]) == [p[3]] && Render(p[3..]) == t2 + c && Skeleton(p[3..]) == [Hole(s2, []), Lit(c)]
  {
    assert p[4..][1..] == [];
    assert p[3..][1..] == p[4..];
    assert Holes(p[4..]) == [] && Render(p[4..]) == c && Skeleton(p[4..]) == [Lit(c)];
  }

  lemma FiveHoles(a: string, s1: Slot, t1: string, b: string, s2: Slot, t2: string, c: string)
    ensures Holes(Five(a, s1, t1, b, s2, t2, c)) == [Hole(s1, t1), Hole(s2, t2)]
  {
    var p := Five(a, s1, t1, b, s2, t2, c);
    FiveTail(p, s2, t2, c);
    assert p[2..][1..] == p[3..];
    assert p[1..][1..] == p[2..];
    assert Holes(p[2..]) == [p[3]];
    assert Holes(p[1..]) == [p[1], p[3]];
  }

  lemma FiveRender(a: string, s1: Slot, t1: string, b: string, s2: Slot, t2: string, c: string)
    ensures Render(Five(a, s1, t1, b, s2, t2, c)) == a + t1 + b + t2 + c
  {
    var p := Five(a, s1, t1, b, s2, t2, c);
    FiveTail(p, s2, t2, c);
    assert p[2..][1..] == p[3..];
    assert p[1..][1..] == p[2..];
    assert Render(p[2..]) == b + (t2 + c);
    assert Render(p[1..]) == t1 + (b + (t2 + c));
    assert Render(p) == a + (t1 + (b + (t2 + c)));
  }

  lemma FiveSkeleton(a: string, s1: Slot, t1: string, b: string, s2: Slot, t2: string, c: string)
    ensures Skeleton(Five(a, s1, t1, b, s2, t2, c)) == Five(a, s1, [], b, s2, [], c)
  {
    var p := Five(a, s1, t1, b, s2, t2, c);
    FiveTail(p, s2, t2, c);
    assert p[2..][1..] == p[3..];
    assert p[1..][1..] == p[2..];
    assert Skeleton(p[2..]) == [Lit(b), Hole(s2, []), Lit(c)];
    assert Skeleton(p[1..]) == [Hole(s1, []), Lit(b), Hole(s2, []), Lit(c)];
  }

  /** One generated header line: literal text around the header's key and value. */
  function HeaderLine(h: Header, i: nat, before: string, mid: string, after: string): seq<Piece> {
    Five(before, KeySlot(i), h.key, mid, ValueSlot(i), h.value, after)
  }

  /** `headers.map((h) => before + h.key + mid + h.value + after).join('\n')`. */
  function HeaderLines(hs: seq<Header>, before: string, mid: string, after: string): seq<Piece> {
    JoinPieces(seq(|hs|, i requires 0 <= i < |hs| => HeaderLine(hs[i], i, before, mid, after)), "\n")
  }

  /** The holes of the header block: each header's key then value, verbatim, in list order. */
  predicate EveryHeaderVerbatim(holes: seq<Piece>, hs: seq<Header>) {
    && |holes| == 2 * |hs|
    && forall i :: 0 <= i < |hs| ==>
      holes[2 * i] == Hole(KeySlot(i), hs[i].key) && holes[2 * i + 1] == Hole(ValueSlot(i), hs[i].value)
  }

  lemma {:induction false} ConcatPairs(xs: seq<seq<Piece>>, hs: seq<Header>, k: nat)
    requires |xs| == |hs|
    requires forall i :: 0 <= i < |xs| ==>
      xs[i] == [Hole(KeySlot(k + i), hs[i].key), Hole(ValueSlot(k + i), hs[i].value)]
    ensures |Concat(xs)| == 2 * |hs|
    ensures forall i :: 0 <= i < |hs| ==>
      Concat(xs)[2 * i] == Hole(KeySlot(k + i), hs[i].key) && Concat(xs)[2 * i + 1] == Hole(ValueSlot(k + i), hs[i].value)
  {
    if xs != [] {
      ConcatPairs(xs[1..], hs[1..], k + 1);
      var c := Concat(xs);
      assert c == xs[0] + Concat(xs[1..]);
      forall i | 0 <= i < |hs|
        ensures c[2 * i] == Hole(KeySlot(k + i), hs[i].key) && c[2 * i + 1] == Hole(ValueSlot(k + i), hs[i].value)
      {
        if i > 0 {
          assert c[2 * i] == Concat(xs[1..])[2 * (i - 1)];
          assert c[2 * i + 1] == Concat(xs[1..])[2 * (i - 1) + 1];
          assert hs[1..][i - 1] == hs[i];
        }
      }
    }
  }

  /** One line per header, in order, with key and value inserted as they are. */
  lemma HeaderLinesHoles(hs: seq<Header>, before: string, mid: string, after: string)
    ensures EveryHeaderVerbatim(Holes(HeaderLines(hs, before, mid, after)), hs)
  {
    var parts := seq(|hs|, i requires 0 <= i < |hs| => HeaderLine(hs[i], i, before, mid, after));
    HolesJoin(parts, "\n");
    var xs := seq(|parts|, i requires 0 <= i < |parts| => Holes(parts[i]));
    forall i | 0 <= i < |xs|
      ensures xs[i] == [Hole(KeySlot(0 + i), hs[i].key), Hole(ValueSlot(0 + i), hs[i].value)]
    {
      FiveHoles(before, KeySlot(i), hs[i].key, mid, ValueSlot(i), hs[i].value, after);
    }
    ConcatPairs(xs, hs, 0);
  }

  /** `headers.map((h) => before + h.key + mid + h.value + after).join('\n')` on strings. */
  function HeaderText(hs: seq<Header>, before: string, mid: string, after: string): string {
    Strings.Join(seq(|hs|, i requires 0 <= i < |hs| => before + hs[i].key + mid + hs[i].value + after), "\n")
  }

  /** The header block renders as the source's `map` and `join`. */
  lemma HeaderLinesRender(hs: seq<Header>, before: string, mid: string, after: string)
    ensures Render(HeaderLines(hs, before, mid, after)) == HeaderText(hs, before, mid, after)
  {
    var parts := seq(|hs|, i requires 0 <= i < |hs| => HeaderLine(hs[i], i, before, mid, after));
    RenderJoin(parts, "\n");
    var rs := seq(|parts|, i requires 0 <= i < |parts| => Render(parts[i]));
    forall i | 0 <= i < |hs|
      ensures rs[i] == before + hs[i].key + mid + hs[i].value + after
    {
      FiveRender(before, KeySlot(i), hs[i].key, mid, ValueSlot(i), hs[i].value, after);
    }
    assert rs == seq(|hs|, i requires 0 <= i < |hs| => before + hs[i].key + mid + hs[i].value + after);
  }

  /** The header block's literal text depends only on how many headers there are. */
  lemma HeaderLinesSkeleton(a: seq<Header>, b: seq<Header>, before: string, mid: string, after: string)
    requires |a| == |b|
    ensures Skeleton(HeaderLines(a, before, mid, after)) == Skeleton(HeaderLines(b, before, mid, after))
  {
    var pa := seq(|a|, i requires 0 <= i < |a| => HeaderLine(a[i], i, before, mid, after));
    var pb := seq(|b|, i requires 0 <= i < |b| => HeaderLine(b[i], i, before, mid, after));
    forall i | 0 <= i < |a|
      ensures Skeleton(pa[i]) == Skeleton(pb[i])
    {
      FiveSkeleton(before, KeySlot(i), a[i].key, mid, ValueSlot(i), a[i].value, after);
      FiveSkeleton(before, KeySlot(i), b[i].key, mid, ValueSlot(i), b[i].value, after);
    }
    SkeletonJoin(pa, pb, "\n");
  }

  lemma LitFacts(s: string)
    ensures Holes([Lit(s)]) == [] && Render([Lit(s)]) == s && Skeleton([Lit(s)]) == [Lit(s)]
  {
    assert [Lit(s)][1..] == [];
  }

  /** The holes are `first`, then every header's key and value in list order, then `last`. */
  predicate HeaderHolesBetween(holes: seq<Piece>, first: seq<Piece>, hs: seq<Header>, last: seq<Piece>) {
    && |holes| == |first| + 2 * |hs| + |last|
    && holes[..|first|] == first
    && EveryHeaderVerbatim(holes[|first|..|first| + 2 * |hs|], hs)
    && holes[|first| + 2 * |hs|..] == last
  }

  lemma HeaderHolesBetweenIntro(first: seq<Piece>, hs: seq<Header>, before: string, mid: string, after: string, last: seq<Piece>)
    ensures HeaderHolesBetween(first + Holes(HeaderLines(hs, before, mid, after)) + last, first, hs, last)
  {
    var h := Holes(HeaderLines(hs, before, mid, after));
    HeaderLinesHoles(hs, before, mid, after);
    var all := first + h + last;
    assert all[|first|..|first| + 2 * |hs|] == h;
    assert all[|first| + 2 * |hs|..] == last;
  }
}
