/**
 * `replaceVariables`: every match of the global regular expression `{{(.*?)}}` is
 * replaced by the value of the first variable whose key equals the trimmed name,
 * or by the empty string when there is none. The regular expression is modelled
 * as a left-to-right scanner: `.*?` is lazy and `.` refuses line terminators.
 */
module Placeholders {
  import opened Wrappers
  import opened Strings
  import opened Types

  predicate ClosesAt(s: string, k: int) {
    0 <= k && k + 1 < |s| && s[k] == '}' && s[k + 1] == '}'
  }

  predicate NoLineTerminator(s: string) {
    forall j :: 0 <= j < |s| ==> !IsLineTerminator(s[j])
  }

  /**
   * Where the lazy `(.*?)}}` that follows an opening `{{` ends: the first `}}` in `s`,
   * provided no line terminator comes before it.
   */
  function Close(s: string): (k: Option<nat>)
    ensures k.Some? ==> ClosesAt(s, k.value)
  {
    if |s| < 2 then None
    else if s[0] == '}' && s[1] == '}' then Some(0)
    else if IsLineTerminator(s[0]) then None
    else
      match Close(s[1..])
      case Some(k) => Some(k + 1)
      case None => None
  }

  /**
   * The match closes at the first `}}` of `s`, with no line terminator before it; there
   * is none when every `}}` has a line terminator before it.
   */
  lemma {:induction false} CloseMeaning(s: string)
    ensures Close(s).Some? ==> NoLineTerminator(s[..Close(s).value])
    ensures Close(s).Some? ==> forall j :: 0 <= j < Close(s).value ==> !ClosesAt(s, j)
    ensures Close(s).None? ==> forall j :: ClosesAt(s, j) ==> !NoLineTerminator(s[..j])
  {
    if |s| < 2 || (s[0] == '}' && s[1] == '}') {
    } else if IsLineTerminator(s[0]) {
      forall j | ClosesAt(s, j) ensures !NoLineTerminator(s[..j]) {
        assert s[..j][0] == s[0];
      }
    } else {
      CloseMeaning(s[1..]);
      match Close(s[1..])
      case Some(k) =>
        assert s[..k + 1] == [s[0]] + s[1..][..k];
        forall j | 0 <= j < k + 1 ensures !ClosesAt(s, j) {
          if j >= 1 {
            assert ClosesAt(s, j) ==> ClosesAt(s[1..], j - 1);
          }
        }
      case None =>
        forall j | ClosesAt(s, j) ensures !NoLineTerminator(s[..j]) {
          assert j >= 1;
          assert ClosesAt(s[1..], j - 1);
          var m :| 0 <= m < j - 1 && IsLineTerminator(s[1..][..j - 1][m]);
          assert s[..j][m + 1] == s[1..][..j - 1][m];
        }
    }
  }

  /** Index of the first variable with key `name`, or -1 (`variables.find`). */
  function FindIndex(vars: seq<Variable>, name: string): (i: int)
    ensures -1 <= i < |vars|
    ensures i == -1 <==> forall j :: 0 <= j < |vars| ==> vars[j].key != name
    ensures i >= 0 ==> vars[i].key == name && forall j :: 0 <= j < i ==> vars[j].key != name
  {
    if vars == [] then -1
    else if vars[0].key == name then 0
    else
      var i := FindIndex(vars[1..], name);
      if i == -1 then -1 else i + 1
  }

  /** `found ? found.value : ''`. */
  function Lookup(vars: seq<Variable>, name: string): (v: string)
    ensures FindIndex(vars, name) >= 0 ==> v == vars[FindIndex(vars, name)].value
    ensures FindIndex(vars, name) == -1 ==> v == []
  {
    var i := FindIndex(vars, name);
    if i == -1 then [] else vars[i].value
  }

  /** A placeholder opens at `i`: `{{` there, closed later on the same line. */
  predicate OpensAt(s: string, i: int) {
    0 <= i && i + 1 < |s| && s[i] == '{' && s[i + 1] == '{' && Close(s[i + 2..]).Some?
  }

  /** The replacing scan: one pass, left to right, each match replaced by its lookup. */
  function Scan(s: string, vars: seq<Variable>): string
    decreases |s|
  {
    if s == [] then []
    else if OpensAt(s, 0) then
      var k := Close(s[2..]).value;
      Lookup(vars, Trim(s[2..2 + k])) + Scan(s[2 + k + 2..], vars)
    else [s[0]] + Scan(s[1..], vars)
  }

  /** `replaceVariables(str, variables)`. */
  function ReplaceVariables(str: string, vars: seq<Variable>): (r: string)
    ensures str == [] ==> r == str
  {
    if str == [] then str else Scan(str, vars)
  }

  /** No placeholder opens anywhere in `s`. */
  predicate NoPlaceholder(s: string) {
    forall i :: 0 <= i < |s| ==> !OpensAt(s, i)
  }

  /** Text without a placeholder comes back unchanged, whatever the variables. */
  lemma {:induction false} NoPlaceholderUnchanged(s: string, vars: seq<Variable>)
    requires NoPlaceholder(s)
    ensures ReplaceVariables(s, vars) == s
  {
    if s != [] {
      assert !OpensAt(s, 0);
      assert NoPlaceholder(s[1..]) by {
        forall i | 0 <= i < |s[1..]| ensures !OpensAt(s[1..], i) {
          assert !OpensAt(s, i + 1);
          if i + 1 < |s[1..]| {
            assert s[1..][i + 2..] == s[i + 3..];
          }
        }
      }
      NoPlaceholderUnchanged(s[1..], vars);
      assert Scan(s[1..], vars) == s[1..];
      assert Scan(s, vars) == [s[0]] + Scan(s[1..], vars);
      assert [s[0]] + s[1..] == s;
    }
  }

  /** An opening `{{` that is never closed (no `}}` anywhere) passes through untouched. */
  lemma UnclosedUnchanged(s: string, vars: seq<Variable>)
    requires forall k :: !ClosesAt(s, k)
    ensures ReplaceVariables(s, vars) == s
  {
    forall i | 0 <= i < |s| ensures !OpensAt(s, i) {
      if i + 1 < |s| {
        var t := s[i + 2..];
        assert forall k :: 0 <= k < |t| ==> t[k] == s[i + 2 + k];
        assert forall k :: !ClosesAt(t, k) by {
          forall k | 0 <= k ensures !ClosesAt(t, k) {
            assert !ClosesAt(s, i + 2 + k);
          }
        }
      }
    }
    NoPlaceholderUnchanged(s, vars);
  }

  /** The lazy match closes at the first `}}` after a name with no `}` and no line break. */
  lemma {:induction false} CloseAfterName(name: string, rest: string)
    requires '}' !in name && NoLineTerminator(name)
    ensures Close(name + "}}" + rest) == Some(|name|)
  {
    if name != [] {
      assert (name + "}}" + rest)[1..] == name[1..] + "}}" + rest;
      assert name[0] in name;
      CloseAfterName(name[1..], rest);
    }
  }

  /**
   * A placeholder `{{name}}` becomes the value of the first variable whose key is the
   * trimmed name (or the empty string), inserted literally, and the scan resumes after it.
   */
  lemma ReplaceToken(name: string, rest: string, vars: seq<Variable>)
    requires '}' !in name && NoLineTerminator(name)
    ensures ReplaceVariables("{{" + name + "}}" + rest, vars) == Lookup(vars, Trim(name)) + ReplaceVariables(rest, vars)
  {
    var s := "{{" + name + "}}" + rest;
    TokenParts(name, rest);
    CloseAfterName(name, rest);
    ScanAt(s, |name|, vars);
    assert Scan(rest, vars) == ReplaceVariables(rest, vars);
  }

  /** Where the pieces of a token text sit. */
  lemma TokenParts(name: string, rest: string)
    ensures var s := "{{" + name + "}}" + rest;
      && s[0] == '{' && s[1] == '{' && s[2..] == name + "}}" + rest
      && s[2..2 + |name|] == name && s[2 + |name| + 2..] == rest
  {
  }

  /** The scan at a placeholder that closes `k` characters after its `{{`. */
  /** One step of the scan at an opening: the lookup of the trimmed name, then the rest. */
  lemma ScanOpen(s: string, vars: seq<Variable>)
    requires s != [] && OpensAt(s, 0)
    ensures Scan(s, vars) == Lookup(vars, Trim(s[2..2 + Close(s[2..]).value])) + Scan(s[2 + Close(s[2..]).value + 2..], vars)
  {
  }

  lemma ScanAt(s: string, k: nat, vars: seq<Variable>)
    requires |s| >= 2 && s[0] == '{' && s[1] == '{' && Close(s[2..]) == Some(k)
    ensures Scan(s, vars) == Lookup(vars, Trim(s[2..2 + k])) + Scan(s[2 + k + 2..], vars)
  {
    assert OpensAt(s, 0);
    ScanOpen(s, vars);
  }

  /** Characters before any `{` are copied as they are. */
  lemma {:induction false} LiteralPrefix(pre: string, t: string, vars: seq<Variable>)
    requires '{' !in pre
    ensures Scan(pre + t, vars) == pre + Scan(t, vars)
  {
    if pre != [] {
      assert pre[0] in pre;
      assert (pre + t)[0] == pre[0] != '{';
      assert !OpensAt(pre + t, 0);
      assert (pre + t)[1..] == pre[1..] + t;
      assert Scan(pre + t, vars) == [pre[0]] + Scan(pre[1..] + t, vars);
      LiteralPrefix(pre[1..], t, vars);
      assert [pre[0]] + (pre[1..] + Scan(t, vars)) == pre + Scan(t, vars);
    } else {
      assert pre + t == t;
    }
  }

  /**
   * With no variable of that name the placeholder is removed: with an empty variable
   * list every placeholder disappears from the text.
   */
  lemma MissingNameRemoved(pre: string, name: string, rest: string, vars: seq<Variable>)
    requires '{' !in pre && '}' !in name && NoLineTerminator(name)
    requires forall j :: 0 <= j < |vars| ==> vars[j].key != Trim(name)
    ensures ReplaceVariables(pre + "{{" + name + "}}" + rest, vars) == pre + ReplaceVariables(rest, vars)
  {
    var tok := "{{" + name + "}}" + rest;
    assert pre + "{{" + name + "}}" + rest == pre + tok;
    assert Lookup(vars, Trim(name)) == [];
    ReplaceToken(name, rest, vars);
    assert Scan(tok, vars) == ReplaceVariables(rest, vars);
    LiteralPrefix(pre, tok, vars);
  }

  /** A placeholder that opens at the front is itself closed: its `}}` follows on the same line. */
  lemma OpenedIsClosed(u: string)
    requires OpensAt(u, 0)
    ensures Close(u).Some?
  {
    var k := Close(u[2..]).value;
    assert u[1..][1..] == u[2..];
    assert Close(u[1..]) == Some(k + 1);
  }

  /**
   * Removing the placeholders of a text in which every `}}` is preceded by a line break
   * keeps that so: the line break is never inside a placeholder.
   */
  lemma {:induction false} StripKeepsUnclosed(t: string)
    requires Close(t).None?
    ensures Close(Scan(t, [])).None?
    decreases |t|
  {
    if t == [] {
    } else if OpensAt(t, 0) {
      OpenedIsClosed(t);
    } else {
      var x := Scan(t[1..], []);
      ScanPlain(t, []);
      if IsLineTerminator(t[0]) {
      } else if |t| >= 2 {
        assert Close(t[1..]).None?;
        StripKeepsUnclosed(t[1..]);
        if OpensAt(t[1..], 0) {
          OpenedIsClosed(t[1..]);
        } else if x != [] {
          ScanPlain(t[1..], []);
          assert ([t[0]] + x)[1..] == x;
        }
      }
    }
  }

  lemma ShiftOpens(c: char, x: string, i: nat)
    requires i < |x|
    ensures OpensAt([c] + x, i + 1) == OpensAt(x, i)
  {
    if i + 1 < |x| {
      assert ([c] + x)[i + 3..] == x[i + 2..];
    }
  }

  /** With no variables at all, no placeholder survives the substitution. */
  lemma {:induction false} EmptyVariablesLeaveNoPlaceholder(s: string)
    ensures NoPlaceholder(ReplaceVariables(s, []))
    decreases |s|
  {
    if s == [] {
    } else if OpensAt(s, 0) {
      var k := Close(s[2..]).value;
      var rest := s[2 + k + 2..];
      EmptyVariablesLeaveNoPlaceholder(rest);
      assert ReplaceVariables(rest, []) == Scan(rest, []);
      ScanAt(s, k, []);
      EmptyLookup(Trim(s[2..2 + k]));
      assert Scan(s, []) == [] + Scan(rest, []);
      assert [] + Scan(rest, []) == Scan(rest, []);
      assert ReplaceVariables(s, []) == ReplaceVariables(rest, []);
    } else {
      var x := Scan(s[1..], []);
      EmptyVariablesLeaveNoPlaceholder(s[1..]);
      assert ReplaceVariables(s[1..], []) == x;
      ScanPlain(s, []);
      HeadNotOpen(s);
      ConsNoPlaceholder(s[0], x);
    }
  }

  lemma EmptyLookup(name: string)
    ensures Lookup([], name) == []
  {
  }

  /** A character put before a text without placeholders opens none further on. */
  lemma ConsNoPlaceholder(c: char, x: string)
    requires NoPlaceholder(x) && !OpensAt([c] + x, 0)
    ensures NoPlaceholder([c] + x)
  {
    forall i | 1 <= i < |[c] + x| ensures !OpensAt([c] + x, i) {
      ShiftOpens(c, x, i - 1);
    }
  }

  /** One step of the scan where nothing opens: the character is copied. */
  lemma ScanPlain(s: string, vars: seq<Variable>)
    requires s != [] && !OpensAt(s, 0)
    ensures Scan(s, vars) == [s[0]] + Scan(s[1..], vars)
  {
  }

  /** The first character of a scan that copies its first character opens no placeholder. */
  lemma HeadNotOpen(s: string)
    requires s != [] && !OpensAt(s, 0)
    ensures !OpensAt([s[0]] + Scan(s[1..], []), 0)
  {
    if s[0] == '{' && |s| >= 2 {
      if s[1] != '{' {
        ScanPlain(s[1..], []);
      } else {
        DoubleBraceNotOpen(s);
      }
    }
  }

  /** `{{` with no `}}` after it on its line stays unopened once the rest is scanned. */
  lemma DoubleBraceNotOpen(s: string)
    requires |s| >= 2 && s[0] == '{' && s[1] == '{' && !OpensAt(s, 0)
    ensures !OpensAt([s[0]] + Scan(s[1..], []), 0)
  {
    assert Close(s[2..]).None?;
    assert !OpensAt(s[1..], 0) by {
      if |s| >= 3 && s[2] == '{' {
        assert s[1..][2..] == s[3..];
        assert s[2..][1..] == s[3..];
      }
    }
    ScanPlain(s[1..], []);
    StripKeepsUnclosed(s[2..]);
    var out := [s[0]] + Scan(s[1..], []);
    assert out[2..] == Scan(s[2..], []);
  }

  /** A substituted value that itself looks like a placeholder is not expanded again. */
  lemma NoReexpansion()
    ensures ReplaceVariables("{{a}}", [Variable("a", "{{b}}"), Variable("b", "X")]) == "{{b}}"
  {
    var vars := [Variable("a", "{{b}}"), Variable("b", "X")];
    assert Trim("a") == "a" by {
      assert TrimStart("a") == "a";
      assert TrimEnd("a") == "a";
    }
    assert Lookup(vars, "a") == "{{b}}" by {
      assert FindIndex(vars, "a") == 0;
    }
    assert "{{a}}" == "{{" + "a" + "}}" + "";
    ReplaceToken("a", "", vars);
  }

  /** `replaceVariablesInHeaders`: key and value of each header replaced independently. */
  function ReplaceVariablesInHeaders(headers: seq<Header>, vars: seq<Variable>): (r: seq<Header>)
    ensures |r| == |headers|
    ensures forall i :: 0 <= i < |r| ==>
      r[i] == Header(ReplaceVariables(headers[i].key, vars), ReplaceVariables(headers[i].value, vars))
  {
    seq(|headers|, i requires 0 <= i < |headers| =>
      Header(ReplaceVariables(headers[i].key, vars), ReplaceVariables(headers[i].value, vars)))
  }

  /** Headers without placeholders are returned as they are. */
  lemma HeadersWithoutPlaceholders(headers: seq<Header>, vars: seq<Variable>)
    requires forall i :: 0 <= i < |headers| ==> NoPlaceholder(headers[i].key) && NoPlaceholder(headers[i].value)
    ensures ReplaceVariablesInHeaders(headers, vars) == headers
  {
    forall i | 0 <= i < |headers|
      ensures ReplaceVariablesInHeaders(headers, vars)[i] == headers[i]
    {
      NoPlaceholderUnchanged(headers[i].key, vars);
      NoPlaceholderUnchanged(headers[i].value, vars);
    }
  }
}
