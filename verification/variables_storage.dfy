/**
 * `addVariable` and `removeVariable`: the variable list as a set keyed by `key`.
 * Adding replaces every entry with the same key by one new entry at the end;
 * removing drops every entry with the key.
 */
module VariablesStorage {
  import opened Types
  import Placeholders

  /** Number of entries with the given key. */
  function CountKey(vars: seq<Variable>, key: string): (n: nat)
    ensures n <= |vars|
    ensures n == 0 <==> forall i :: 0 <= i < |vars| ==> vars[i].key != key
  {
    if vars == [] then 0
    else (if vars[0].key == key then 1 else 0) + CountKey(vars[1..], key)
  }

  /** `vars.filter((v) => v.key !== key)`. */
  function WithoutKey(vars: seq<Variable>, key: string): (r: seq<Variable>)
    ensures forall i :: 0 <= i < |r| ==> r[i].key != key
    ensures forall v :: v in r <==> v in vars && v.key != key
    ensures |r| == |vars| - CountKey(vars, key)
  {
    if vars == [] then []
    else if vars[0].key == key then WithoutKey(vars[1..], key)
    else [vars[0]] + WithoutKey(vars[1..], key)
  }

  /** `addVariable(vars, variable)`, without the call that persists the result. */
  function AddVariable(vars: seq<Variable>, variable: Variable): (r: seq<Variable>)
    ensures |r| == |vars| - CountKey(vars, variable.key) + 1
    ensures r[|r| - 1] == variable
    ensures CountKey(r, variable.key) == 1
    ensures forall v :: v in r[..|r| - 1] <==> v in vars && v.key != variable.key
  {
    var kept := WithoutKey(vars, variable.key);
    CountAppend(kept, [variable], variable.key);
    assert (kept + [variable])[..|kept|] == kept;
    kept + [variable]
  }

  /** `removeVariable(vars, key)`, without the call that persists the result. */
  function RemoveVariable(vars: seq<Variable>, key: string): (r: seq<Variable>)
    ensures forall i :: 0 <= i < |r| ==> r[i].key != key
    ensures forall v :: v in r <==> v in vars && v.key != key
    ensures CountKey(vars, key) == 0 ==> r == vars
  {
    var r := WithoutKey(vars, key);
    if CountKey(vars, key) == 0 then
      AbsentKeyKeepsAll(vars, key);
      r
    else r
  }

  lemma {:induction false} AbsentKeyKeepsAll(vars: seq<Variable>, key: string)
    requires CountKey(vars, key) == 0
    ensures WithoutKey(vars, key) == vars
  {
    if vars != [] {
      AbsentKeyKeepsAll(vars[1..], key);
      assert [vars[0]] + vars[1..] == vars;
    }
  }

  lemma {:induction false} CountAppend(a: seq<Variable>, b: seq<Variable>, key: string)
    ensures CountKey(a + b, key) == CountKey(a, key) + CountKey(b, key)
  {
    if a != [] {
      assert (a + b)[1..] == a[1..] + b;
      CountAppend(a[1..], b, key);
    } else {
      assert a + b == b;
    }
  }

  /** Filtering keeps relative order: it distributes over concatenation. */
  lemma {:induction false} WithoutKeyAppend(a: seq<Variable>, b: seq<Variable>, key: string)
    ensures WithoutKey(a + b, key) == WithoutKey(a, key) + WithoutKey(b, key)
  {
    if a == [] {
      assert a + b == b;
    } else {
      assert (a + b)[0] == a[0];
      assert (a + b)[1..] == a[1..] + b;
      WithoutKeyAppend(a[1..], b, key);
      if a[0].key != key {
        calc {
          WithoutKey(a + b, key);
          [a[0]] + WithoutKey(a[1..] + b, key);
          [a[0]] + (WithoutKey(a[1..], key) + WithoutKey(b, key));
          ([a[0]] + WithoutKey(a[1..], key)) + WithoutKey(b, key);
        }
      }
    }
  }

  /** Every entry with another key survives `addVariable`, in its original relative order. */
  lemma AddKeepsOthersInOrder(a: seq<Variable>, b: seq<Variable>, variable: Variable)
    ensures AddVariable(a + b, variable) == WithoutKey(a, variable.key) + WithoutKey(b, variable.key) + [variable]
  {
    WithoutKeyAppend(a, b, variable.key);
  }

  /**
   * `removeVariable` is a filter: it distributes over concatenation and keeps a single
   * entry exactly when its key differs, so every other entry survives, in order and with
   * its repeats.
   */
  lemma RemoveKeepsOthersInOrder(a: seq<Variable>, b: seq<Variable>, key: string)
    ensures RemoveVariable(a + b, key) == RemoveVariable(a, key) + RemoveVariable(b, key)
    ensures forall v :: RemoveVariable([v], key) == if v.key == key then [] else [v]
  {
    WithoutKeyAppend(a, b, key);
    forall v ensures RemoveVariable([v], key) == if v.key == key then [] else [v] {
      assert [v][1..] == [];
    }
  }

  predicate DistinctKeys(vars: seq<Variable>) {
    forall i, j :: 0 <= i < j < |vars| ==> vars[i].key != vars[j].key
  }

  /** Filtering picks a subsequence: it keeps keys pairwise distinct. */
  lemma {:induction false} WithoutKeyKeepsDistinct(vars: seq<Variable>, key: string)
    requires DistinctKeys(vars)
    ensures DistinctKeys(WithoutKey(vars, key))
  {
    if vars != [] {
      assert DistinctKeys(vars[1..]) by {
        forall i, j | 0 <= i < j < |vars[1..]| ensures vars[1..][i].key != vars[1..][j].key {
          assert vars[1..][i] == vars[i + 1] && vars[1..][j] == vars[j + 1];
        }
      }
      WithoutKeyKeepsDistinct(vars[1..], key);
      var rest := WithoutKey(vars[1..], key);
      if vars[0].key != key {
        forall j | 0 <= j < |rest| ensures rest[j].key != vars[0].key {
          assert rest[j] in vars[1..];
        }
      }
    }
  }

  /** A list with pairwise distinct keys keeps that property under `addVariable`. */
  lemma AddKeepsDistinct(vars: seq<Variable>, variable: Variable)
    requires DistinctKeys(vars)
    ensures DistinctKeys(AddVariable(vars, variable))
  {
    WithoutKeyKeepsDistinct(vars, variable.key);
  }

  /** Substitution sees a newly added variable, and every other key as before. */
  lemma {:induction false} LookupAfterAdd(vars: seq<Variable>, variable: Variable, name: string)
    ensures Placeholders.Lookup(AddVariable(vars, variable), name) ==
      if name == variable.key then variable.value else Placeholders.Lookup(vars, name)
  {
    var kept := WithoutKey(vars, variable.key);
    if name == variable.key {
      LookupAppendMissing(kept, [variable], name);
    } else {
      LookupWithoutOtherKey(vars, variable.key, name);
      LookupAppendFound(kept, [variable], name);
    }
  }

  /** After `removeVariable` the key substitutes to the empty string; other keys are untouched. */
  lemma LookupAfterRemove(vars: seq<Variable>, key: string, name: string)
    ensures Placeholders.Lookup(RemoveVariable(vars, key), name) ==
      if name == key then [] else Placeholders.Lookup(vars, name)
  {
    if name != key {
      LookupWithoutOtherKey(vars, key, name);
    }
  }

  lemma {:induction false} LookupWithoutOtherKey(vars: seq<Variable>, key: string, name: string)
    requires name != key
    ensures Placeholders.Lookup(WithoutKey(vars, key), name) == Placeholders.Lookup(vars, name)
  {
    if vars != [] {
      var rest := WithoutKey(vars[1..], key);
      LookupWithoutOtherKey(vars[1..], key, name);
      assert vars == [vars[0]] + vars[1..];
      LookupCons(vars[0], vars[1..], name);
      if vars[0].key != key {
        assert WithoutKey(vars, key) == [vars[0]] + rest;
        LookupCons(vars[0], rest, name);
      }
    }
  }

  /** The first entry answers the lookup when its key matches; otherwise the rest does. */
  lemma LookupCons(v: Variable, vs: seq<Variable>, name: string)
    ensures Placeholders.Lookup([v] + vs, name) == if v.key == name then v.value else Placeholders.Lookup(vs, name)
  {
    assert ([v] + vs)[1..] == vs;
  }

  lemma LookupAppendMissing(a: seq<Variable>, b: seq<Variable>, name: string)
    requires forall i :: 0 <= i < |a| ==> a[i].key != name
    ensures Placeholders.Lookup(a + b, name) == Placeholders.Lookup(b, name)
  {
    FindIndexAppend(a, b, name);
  }

  lemma LookupAppendFound(a: seq<Variable>, b: seq<Variable>, name: string)
    requires Placeholders.FindIndex(a, name) >= 0 || Placeholders.FindIndex(b, name) == -1
    ensures Placeholders.Lookup(a + b, name) == Placeholders.Lookup(a, name)
  {
    FindIndexAppend(a, b, name);
  }

  lemma {:induction false} FindIndexAppend(a: seq<Variable>, b: seq<Variable>, name: string)
    ensures Placeholders.FindIndex(a + b, name) ==
      if Placeholders.FindIndex(a, name) >= 0 then Placeholders.FindIndex(a, name)
      else if Placeholders.FindIndex(b, name) >= 0 then |a| + Placeholders.FindIndex(b, name)
      else -1
  {
    if a == [] {
      assert a + b == b;
    } else {
      assert (a + b)[1..] == a[1..] + b;
      FindIndexAppend(a[1..], b, name);
    }
  }
}
