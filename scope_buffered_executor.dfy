/** framework/details/scope_buffered_ssa_graph_executor.cc: before a run,
  * each local scope gets a fresh local execution scope and the program's
  * variables are created either in the local scope itself (the "outer"
  * scope, kept across runs) or in the local execution scope (deleted after
  * the run). The underlying executor's outcome is given as a parameter. */
module ScopeBufferedExecutor {
  import opened Wrappers

  /** `sub` occurs in `s` (std::string::find != npos). */
  predicate Contains(s: string, sub: string)
  {
    sub <= s || (|s| > 0 && Contains(s[1..], sub))
  }

  /** A VariableInfo: the variable's name and whether it is persistable. */
  datatype VariableInfo = VariableInfo(name: string, persistable: bool)

  /** The placement rule: persistable variables, names without "tmp", and
    * temporaries of reduce_sum, transpose, reshape2 and fc ops live in the
    * outer scope; every other temporary lives in the local execution scope. */
  predicate GoesToOuterScope(info: VariableInfo)
  {
    info.persistable || !Contains(info.name, "tmp") ||
    Contains(info.name, "reduce_sum_") || Contains(info.name, "transpose_") ||
    Contains(info.name, "reshape2_") || Contains(info.name, "fc_")
  }

  /** The variables of the outer scope and of the local execution scope
    * after creating `infos` in order into a scope that already holds
    * `outer`; a name the outer scope holds is not created again. */
  function Place(outer: set<string>, infos: seq<VariableInfo>): (set<string>, set<string>)
  {
    if infos == [] then (outer, {}) else
      var (o, l) := Place(outer, infos[..|infos| - 1]);
      var info := infos[|infos| - 1];
      if info.name in o then (o, l)
      else if GoesToOuterScope(info) then (o + {info.name}, l)
      else (o, l + {info.name})
  }

  /** Every variable ends up in one of the two scopes; the outer scope only
    * gains names whose info goes there, and the local execution scope only
    * names that go there and that the outer scope did not hold. */
  lemma {:induction false} PlaceSound(outer: set<string>, infos: seq<VariableInfo>)
    ensures outer <= Place(outer, infos).0
    ensures forall i :: 0 <= i < |infos| ==> infos[i].name in Place(outer, infos).0 || infos[i].name in Place(outer, infos).1
    ensures forall n :: n in Place(outer, infos).0 - outer ==>
      exists i :: 0 <= i < |infos| && infos[i].name == n && GoesToOuterScope(infos[i])
    ensures forall n :: n in Place(outer, infos).1 ==>
      n !in outer && exists i :: 0 <= i < |infos| && infos[i].name == n && !GoesToOuterScope(infos[i])
  {
    if infos != [] {
      var front := infos[..|infos| - 1];
      PlaceSound(outer, front);
      var o, l := Place(outer, front).0, Place(outer, front).1;
      var o', l' := Place(outer, infos).0, Place(outer, infos).1;
      forall i | 0 <= i < |infos|
        ensures infos[i].name in o' || infos[i].name in l'
      {
        if i < |front| {
          assert infos[i] == front[i];
        }
      }
      forall n | n in o' - outer
        ensures exists i :: 0 <= i < |infos| && infos[i].name == n && GoesToOuterScope(infos[i])
      {
        if n in o {
          assert n in Place(outer, front).0 - outer;
          var i :| 0 <= i < |front| && front[i].name == n && GoesToOuterScope(front[i]);
          assert infos[i] == front[i];
        } else {
          assert infos[|infos| - 1].name == n;
        }
      }
      forall n | n in l'
        ensures n !in outer && exists i :: 0 <= i < |infos| && infos[i].name == n && !GoesToOuterScope(infos[i])
      {
        if n in l {
          var i :| 0 <= i < |front| && front[i].name == n && !GoesToOuterScope(front[i]);
          assert infos[i] == front[i];
        } else {
          assert infos[|infos| - 1].name == n;
        }
      }
    }
  }

  /** With distinct names no variable is created in both scopes. */
  lemma {:induction false} PlaceDisjoint(outer: set<string>, infos: seq<VariableInfo>)
    requires forall i, j :: 0 <= i < j < |infos| ==> infos[i].name != infos[j].name
    ensures Place(outer, infos).0 !! Place(outer, infos).1
  {
    if infos != [] {
      var front := infos[..|infos| - 1];
      PlaceDisjoint(outer, front);
      PlaceSound(outer, front);
    }
  }

  /** What the placement rule makes of three typical names. */
  lemma PlacementExamples()
    ensures GoesToOuterScope(VariableInfo("w", false))
    ensures !GoesToOuterScope(VariableInfo("a.tmp", false))
    ensures GoesToOuterScope(VariableInfo("a.tmp", true))
    ensures GoesToOuterScope(VariableInfo("fc_.tmp", false))
  {
    ContainsAt("a.tmp", "tmp", 2);
    MissingCharNotContains("a.tmp", "reduce_sum_", 'r');
    MissingCharNotContains("a.tmp", "transpose_", 'r');
    MissingCharNotContains("a.tmp", "reshape2_", 'r');
    MissingCharNotContains("a.tmp", "fc_", 'f');
    ContainsAt("fc_.tmp", "fc_", 0);
  }

  /** `sub` occurs in `s` where it starts at position k. */
  lemma {:induction false} ContainsAt(s: string, sub: string, k: nat)
    requires k + |sub| <= |s| && s[k..k + |sub|] == sub
    ensures Contains(s, sub)
  {
    if k > 0 {
      assert s[1..][k - 1..k - 1 + |sub|] == sub;
      ContainsAt(s[1..], sub, k - 1);
    }
  }

  /** A string lacking one of the characters of `sub` does not contain it. */
  lemma {:induction false} MissingCharNotContains(s: string, sub: string, c: char)
    requires c in sub && c !in s
    ensures !Contains(s, sub)
  {
    if |s| > 0 {
      MissingCharNotContains(s[1..], sub, c);
    }
  }

  // ----- std::sort of var_infos_ by name -----

  /** std::string's operator<: lexicographic order on the characters, a
    * proper prefix coming first. */
  predicate NameLess(a: string, b: string)
  {
    if a == [] then b != []
    else if b == [] then false
    else if a[0] != b[0] then a[0] < b[0]
    else NameLess(a[1..], b[1..])
  }

  lemma {:induction false} NameLessIrreflexive(a: string)
    ensures !NameLess(a, a)
  {
    if a != [] {
      NameLessIrreflexive(a[1..]);
    }
  }

  lemma {:induction false} NameLessTransitive(a: string, b: string, c: string)
    requires NameLess(a, b) && NameLess(b, c)
    ensures NameLess(a, c)
  {
    if a != [] && a[0] == b[0] && b[0] == c[0] {
      NameLessTransitive(a[1..], b[1..], c[1..]);
    }
  }

  /** No variable info comes after one whose name is smaller. */
  predicate SortedByName(s: seq<VariableInfo>)
  {
    forall i, j :: 0 <= i < j < |s| ==> !NameLess(s[j].name, s[i].name)
  }

  /** `x` placed before the first info of `s` whose name is greater. */
  function Insert(x: VariableInfo, s: seq<VariableInfo>): seq<VariableInfo>
  {
    if s == [] then [x]
    else if NameLess(x.name, s[0].name) then [x] + s
    else [s[0]] + Insert(x, s[1..])
  }

  /** The order std::sort gives var_infos_, modelled as an insertion sort:
    * std::sort leaves the relative order of equal names unspecified, and
    * this model keeps them in their original order. */
  function SortByName(s: seq<VariableInfo>): seq<VariableInfo>
  {
    if s == [] then [] else Insert(s[|s| - 1], SortByName(s[..|s| - 1]))
  }

  lemma {:induction false} InsertPermutes(x: VariableInfo, s: seq<VariableInfo>)
    ensures multiset(Insert(x, s)) == multiset(s) + multiset{x}
  {
    if s != [] && !NameLess(x.name, s[0].name) {
      InsertPermutes(x, s[1..]);
      assert s == [s[0]] + s[1..];
    }
  }

  lemma {:induction false} InsertSorted(x: VariableInfo, s: seq<VariableInfo>)
    requires SortedByName(s)
    ensures SortedByName(Insert(x, s))
  {
    if s == [] {
    } else if NameLess(x.name, s[0].name) {
      forall j | 0 < j < |s| + 1
        ensures !NameLess(([x] + s)[j].name, x.name)
      {
        var e := s[j - 1];
        if NameLess(e.name, x.name) {
          NameLessTransitive(e.name, x.name, s[0].name);
          if j - 1 == 0 {
            NameLessIrreflexive(e.name);
          }
        }
      }
    } else {
      var t := Insert(x, s[1..]);
      InsertSorted(x, s[1..]);
      InsertPermutes(x, s[1..]);
      forall j | 0 <= j < |t|
        ensures !NameLess(t[j].name, s[0].name)
      {
        assert t[j] in multiset(s[1..]) + multiset{x};
        if t[j] != x {
          var k :| 0 <= k < |s[1..]| && s[1..][k] == t[j];
          assert s[k + 1] == t[j];
        }
      }
    }
  }

  /** SortByName puts the infos in order and keeps each of them. */
  lemma {:induction false} SortByNameSortsAndPermutes(s: seq<VariableInfo>)
    ensures SortedByName(SortByName(s)) && multiset(SortByName(s)) == multiset(s)
  {
    if s != [] {
      var front := s[..|s| - 1];
      SortByNameSortsAndPermutes(front);
      InsertSorted(s[|s| - 1], SortByName(front));
      InsertPermutes(s[|s| - 1], SortByName(front));
      assert s == front + [s[|s| - 1]];
    }
  }

  /** Inserting an info whose name no other name exceeds appends it. */
  lemma {:induction false} InsertLast(x: VariableInfo, s: seq<VariableInfo>)
    requires forall k :: 0 <= k < |s| ==> !NameLess(x.name, s[k].name)
    ensures Insert(x, s) == s + [x]
  {
    if s != [] {
      InsertLast(x, s[1..]);
      assert s == [s[0]] + s[1..];
    }
  }

  /** Sorting infos already in order leaves them unchanged, so the sort
    * that Run repeats for every local scope after the first changes nothing. */
  lemma {:induction false} SortByNameKeepsSorted(s: seq<VariableInfo>)
    requires SortedByName(s)
    ensures SortByName(s) == s
  {
    if s != [] {
      var front := s[..|s| - 1];
      assert SortedByName(front) by {
        forall i, j | 0 <= i < j < |front|
          ensures !NameLess(front[j].name, front[i].name)
        {
          assert front[i] == s[i] && front[j] == s[j];
        }
      }
      SortByNameKeepsSorted(front);
      InsertLast(s[|s| - 1], front);
      assert front + [s[|s| - 1]] == s;
    }
  }

  /** A fetched tensor, by the name it was fetched under. */
  datatype Tensor = Tensor(name: string)

  class ScopeBufferedSSAGraphExecutor {
    var dropScopeCounter: int
    var varInfos: seq<VariableInfo>
    /** The variables of each local scope. */
    var scopeVars: seq<set<string>>

    constructor(varInfos: seq<VariableInfo>, scopeVars: seq<set<string>>)
      ensures dropScopeCounter == 0 && this.varInfos == varInfos && this.scopeVars == scopeVars
    {
      dropScopeCounter := 0;
      this.varInfos := varInfos;
      this.scopeVars := scopeVars;
    }

    /** Run: with the counter at zero, every local scope, from the last to
      * the first, gets a local execution scope, var_infos_ is sorted by name
      * in place, and the variables are placed in that order; the underlying
      * executor runs, the counter is bumped, the local execution scopes are
      * deleted, the counter is reset, and the underlying outcome, result or
      * exception, is passed on. `localVars` are the variables the local
      * execution scopes held while the underlying executor ran. */
    method Run(underlying: Result<seq<Tensor>>) returns (r: Result<seq<Tensor>>, localVars: seq<set<string>>)
      modifies this
      ensures r == underlying
      ensures dropScopeCounter == 0
      ensures old(dropScopeCounter) == 0 && |old(scopeVars)| > 0 ==>
        varInfos == SortByName(old(varInfos)) && SortedByName(varInfos) &&
        multiset(varInfos) == multiset(old(varInfos))
      ensures old(dropScopeCounter) != 0 || |old(scopeVars)| == 0 ==> varInfos == old(varInfos)
      ensures old(dropScopeCounter) != 0 ==> scopeVars == old(scopeVars) && localVars == seq(|scopeVars|, k => {})
      ensures old(dropScopeCounter) == 0 ==>
        |scopeVars| == |localVars| == |old(scopeVars)| &&
        forall k :: 0 <= k < |scopeVars| ==>
          (scopeVars[k], localVars[k]) == Place(old(scopeVars)[k], varInfos)
    {
      localVars := seq(|scopeVars|, k => {});
      if dropScopeCounter == 0 {
        var k := |scopeVars|;
        SortByNameSortsAndPermutes(varInfos);
        SortByNameKeepsSorted(SortByName(varInfos));
        while k > 0
          invariant 0 <= k <= |scopeVars| == |localVars| == |old(scopeVars)|
          invariant forall j :: 0 <= j < k ==> scopeVars[j] == old(scopeVars)[j] && localVars[j] == {}
          invariant forall j :: k <= j < |scopeVars| ==> (scopeVars[j], localVars[j]) == Place(old(scopeVars)[j], varInfos)
          invariant k == |scopeVars| ==> varInfos == old(varInfos)
          invariant k < |scopeVars| ==> varInfos == SortByName(old(varInfos))
          invariant dropScopeCounter == old(dropScopeCounter)
        {
          k := k - 1;
          varInfos := SortByName(varInfos);
          var outer, local := CreateVariables(scopeVars[k], varInfos);
          scopeVars := scopeVars[k := outer];
          localVars := localVars[k := local];
        }
      }
      r := underlying;
      dropScopeCounter := dropScopeCounter + 1;
      dropScopeCounter := 0;
    }
  }

  /** The variable-creation loop for one local scope. */
  method CreateVariables(scopeVars: set<string>, infos: seq<VariableInfo>) returns (outer: set<string>, local: set<string>)
    ensures (outer, local) == Place(scopeVars, infos)
  {
    outer, local := scopeVars, {};
    var i := 0;
    while i < |infos|
      invariant 0 <= i <= |infos|
      invariant (outer, local) == Place(scopeVars, infos[..i])
    {
      assert infos[..i + 1][..i] == infos[..i];
      var info := infos[i];
      if info.name in outer {
      } else if GoesToOuterScope(info) {
        outer := outer + {info.name};
      } else {
        local := local + {info.name};
      }
      i := i + 1;
    }
    assert infos[..i] == infos;
  }
}
