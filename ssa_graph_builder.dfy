/** framework/details/ssa_graph_builder.cc: the helpers every SSA graph
  * builder uses to hand out variable versions, to order a write after the
  * reads of the previous version, and to give every operator an output. */
module SSAGraphBuilder {
  import opened Wrappers
  import opened SSAGraphs

  /** Version k of every (place, name) list is the handle of that name, that
    * place and version k: versions are the list positions 0, 1, 2, … */
  predicate Numbered(g: Graph)
  {
    forall p, n, k {:trigger g.versions[p][n][k]} :: 0 <= p < |g.versions| && n in g.versions[p] && 0 <= k < |g.versions[p][n]| ==>
      g.versions[p][n][k] < |g.vars| && g.vars[g.versions[p][n][k]].kind == Versioned(n, k, p)
  }

  /** The versions of `name` on place `p`; operator[] creates an empty list
    * for a name it has not seen. */
  function VersionsOf(g: Graph, p: nat, name: string): seq<VarId>
    requires p < |g.versions|
  {
    if name in g.versions[p] then g.versions[p][name] else []
  }

  // ---------------------------------------------------------------------
  // CreateOrGetLatestVarHandle

  /** The graph and the handle CreateOrGetLatestVarHandle leaves: the newest
    * version if there is one, else a new version 0. */
  function LatestVersion(g: Graph, p: nat, name: string): (Graph, VarId)
    requires p < |g.versions|
  {
    var list := VersionsOf(g, p, name);
    if list != [] then (g, list[|list| - 1])
    else
      var v := |g.vars|;
      (NewVar(g, Versioned(name, 0, p)).(versions := g.versions[p := g.versions[p][name := [v]]]), v)
  }

  method CreateOrGetLatestVarHandle(graph: SSAGraph, name: string, p: nat) returns (v: VarId)
    requires p < |graph.versions|
    modifies graph
    ensures (graph.Snapshot(), v) == LatestVersion(old(graph.Snapshot()), p, name)
  {
    var holder := if name in graph.versions[p] then graph.versions[p][name] else [];
    if holder == [] {
      v := graph.NewVarHandle(Versioned(name, 0, p));
      assert holder + [v] == [v];
      graph.versions := graph.versions[p := graph.versions[p][name := holder + [v]]];
    } else {
      v := holder[|holder| - 1];
    }
  }

  /** The handle returned is the newest version of `name` on `p`; the graph
    * only changes when there was none, and then gains exactly version 0;
    * numbering and validity are kept. */
  lemma LatestVersionSpec(g: Graph, p: nat, name: string)
    requires p < |g.versions| && Numbered(g) && GraphValid(g)
    ensures var (g', v) := LatestVersion(g, p, name);
      Numbered(g') && GraphValid(g') && v < |g'.vars| &&
      name in g'.versions[p] && g'.versions[p][name] != [] &&
      v == g'.versions[p][name][|g'.versions[p][name]| - 1] &&
      g'.vars[v].kind.Versioned? && g'.vars[v].kind.name == name && g'.vars[v].kind.scopeIdx == p &&
      (VersionsOf(g, p, name) != [] ==> g' == g) &&
      (VersionsOf(g, p, name) == [] ==> g'.versions[p][name] == [v] && g'.vars[v] == VarNode(Versioned(name, 0, p), None, {}))
  {
    var list := VersionsOf(g, p, name);
    if list == [] {
      var (g', v) := LatestVersion(g, p, name);
      forall p', n, k {:trigger g'.versions[p'][n][k]} | 0 <= p' < |g'.versions| && n in g'.versions[p'] && 0 <= k < |g'.versions[p'][n]|
        ensures g'.versions[p'][n][k] < |g'.vars| && g'.vars[g'.versions[p'][n][k]].kind == Versioned(n, k, p')
      {
        if p' != p || n != name {
          assert g'.versions[p'][n] == g.versions[p'][n];
          assert g'.vars[g.versions[p'][n][k]] == g.vars[g.versions[p'][n][k]];
        }
      }
      ValidAfterNewVersion(g, p, name);
      assert [] + [v] == [v];
    } else {
      assert list == g.versions[p][name];
      assert list[|list| - 1] in g.versions[p][name];
    }
  }

  /** Calling CreateOrGetLatestVarHandle again for the same name and place
    * changes nothing and returns the same handle. */
  lemma LatestVersionStable(g: Graph, p: nat, name: string)
    requires p < |g.versions|
    ensures var (g', v) := LatestVersion(g, p, name);
      p < |g'.versions| && LatestVersion(g', p, name) == (g', v)
  {
  }

  /** Appending a new versioned handle to a (place, name) list keeps every
    * handle in range. */
  lemma ValidAfterNewVersion(g: Graph, p: nat, name: string)
    requires p < |g.versions| && GraphValid(g)
    ensures var v := |g.vars|;
      var g1 := NewVar(g, Versioned(name, |VersionsOf(g, p, name)|, p));
      GraphValid(g1.(versions := g.versions[p := g.versions[p][name := VersionsOf(g, p, name) + [v]]]))
  {
    var v := |g.vars|;
    var g1 := NewVar(g, Versioned(name, |VersionsOf(g, p, name)|, p));
    var g2 := g1.(versions := g.versions[p := g.versions[p][name := VersionsOf(g, p, name) + [v]]]);
    forall q | 0 <= q < |g2.ops|
      ensures OpInRange(g2.ops[q], |g2.vars|)
    {
      assert OpInRange(g.ops[q], |g.vars|);
    }
    forall u | 0 <= u < |g2.vars|
      ensures VarInRange(g2.vars[u], |g2.ops|)
    {
      if u < |g.vars| {
        assert g2.vars[u] == g.vars[u];
      }
    }
    forall p', n | 0 <= p' < |g2.versions| && n in g2.versions[p']
      ensures forall x :: x in g2.versions[p'][n] ==> x < |g2.vars|
    {
      if p' != p || n != name {
        assert g2.versions[p'][n] == g.versions[p'][n];
      }
    }
  }

  // ---------------------------------------------------------------------
  // CreateOpOutput

  /** The graph after CreateOpOutput: a new handle whose version is the
    * length of the list so far is appended and generated by `o`. */
  function OpOutput(g: Graph, o: OpId, name: string, p: nat): Graph
    requires o < |g.ops| && p < |g.versions|
  {
    var list := VersionsOf(g, p, name);
    var v := |g.vars|;
    var g1 := NewVar(g, Versioned(name, |list|, p)).(versions := g.versions[p := g.versions[p][name := list + [v]]]);
    WithOutput(g1, o, v)
  }

  method CreateOpOutput(graph: SSAGraph, o: OpId, name: string, p: nat)
    requires o < |graph.ops| && p < |graph.versions|
    modifies graph
    ensures graph.Snapshot() == OpOutput(old(graph.Snapshot()), o, name, p)
  {
    var vars := if name in graph.versions[p] then graph.versions[p][name] else [];
    var version := |vars|;
    var v := graph.NewVarHandle(Versioned(name, version, p));
    graph.versions := graph.versions[p := graph.versions[p][name := vars + [v]]];
    graph.AddOpOutput(o, v);
  }

  /** The new handle is the next version, generated by `o` and listed last
    * among its outputs; earlier versions and numbering are kept. */
  lemma OpOutputSpec(g: Graph, o: OpId, name: string, p: nat)
    requires o < |g.ops| && p < |g.versions| && Numbered(g) && GraphValid(g)
    ensures var g' := OpOutput(g, o, name, p); var v := |g.vars|;
      Numbered(g') && GraphValid(g') &&
      g'.versions[p][name] == VersionsOf(g, p, name) + [v] &&
      g'.vars[v] == VarNode(Versioned(name, |VersionsOf(g, p, name)|, p), Some(o), {}) &&
      g'.ops[o].outputs == g.ops[o].outputs + [v] &&
      g'.vars[..|g.vars|] == g.vars
  {
    var list := VersionsOf(g, p, name);
    var v := |g.vars|;
    var g1 := NewVar(g, Versioned(name, |list|, p)).(versions := g.versions[p := g.versions[p][name := list + [v]]]);
    var g' := WithOutput(g1, o, v);
    ValidAfterNewVersion(g, p, name);
    EdgesKeepValid(g1, o, v, Dummy);
    forall p', n, k {:trigger g'.versions[p'][n][k]} | 0 <= p' < |g'.versions| && n in g'.versions[p'] && 0 <= k < |g'.versions[p'][n]|
      ensures g'.versions[p'][n][k] < |g'.vars| && g'.vars[g'.versions[p'][n][k]].kind == Versioned(n, k, p')
    {
      if p' != p || n != name {
        assert g'.versions[p'][n] == g.versions[p'][n];
      } else if k < |list| {
        assert g'.versions[p'][n][k] == list[k] == g.versions[p][name][k];
      }
    }
    assert g'.vars[..|g.vars|] == g1.vars[..|g.vars|];
  }

  // ---------------------------------------------------------------------
  // PolishGraphToSupportDataHazards

  /** A write-after-read hazard: `reader` reads version k-1 of `name` on
    * `place`, and `writer`, a different operator, generates version k. */
  datatype Hazard = Hazard(place: nat, name: string, k: nat, reader: OpId, writer: OpId)

  predicate IsHazard(g: Graph, h: Hazard)
  {
    h.place < |g.versions| && h.name in g.versions[h.place] &&
    1 <= h.k < |g.versions[h.place][h.name]| &&
    g.versions[h.place][h.name][h.k - 1] < |g.vars| && g.versions[h.place][h.name][h.k] < |g.vars| &&
    h.reader in g.vars[g.versions[h.place][h.name][h.k - 1]].pending &&
    g.vars[g.versions[h.place][h.name][h.k]].generator == Some(h.writer) &&
    h.reader != h.writer
  }

  /** The source dereferences the generator of version k whenever version
    * k-1 has a reader, so such a version must have a generator. */
  predicate WritersExist(g: Graph)
  {
    forall p, n, k :: 0 <= p < |g.versions| && n in g.versions[p] && 1 <= k < |g.versions[p][n]| &&
      g.versions[p][n][k - 1] < |g.vars| && g.versions[p][n][k] < |g.vars| &&
      g.vars[g.versions[p][n][k - 1]].pending != {}
      ==> g.vars[g.versions[p][n][k]].generator.Some?
  }

  predicate HazardsInRange(hs: seq<Hazard>, nOps: nat)
  {
    forall i :: 0 <= i < |hs| ==> hs[i].reader < nOps && hs[i].writer < nOps
  }

  /** One dummy variable from the reader to the writer: the reader gains it
    * as an output, the writer as an input, and it joins dep_vars_. */
  function AddDummy(g: Graph, h: Hazard): (r: Graph)
    requires h.reader < |g.ops| && h.writer < |g.ops|
    ensures |r.vars| == |g.vars| + 1 && r.vars[..|g.vars|] == g.vars
    ensures r.vars[|g.vars|] == VarNode(Dummy, Some(h.reader), {h.writer})
    ensures |r.ops| == |g.ops| && r.versions == g.versions && r.depVars == g.depVars + {|g.vars|}
  {
    var d := |g.vars|;
    var ops1 := g.ops[h.reader := g.ops[h.reader].(outputs := g.ops[h.reader].outputs + [d])];
    Graph(g.vars + [VarNode(Dummy, Some(h.reader), {h.writer})],
          ops1[h.writer := ops1[h.writer].(inputs := ops1[h.writer].inputs + [d])],
          g.versions, g.depVars + {d})
  }

  /** AddDummy is what the edge primitives build: a new dummy variable,
    * the reader's output edge, the writer's input edge. */
  lemma AddDummyByEdges(g: Graph, h: Hazard)
    requires h.reader < |g.ops| && h.writer < |g.ops|
    ensures var d := |g.vars|; var g1 := WithInput(WithOutput(NewVar(g, Dummy), h.reader, d), h.writer, d);
      AddDummy(g, h) == g1.(depVars := g1.depVars + {d})
  {
    var d := |g.vars|;
    var g1 := WithInput(WithOutput(NewVar(g, Dummy), h.reader, d), h.writer, d);
    var r := AddDummy(g, h);
    assert r.vars == g1.vars by {
      forall u | 0 <= u < |r.vars|
        ensures r.vars[u] == g1.vars[u]
      {
        if u < d {
          assert r.vars[..d][u] == g1.vars[..d][u];
        }
      }
    }
    assert r.ops == g1.ops;
  }

  /** The dummies for `hs`, added in order. */
  function AddDummies(g: Graph, hs: seq<Hazard>): (r: Graph)
    requires HazardsInRange(hs, |g.ops|)
    ensures |r.vars| == |g.vars| + |hs| && r.vars[..|g.vars|] == g.vars
    ensures |r.ops| == |g.ops| && r.versions == g.versions
  {
    if hs == [] then g else
      var g' := AddDummies(g, hs[..|hs| - 1]);
      var r := AddDummy(g', hs[|hs| - 1]);
      assert r.vars[..|g.vars|] == g'.vars[..|g'.vars|][..|g.vars|];
      r
  }

  /** The dummies added for `hs` that `o` reads (as their writer) or
    * generates (as their reader), numbered from `base`. */
  function Dummies(hs: seq<Hazard>, base: nat, o: OpId, asReader: bool): seq<VarId>
  {
    if hs == [] then [] else
      var h := hs[|hs| - 1];
      Dummies(hs[..|hs| - 1], base, o, asReader) +
        (if (if asReader then h.reader else h.writer) == o then [base + |hs| - 1] else [])
  }

  /** AddDummies(g, hs) extends AddDummies(g, front) by one dummy. */
  lemma AddDummiesSnoc(g: Graph, hs: seq<Hazard>, h: Hazard)
    requires HazardsInRange(hs + [h], |g.ops|)
    ensures HazardsInRange(hs, |g.ops|)
    ensures AddDummies(g, hs + [h]) == AddDummy(AddDummies(g, hs), h)
  {
    assert (hs + [h])[..|hs|] == hs;
  }

  /** The i-th variable AddDummies adds is a dummy generated by hs[i]'s
    * reader and read by its writer alone. */
  lemma {:induction false} AddDummiesVar(g: Graph, hs: seq<Hazard>, i: nat)
    requires HazardsInRange(hs, |g.ops|) && i < |hs|
    ensures AddDummies(g, hs).vars[|g.vars| + i] == VarNode(Dummy, Some(hs[i].reader), {hs[i].writer})
    decreases |hs|
  {
    var front := hs[..|hs| - 1];
    if i < |front| {
      AddDummiesVar(g, front, i);
      var g' := AddDummies(g, front);
      var r := AddDummies(g, hs);
      assert hs[i] == front[i];
      assert r.vars[..|g'.vars|][|g.vars| + i] == g'.vars[|g.vars| + i];
    }
  }

  /** AddDummies adds exactly the new variables to dep_vars_. */
  lemma {:induction false} AddDummiesDepVars(g: Graph, hs: seq<Hazard>)
    requires HazardsInRange(hs, |g.ops|)
    ensures forall d :: d in AddDummies(g, hs).depVars <==> d in g.depVars || |g.vars| <= d < |g.vars| + |hs|
    decreases |hs|
  {
    if hs != [] {
      AddDummiesDepVars(g, hs[..|hs| - 1]);
    }
  }

  /** What one dummy does to operator `o`. */
  lemma AddDummyOp(g: Graph, h: Hazard, o: OpId)
    requires h.reader < |g.ops| && h.writer < |g.ops| && o < |g.ops|
    ensures AddDummy(g, h).ops[o].opType == g.ops[o].opType
    ensures AddDummy(g, h).ops[o].inputs == g.ops[o].inputs + (if o == h.writer then [|g.vars|] else [])
    ensures AddDummy(g, h).ops[o].outputs == g.ops[o].outputs + (if o == h.reader then [|g.vars|] else [])
  {
  }

  /** The dummies of `hs` extended by one hazard. */
  lemma DummiesSnoc(hs: seq<Hazard>, base: nat, o: OpId, asReader: bool)
    requires hs != []
    ensures var h := hs[|hs| - 1];
      Dummies(hs, base, o, asReader) == Dummies(hs[..|hs| - 1], base, o, asReader) +
        (if (if asReader then h.reader else h.writer) == o then [base + |hs| - 1] else [])
  {
  }

  /** Every operator keeps its type and only gains, after its own inputs,
    * the dummies it writes after, in the order of `hs`. */
  lemma {:induction false} AddDummiesInputs(g: Graph, hs: seq<Hazard>, o: OpId)
    requires HazardsInRange(hs, |g.ops|) && o < |g.ops|
    ensures AddDummies(g, hs).ops[o].opType == g.ops[o].opType
    ensures AddDummies(g, hs).ops[o].inputs == g.ops[o].inputs + Dummies(hs, |g.vars|, o, false)
    decreases |hs|
  {
    if hs != [] {
      var front := hs[..|hs| - 1];
      AddDummiesInputs(g, front, o);
      var g' := AddDummies(g, front);
      AddDummyOp(g', hs[|hs| - 1], o);
      DummiesSnoc(hs, |g.vars|, o, false);
    }
  }

  /** Every operator only gains, after its own outputs, the dummies it
    * reads before, in the order of `hs`. */
  lemma {:induction false} AddDummiesOutputs(g: Graph, hs: seq<Hazard>, o: OpId)
    requires HazardsInRange(hs, |g.ops|) && o < |g.ops|
    ensures AddDummies(g, hs).ops[o].outputs == g.ops[o].outputs + Dummies(hs, |g.vars|, o, true)
    decreases |hs|
  {
    if hs != [] {
      var front := hs[..|hs| - 1];
      AddDummiesOutputs(g, front, o);
      var g' := AddDummies(g, front);
      AddDummyOp(g', hs[|hs| - 1], o);
      DummiesSnoc(hs, |g.vars|, o, true);
    }
  }

  /** The dummy made for hs[i] is listed by its reader and by its writer. */
  lemma {:induction false} DummyListed(hs: seq<Hazard>, base: nat, i: nat)
    requires i < |hs|
    ensures base + i in Dummies(hs, base, hs[i].reader, true)
    ensures base + i in Dummies(hs, base, hs[i].writer, false)
    decreases |hs|
  {
    if i < |hs| - 1 {
      assert hs[..|hs| - 1][i] == hs[i];
      DummyListed(hs[..|hs| - 1], base, i);
    }
  }

  /** Every hazard listed is repaired: the i-th new handle is a dummy in
    * dep_vars_, generated by the reader, read by the writer alone, and
    * listed among the reader's outputs and the writer's inputs. */
  lemma HazardRepaired(g: Graph, hs: seq<Hazard>, i: nat)
    requires HazardsInRange(hs, |g.ops|) && i < |hs|
    ensures var r := AddDummies(g, hs); var h := hs[i]; var d := |g.vars| + i;
      d in r.depVars && d < |r.vars| &&
      r.vars[d] == VarNode(Dummy, Some(h.reader), {h.writer}) &&
      d in r.ops[h.reader].outputs && d in r.ops[h.writer].inputs
  {
    AddDummiesVar(g, hs, i);
    AddDummiesDepVars(g, hs);
    DummyEdges(g, hs, i);
  }

  /** The dummy made for hs[i] is an output of its reader and an input of
    * its writer. */
  lemma DummyEdges(g: Graph, hs: seq<Hazard>, i: nat)
    requires HazardsInRange(hs, |g.ops|) && i < |hs|
    ensures |g.vars| + i in AddDummies(g, hs).ops[hs[i].reader].outputs
    ensures |g.vars| + i in AddDummies(g, hs).ops[hs[i].writer].inputs
  {
    AddDummiesOutputs(g, hs, hs[i].reader);
    AddDummiesInputs(g, hs, hs[i].writer);
    DummyListed(hs, |g.vars|, i);
  }

  /** No dummy made for hazards links an operator to itself: the reader
    * that generates the next version gets no edge. */
  lemma NoSelfEdge(g: Graph, hs: seq<Hazard>, d: VarId)
    requires HazardsInRange(hs, |g.ops|) && forall h :: h in hs ==> IsHazard(g, h)
    requires |g.vars| <= d < |AddDummies(g, hs).vars|
    ensures AddDummies(g, hs).vars[d].generator.Some?
    ensures AddDummies(g, hs).vars[d].generator.value !in AddDummies(g, hs).vars[d].pending
  {
    var i := d - |g.vars|;
    AddDummiesVar(g, hs, i);
    assert IsHazard(g, hs[i]);
  }

  /** Polishing keeps the version lists and the handles they name, so the
    * numbering survives; a name with at most one version on a place has no
    * hazard and so gets no dummy. */
  lemma PolishKeepsVersions(g: Graph, hs: seq<Hazard>, h: Hazard)
    requires HazardsInRange(hs, |g.ops|) && Numbered(g)
    ensures Numbered(AddDummies(g, hs))
    ensures (h.place < |g.versions| && h.name in g.versions[h.place] &&
             |g.versions[h.place][h.name]| <= 1) ==> !IsHazard(g, h)
  {
    var r := AddDummies(g, hs);
    forall p, n, k {:trigger r.versions[p][n][k]} | 0 <= p < |r.versions| && n in r.versions[p] && 0 <= k < |r.versions[p][n]|
      ensures r.versions[p][n][k] < |r.vars| && r.vars[r.versions[p][n][k]].kind == Versioned(n, k, p)
    {
      assert r.vars[r.versions[p][n][k]] == r.vars[..|g.vars|][r.versions[p][n][k]];
    }
  }

  /** A key (place, name, k) stands for the pair (version k-1, version k). */
  function Key(h: Hazard): (nat, string, nat)
  {
    (h.place, h.name, h.k)
  }

  /** `hs` lists, once each, exactly the hazards whose key is in `done`
    * or, for the key `cur`, whose reader is in `readers`. */
  ghost predicate Lists(g0: Graph, hs: seq<Hazard>, done: set<(nat, string, nat)>,
                        cur: (nat, string, nat), readers: set<OpId>)
  {
    (forall i, j :: 0 <= i < j < |hs| ==> hs[i] != hs[j]) &&
    (forall h {:trigger h in hs} :: h in hs ==> IsHazard(g0, h) && (Key(h) in done || (Key(h) == cur && h.reader in readers))) &&
    (forall h {:trigger IsHazard(g0, h)} :: IsHazard(g0, h) && (Key(h) in done || (Key(h) == cur && h.reader in readers)) ==> h in hs)
  }

  /** What the polishing loops share: the graph is g0 plus the dummies for
    * `hs`, and g0's handles are in range. */
  ghost predicate PolishState(graph: SSAGraph, g0: Graph, hs: seq<Hazard>)
    reads graph
  {
    GraphValid(g0) && HazardsInRange(hs, |g0.ops|) && graph.Snapshot() == AddDummies(g0, hs)
  }

  /** Listing one more hazard for the current key. */
  lemma ListsSnoc(g0: Graph, hs: seq<Hazard>, done: set<(nat, string, nat)>,
                  cur: (nat, string, nat), readers: set<OpId>, h: Hazard)
    requires Lists(g0, hs, done, cur, readers) && IsHazard(g0, h)
    requires Key(h) == cur && cur !in done && h.reader !in readers
    ensures Lists(g0, hs + [h], done, cur, readers + {h.reader})
  {
    var hs' := hs + [h];
    assert h !in hs;
    forall i, j | 0 <= i < j < |hs'|
      ensures hs'[i] != hs'[j]
    {
      if j < |hs| {
        assert hs'[i] == hs[i] && hs'[j] == hs[j];
      } else {
        assert hs'[i] == hs[i];
      }
    }
  }

  /** A reader that generates the next version itself adds no hazard. */
  lemma ListsSkip(g0: Graph, hs: seq<Hazard>, done: set<(nat, string, nat)>,
                  p: nat, name: string, k: nat, readers: set<OpId>, r: OpId)
    requires Lists(g0, hs, done, (p, name, k), readers)
    requires p < |g0.versions| && name in g0.versions[p] && 1 <= k < |g0.versions[p][name]|
    requires g0.versions[p][name][k] < |g0.vars| && g0.vars[g0.versions[p][name][k]].generator == Some(r)
    ensures Lists(g0, hs, done, (p, name, k), readers + {r})
  {
  }

  /** Once every reader of version k-1 is handled the key is done. */
  lemma ListsClose(g0: Graph, hs: seq<Hazard>, done: set<(nat, string, nat)>,
                   p: nat, name: string, k: nat, readers: set<OpId>)
    requires Lists(g0, hs, done, (p, name, k), readers)
    requires p < |g0.versions| && name in g0.versions[p] && 1 <= k < |g0.versions[p][name]|
    requires g0.versions[p][name][k - 1] < |g0.vars| && g0.vars[g0.versions[p][name][k - 1]].pending <= readers
    ensures Lists(g0, hs, done + {(p, name, k)}, (p, name, k), {})
  {
  }

  /** One dummy from the reader to the writer of a hazard. */
  method AddDepVar(graph: SSAGraph, ghost g0: Graph, ghost hs: seq<Hazard>, h: Hazard)
    requires PolishState(graph, g0, hs) && h.reader < |g0.ops| && h.writer < |g0.ops|
    modifies graph
    ensures PolishState(graph, g0, hs + [h])
  {
    AddDummiesSnoc(g0, hs, h);
    AddDummyByEdges(graph.Snapshot(), h);
    var d := graph.NewVarHandle(Dummy);
    graph.AddOpOutput(h.reader, d);
    graph.AddOpInput(h.writer, d);
    graph.depVars := graph.depVars + {d};
  }

  /** One reader of version k-1: unless it is the writer of version k
    * itself, it gets a dummy edge to that writer. */
  method PolishReader(graph: SSAGraph, ghost g0: Graph, ghost hs: seq<Hazard>, ghost done: set<(nat, string, nat)>,
                      p: nat, name: string, k: nat, ghost seen: set<OpId>, readOp: OpId, writeOp: Option<OpId>)
    returns (ghost hs': seq<Hazard>)
    requires PolishState(graph, g0, hs) && WritersExist(g0)
    requires p < |g0.versions| && name in g0.versions[p] && 1 <= k < |g0.versions[p][name]|
    requires (p, name, k) !in done && Lists(g0, hs, done, (p, name, k), seen) && readOp !in seen
    requires g0.versions[p][name][k] < |g0.vars| && g0.versions[p][name][k - 1] < |g0.vars|
    requires writeOp == g0.vars[g0.versions[p][name][k]].generator
    requires readOp in g0.vars[g0.versions[p][name][k - 1]].pending
    modifies graph
    ensures PolishState(graph, g0, hs') && Lists(g0, hs', done, (p, name, k), seen + {readOp})
  {
    hs' := hs;
    if Some(readOp) != writeOp {
      assert VarInRange(g0.vars[g0.versions[p][name][k]], |g0.ops|);
      assert VarInRange(g0.vars[g0.versions[p][name][k - 1]], |g0.ops|);
      var h := Hazard(p, name, k, readOp, writeOp.value);
      assert IsHazard(g0, h);
      ListsSnoc(g0, hs, done, (p, name, k), seen, h);
      AddDepVar(graph, g0, hs, h);
      hs' := hs + [h];
    } else {
      ListsSkip(g0, hs, done, p, name, k, seen, readOp);
    }
  }

  /** The innermost loop: every reader of version k-1 other than the writer
    * of version k gets a dummy edge to it. */
  method PolishPair(graph: SSAGraph, ghost g0: Graph, ghost hs: seq<Hazard>, ghost done: set<(nat, string, nat)>,
                    p: nat, name: string, k: nat) returns (ghost hs': seq<Hazard>)
    requires PolishState(graph, g0, hs) && WritersExist(g0)
    requires p < |g0.versions| && name in g0.versions[p] && 1 <= k < |g0.versions[p][name]|
    requires (p, name, k) !in done && Lists(g0, hs, done, (p, name, k), {})
    modifies graph
    ensures PolishState(graph, g0, hs') && Lists(g0, hs', done + {(p, name, k)}, (p, name, k), {})
  {
    var list := graph.versions[p][name];
    assert list == g0.versions[p][name];
    assert list[k] < |g0.vars| && list[k - 1] < |g0.vars| by {
      assert list[k] in g0.versions[p][name] && list[k - 1] in g0.versions[p][name];
    }
    assert graph.vars[list[k]] == g0.vars[list[k]] && graph.vars[list[k - 1]] == g0.vars[list[k - 1]] by {
      assert graph.vars[..|g0.vars|] == g0.vars;
    }
    var writeOp := graph.vars[list[k]].generator;
    var readOps := graph.vars[list[k - 1]].pending;
    var rest := readOps;
    ghost var seen: set<OpId> := {};
    hs' := hs;
    while rest != {}
      invariant rest <= readOps && seen == readOps - rest
      invariant PolishState(graph, g0, hs') && Lists(g0, hs', done, (p, name, k), seen)
      decreases rest
    {
      var readOp :| readOp in rest;
      hs' := PolishReader(graph, g0, hs', done, p, name, k, seen, readOp, writeOp);
      rest := rest - {readOp};
      seen := seen + {readOp};
    }
    ListsClose(g0, hs', done, p, name, k, seen);
  }

  /** With no reader handled yet, the current key does not matter. */
  lemma ListsAnyKey(g0: Graph, hs: seq<Hazard>, done: set<(nat, string, nat)>,
                    c1: (nat, string, nat), c2: (nat, string, nat))
    requires Lists(g0, hs, done, c1, {})
    ensures Lists(g0, hs, done, c2, {})
  {
  }

  /** The loop over the versions of one name, newest pair first; a name
    * with at most one version is skipped. */
  method PolishName(graph: SSAGraph, ghost g0: Graph, ghost hs: seq<Hazard>, ghost done: set<(nat, string, nat)>,
                    p: nat, name: string) returns (ghost hs': seq<Hazard>, ghost done': set<(nat, string, nat)>)
    requires PolishState(graph, g0, hs) && WritersExist(g0)
    requires p < |g0.versions| && name in g0.versions[p]
    requires forall key {:trigger key in done} :: key in done ==> key.0 != p || key.1 != name
    requires Lists(g0, hs, done, (p, name, 0), {})
    modifies graph
    ensures PolishState(graph, g0, hs') && Lists(g0, hs', done', (p, name, 0), {})
    ensures forall k {:trigger (p, name, k) in done'} :: 1 <= k < |g0.versions[p][name]| ==> (p, name, k) in done'
    ensures done <= done'
    ensures forall key {:trigger key in done'} :: key in done' ==> key in done || (key.0 == p && key.1 == name)
  {
    hs', done' := hs, done;
    var list := graph.versions[p][name];
    assert list == g0.versions[p][name];
    if |list| <= 1 {
      return;
    }
    var k := |list| - 1;
    while k >= 1
      invariant 0 <= k < |list| && done <= done'
      invariant PolishState(graph, g0, hs') && Lists(g0, hs', done', (p, name, 0), {})
      invariant forall j {:trigger (p, name, j) in done'} :: k < j < |list| ==> (p, name, j) in done'
      invariant forall key {:trigger key in done'} :: key in done' ==> key in done || (key.0 == p && key.1 == name && k < key.2)
    {
      ListsAnyKey(g0, hs', done', (p, name, 0), (p, name, k));
      hs' := PolishPair(graph, g0, hs', done', p, name, k);
      done' := done' + {(p, name, k)};
      ListsAnyKey(g0, hs', done', (p, name, k), (p, name, 0));
      k := k - 1;
    }
  }

  /** The loop over the names of one place, in the map's own order. */
  method PolishPlace(graph: SSAGraph, ghost g0: Graph, ghost hs: seq<Hazard>, ghost done: set<(nat, string, nat)>,
                     p: nat) returns (ghost hs': seq<Hazard>, ghost done': set<(nat, string, nat)>)
    requires PolishState(graph, g0, hs) && WritersExist(g0) && p < |g0.versions|
    requires forall key {:trigger key in done} :: key in done ==> key.0 != p
    requires Lists(g0, hs, done, (p, "", 0), {})
    modifies graph
    ensures PolishState(graph, g0, hs') && Lists(g0, hs', done', (p, "", 0), {})
    ensures forall n, k {:trigger (p, n, k) in done'} :: n in g0.versions[p] && 1 <= k < |g0.versions[p][n]| ==> (p, n, k) in done'
    ensures done <= done'
    ensures forall key {:trigger key in done'} :: key in done' ==> key in done || key.0 == p
  {
    hs', done' := hs, done;
    var names := graph.versions[p].Keys;
    assert graph.versions == g0.versions;
    while names != {}
      invariant names <= g0.versions[p].Keys && done <= done'
      invariant PolishState(graph, g0, hs') && Lists(g0, hs', done', (p, "", 0), {})
      invariant forall n, k {:trigger (p, n, k) in done'} :: n in g0.versions[p] && n !in names && 1 <= k < |g0.versions[p][n]| ==> (p, n, k) in done'
      invariant forall key {:trigger key in done'} :: key in done' ==> key in done || (key.0 == p && key.1 !in names)
      decreases names
    {
      var name :| name in names;
      ListsAnyKey(g0, hs', done', (p, "", 0), (p, name, 0));
      hs', done' := PolishName(graph, g0, hs', done', p, name);
      ListsAnyKey(g0, hs', done', (p, name, 0), (p, "", 0));
      names := names - {name};
    }
  }

  /** PolishGraphToSupportDataHazards: one dummy for every write-after-read
    * hazard of the graph, and nothing else. */
  method PolishGraphToSupportDataHazards(graph: SSAGraph) returns (ghost hs: seq<Hazard>)
    requires GraphValid(graph.Snapshot()) && WritersExist(graph.Snapshot())
    modifies graph
    ensures HazardsInRange(hs, |old(graph.ops)|)
    ensures graph.Snapshot() == AddDummies(old(graph.Snapshot()), hs)
    ensures Enumerates(old(graph.Snapshot()), hs)
  {
    ghost var g0 := graph.Snapshot();
    ghost var done: set<(nat, string, nat)> := {};
    hs := [];
    var p := 0;
    while p < |graph.versions|
      invariant graph.versions == g0.versions && p <= |g0.versions|
      invariant PolishState(graph, g0, hs) && Lists(g0, hs, done, (p, "", 0), {})
      invariant forall key {:trigger key in done} :: key in done ==> key.0 < p
      invariant forall q, n, k {:trigger (q, n, k) in done} :: 0 <= q < p && n in g0.versions[q] && 1 <= k < |g0.versions[q][n]| ==> (q, n, k) in done
    {
      hs, done := PolishPlace(graph, g0, hs, done, p);
      ListsAnyKey(g0, hs, done, (p, "", 0), (p + 1, "", 0));
      p := p + 1;
    }
    ListsComplete(g0, hs, done);
  }

  /** `hs` lists every hazard of `g`, once each, and nothing else. */
  ghost predicate Enumerates(g: Graph, hs: seq<Hazard>)
  {
    (forall i, j :: 0 <= i < j < |hs| ==> hs[i] != hs[j]) &&
    (forall h :: h in hs ==> IsHazard(g, h)) &&
    (forall h :: IsHazard(g, h) ==> h in hs)
  }

  /** Once every key of the graph is done, `hs` lists exactly its hazards. */
  lemma ListsComplete(g0: Graph, hs: seq<Hazard>, done: set<(nat, string, nat)>)
    requires Lists(g0, hs, done, (|g0.versions|, "", 0), {})
    requires forall q, n, k {:trigger (q, n, k) in done} :: 0 <= q < |g0.versions| && n in g0.versions[q] && 1 <= k < |g0.versions[q][n]| ==> (q, n, k) in done
    ensures Enumerates(g0, hs)
  {
    forall h | IsHazard(g0, h)
      ensures h in hs
    {
      assert Key(h) in done;
    }
  }

  // ---------------------------------------------------------------------
  // AddOutputToLeafOps

  /** Operator `o` gains a new dummy output that joins dep_vars_. */
  function AddLeaf(g: Graph, o: OpId): (r: Graph)
    requires o < |g.ops|
    ensures |r.vars| == |g.vars| + 1 && r.vars[..|g.vars|] == g.vars
    ensures r.vars[|g.vars|] == VarNode(Dummy, Some(o), {})
    ensures |r.ops| == |g.ops| && r.versions == g.versions && r.depVars == g.depVars + {|g.vars|}
    ensures r.ops[o] == g.ops[o].(outputs := g.ops[o].outputs + [|g.vars|])
    ensures forall q :: 0 <= q < |g.ops| && q != o ==> r.ops[q] == g.ops[q]
  {
    var d := |g.vars|;
    var g1 := WithOutput(NewVar(g, Dummy), o, d);
    g1.(depVars := g1.depVars + {d})
  }

  /** The graph after the loop of AddOutputToLeafOps has visited the first
    * `n` operators. */
  function AddLeafOutputs(g: Graph, n: nat): (r: Graph)
    requires n <= |g.ops|
    ensures |r.ops| == |g.ops| && |r.vars| >= |g.vars| && r.vars[..|g.vars|] == g.vars && r.versions == g.versions
    ensures forall j :: n <= j < |g.ops| ==> r.ops[j] == g.ops[j]
    decreases n
  {
    if n == 0 then g else
      var r := AddLeafOutputs(g, n - 1);
      if r.ops[n - 1].outputs == [] then
        var r' := AddLeaf(r, n - 1);
        assert r'.vars[..|g.vars|] == r.vars[..|r.vars|][..|g.vars|];
        r'
      else r
  }

  method AddOutputToLeafOps(graph: SSAGraph)
    modifies graph
    ensures graph.Snapshot() == AddLeafOutputs(old(graph.Snapshot()), |old(graph.ops)|)
  {
    ghost var g0 := graph.Snapshot();
    var i := 0;
    while i < |graph.ops|
      invariant 0 <= i <= |graph.ops| == |g0.ops|
      invariant graph.Snapshot() == AddLeafOutputs(g0, i)
    {
      if graph.ops[i].outputs == [] {
        var d := graph.NewVarHandle(Dummy);
        graph.depVars := graph.depVars + {d};
        graph.AddOpOutput(i, d);
      }
      i := i + 1;
    }
  }

  /** Operators keep their type and inputs; one that had outputs, or is not
    * visited yet, keeps them; a visited leaf gets exactly one output, a
    * new variable. */
  lemma {:induction false} LeafOutputsOps(g: Graph, n: nat, o: OpId)
    requires n <= |g.ops| && o < |g.ops|
    ensures var r := AddLeafOutputs(g, n);
      r.ops[o].opType == g.ops[o].opType && r.ops[o].inputs == g.ops[o].inputs &&
      (g.ops[o].outputs != [] || o >= n ==> r.ops[o].outputs == g.ops[o].outputs) &&
      (g.ops[o].outputs == [] && o < n ==> |r.ops[o].outputs| == 1 && |g.vars| <= r.ops[o].outputs[0] < |r.vars|)
    decreases n
  {
    if n > 0 {
      LeafOutputsOps(g, n - 1, o);
    }
  }

  /** What a new leaf output variable of `r` is. */
  predicate LeafVar(g: Graph, r: Graph, n: nat, d: VarId)
    requires n <= |g.ops| && |r.ops| == |g.ops|
  {
    d < |r.vars| && d in r.depVars && r.vars[d].kind == Dummy && r.vars[d].pending == {} && r.vars[d].generator.Some? &&
    r.vars[d].generator.value < n && g.ops[r.vars[d].generator.value].outputs == [] &&
    r.ops[r.vars[d].generator.value].outputs == [d]
  }

  /** Visiting operator n-1 keeps the earlier leaf variables and makes the
    * new one a leaf variable too. */
  lemma LeafStepVar(g: Graph, r': Graph, n: nat, d: VarId)
    requires 0 < n <= |g.ops| && |r'.ops| == |g.ops| && r'.ops[n - 1] == g.ops[n - 1]
    requires d < |r'.vars| ==> LeafVar(g, r', n - 1, d)
    requires d < |r'.vars| + (if r'.ops[n - 1].outputs == [] then 1 else 0)
    ensures var r := if r'.ops[n - 1].outputs == [] then AddLeaf(r', n - 1) else r';
      LeafVar(g, r, n, d)
  {
    if r'.ops[n - 1].outputs == [] {
      var r := AddLeaf(r', n - 1);
      if d < |r'.vars| {
        assert r.vars[d] == r.vars[..|r'.vars|][d];
      }
    }
  }

  /** Every new variable is a dummy in dep_vars_, read by nothing, and the
    * only output of the leaf that generates it. */
  lemma {:induction false} LeafOutputVar(g: Graph, n: nat, d: VarId)
    requires n <= |g.ops| && |g.vars| <= d < |AddLeafOutputs(g, n).vars|
    ensures LeafVar(g, AddLeafOutputs(g, n), n, d)
    decreases n
  {
    if n > 0 {
      var r' := AddLeafOutputs(g, n - 1);
      if d < |r'.vars| {
        LeafOutputVar(g, n - 1, d);
      }
      LeafStepVar(g, r', n, d);
    }
  }

  /** Operator `o` of `r` has one output, generated by `o`. */
  predicate LeafGenerated(r: Graph, o: OpId)
  {
    o < |r.ops| && |r.ops[o].outputs| == 1 && r.ops[o].outputs[0] < |r.vars| &&
    r.vars[r.ops[o].outputs[0]].generator == Some(o)
  }

  /** Visiting operator n-1 keeps what earlier leaves got, and gives a leaf
    * operator n-1 its output. */
  lemma LeafStepGenerated(r': Graph, n: nat, o: OpId)
    requires o < n <= |r'.ops|
    requires o < n - 1 ==> LeafGenerated(r', o)
    requires o == n - 1 ==> r'.ops[o].outputs == []
    ensures LeafGenerated(if r'.ops[n - 1].outputs == [] then AddLeaf(r', n - 1) else r', o)
  {
    if r'.ops[n - 1].outputs == [] && o < n - 1 {
      var r := AddLeaf(r', n - 1);
      assert r.vars[r'.ops[o].outputs[0]] == r.vars[..|r'.vars|][r'.ops[o].outputs[0]];
    }
  }

  /** A visited leaf's one output is generated by that leaf, so leaves and
    * new dummies match one to one. */
  lemma {:induction false} LeafOutputGenerated(g: Graph, n: nat, o: OpId)
    requires o < n <= |g.ops| && g.ops[o].outputs == []
    ensures LeafGenerated(AddLeafOutputs(g, n), o)
    decreases n
  {
    var r' := AddLeafOutputs(g, n - 1);
    if o < n - 1 {
      LeafOutputGenerated(g, n - 1, o);
    } else {
      LeafOutputsOps(g, n - 1, o);
    }
    LeafStepGenerated(r', n, o);
  }

  /** After AddOutputToLeafOps every operator has at least one output. */
  lemma EveryOpHasOutput(g: Graph, o: OpId)
    requires o < |g.ops|
    ensures |AddLeafOutputs(g, |g.ops|).ops[o].outputs| >= 1
  {
    LeafOutputsOps(g, |g.ops|, o);
  }
}
