/** framework/details/ssa_graph_checker.cc: the builder's graph is checked
  * by simulating its execution round by round. Variables without a
  * generator are ready at once; an operator runs when every distinct input
  * is ready, and its outputs become ready in the next round. The pending
  * counts are size_t in the source; a count decremented below zero wraps
  * around and does not come back to zero, which `int` models. */
module SSAGraphChecker {
  import opened Wrappers
  import opened SSAGraphs
  import IrNode

  /** The exception the unordered graph raises. */
  const Exception: string := "exception"

  /** The enforce of AnalysisDeepId on an op without an id. */
  const GraphHasErr: string := "This graph has some err"

  /** The variables the graph registers: the versions in vars_ and the
    * dummies in dep_vars_. */
  ghost predicate IsRegistered(g: Graph, v: VarId)
  {
    v in g.depVars || exists p, n :: 0 <= p < |g.versions| && n in g.versions[p] && v in g.versions[p][n]
  }

  /** The edge lists agree: `o` waits on `v` exactly when `v` is an input
    * of `o`, and `v` is generated by `o` exactly when it is an output of
    * `o`. Every graph the builders produce is of this kind. */
  ghost predicate Consistent(g: Graph)
  {
    GraphValid(g) &&
    (forall v, o :: 0 <= v < |g.vars| && o in g.vars[v].pending ==> v in g.ops[o].inputs) &&
    (forall o, v :: 0 <= o < |g.ops| && v in g.ops[o].inputs ==> o in g.vars[v].pending) &&
    (forall o, v {:trigger v in g.ops[o].outputs} :: 0 <= o < |g.ops| && v in g.ops[o].outputs ==> g.vars[v].generator == Some(o)) &&
    (forall v :: 0 <= v < |g.vars| && g.vars[v].generator.Some? ==> v in g.ops[g.vars[v].generator.value].outputs)
  }

  /** `order` runs each operator at most once, and only after the
    * generators of all its inputs. */
  ghost predicate Schedule(g: Graph, order: seq<OpId>)
  {
    (forall i :: 0 <= i < |order| ==> order[i] < |g.ops|) &&
    (forall i, j :: 0 <= i < j < |order| ==> order[i] != order[j]) &&
    (forall i, x :: 0 <= i < |order| && x in g.ops[order[i]].inputs ==>
       x < |g.vars| && (g.vars[x].generator.None? || g.vars[x].generator.value in order[..i]))
  }

  /** Every variable of `vs` is generated by nothing or by an operator that
    * has run. */
  ghost predicate Produced(g: Graph, run: set<OpId>, vs: set<VarId>)
  {
    forall v :: v in vs ==> v < |g.vars| && (g.vars[v].generator.None? || g.vars[v].generator.value in run)
  }

  /** The inputs of every operator of `ops` are produced. */
  ghost predicate InputsProduced(g: Graph, run: set<OpId>, ops: set<OpId>)
    requires GraphValid(g)
  {
    forall o, x :: o in ops && o < |g.ops| && x in g.ops[o].inputs ==>
      g.vars[x].generator.None? || g.vars[x].generator.value in run
  }

  /** The pending count of an operator with inputs is the number of its
    * distinct inputs whose readiness has not been processed yet. */
  ghost predicate Counting(g: Graph, pendingOps: map<OpId, int>, processed: set<VarId>)
  {
    forall o :: 0 <= o < |g.ops| && g.ops[o].inputs != [] ==>
      o in pendingOps && pendingOps[o] == |IrNode.Members(g.ops[o].inputs) - processed|
  }

  /** The registered variables with their generatorless ones: the sets the
    * insert_pending_var loops build. */
  method InsertPendingVars(g: Graph) returns (pendingVars: set<VarId>, readyVars: set<VarId>)
    requires GraphValid(g)
    ensures forall v :: v in pendingVars ==> IsRegistered(g, v) && v < |g.vars|
    ensures forall v :: IsRegistered(g, v) ==> v in pendingVars
    ensures forall v :: v in readyVars <==> v in pendingVars && v < |g.vars| && g.vars[v].generator.None?
  {
    pendingVars, readyVars := {}, {};
    var p := 0;
    while p < |g.versions|
      invariant p <= |g.versions|
      invariant forall v :: v in pendingVars ==> IsRegistered(g, v) && v < |g.vars|
      invariant forall q, n, v :: 0 <= q < p && n in g.versions[q] && v in g.versions[q][n] ==> v in pendingVars
      invariant forall v :: v in readyVars <==> v in pendingVars && v < |g.vars| && g.vars[v].generator.None?
    {
      var names := g.versions[p].Keys;
      while names != {}
        invariant names <= g.versions[p].Keys
        invariant forall v :: v in pendingVars ==> IsRegistered(g, v) && v < |g.vars|
        invariant forall q, n, v :: 0 <= q < p && n in g.versions[q] && v in g.versions[q][n] ==> v in pendingVars
        invariant forall n, v :: n in g.versions[p] && n !in names && v in g.versions[p][n] ==> v in pendingVars
        invariant forall v :: v in readyVars <==> v in pendingVars && v < |g.vars| && g.vars[v].generator.None?
        decreases names
      {
        var name :| name in names;
        var list := g.versions[p][name];
        var k := 0;
        while k < |list|
          invariant k <= |list|
          invariant forall v :: v in pendingVars ==> IsRegistered(g, v) && v < |g.vars|
          invariant forall q, n, v :: 0 <= q < p && n in g.versions[q] && v in g.versions[q][n] ==> v in pendingVars
          invariant forall n, v :: n in g.versions[p] && n !in names && v in g.versions[p][n] ==> v in pendingVars
          invariant forall j :: 0 <= j < k ==> list[j] in pendingVars
          invariant forall v :: v in readyVars <==> v in pendingVars && v < |g.vars| && g.vars[v].generator.None?
        {
          assert list[k] in g.versions[p][name];
          pendingVars, readyVars := InsertPendingVar(g, list[k], pendingVars, readyVars);
          k := k + 1;
        }
        names := names - {name};
      }
      p := p + 1;
    }
    var rest := g.depVars;
    while rest != {}
      invariant rest <= g.depVars
      invariant forall v :: v in pendingVars ==> IsRegistered(g, v) && v < |g.vars|
      invariant forall q, n, v :: 0 <= q < |g.versions| && n in g.versions[q] && v in g.versions[q][n] ==> v in pendingVars
      invariant forall v :: v in g.depVars && v !in rest ==> v in pendingVars
      invariant forall v :: v in readyVars <==> v in pendingVars && v < |g.vars| && g.vars[v].generator.None?
      decreases rest
    {
      var v :| v in rest;
      pendingVars, readyVars := InsertPendingVar(g, v, pendingVars, readyVars);
      rest := rest - {v};
    }
  }

  /** insert_pending_var: the variable is pending, and ready if nothing
    * generates it. */
  method InsertPendingVar(g: Graph, v: VarId, pendingVars: set<VarId>, readyVars: set<VarId>)
    returns (pendingVars': set<VarId>, readyVars': set<VarId>)
    requires v < |g.vars|
    ensures pendingVars' == pendingVars + {v}
    ensures readyVars' == if g.vars[v].generator.None? then readyVars + {v} else readyVars
  {
    pendingVars' := pendingVars + {v};
    readyVars' := readyVars;
    if g.vars[v].generator.None? {
      readyVars' := readyVars' + {v};
    }
  }

  /** Operators without inputs are ready; every other one waits on its
    * distinct inputs. */
  method InitOps(g: Graph) returns (readyOps: set<OpId>, pendingOps: map<OpId, int>)
    ensures forall o :: o in readyOps <==> 0 <= o < |g.ops| && g.ops[o].inputs == []
    ensures Counting(g, pendingOps, {})
    ensures forall o :: o in pendingOps ==> 0 <= o < |g.ops| && g.ops[o].inputs != []
    ensures Open(pendingOps, readyOps)
  {
    readyOps, pendingOps := {}, map[];
    var o := 0;
    while o < |g.ops|
      invariant o <= |g.ops|
      invariant forall q :: q in readyOps <==> 0 <= q < o && g.ops[q].inputs == []
      invariant forall q :: q in pendingOps ==> 0 <= q < o && g.ops[q].inputs != []
      invariant forall q :: 0 <= q < o && g.ops[q].inputs != [] ==>
        q in pendingOps && pendingOps[q] == |IrNode.Members(g.ops[q].inputs) - {}|
    {
      if g.ops[o].inputs == [] {
        readyOps := readyOps + {o};
      } else {
        var n := IrNode.NoDupInputSize(g.ops[o].inputs);
        assert IrNode.Members(g.ops[o].inputs) - {} == IrNode.Members(g.ops[o].inputs);
        pendingOps := pendingOps[o := n];
      }
      o := o + 1;
    }
    forall q | q in pendingOps && q !in readyOps
      ensures pendingOps[q] != 0
    {
      InputsCounted(g.ops[q].inputs);
    }
  }

  /** An operator with inputs waits on at least one of them. */
  lemma InputsCounted(inputs: seq<VarId>)
    requires inputs != []
    ensures |IrNode.Members(inputs) - {}| > 0
  {
    assert inputs[0] in IrNode.Members(inputs) - {};
  }

  /** The operators of the graph. */
  function AllOps(g: Graph): (r: set<OpId>)
    ensures forall o :: o in r <==> 0 <= o < |g.ops|
  {
    Below(|g.ops|)
  }

  /** The identifiers less than `n`. */
  function Below(n: nat): (r: set<nat>)
    ensures forall o :: o in r <==> 0 <= o < n
  {
    if n == 0 then {} else Below(n - 1) + {n - 1}
  }

  /** There are exactly `n` identifiers below `n`. */
  lemma {:induction false} BelowCard(n: nat)
    ensures |Below(n)| == n
  {
    if n > 0 {
      BelowCard(n - 1);
      var b := Below(n - 1);
      assert Below(n) == b + {n - 1};
      assert n - 1 !in b;
    }
  }

  /** run_all_ops: every ready operator runs, its outputs become ready, and
    * the ready set is emptied; the ghost `order` records the runs. */
  method RunAllOps(g: Graph, readyOps: set<OpId>, readyVars: set<VarId>, ghost run: set<OpId>, ghost order: seq<OpId>)
    returns (readyVars': set<VarId>, ghost run': set<OpId>, ghost order': seq<OpId>)
    requires GraphValid(g) && readyOps <= AllOps(g) && readyOps !! run
    requires forall o :: o in run <==> o in order
    ensures run' == run + readyOps && (forall o :: o in run' <==> o in order') && readyVars <= readyVars'
    ensures readyOps == {} ==> readyVars' == readyVars
    ensures forall v :: v in readyVars' ==> (v in readyVars ||
      (v < |g.vars| && (Consistent(g) ==> g.vars[v].generator.Some? && g.vars[v].generator.value in readyOps)))
    ensures forall o, v :: o in readyOps && v in g.ops[o].outputs ==> v in readyVars'
    ensures Consistent(g) && Schedule(g, order) && InputsProduced(g, run, readyOps) ==> Schedule(g, order')
  {
    readyVars', run', order' := readyVars, run, order;
    var rest := readyOps;
    while rest != {}
      invariant rest <= readyOps && run' == run + (readyOps - rest) && readyVars <= readyVars'
      invariant readyOps == {} ==> readyVars' == readyVars
      invariant forall o :: o in run' <==> o in order'
      invariant |order| <= |order'| && order'[..|order|] == order
      invariant forall v :: v in readyVars' ==> (v in readyVars ||
        (v < |g.vars| && (Consistent(g) ==> g.vars[v].generator.Some? && g.vars[v].generator.value in readyOps)))
      invariant forall o, v :: o in readyOps - rest && v in g.ops[o].outputs ==> v in readyVars'
      invariant Consistent(g) && Schedule(g, order) && InputsProduced(g, run, readyOps) ==> Schedule(g, order')
      decreases rest
    {
      var op :| op in rest;
      var outs := g.ops[op].outputs;
      assert OpInRange(g.ops[op], |g.vars|);
      var k := 0;
      while k < |outs|
        invariant k <= |outs| && readyVars <= readyVars' && op in readyOps
        invariant forall v :: v in readyVars' ==> (v in readyVars ||
          (v < |g.vars| && (Consistent(g) ==> g.vars[v].generator.Some? && g.vars[v].generator.value in readyOps)))
        invariant forall o, v :: o in readyOps - rest && v in g.ops[o].outputs ==> v in readyVars'
        invariant forall j :: 0 <= j < k ==> outs[j] in readyVars'
      {
        assert outs[k] in g.ops[op].outputs;
        readyVars' := readyVars' + {outs[k]};
        k := k + 1;
      }
      ghost var before := order';
      order' := order' + [op];
      assert order'[..|before|] == before;
      assert order'[..|order|] == order by {
        assert order'[..|order|] == before[..|order|];
      }
      if Consistent(g) && Schedule(g, order) && InputsProduced(g, run, readyOps) {
        ScheduleSnoc(g, before, op, run);
      }
      run' := run' + {op};
      rest := rest - {op};
    }
  }

  /** Running an operator whose inputs are produced extends a schedule. */
  lemma ScheduleSnoc(g: Graph, order: seq<OpId>, op: OpId, run: set<OpId>)
    requires GraphValid(g) && Schedule(g, order) && op < |g.ops| && op !in order
    requires forall o :: o in run ==> o in order
    requires forall x :: x in g.ops[op].inputs ==> g.vars[x].generator.None? || g.vars[x].generator.value in run
    ensures Schedule(g, order + [op])
  {
    var order' := order + [op];
    assert OpInRange(g.ops[op], |g.vars|);
    forall i, x | 0 <= i < |order'| && x in g.ops[order'[i]].inputs
      ensures x < |g.vars| && (g.vars[x].generator.None? || g.vars[x].generator.value in order'[..i])
    {
      if i < |order| {
        assert order'[..i] == order[..i];
      } else {
        assert order'[..i] == order;
      }
    }
  }

  /** The operators of `ops` will not become ready again: their count is
    * absent or already used up. */
  predicate Settled(pendingOps: map<OpId, int>, ops: set<OpId>)
  {
    forall o :: o in ops && o in pendingOps ==> pendingOps[o] <= 0
  }

  /** The operators outside `ops` are still waiting: a count that reaches
    * zero puts its operator among the ready ones. */
  predicate Open(pendingOps: map<OpId, int>, ops: set<OpId>)
  {
    forall o :: o in pendingOps && o !in ops ==> pendingOps[o] != 0
  }

  /** Every distinct input of a ready operator has been processed. */
  ghost predicate ReadyInputs(g: Graph, readyOps: set<OpId>, processed: set<VarId>)
  {
    forall o :: o in readyOps && 0 <= o < |g.ops| ==> IrNode.Members(g.ops[o].inputs) <= processed
  }

  /** Every registered variable is generated by nothing or by an operator of
    * `ran`. */
  ghost predicate AllGenerated(g: Graph, ran: seq<OpId>)
  {
    forall v: VarId :: IsRegistered(g, v) && v < |g.vars| && g.vars[v].generator.Some? ==> g.vars[v].generator.value in ran
  }

  /** Removing a member from a finite set lowers its size by one. */
  lemma CardRemove(xs: set<VarId>, v: VarId)
    requires v in xs
    ensures |xs - {v}| == |xs| - 1
  {
    assert (xs - {v}) + {v} == xs;
  }

  /** One waiting operator of `v`: its count is decremented (operator[]
    * inserts a zero first), and it is ready when the count reaches zero.
    * `pendingOps0` and `readyOps0` are the state before the loop over the
    * waiting operators of `v`, `done` those already handled. */
  method ReleaseReader(g: Graph, v: VarId, o: OpId, ghost pendingOps0: map<OpId, int>, ghost readyOps0: set<OpId>,
                       pendingOps: map<OpId, int>, readyOps: set<OpId>, ghost processed: set<VarId>, ghost run: set<OpId>,
                       ghost done: set<OpId>)
    returns (pendingOps': map<OpId, int>, readyOps': set<OpId>)
    requires GraphValid(g) && v < |g.vars| && o in g.vars[v].pending && o !in done
    requires readyOps0 <= readyOps <= AllOps(g) && readyOps !! run && Settled(pendingOps, run + readyOps)
    requires readyOps - readyOps0 <= done
    requires forall x :: x in readyOps - readyOps0 ==> x in pendingOps && pendingOps[x] == 0
    requires Consistent(g) && Counting(g, pendingOps0, processed) && v !in processed ==>
      CountingExcept(g, pendingOps, processed, v, done)
    requires Open(pendingOps, run + readyOps)
    ensures readyOps0 <= readyOps' <= AllOps(g) && readyOps' !! run && Settled(pendingOps', run + readyOps')
    ensures Open(pendingOps', run + readyOps')
    ensures readyOps' - readyOps0 <= done + {o}
    ensures forall x :: x in readyOps' - readyOps0 ==> x in pendingOps' && pendingOps'[x] == 0
    ensures Consistent(g) && Counting(g, pendingOps0, processed) && v !in processed ==>
      CountingExcept(g, pendingOps', processed, v, done + {o})
  {
    assert VarInRange(g.vars[v], |g.ops|);
    var count := (if o in pendingOps then pendingOps[o] else 0) - 1;
    pendingOps' := pendingOps[o := count];
    readyOps' := readyOps;
    if count == 0 {
      readyOps' := readyOps' + {o};
    }
    if Consistent(g) && Counting(g, pendingOps0, processed) && v !in processed {
      assert v in g.ops[o].inputs;
      assert v in IrNode.Members(g.ops[o].inputs);
      CountStep(IrNode.Members(g.ops[o].inputs), processed, v);
      CountingStep(g, pendingOps, processed, v, done, o);
    }
  }

  /** The loop over ready_var->pending_ops_: each waiting operator's count is
    * decremented (operator[] inserts a zero first), and an operator whose
    * count reaches zero is ready. */
  method ReleaseVar(g: Graph, v: VarId, pendingOps: map<OpId, int>, readyOps: set<OpId>,
                    ghost processed: set<VarId>, ghost run: set<OpId>)
    returns (pendingOps': map<OpId, int>, readyOps': set<OpId>)
    requires GraphValid(g) && v < |g.vars|
    requires readyOps <= AllOps(g) && readyOps !! run && Settled(pendingOps, run + readyOps)
    requires Open(pendingOps, run + readyOps)
    ensures readyOps <= readyOps' <= AllOps(g) && readyOps' !! run && Settled(pendingOps', run + readyOps')
    ensures Open(pendingOps', run + readyOps')
    ensures readyOps' - readyOps <= g.vars[v].pending
    ensures Consistent(g) && Counting(g, pendingOps, processed) && v !in processed ==>
      Counting(g, pendingOps', processed + {v}) && ReadyInputs(g, readyOps' - readyOps, processed + {v})
  {
    pendingOps', readyOps' := pendingOps, readyOps;
    var readers := g.vars[v].pending;
    assert VarInRange(g.vars[v], |g.ops|);
    ghost var done: set<OpId> := {};
    while readers != {}
      invariant readers + done == g.vars[v].pending && readers !! done
      invariant readyOps <= readyOps' <= AllOps(g) && readyOps' !! run && Settled(pendingOps', run + readyOps')
      invariant Open(pendingOps', run + readyOps')
      invariant readyOps' - readyOps <= done
      invariant forall o :: o in readyOps' - readyOps ==> o in pendingOps' && pendingOps'[o] == 0
      invariant Consistent(g) && Counting(g, pendingOps, processed) && v !in processed ==>
        CountingExcept(g, pendingOps', processed, v, done)
      decreases readers
    {
      var o :| o in readers;
      pendingOps', readyOps' := ReleaseReader(g, v, o, pendingOps, readyOps, pendingOps', readyOps', processed, run, done);
      done := done + {o};
      readers := readers - {o};
    }
    if Consistent(g) && Counting(g, pendingOps, processed) && v !in processed {
      CountingClose(g, pendingOps', processed, v);
      forall o | o in readyOps' - readyOps && 0 <= o < |g.ops|
        ensures IrNode.Members(g.ops[o].inputs) <= processed + {v}
      {
        assert v in g.ops[o].inputs;
      }
    }
  }

  /** Counting, where the readers of `v` in `done` have already seen `v`. */
  ghost predicate CountingExcept(g: Graph, pendingOps: map<OpId, int>, processed: set<VarId>, v: VarId, done: set<OpId>)
  {
    forall o :: 0 <= o < |g.ops| && g.ops[o].inputs != [] ==>
      o in pendingOps && pendingOps[o] == |IrNode.Members(g.ops[o].inputs) - (if o in done then processed + {v} else processed)|
  }

  lemma CountStep(members: set<VarId>, processed: set<VarId>, v: VarId)
    requires v in members && v !in processed
    ensures |members - (processed + {v})| == |members - processed| - 1
  {
    assert members - (processed + {v}) == (members - processed) - {v};
    CardRemove(members - processed, v);
  }

  lemma CountingStep(g: Graph, pendingOps: map<OpId, int>, processed: set<VarId>, v: VarId, done: set<OpId>, o: OpId)
    requires CountingExcept(g, pendingOps, processed, v, done)
    requires 0 <= o < |g.ops| && o !in done && v in g.ops[o].inputs
    requires |IrNode.Members(g.ops[o].inputs) - (processed + {v})| == |IrNode.Members(g.ops[o].inputs) - processed| - 1
    ensures CountingExcept(g, pendingOps[o := pendingOps[o] - 1], processed, v, done + {o})
  {
  }

  lemma CountingClose(g: Graph, pendingOps: map<OpId, int>, processed: set<VarId>, v: VarId)
    requires Consistent(g) && v < |g.vars|
    requires CountingExcept(g, pendingOps, processed, v, g.vars[v].pending)
    ensures Counting(g, pendingOps, processed + {v})
  {
    forall o | 0 <= o < |g.ops| && g.ops[o].inputs != []
      ensures o in pendingOps && pendingOps[o] == |IrNode.Members(g.ops[o].inputs) - (processed + {v})|
    {
      if o !in g.vars[v].pending {
        UntouchedCount(IrNode.Members(g.ops[o].inputs), processed, v);
      }
    }
  }

  lemma UntouchedCount(members: set<VarId>, processed: set<VarId>, v: VarId)
    requires v !in members
    ensures members - (processed + {v}) == members - processed
  {
  }

  /** The loop over ready_vars: each one leaves pending_vars and releases
    * its waiting operators. `processed` gathers the variables whose
    * readiness has been handed on. */
  method ReleaseReadyVars(g: Graph, readyVars: set<VarId>, pendingVars: set<VarId>, pendingOps: map<OpId, int>,
                          readyOps: set<OpId>, ghost processed: set<VarId>, ghost run: set<OpId>)
    returns (pendingVars': set<VarId>, pendingOps': map<OpId, int>, readyOps': set<OpId>, ghost processed': set<VarId>)
    requires GraphValid(g) && forall v :: v in readyVars ==> v < |g.vars|
    requires readyOps <= AllOps(g) && readyOps !! run && Settled(pendingOps, run + readyOps)
    requires Open(pendingOps, run + readyOps)
    ensures pendingVars' == pendingVars - readyVars && processed' == processed + readyVars
    ensures readyOps <= readyOps' <= AllOps(g) && readyOps' !! run && Settled(pendingOps', run + readyOps')
    ensures Open(pendingOps', run + readyOps')
    ensures Consistent(g) && Counting(g, pendingOps, processed) && readyVars !! processed ==>
      Counting(g, pendingOps', processed') && ReadyInputs(g, readyOps' - readyOps, processed')
  {
    pendingVars', pendingOps', readyOps', processed' := pendingVars, pendingOps, readyOps, processed;
    var rest := readyVars;
    while rest != {}
      invariant rest <= readyVars && pendingVars' == pendingVars - (readyVars - rest)
      invariant processed' == processed + (readyVars - rest)
      invariant readyOps <= readyOps' <= AllOps(g) && readyOps' !! run && Settled(pendingOps', run + readyOps')
      invariant Open(pendingOps', run + readyOps')
      invariant Consistent(g) && Counting(g, pendingOps, processed) && readyVars !! processed ==>
        Counting(g, pendingOps', processed') && ReadyInputs(g, readyOps' - readyOps, processed')
      decreases rest
    {
      var v :| v in rest;
      pendingVars' := pendingVars' - {v};
      pendingOps', readyOps' := ReleaseVar(g, v, pendingOps', readyOps', processed', run);
      processed' := processed' + {v};
      rest := rest - {v};
    }
  }

  /** What holds between two rounds of the simulation: the pending
    * variables are the registered ones not yet processed; every processed
    * or ready variable has its generator run; every output of a run
    * operator is processed or ready; and, on a consistent graph, the counts
    * are exact and the runs so far form a schedule. */
  ghost predicate Between(g: Graph, pendingVars: set<VarId>, readyVars: set<VarId>, readyOps: set<OpId>,
                          pendingOps: map<OpId, int>, processed: set<VarId>, run: set<OpId>, order: seq<OpId>)
    requires GraphValid(g)
  {
    readyOps <= AllOps(g) && run <= AllOps(g) && readyOps !! run && Settled(pendingOps, run + readyOps) &&
    Open(pendingOps, run + readyOps) &&
    (forall o :: 0 <= o < |g.ops| && g.ops[o].inputs == [] ==> o in run || o in readyOps) &&
    (forall o :: o in run <==> o in order) &&
    (forall v :: v in readyVars ==> v < |g.vars|) &&
    (forall v: VarId :: v in pendingVars <==> IsRegistered(g, v) && v < |g.vars| && v !in processed) &&
    (forall v: VarId :: IsRegistered(g, v) && v < |g.vars| && g.vars[v].generator.None? ==>
       v in processed || v in readyVars) &&
    (forall o, v :: o in run && v in g.ops[o].outputs ==> v in processed || v in readyVars) &&
    (Consistent(g) ==> Counting(g, pendingOps, processed) && readyVars !! processed) &&
    (Consistent(g) ==> Produced(g, run, processed + readyVars) && ReadyInputs(g, readyOps, processed)) &&
    (Consistent(g) ==> Schedule(g, order))
  }

  /** One round of the while loop of IsValidGraph: run_all_ops, the stall
    * test, and the release of the ready variables. */
  method Round(g: Graph, pendingVars: set<VarId>, readyVars: set<VarId>, readyOps: set<OpId>, pendingOps: map<OpId, int>,
               ghost processed: set<VarId>, ghost run: set<OpId>, ghost order: seq<OpId>)
    returns (stalled: bool, pendingVars': set<VarId>, readyOps': set<OpId>, pendingOps': map<OpId, int>,
             ghost processed': set<VarId>, ghost run': set<OpId>, ghost order': seq<OpId>)
    requires GraphValid(g) && pendingVars != {}
    requires Between(g, pendingVars, readyVars, readyOps, pendingOps, processed, run, order)
    ensures run' == run + readyOps
    ensures !stalled && readyVars == {} ==> AllOps(g) - run' < AllOps(g) - run
    ensures !stalled ==> Between(g, pendingVars', {}, readyOps', pendingOps', processed', run', order')
    ensures stalled ==> (Consistent(g) ==> Schedule(g, order') && !AllGenerated(g, order') && Stuck(g, order'))
  {
    if Consistent(g) {
      assert InputsProduced(g, run, readyOps) by {
        forall o, x | o in readyOps && o < |g.ops| && x in g.ops[o].inputs
          ensures g.vars[x].generator.None? || g.vars[x].generator.value in run
        {
          assert x in IrNode.Members(g.ops[o].inputs);
        }
      }
    }
    var readyVars';
    readyVars', run', order' := RunAllOps(g, readyOps, readyVars, run, order);
    if readyVars' == {} {
      ghost var v :| v in pendingVars;
      if Consistent(g) {
        assert VarInRange(g.vars[v], |g.ops|);
        StalledStuck(g, pendingVars, readyVars, readyOps, pendingOps, processed, run, order, readyVars', order');
      }
      return true, pendingVars, {}, pendingOps, processed, run', order';
    }
    stalled := false;
    pendingVars', pendingOps', readyOps', processed' := ReleaseReadyVars(g, readyVars', pendingVars, pendingOps, {}, processed, run');
  }

  /** A variable is available to the operators after `order` when it is
    * registered and generated by nothing or by an operator of `order`. */
  ghost predicate Available(g: Graph, order: seq<OpId>, x: VarId)
  {
    x < |g.vars| && IsRegistered(g, x) && (g.vars[x].generator.None? || g.vars[x].generator.value in order)
  }

  /** No operator outside `order` can run: each one has an input that is
    * not available. */
  ghost predicate Stuck(g: Graph, order: seq<OpId>)
  {
    forall o :: 0 <= o < |g.ops| && o !in order ==> exists x :: x in g.ops[o].inputs && !Available(g, order, x)
  }

  /** Every input of every operator is a registered variable. */
  ghost predicate InputsRegistered(g: Graph)
  {
    forall o, x :: 0 <= o < |g.ops| && x in g.ops[o].inputs ==> IsRegistered(g, x)
  }

  /** Some order of the operators runs each one after the generators of
    * its inputs and runs the generator of every registered variable. */
  ghost predicate Schedulable(g: Graph)
  {
    exists order :: Schedule(g, order) && AllGenerated(g, order)
  }

  /** A round that readies no variable leaves every operator that has not
    * run waiting on an unprocessed input, which is therefore unavailable. */
  lemma StalledStuck(g: Graph, pendingVars: set<VarId>, readyVars: set<VarId>, readyOps: set<OpId>,
                     pendingOps: map<OpId, int>, processed: set<VarId>, run: set<OpId>, order: seq<OpId>,
                     readyVars': set<VarId>, order': seq<OpId>)
    requires Consistent(g) && Between(g, pendingVars, readyVars, readyOps, pendingOps, processed, run, order)
    requires readyVars <= readyVars' == {} && forall o, v :: o in readyOps && v in g.ops[o].outputs ==> v in readyVars'
    requires forall o :: o in order' <==> o in run || o in readyOps
    ensures Stuck(g, order')
  {
    forall o | 0 <= o < |g.ops| && o !in order'
      ensures exists x :: x in g.ops[o].inputs && !Available(g, order', x)
    {
      assert OpInRange(g.ops[o], |g.vars|);
      var waiting := IrNode.Members(g.ops[o].inputs) - processed;
      assert |waiting| != 0;
      var x :| x in waiting;
      assert x in g.ops[o].inputs && !Available(g, order', x);
    }
  }

  /** When every input is registered, a stuck simulation has run every
    * operator of any schedule: the first one it missed would have all its
    * inputs available. */
  lemma {:induction false} StuckCoversSchedule(g: Graph, order: seq<OpId>, s: seq<OpId>, i: int)
    requires GraphValid(g) && InputsRegistered(g) && Schedule(g, s) && Stuck(g, order) && 0 <= i < |s|
    ensures s[i] in order
    decreases i
  {
    forall j | 0 <= j < i
      ensures s[j] in order
    {
      StuckCoversSchedule(g, order, s, j);
    }
    forall x | x in g.ops[s[i]].inputs
      ensures Available(g, order, x)
    {
      if g.vars[x].generator.Some? {
        var q := g.vars[x].generator.value;
        var j :| 0 <= j < |s[..i]| && s[..i][j] == q;
        assert s[j] == q;
      }
    }
  }

  /** A stuck simulation that missed a generator proves that no schedule
    * runs every generator. */
  lemma NoFullSchedule(g: Graph, order: seq<OpId>)
    requires GraphValid(g) && InputsRegistered(g) && Stuck(g, order) && !AllGenerated(g, order)
    ensures !Schedulable(g)
  {
    forall s | Schedule(g, s)
      ensures !AllGenerated(g, s)
    {
      forall i | 0 <= i < |s|
        ensures s[i] in order
      {
        StuckCoversSchedule(g, order, s, i);
      }
    }
  }

  /** IsValidGraph: the graph is executed round by round. It is valid when
    * every registered variable becomes ready, and invalid as soon as a
    * round with variables still pending readies none. On a consistent
    * graph the rounds form a schedule, and the answer is true exactly when
    * that schedule runs the generator of every registered variable. */
  method IsValidGraph(g: Graph) returns (ok: bool, ghost order: seq<OpId>)
    requires GraphValid(g)
    ensures Consistent(g) ==> Schedule(g, order)
    ensures Consistent(g) ==> (ok <==> AllGenerated(g, order))
    ensures Consistent(g) && !ok ==> Stuck(g, order)
    ensures Consistent(g) && InputsRegistered(g) ==> (ok <==> Schedulable(g))
  {
    var pendingVars: set<VarId>, readyVars: set<VarId> := InsertPendingVars(g);
    var readyOps: set<OpId>, pendingOps: map<OpId, int> := InitOps(g);
    ghost var processed: set<VarId> := {};
    ghost var run: set<OpId> := {};
    ghost var first := true;
    order := [];
    while pendingVars != {}
      invariant Between(g, pendingVars, readyVars, readyOps, pendingOps, processed, run, order)
      invariant !first ==> readyVars == {}
      decreases AllOps(g) - run, if first then 1 else 0
    {
      var stalled;
      stalled, pendingVars, readyOps, pendingOps, processed, run, order :=
        Round(g, pendingVars, readyVars, readyOps, pendingOps, processed, run, order);
      if stalled {
        if Consistent(g) && InputsRegistered(g) {
          NoFullSchedule(g, order);
        }
        return false, order;
      }
      readyVars := {};
      first := false;
    }
    assert forall v: VarId :: IsRegistered(g, v) && v < |g.vars| ==> v in processed;
    return true, order;
  }

  /** get_depth: the depth of an input is that of its generator, which must
    * already have one; a variable without generator has depth zero. */
  function InputDepth(g: Graph, ids: seq<int>, x: VarId): (r: Result<int>)
    requires x < |g.vars| && |ids| == |g.ops| && VarInRange(g.vars[x], |g.ops|)
    ensures r.Err? <==> g.vars[x].generator.Some? && ids[g.vars[x].generator.value] == -1
    ensures r.Ok? && g.vars[x].generator.None? ==> r.value == 0
  {
    match g.vars[x].generator
    case None => Ok(0)
    case Some(q) => if ids[q] == -1 then Err(GraphHasErr) else Ok(ids[q])
  }

  /** The generators of the inputs of `ops` are outside `ops` and already
    * carry a depth between 1 and depth - 1. */
  ghost predicate EarlierInputs(g: Graph, ops: set<OpId>, ids: seq<int>, depth: int)
    requires GraphValid(g) && |ids| == |g.ops|
  {
    0 <= depth &&
    forall o, x :: o in ops && 0 <= o < |g.ops| && x in g.ops[o].inputs && g.vars[x].generator.Some? ==>
      g.vars[x].generator.value !in ops && 1 <= ids[g.vars[x].generator.value] < depth
  }

  /** The depth loop of run_all_ops: each operator of the round gets the
    * larger of the round number and the depths of its inputs. */
  method AssignDepths(g: Graph, ops: set<OpId>, depth: int, ids: seq<int>) returns (r: Result<seq<int>>)
    requires GraphValid(g) && ops <= AllOps(g) && |ids| == |g.ops|
    ensures r.Ok? ==> |r.value| == |ids| && forall o :: 0 <= o < |ids| && o !in ops ==> r.value[o] == ids[o]
    ensures r.Ok? ==> forall o :: o in ops ==> depth <= r.value[o]
    ensures EarlierInputs(g, ops, ids, depth) ==> r.Ok? && forall o :: o in ops ==> r.value[o] == depth
  {
    var cur := ids;
    var rest := ops;
    while rest != {}
      invariant rest <= ops && |cur| == |ids|
      invariant forall o :: 0 <= o < |ids| && o !in ops - rest ==> cur[o] == ids[o]
      invariant forall o :: o in ops - rest ==> depth <= cur[o]
      invariant EarlierInputs(g, ops, ids, depth) ==> forall o :: o in ops - rest ==> cur[o] == depth
      decreases rest
    {
      var op :| op in rest;
      var ins := g.ops[op].inputs;
      assert OpInRange(g.ops[op], |g.vars|);
      var deep := depth;
      var k := 0;
      while k < |ins|
        invariant k <= |ins| && depth <= deep
        invariant EarlierInputs(g, ops, ids, depth) ==> deep == depth
      {
        assert ins[k] in g.ops[op].inputs;
        assert VarInRange(g.vars[ins[k]], |g.ops|);
        if EarlierInputs(g, ops, ids, depth) && g.vars[ins[k]].generator.Some? {
          assert cur[g.vars[ins[k]].generator.value] == ids[g.vars[ins[k]].generator.value];
        }
        var d := InputDepth(g, cur, ins[k]);
        if d.Err? {
          return Err(d.error);
        }
        if deep < d.value {
          deep := d.value;
        }
        k := k + 1;
      }
      cur := cur[op := deep];
      rest := rest - {op};
    }
    return Ok(cur);
  }

  /** One round of the while loop of AnalysisDeepId: the round number goes
    * up when operators are ready, the ready operators get their depths,
    * and the round of IsValidGraph follows. */
  method DeepRound(g: Graph, pendingVars: set<VarId>, readyVars: set<VarId>, readyOps: set<OpId>, pendingOps: map<OpId, int>,
                   ids: seq<int>, depth: int, ghost processed: set<VarId>, ghost run: set<OpId>, ghost order: seq<OpId>)
    returns (r: Result<seq<int>>, depth': int, stalled: bool, pendingVars': set<VarId>, readyOps': set<OpId>,
             pendingOps': map<OpId, int>, ghost processed': set<VarId>, ghost run': set<OpId>, ghost order': seq<OpId>)
    requires GraphValid(g) && pendingVars != {} && |ids| == |g.ops| && 0 <= depth
    requires Between(g, pendingVars, readyVars, readyOps, pendingOps, processed, run, order)
    requires Consistent(g) ==> (forall o :: o in run ==> 1 <= ids[o] <= depth) && Layered(g, order, ids)
    ensures r.Ok? && !stalled ==> run' == run + readyOps
    ensures depth <= depth'
    ensures r.Ok? && !stalled && readyVars == {} ==> AllOps(g) - run' < AllOps(g) - run
    ensures r.Ok? && !stalled ==> Between(g, pendingVars', {}, readyOps', pendingOps', processed', run', order')
    ensures r.Ok? ==> |r.value| == |g.ops| && forall o :: 0 <= o < |g.ops| && o !in run + readyOps ==> r.value[o] == ids[o]
    ensures r.Ok? && !stalled && Consistent(g) ==>
      (forall o :: o in run' ==> 1 <= r.value[o] <= depth') && Layered(g, order', r.value)
    ensures Consistent(g) ==> r.Ok?
    ensures Consistent(g) && stalled ==> Schedule(g, order') && !AllGenerated(g, order') && Stuck(g, order')
  {
    depth' := depth;
    stalled, pendingVars', readyOps', pendingOps', processed', run', order' :=
      false, pendingVars, readyOps, pendingOps, processed, run, order;
    if readyOps != {} {
      depth' := depth + 1;
    }
    if Consistent(g) {
      ReadyGeneratorsRun(g, pendingVars, readyVars, readyOps, pendingOps, processed, run, order);
      assert EarlierInputs(g, readyOps, ids, depth');
    }
    r := AssignDepths(g, readyOps, depth', ids);
    if r.Ok? {
      stalled, pendingVars', readyOps', pendingOps', processed', run', order' :=
        Round(g, pendingVars, readyVars, readyOps, pendingOps, processed, run, order);
      if !stalled && Consistent(g) {
        LayeredRound(g, run, order, run', order', readyOps, ids, r.value, depth');
      }
    }
  }

  /** AnalysisDeepId: the rounds of IsValidGraph, numbered from 1; every
    * operator that runs gets as deep_id the number of its round, at least
    * the depth of each of its inputs. A stalled round, or an input whose
    * generator has no depth yet, is an error. On a consistent graph the
    * depths strictly increase along every edge. */
  method AnalysisDeepId(g: Graph, ids: seq<int>) returns (r: Result<seq<int>>, ghost order: seq<OpId>)
    requires GraphValid(g) && |ids| == |g.ops|
    ensures Consistent(g) ==> Schedule(g, order) && (r.Ok? <==> AllGenerated(g, order))
    ensures r.Ok? ==> |r.value| == |g.ops| && forall o :: 0 <= o < |g.ops| && o !in order ==> r.value[o] == ids[o]
    ensures Consistent(g) && r.Ok? ==> forall o :: o in order ==> 1 <= r.value[o]
    ensures Consistent(g) && r.Ok? ==> Layered(g, order, r.value)
    ensures Consistent(g) && r.Err? ==> Stuck(g, order)
    ensures Consistent(g) && InputsRegistered(g) ==> (r.Ok? <==> Schedulable(g))
  {
    var pendingVars: set<VarId>, readyVars: set<VarId> := InsertPendingVars(g);
    var readyOps: set<OpId>, pendingOps: map<OpId, int> := InitOps(g);
    ghost var processed: set<VarId> := {};
    ghost var run: set<OpId> := {};
    ghost var first := true;
    order := [];
    var cur := ids;
    var depth := 0;
    while pendingVars != {}
      invariant Between(g, pendingVars, readyVars, readyOps, pendingOps, processed, run, order)
      invariant !first ==> readyVars == {}
      invariant 0 <= depth
      invariant |cur| == |g.ops| && forall o :: 0 <= o < |g.ops| && o !in run ==> cur[o] == ids[o]
      invariant Consistent(g) ==> (forall o :: o in run ==> 1 <= cur[o] <= depth) && Layered(g, order, cur)
      decreases AllOps(g) - run, if first then 1 else 0
    {
      var depths, stalled;
      depths, depth, stalled, pendingVars, readyOps, pendingOps, processed, run, order :=
        DeepRound(g, pendingVars, readyVars, readyOps, pendingOps, cur, depth, processed, run, order);
      if depths.Err? {
        return Err(depths.error), order;
      }
      if stalled {
        if Consistent(g) && InputsRegistered(g) {
          NoFullSchedule(g, order);
        }
        return Err(Exception), order;
      }
      cur := depths.value;
      readyVars := {};
      first := false;
    }
    assert forall v: VarId :: IsRegistered(g, v) && v < |g.vars| ==> v in processed;
    return Ok(cur), order;
  }

  /** Every input of an operator of `order` that has a generator is deeper
    * than its generator. */
  ghost predicate Layered(g: Graph, order: seq<OpId>, ids: seq<int>)
    requires GraphValid(g) && |ids| == |g.ops|
  {
    forall o, x :: o in order && 0 <= o < |g.ops| && x in g.ops[o].inputs && g.vars[x].generator.Some? ==>
      ids[g.vars[x].generator.value] < ids[o]
  }

  /** Between rounds, the generators of the inputs of the ready operators
    * have run. */
  lemma ReadyGeneratorsRun(g: Graph, pendingVars: set<VarId>, readyVars: set<VarId>, readyOps: set<OpId>,
                           pendingOps: map<OpId, int>, processed: set<VarId>, run: set<OpId>, order: seq<OpId>)
    requires GraphValid(g) && Consistent(g)
    requires Between(g, pendingVars, readyVars, readyOps, pendingOps, processed, run, order)
    ensures InputsProduced(g, run, readyOps)
  {
    forall o, x | o in readyOps && o < |g.ops| && x in g.ops[o].inputs
      ensures g.vars[x].generator.None? || g.vars[x].generator.value in run
    {
      assert x in IrNode.Members(g.ops[o].inputs);
    }
  }

  /** Operators run in a new round, whose inputs come from earlier rounds,
    * keep the depths layered. */
  /** A round that ran `ops` at depth `depth` keeps every operator that has
    * run deeper than the generators of its inputs. */
  lemma LayeredRound(g: Graph, run: set<OpId>, order: seq<OpId>, run': set<OpId>, order': seq<OpId>, ops: set<OpId>,
                     ids: seq<int>, ids': seq<int>, depth: int)
    requires GraphValid(g) && |ids| == |g.ops| && |ids'| == |g.ops|
    requires ops <= AllOps(g) && ops !! run && run' == run + ops
    requires (forall o :: o in run <==> o in order) && (forall o :: o in run' <==> o in order')
    requires Schedule(g, order) && Layered(g, order, ids) && EarlierInputs(g, ops, ids, depth)
    requires forall o :: 0 <= o < |g.ops| && o !in ops ==> ids'[o] == ids[o]
    requires forall o :: o in ops ==> ids'[o] == depth
    ensures Layered(g, order', ids')
  {
    forall o, x | o in order && 0 <= o < |g.ops| && x in g.ops[o].inputs && g.vars[x].generator.Some?
      ensures g.vars[x].generator.value in order
    {
      var i :| 0 <= i < |order| && order[i] == o;
      assert g.vars[x].generator.value in order[..i];
    }
    LayeredStep(g, order, order', ops, ids, ids', depth);
  }

  lemma LayeredStep(g: Graph, order: seq<OpId>, order': seq<OpId>, ops: set<OpId>, ids: seq<int>, ids': seq<int>, depth: int)
    requires GraphValid(g) && |ids| == |g.ops| && |ids'| == |g.ops| && ops <= AllOps(g)
    requires Layered(g, order, ids) && EarlierInputs(g, ops, ids, depth)
    requires forall o :: o in order' <==> o in order || o in ops
    requires forall o :: 0 <= o < |g.ops| && o !in ops ==> ids'[o] == ids[o]
    requires forall o :: o in ops ==> ids'[o] == depth
    requires forall o, x :: o in order && 0 <= o < |g.ops| && x in g.ops[o].inputs && g.vars[x].generator.Some? ==>
      g.vars[x].generator.value in order
    requires forall o :: o in order ==> o !in ops
    ensures Layered(g, order', ids')
  {
  }
}
