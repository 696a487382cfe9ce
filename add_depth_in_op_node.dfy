/** ir/multi_devices_graph_pass/add_depth_in_op_node_pass.cc: the pass that
  * gives every operator of a graph its depth, the round of a breadth-first
  * sweep in which the last operator it waits on has been released.
  *
  * The operators are 0 .. |pending| - 1 and `pending[o]` is the set of
  * operators that wait on `o` (OpGraphView::PendingOps); the preceding
  * dependency count of an operator is the number of operators it waits on
  * (OpGraphView::GetPrecedingDepNum). The depths the pass writes into the
  * operators are returned as a map from operator to depth. */
module AddDepthInOpNode {
  import opened Wrappers
  import IrNode
  import SSAGraphChecker
  import ThreadedExecutor

  /** The enforce that every op got a depth. */
  const UnvisitedOps: string := "There are unvisited ops"

  type OpId = nat

  /** Every operator named as pending is an operator of the graph. */
  predicate ViewOk(pending: seq<set<OpId>>)
  {
    forall p, o :: 0 <= p < |pending| && o in pending[p] ==> o < |pending|
  }

  /** The operators `o` waits on. */
  function Preceding(pending: seq<set<OpId>>, o: OpId): (r: set<OpId>)
    ensures forall p :: p in r <==> 0 <= p < |pending| && o in pending[p]
  {
    set p | 0 <= p < |pending| && o in pending[p]
  }

  /** The number of operators below `k` that `o` waits on and that are not
    * in `done`. */
  function Remaining(pending: seq<set<OpId>>, o: OpId, done: set<OpId>, k: nat): nat
    requires k <= |pending|
  {
    if k == 0 then 0
    else Remaining(pending, o, done, k - 1) + (if o in pending[k - 1] && k - 1 !in done then 1 else 0)
  }

  /** The number of operators `o` waits on that are not in `done`. */
  function Waiting(pending: seq<set<OpId>>, o: OpId, done: set<OpId>): nat
  {
    Remaining(pending, o, done, |pending|)
  }

  /** Adding `cur` to `done` lowers the count by one exactly when `o` waits
    * on `cur` and `cur` was not done. */
  lemma {:induction false} RemainingDrop(pending: seq<set<OpId>>, o: OpId, done: set<OpId>, cur: OpId, k: nat)
    requires k <= |pending|
    ensures Remaining(pending, o, done + {cur}, k) ==
            Remaining(pending, o, done, k) - (if cur < k && o in pending[cur] && cur !in done then 1 else 0)
  {
    if k > 0 {
      RemainingDrop(pending, o, done, cur, k - 1);
    }
  }

  /** The count is zero exactly when every operator `o` waits on is done. */
  lemma {:induction false} RemainingZero(pending: seq<set<OpId>>, o: OpId, done: set<OpId>, k: nat)
    requires k <= |pending|
    ensures Remaining(pending, o, done, k) == 0 <==> forall p :: 0 <= p < k && o in pending[p] ==> p in done
  {
    if k > 0 {
      RemainingZero(pending, o, done, k - 1);
    }
  }

  /** Waiting is zero exactly when the preceding operators are all done. */
  lemma WaitingZero(pending: seq<set<OpId>>, o: OpId, done: set<OpId>)
    ensures Waiting(pending, o, done) == 0 <==> Preceding(pending, o) <= done
  {
    RemainingZero(pending, o, done, |pending|);
  }

  /** GetPrecedingDepNum: every operator with the number of operators it
    * waits on. */
  function PrecedingDepNum(pending: seq<set<OpId>>): (m: map<OpId, nat>)
    ensures forall o: OpId :: o in m <==> o < |pending|
    ensures forall o :: o in m ==> m[o] == Waiting(pending, o, {})
  {
    DepNumBelow(pending, |pending|)
  }

  /** The preceding dependency counts of the operators below `k`. */
  function DepNumBelow(pending: seq<set<OpId>>, k: nat): (m: map<OpId, nat>)
    requires k <= |pending|
    ensures forall o: OpId :: o in m <==> o < k
    ensures forall o :: o in m ==> m[o] == Waiting(pending, o, {})
  {
    if k == 0 then map[] else DepNumBelow(pending, k - 1)[k - 1 := Waiting(pending, k - 1, {})]
  }

  /** `o` sits one level below its deepest preceding operator: every
    * operator it waits on is shallower, and it is at depth 0 or directly
    * below one of them. */
  ghost predicate Placed(pending: seq<set<OpId>>, depths: map<OpId, nat>, o: OpId)
    requires o in depths
  {
    (forall p :: p in Preceding(pending, o) ==> p in depths && depths[p] < depths[o]) &&
    (depths[o] == 0 || exists p :: p in Preceding(pending, o) && p in depths && depths[p] + 1 == depths[o])
  }

  /** A depth for every operator of the graph, each placed. */
  ghost predicate Layered(pending: seq<set<OpId>>, depths: map<OpId, nat>)
  {
    (forall o: OpId :: o in depths <==> o < |pending|) &&
    forall o {:trigger Placed(pending, depths, o)} :: o in depths ==> Placed(pending, depths, o)
  }

  /** Every operator of `s` waits on another operator of `s`: none of them
    * can ever become ready. */
  ghost predicate Stuck(pending: seq<set<OpId>>, s: set<OpId>)
  {
    forall o {:trigger Waits(pending, s, o)} :: o in s ==> Waits(pending, s, o)
  }

  /** `o` waits on some operator of `s`. */
  ghost predicate Waits(pending: seq<set<OpId>>, s: set<OpId>, o: OpId)
  {
    exists p :: p in s && p in Preceding(pending, o)
  }

  /** A layering is never deeper than another at any operator. */
  lemma {:induction false} LayerBelow(pending: seq<set<OpId>>, d1: map<OpId, nat>, d2: map<OpId, nat>, o: OpId)
    requires Layered(pending, d1) && Layered(pending, d2) && o in d1
    ensures o in d2 && d1[o] <= d2[o]
    decreases d1[o]
  {
    assert Placed(pending, d1, o);
    if d1[o] > 0 {
      var p :| p in Preceding(pending, o) && p in d1 && d1[p] + 1 == d1[o];
      LayerBelow(pending, d1, d2, p);
      assert Placed(pending, d2, o);
    }
  }

  /** The depth of every operator is determined by the graph: there is at
    * most one layering. */
  lemma LayeredUnique(pending: seq<set<OpId>>, d1: map<OpId, nat>, d2: map<OpId, nat>)
    requires Layered(pending, d1) && Layered(pending, d2)
    ensures d1 == d2
  {
    forall o | o in d1
      ensures o in d2 && d1[o] == d2[o]
    {
      LayerBelow(pending, d1, d2, o);
      LayerBelow(pending, d2, d1, o);
    }
  }

  /** In a layered graph every set of operators holding `o` has a member
    * that waits on none of the others. */
  lemma {:induction false} Unstuck(pending: seq<set<OpId>>, s: set<OpId>, depths: map<OpId, nat>, o: OpId)
    requires Layered(pending, depths) && o in s && o in depths
    ensures exists m :: m in s && !Waits(pending, s, m)
    decreases depths[o]
  {
    assert Placed(pending, depths, o);
    if p :| p in Preceding(pending, o) && p in s {
      Unstuck(pending, s, depths, p);
    }
  }

  /** A stuck set of operators rules out every layering. */
  lemma NoLayeringWhenStuck(pending: seq<set<OpId>>, s: set<OpId>, depths: map<OpId, nat>)
    requires s != {} && forall o :: o in s ==> o < |pending|
    ensures Stuck(pending, s) ==> !Layered(pending, depths)
  {
    if Layered(pending, depths) {
      var o :| o in s;
      Unstuck(pending, s, depths, o);
    }
  }

  /** The operators of `q` are distinct and all at depth `level`. */
  ghost predicate Queued(depths: map<OpId, nat>, q: seq<OpId>, level: nat)
  {
    ThreadedExecutor.Distinct(q) && forall k :: 0 <= k < |q| ==> q[k] in depths && depths[q[k]] == level
  }

  /** A visited operator at depth at most `depth`, placed, with every
    * operator it waits on done. */
  ghost predicate Settled(pending: seq<set<OpId>>, depths: map<OpId, nat>, done: set<OpId>, depth: nat, o: OpId)
    requires o in depths
  {
    o < |pending| && depths[o] <= depth && Placed(pending, depths, o) && Preceding(pending, o) <= done
  }

  /** The state of the pass once the operators of `done` have released
    * their pending operators in rounds up to `depth`: the visited
    * operators are those with a depth, each settled; the others keep in
    * op_deps the number of their preceding operators that are not done
    * yet. */
  ghost predicate Tally(pending: seq<set<OpId>>, opDeps: map<OpId, nat>, visited: set<OpId>,
                        depths: map<OpId, nat>, done: set<OpId>, depth: nat)
  {
    ViewOk(pending) && depths.Keys == visited && done <= visited &&
    (forall o: OpId :: o in opDeps <==> o < |pending| && o !in visited) &&
    (forall o {:trigger Settled(pending, depths, done, depth, o)} :: o in visited ==> Settled(pending, depths, done, depth, o)) &&
    (forall o :: o in done ==> depths[o] < depth) &&
    (forall o :: o in opDeps ==> 0 < opDeps[o] == Waiting(pending, o, done))
  }

  /** The state in the middle of releasing `cur` at round `depth`: the
    * pending operators of `cur` in `handled` have had their counts lowered. */
  ghost predicate Releasing(pending: seq<set<OpId>>, cur: OpId, depth: nat, done: set<OpId>, handled: set<OpId>,
                            opDeps: map<OpId, nat>, visited: set<OpId>, depths: map<OpId, nat>, next: seq<OpId>)
  {
    ViewOk(pending) && cur < |pending| && depths.Keys == visited && done <= visited && handled <= pending[cur] &&
    cur in visited && cur !in done && depths[cur] + 1 == depth &&
    (forall o: OpId :: o in opDeps <==> o < |pending| && o !in visited) &&
    (forall o {:trigger Settled(pending, depths, done + {cur}, depth, o)} ::
       o in visited ==> Settled(pending, depths, done + {cur}, depth, o)) &&
    (forall o :: o in done ==> depths[o] < depth) &&
    (forall o :: o in opDeps ==>
       0 < opDeps[o] == Waiting(pending, o, done) - (if o in handled then 1 else 0)) &&
    Queued(depths, next, depth)
  }

  /** A placed operator stays placed when an operator without a depth gets one. */
  lemma PlacedExtend(pending: seq<set<OpId>>, depths: map<OpId, nat>, o: OpId, p: OpId, level: nat)
    requires o in depths && p !in depths && Placed(pending, depths, o)
    ensures Placed(pending, depths[p := level], o)
  {
    var depths' := depths[p := level];
    if depths[o] > 0 {
      var q :| q in Preceding(pending, o) && q in depths && depths[q] + 1 == depths[o];
      assert depths'[q] + 1 == depths'[o];
    }
  }

  /** Tally at round `depth - 1` still holds once the round number grows. */
  lemma TallyLater(pending: seq<set<OpId>>, opDeps: map<OpId, nat>, visited: set<OpId>,
                   depths: map<OpId, nat>, done: set<OpId>, depth: nat)
    requires depth >= 1 && Tally(pending, opDeps, visited, depths, done, depth - 1)
    ensures Tally(pending, opDeps, visited, depths, done, depth)
  {
    forall o | o in visited
      ensures Settled(pending, depths, done, depth, o)
    {
      assert Settled(pending, depths, done, depth - 1, o);
    }
  }

  /** Releasing starts from a tally with `cur` visited but not done. */
  lemma ReleaseStart(pending: seq<set<OpId>>, cur: OpId, depth: nat, done: set<OpId>,
                     opDeps: map<OpId, nat>, visited: set<OpId>, depths: map<OpId, nat>, next: seq<OpId>)
    requires Tally(pending, opDeps, visited, depths, done, depth)
    requires cur in visited && cur !in done && depths[cur] + 1 == depth && Queued(depths, next, depth)
    ensures Releasing(pending, cur, depth, done, {}, opDeps, visited, depths, next)
  {
    forall o | o in visited
      ensures Settled(pending, depths, done + {cur}, depth, o)
    {
      assert Settled(pending, depths, done, depth, o);
    }
  }

  /** A pending operator already visited is skipped. */
  lemma ReleaseSkip(pending: seq<set<OpId>>, cur: OpId, depth: nat, done: set<OpId>, handled: set<OpId>,
                    opDeps: map<OpId, nat>, visited: set<OpId>, depths: map<OpId, nat>, next: seq<OpId>, p: OpId)
    requires Releasing(pending, cur, depth, done, handled, opDeps, visited, depths, next)
    requires p in pending[cur] && p in visited
    ensures Releasing(pending, cur, depth, done, handled + {p}, opDeps, visited, depths, next)
  {
  }

  /** A pending operator whose count stays positive keeps waiting. */
  lemma ReleaseLower(pending: seq<set<OpId>>, cur: OpId, depth: nat, done: set<OpId>, handled: set<OpId>,
                     opDeps: map<OpId, nat>, visited: set<OpId>, depths: map<OpId, nat>, next: seq<OpId>, p: OpId)
    requires Releasing(pending, cur, depth, done, handled, opDeps, visited, depths, next)
    requires p in pending[cur] && p !in handled && p !in visited && opDeps[p] > 1
    ensures Releasing(pending, cur, depth, done, handled + {p}, opDeps[p := opDeps[p] - 1], visited, depths, next)
  {
  }

  /** A pending operator whose count reaches zero is visited at `depth`,
    * erased from op_deps and queued. */
  lemma ReleaseVisit(pending: seq<set<OpId>>, cur: OpId, depth: nat, done: set<OpId>, handled: set<OpId>,
                     opDeps: map<OpId, nat>, visited: set<OpId>, depths: map<OpId, nat>, next: seq<OpId>, p: OpId)
    requires Releasing(pending, cur, depth, done, handled, opDeps, visited, depths, next)
    requires p in pending[cur] && p !in handled && p !in visited && opDeps[p] == 1
    ensures Releasing(pending, cur, depth, done, handled + {p}, opDeps - {p}, visited + {p},
                      depths[p := depth], next + [p])
  {
    RemainingDrop(pending, p, done, cur, |pending|);
    WaitingZero(pending, p, done + {cur});
    VisitSettled(pending, depths, visited, done + {cur}, depth, cur, p);
    assert Queued(depths[p := depth], next + [p], depth) by {
      assert p !in next;
      ThreadedExecutor.DistinctSnoc(next, p);
    }
  }

  /** The operator `p` whose last preceding operator `cur` is released is
    * settled at `depth`, and the visited operators stay settled. */
  lemma VisitSettled(pending: seq<set<OpId>>, depths: map<OpId, nat>, visited: set<OpId>, finished: set<OpId>,
                     depth: nat, cur: OpId, p: OpId)
    requires depths.Keys == visited && p !in visited && p < |pending|
    requires forall o {:trigger Settled(pending, depths, finished, depth, o)} ::
               o in visited ==> Settled(pending, depths, finished, depth, o)
    requires forall o :: o in finished ==> o in depths && depths[o] < depth
    requires cur in finished && depths[cur] + 1 == depth && cur in Preceding(pending, p)
    requires Preceding(pending, p) <= finished
    ensures forall o {:trigger Settled(pending, depths[p := depth], finished, depth, o)} ::
              o in visited + {p} ==> Settled(pending, depths[p := depth], finished, depth, o)
  {
    var depths' := depths[p := depth];
    forall o | o in visited + {p}
      ensures Settled(pending, depths', finished, depth, o)
    {
      if o == p {
        assert depths'[cur] + 1 == depths'[p];
      } else {
        assert Settled(pending, depths, finished, depth, o);
        PlacedExtend(pending, depths, o, p, depth);
      }
    }
  }

  /** Once every pending operator of `cur` is handled, `cur` is done. */
  lemma ReleaseEnd(pending: seq<set<OpId>>, cur: OpId, depth: nat, done: set<OpId>,
                   opDeps: map<OpId, nat>, visited: set<OpId>, depths: map<OpId, nat>, next: seq<OpId>)
    requires cur < |pending| && Releasing(pending, cur, depth, done, pending[cur], opDeps, visited, depths, next)
    ensures Tally(pending, opDeps, visited, depths, done + {cur}, depth)
  {
    forall o | o in opDeps
      ensures opDeps[o] == Waiting(pending, o, done + {cur})
    {
      RemainingDrop(pending, o, done, cur, |pending|);
    }
  }

  /** The first loop: every operator without preceding operators is visited
    * at depth 0, queued and erased from op_deps, which starts as `full`, the
    * counts of GetPrecedingDepNum. The map is walked in ascending operator
    * order. */
  method SeedReady(pending: seq<set<OpId>>, full: map<OpId, nat>)
    returns (opDeps: map<OpId, nat>, visited: set<OpId>, depths: map<OpId, nat>, ready: seq<OpId>)
    requires ViewOk(pending)
    requires forall x: OpId :: x in full <==> x < |pending|
    requires forall x :: x in full ==> full[x] == Waiting(pending, x, {})
    ensures Tally(pending, opDeps, visited, depths, {}, 0)
    ensures Queued(depths, ready, 0) && visited == IrNode.Members(ready)
  {
    opDeps := full;
    visited, depths, ready := {}, map[], [];
    var o: OpId := 0;
    while o < |pending|
      invariant o <= |pending|
      invariant forall x: OpId :: x in opDeps <==> x < |pending| && x !in visited
      invariant forall x :: x in opDeps ==> opDeps[x] == full[x]
      invariant forall x :: x in opDeps && x < o ==> opDeps[x] > 0
      invariant forall x :: x in visited ==> x < o && full[x] == 0
      invariant depths.Keys == visited && forall x :: x in visited ==> depths[x] == 0
      invariant Queued(depths, ready, 0) && visited == IrNode.Members(ready)
    {
      if opDeps[o] == 0 {
        ThreadedExecutor.DistinctSnoc(ready, o);
        IrNode.MembersSnoc(ready, o);
        ready := ready + [o];
        visited := visited + {o};
        depths := depths[o := 0];
        opDeps := opDeps - {o};
      }
      o := o + 1;
    }
    forall x | x in visited
      ensures Settled(pending, depths, {}, 0, x)
    {
      WaitingZero(pending, x, {});
    }
  }

  /** The inner loop for `cur`: every pending operator of `cur` not yet
    * visited has its count lowered; one that reaches zero is visited at
    * `depth`, erased from op_deps and queued for the next round. The set is
    * walked in an arbitrary order. */
  method Release(pending: seq<set<OpId>>, cur: OpId, depth: nat, opDeps: map<OpId, nat>, visited: set<OpId>,
                 depths: map<OpId, nat>, next: seq<OpId>, ghost done: set<OpId>)
    returns (opDeps': map<OpId, nat>, visited': set<OpId>, depths': map<OpId, nat>, next': seq<OpId>)
    requires Tally(pending, opDeps, visited, depths, done, depth)
    requires cur in visited && cur !in done && depths[cur] + 1 == depth
    requires Queued(depths, next, depth)
    ensures Tally(pending, opDeps', visited', depths', done + {cur}, depth)
    ensures Queued(depths', next', depth)
    ensures visited' == visited + IrNode.Members(next') && IrNode.Members(next) <= IrNode.Members(next')
    ensures forall x :: x in IrNode.Members(next') ==> x in IrNode.Members(next) || x !in visited
    ensures forall o :: o in depths ==> o in depths' && depths'[o] == depths[o]
  {
    assert Settled(pending, depths, done, depth, cur);
    opDeps', visited', depths', next' := opDeps, visited, depths, next;
    ReleaseStart(pending, cur, depth, done, opDeps, visited, depths, next);
    var todo := pending[cur];
    while todo != {}
      invariant todo <= pending[cur]
      invariant Releasing(pending, cur, depth, done, pending[cur] - todo, opDeps', visited', depths', next')
      invariant visited <= visited' && forall o :: o in depths ==> depths'[o] == depths[o]
      invariant visited' == visited + IrNode.Members(next') && IrNode.Members(next) <= IrNode.Members(next')
      invariant forall x :: x in IrNode.Members(next') ==> x in IrNode.Members(next) || x !in visited
      decreases todo
    {
      var p :| p in todo;
      ghost var handled := pending[cur] - todo;
      assert pending[cur] - (todo - {p}) == handled + {p};
      todo := todo - {p};
      if p in visited' {
        ReleaseSkip(pending, cur, depth, done, handled, opDeps', visited', depths', next', p);
      } else if opDeps'[p] - 1 == 0 {
        ReleaseVisit(pending, cur, depth, done, handled, opDeps', visited', depths', next', p);
        IrNode.MembersSnoc(next', p);
        visited' := visited' + {p};
        depths' := depths'[p := depth];
        opDeps' := opDeps' - {p};
        next' := next' + [p];
      } else {
        ReleaseLower(pending, cur, depth, done, handled, opDeps', visited', depths', next', p);
        opDeps' := opDeps'[p := opDeps'[p] - 1];
      }
    }
    ReleaseEnd(pending, cur, depth, done, opDeps', visited', depths', next');
  }

  /** The state of a round at `depth` that started with `visited0`
    * visited: `queue` still to pop, `next` queued for the following round. */
  ghost predicate Popping(pending: seq<set<OpId>>, depth: nat, visited0: set<OpId>, queue: seq<OpId>,
                          opDeps: map<OpId, nat>, visited: set<OpId>, depths: map<OpId, nat>, next: seq<OpId>,
                          done: set<OpId>)
  {
    depth >= 1 && Tally(pending, opDeps, visited, depths, done, depth) &&
    Queued(depths, queue, depth - 1) && (forall k :: 0 <= k < |queue| ==> queue[k] !in done) &&
    Queued(depths, next, depth) &&
    visited == done + IrNode.Members(queue) + IrNode.Members(next) &&
    visited == visited0 + IrNode.Members(next) &&
    (forall x :: x in IrNode.Members(next) ==> x !in visited0)
  }

  /** The front of the queue is visited, not done, one level above `depth`. */
  lemma PopFront(pending: seq<set<OpId>>, depth: nat, visited0: set<OpId>, queue: seq<OpId>,
                 opDeps: map<OpId, nat>, visited: set<OpId>, depths: map<OpId, nat>, next: seq<OpId>,
                 done: set<OpId>)
    requires Popping(pending, depth, visited0, queue, opDeps, visited, depths, next, done) && queue != []
    ensures queue[0] in visited && queue[0] !in done && depths[queue[0]] + 1 == depth
  {
    assert queue[0] in IrNode.Members(queue);
  }

  /** Releasing the front of the queue keeps the round's state. */
  lemma PopStep(pending: seq<set<OpId>>, depth: nat, visited0: set<OpId>, queue: seq<OpId>,
                opDeps: map<OpId, nat>, visited: set<OpId>, depths: map<OpId, nat>, next: seq<OpId>,
                done: set<OpId>, opDeps': map<OpId, nat>, visited': set<OpId>, depths': map<OpId, nat>,
                next': seq<OpId>)
    requires Popping(pending, depth, visited0, queue, opDeps, visited, depths, next, done) && queue != []
    requires Tally(pending, opDeps', visited', depths', done + {queue[0]}, depth) && Queued(depths', next', depth)
    requires visited' == visited + IrNode.Members(next') && IrNode.Members(next) <= IrNode.Members(next')
    requires forall x :: x in IrNode.Members(next') ==> x in IrNode.Members(next) || x !in visited
    requires forall o :: o in depths ==> o in depths' && depths'[o] == depths[o]
    ensures Popping(pending, depth, visited0, queue[1..], opDeps', visited', depths', next', done + {queue[0]})
  {
    var cur, rest := queue[0], queue[1..];
    ThreadedExecutor.DistinctTail(queue);
    assert queue == [cur] + rest;
    assert IrNode.Members(queue) == {cur} + IrNode.Members(rest);
    assert Queued(depths', rest, depth - 1) by {
      forall k | 0 <= k < |rest|
        ensures rest[k] in depths' && depths'[rest[k]] == depth - 1
      {
        assert rest[k] == queue[k + 1];
      }
    }
    forall k | 0 <= k < |rest|
      ensures rest[k] !in done + {cur}
    {
      assert rest[k] == queue[k + 1];
    }
  }

  /** One round: the operators of `ready`, at depth `depth - 1`, are popped
    * in turn and release their pending operators; those that become ready
    * form the next round's queue. */
  method Round(pending: seq<set<OpId>>, depth: nat, ready: seq<OpId>, opDeps: map<OpId, nat>, visited: set<OpId>,
               depths: map<OpId, nat>, ghost done: set<OpId>)
    returns (opDeps': map<OpId, nat>, visited': set<OpId>, depths': map<OpId, nat>, next: seq<OpId>,
             ghost done': set<OpId>)
    requires depth >= 1 && Tally(pending, opDeps, visited, depths, done, depth - 1)
    requires Queued(depths, ready, depth - 1) && visited == done + IrNode.Members(ready)
    ensures Tally(pending, opDeps', visited', depths', done', depth)
    ensures Queued(depths', next, depth) && visited' == done' + IrNode.Members(next)
    ensures forall k :: 0 <= k < |next| ==> next[k] in opDeps && next[k] !in opDeps'
    ensures opDeps'.Keys <= opDeps.Keys
  {
    TallyLater(pending, opDeps, visited, depths, done, depth);
    opDeps', visited', depths', next, done' := opDeps, visited, depths, [], done;
    var queue := ready;
    assert IrNode.Members(next) == {};
    while queue != []
      invariant Popping(pending, depth, visited, queue, opDeps', visited', depths', next, done')
    {
      PopFront(pending, depth, visited, queue, opDeps', visited', depths', next, done');
      var cur := queue[0];
      var opDeps2, visited2, depths2, next2 := Release(pending, cur, depth, opDeps', visited', depths', next, done');
      PopStep(pending, depth, visited, queue, opDeps', visited', depths', next, done',
              opDeps2, visited2, depths2, next2);
      queue := queue[1..];
      opDeps', visited', depths', next := opDeps2, visited2, depths2, next2;
      done' := done' + {cur};
    }
    assert IrNode.Members(queue) == {};
    forall k | 0 <= k < |next|
      ensures next[k] in opDeps && next[k] !in opDeps'
    {
      assert next[k] in IrNode.Members(next);
      assert Settled(pending, depths', done', depth, next[k]);
    }
    forall o | o in opDeps'.Keys
      ensures o in opDeps.Keys
    {
      assert o < |pending| && o !in visited';
    }
  }

  /** Once the queue runs dry with every visited operator done, the
    * operators left in op_deps are stuck. */
  lemma Blocked(pending: seq<set<OpId>>, opDeps: map<OpId, nat>, visited: set<OpId>,
                depths: map<OpId, nat>, done: set<OpId>, depth: nat)
    requires Tally(pending, opDeps, visited, depths, done, depth) && visited == done
    ensures Stuck(pending, opDeps.Keys)
  {
    forall o | o in opDeps.Keys
      ensures Waits(pending, opDeps.Keys, o)
    {
      WaitingZero(pending, o, done);
      var p :| p in Preceding(pending, o) && p !in done;
      assert p in opDeps.Keys;
    }
  }

  /** Once op_deps is empty the visited operators are exactly those of
    * the graph. */
  lemma AllBelow(pending: seq<set<OpId>>, opDeps: map<OpId, nat>, visited: set<OpId>,
                 depths: map<OpId, nat>, done: set<OpId>, depth: nat)
    requires Tally(pending, opDeps, visited, depths, done, depth) && opDeps == map[]
    ensures visited == SSAGraphChecker.Below(|pending|)
  {
    forall o: OpId | o in visited
      ensures o < |pending|
    {
      assert Settled(pending, depths, done, depth, o);
    }
    forall o: OpId | o < |pending|
      ensures o in visited
    {
      assert o !in opDeps;
    }
  }

  /** Once op_deps is empty every operator is visited and the depths are a
    * layering. */
  lemma AllVisited(pending: seq<set<OpId>>, opDeps: map<OpId, nat>, visited: set<OpId>,
                   depths: map<OpId, nat>, done: set<OpId>, depth: nat)
    requires Tally(pending, opDeps, visited, depths, done, depth) && opDeps == map[]
    ensures Layered(pending, depths)
    ensures forall o :: o in depths ==> (depths[o] == 0 <==> Preceding(pending, o) == {})
  {
    forall o | o in depths
      ensures Placed(pending, depths, o) && (depths[o] == 0 <==> Preceding(pending, o) == {})
    {
      assert Settled(pending, depths, done, depth, o);
      if Preceding(pending, o) != {} {
        var p :| p in Preceding(pending, o);
        assert depths[p] < depths[o];
      }
    }
    AllBelow(pending, opDeps, visited, depths, done, depth);
    assert depths.Keys == SSAGraphChecker.Below(|pending|);
  }

  /** When the queue runs dry the pass either has visited every operator,
    * and then its depths are a layering, or it is left with operators none
    * of which can become ready, and then no layering exists. */
  lemma Outcome(pending: seq<set<OpId>>, opDeps: map<OpId, nat>, visited: set<OpId>,
                depths: map<OpId, nat>, done: set<OpId>, depth: nat)
    requires Tally(pending, opDeps, visited, depths, done, depth) && visited == done
    ensures |visited| == |pending| && opDeps == map[] ==>
              Layered(pending, depths) && forall o :: o in depths ==> (depths[o] == 0 <==> Preceding(pending, o) == {})
    ensures |visited| != |pending| || opDeps != map[] ==> forall d :: !Layered(pending, d)
  {
    if opDeps == map[] {
      AllBelow(pending, opDeps, visited, depths, done, depth);
      SSAGraphChecker.BelowCard(|pending|);
      AllVisited(pending, opDeps, visited, depths, done, depth);
    } else {
      Blocked(pending, opDeps, visited, depths, done, depth);
      forall d: map<OpId, nat>
        ensures !Layered(pending, d)
      {
        NoLayeringWhenStuck(pending, opDeps.Keys, d);
      }
    }
  }

  /** AddDepthInOpNodePass::ApplyImpl: the pass succeeds exactly when the
    * graph can be layered, and then gives every operator its layer: depth
    * 0 for the operators that wait on nothing, and for the others one more
    * than the deepest operator they wait on. */
  method ApplyImpl(pending: seq<set<OpId>>) returns (r: Result<map<OpId, nat>>)
    requires ViewOk(pending)
    ensures r.Ok? <==> exists depths :: Layered(pending, depths)
    ensures r.Ok? ==> Layered(pending, r.value)
    ensures r.Ok? ==> forall o :: o in r.value ==> (r.value[o] == 0 <==> Preceding(pending, o) == {})
    ensures r.Err? ==> r.error == UnvisitedOps
  {
    var depth := 0;
    var opNum := |pending|;
    var opDeps, visited, depths, ready := SeedReady(pending, PrecedingDepNum(pending));
    ghost var done: set<OpId> := {};
    while true
      invariant Tally(pending, opDeps, visited, depths, done, depth)
      invariant Queued(depths, ready, depth) && visited == done + IrNode.Members(ready)
      decreases opDeps.Keys
    {
      depth := depth + 1;
      var next;
      ghost var before := opDeps;
      opDeps, visited, depths, next, done := Round(pending, depth, ready, opDeps, visited, depths, done);
      if |next| > 0 {
        assert next[0] in before.Keys && next[0] !in opDeps.Keys;
        ready := next;
      } else {
        assert IrNode.Members(next) == {};
        break;
      }
    }
    Outcome(pending, opDeps, visited, depths, done, depth);
    if |visited| != opNum || opDeps != map[] {
      r := Err(UnvisitedOps);
    } else {
      r := Ok(depths);
    }
  }
}
