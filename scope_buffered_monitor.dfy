/** framework/details/scope_buffered_monitor.cc: around each run of the
  * executor the monitor snapshots the kid scopes of every local execution
  * scope, records the kids the run created, and, after a run that fetched,
  * deletes the kids recorded by all runs but the newest. */
module ScopeMonitor {

  /** A kid scope, by identity. */
  type ScopeId = nat

  /** For each local execution scope, the kids that are in `post` but not
    * in `pre`. */
  function Increments(pre: seq<set<ScopeId>>, post: seq<set<ScopeId>>): (r: seq<set<ScopeId>>)
    requires |pre| == |post|
    ensures |r| == |post|
    ensures forall i :: 0 <= i < |r| ==> r[i] <= post[i] && r[i] !! pre[i]
    ensures forall i, s :: 0 <= i < |r| && s in post[i] && s !in pre[i] ==> s in r[i]
  {
    seq(|post|, i requires 0 <= i < |post| => post[i] - pre[i])
  }

  /** Every history entry has one slot per local execution scope. */
  predicate Shaped(history: seq<seq<set<ScopeId>>>, n: nat)
  {
    forall k :: 0 <= k < |history| ==> |history[k]| == n
  }

  /** The kids recorded for slot `i` by the history entries. */
  function RecordedAt(history: seq<seq<set<ScopeId>>>, i: nat): (r: set<ScopeId>)
    requires forall k :: 0 <= k < |history| ==> i < |history[k]|
    ensures forall k, s :: 0 <= k < |history| && s in history[k][i] ==> s in r
    ensures forall s :: s in r ==> exists k :: 0 <= k < |history| && s in history[k][i]
  {
    if history == [] then {} else
      var rest := RecordedAt(history[1..], i);
      assert forall k :: 1 <= k < |history| ==> history[k] == history[1..][k - 1];
      history[0][i] + rest
  }

  /** The kid scopes left after deleting what `dropped` records. */
  function Remaining(kids: seq<set<ScopeId>>, dropped: seq<seq<set<ScopeId>>>): (r: seq<set<ScopeId>>)
    requires Shaped(dropped, |kids|)
    ensures |r| == |kids|
    ensures forall i :: 0 <= i < |kids| ==> r[i] == kids[i] - RecordedAt(dropped, i)
  {
    seq(|kids|, i requires 0 <= i < |kids| => kids[i] - RecordedAt(dropped, i))
  }

  class ScopeBufferedMonitor {
    /** The kid scopes of each local execution scope. */
    var kids: seq<set<ScopeId>>
    var preLocalExecScopes: seq<set<ScopeId>>
    var postLocalExecScopes: seq<set<ScopeId>>
    var historyLocalExecScopes: seq<seq<set<ScopeId>>>

    predicate Valid()
      reads this
    {
      |preLocalExecScopes| == |kids| && |postLocalExecScopes| == |kids| &&
      Shaped(historyLocalExecScopes, |kids|)
    }

    /** The snapshots get one slot per local execution scope. */
    constructor(localExecScopes: seq<set<ScopeId>>)
      ensures Valid()
      ensures kids == localExecScopes && historyLocalExecScopes == []
      ensures preLocalExecScopes == seq(|kids|, i => {}) && postLocalExecScopes == seq(|kids|, i => {})
    {
      kids := localExecScopes;
      preLocalExecScopes := seq(|localExecScopes|, i => {});
      postLocalExecScopes := seq(|localExecScopes|, i => {});
      historyLocalExecScopes := [];
    }

    /** Run, with the callback given as the kid scopes it leaves behind: the
      * newest history entry is what the run added; after a fetch, every
      * older entry is deleted from its parent scopes and dropped. */
    method Run(afterCallback: seq<set<ScopeId>>, hasFetch: bool)
      requires Valid() && |afterCallback| == |kids|
      modifies this
      ensures Valid()
      ensures preLocalExecScopes == old(kids) && postLocalExecScopes == afterCallback
      ensures var incr := Increments(old(kids), afterCallback);
        if hasFetch && |old(historyLocalExecScopes)| >= 1 then
          historyLocalExecScopes == [incr] &&
          kids == Remaining(afterCallback, old(historyLocalExecScopes))
        else
          historyLocalExecScopes == old(historyLocalExecScopes) + [incr] &&
          kids == afterCallback
    {
      var scopeId := 0;
      while scopeId < |kids|
        invariant 0 <= scopeId <= |kids| && |preLocalExecScopes| == |kids|
        invariant forall i :: 0 <= i < scopeId ==> preLocalExecScopes[i] == kids[i]
        invariant unchanged(`kids) && unchanged(`historyLocalExecScopes) && unchanged(`postLocalExecScopes)
      {
        preLocalExecScopes := preLocalExecScopes[scopeId := kids[scopeId]];
        scopeId := scopeId + 1;
      }
      kids := afterCallback;
      scopeId := 0;
      while scopeId < |kids|
        invariant 0 <= scopeId <= |kids| && |postLocalExecScopes| == |kids|
        invariant forall i :: 0 <= i < scopeId ==> postLocalExecScopes[i] == kids[i]
        invariant preLocalExecScopes == old(kids) && kids == afterCallback
        invariant unchanged(`historyLocalExecScopes)
      {
        postLocalExecScopes := postLocalExecScopes[scopeId := kids[scopeId]];
        scopeId := scopeId + 1;
      }
      assert postLocalExecScopes == afterCallback;
      var incr := seq(|kids|, i => {});
      scopeId := 0;
      while scopeId < |kids|
        invariant 0 <= scopeId <= |kids| && |incr| == |kids|
        invariant forall i :: 0 <= i < scopeId ==> incr[i] == postLocalExecScopes[i] - preLocalExecScopes[i]
      {
        incr := incr[scopeId := postLocalExecScopes[scopeId] - preLocalExecScopes[scopeId]];
        scopeId := scopeId + 1;
      }
      assert incr == Increments(old(kids), afterCallback);
      historyLocalExecScopes := historyLocalExecScopes + [incr];
      var historyStep := |historyLocalExecScopes|;
      if hasFetch && historyStep >= 2 {
        DropOlderEntries();
      }
    }

    /** Every history entry but the newest is deleted from its parent
      * scopes and popped, oldest first. */
    method DropOlderEntries()
      requires Valid() && |historyLocalExecScopes| >= 1
      modifies this
      ensures Valid()
      ensures historyLocalExecScopes == [old(historyLocalExecScopes)[|old(historyLocalExecScopes)| - 1]]
      ensures kids == Remaining(old(kids), old(historyLocalExecScopes)[..|old(historyLocalExecScopes)| - 1])
      ensures preLocalExecScopes == old(preLocalExecScopes) && postLocalExecScopes == old(postLocalExecScopes)
    {
      ghost var h0 := historyLocalExecScopes;
      var steps := |historyLocalExecScopes| - 1;
      var i := 0;
      forall j | 0 <= j < |kids|
        ensures Remaining(old(kids), h0[..0])[j] == kids[j]
      {
        assert RecordedAt(h0[..0], j) == {};
      }
      assert kids == Remaining(old(kids), h0[..0]);
      while i < steps
        invariant 0 <= i <= steps && Valid()
        invariant historyLocalExecScopes == h0[i..]
        invariant kids == Remaining(old(kids), h0[..i])
        invariant preLocalExecScopes == old(preLocalExecScopes) && postLocalExecScopes == old(postLocalExecScopes)
      {
        var front := historyLocalExecScopes[0];
        var scopeIdx := 0;
        while scopeIdx < |front|
          invariant 0 <= scopeIdx <= |front| == |kids|
          invariant forall j :: 0 <= j < scopeIdx ==> kids[j] == Remaining(old(kids), h0[..i])[j] - front[j]
          invariant forall j :: scopeIdx <= j < |kids| ==> kids[j] == Remaining(old(kids), h0[..i])[j]
          invariant historyLocalExecScopes == h0[i..] && Valid()
          invariant preLocalExecScopes == old(preLocalExecScopes) && postLocalExecScopes == old(postLocalExecScopes)
        {
          DeleteScopes(scopeIdx, front[scopeIdx]);
          scopeIdx := scopeIdx + 1;
        }
        RemainingSnoc(old(kids), h0[..i], front);
        assert h0[..i + 1] == h0[..i] + [front];
        historyLocalExecScopes := historyLocalExecScopes[1..];
        i := i + 1;
      }
    }

    /** DeleteScope on every scope of `scopes`, each a kid of slot `idx`. */
    method DeleteScopes(idx: nat, scopes: set<ScopeId>)
      requires idx < |kids|
      modifies this
      ensures kids == old(kids)[idx := old(kids)[idx] - scopes]
      ensures historyLocalExecScopes == old(historyLocalExecScopes)
      ensures preLocalExecScopes == old(preLocalExecScopes) && postLocalExecScopes == old(postLocalExecScopes)
    {
      var rest := scopes;
      while rest != {}
        invariant rest <= scopes && |kids| == |old(kids)|
        invariant kids[idx] == old(kids)[idx] - (scopes - rest)
        invariant forall j :: 0 <= j < |kids| && j != idx ==> kids[j] == old(kids)[j]
        invariant historyLocalExecScopes == old(historyLocalExecScopes)
        invariant preLocalExecScopes == old(preLocalExecScopes) && postLocalExecScopes == old(postLocalExecScopes)
        decreases rest
      {
        var scope :| scope in rest;
        kids := kids[idx := kids[idx] - {scope}];
        rest := rest - {scope};
      }
      assert scopes - rest == scopes;
      assert kids == old(kids)[idx := old(kids)[idx] - scopes];
    }

    /** ClearHistoryLocalExecScopes forgets the history and deletes nothing. */
    method ClearHistoryLocalExecScopes()
      modifies this
      ensures historyLocalExecScopes == [] && kids == old(kids)
      ensures preLocalExecScopes == old(preLocalExecScopes) && postLocalExecScopes == old(postLocalExecScopes)
    {
      historyLocalExecScopes := [];
    }
  }

  lemma RemainingSnoc(kids: seq<set<ScopeId>>, dropped: seq<seq<set<ScopeId>>>, entry: seq<set<ScopeId>>)
    requires Shaped(dropped, |kids|) && |entry| == |kids|
    ensures Shaped(dropped + [entry], |kids|)
    ensures forall j :: 0 <= j < |kids| ==>
      Remaining(kids, dropped + [entry])[j] == Remaining(kids, dropped)[j] - entry[j]
  {
    var all := dropped + [entry];
    forall j | 0 <= j < |kids|
      ensures RecordedAt(all, j) == RecordedAt(dropped, j) + entry[j]
    {
      assert all[|dropped|] == entry;
      forall s | s in RecordedAt(all, j)
        ensures s in RecordedAt(dropped, j) + entry[j]
      {
        var k :| 0 <= k < |all| && s in all[k][j];
        if k < |dropped| {
          assert all[k] == dropped[k];
        }
      }
      forall s | s in RecordedAt(dropped, j)
        ensures s in RecordedAt(all, j)
      {
        var k :| 0 <= k < |dropped| && s in dropped[k][j];
        assert all[k] == dropped[k];
      }
    }
  }

  /** Without a fetch the history only grows; after a fetch exactly one
    * entry is left. */
  lemma HistoryLength(history: seq<seq<set<ScopeId>>>, incr: seq<set<ScopeId>>, hasFetch: bool, next: seq<seq<set<ScopeId>>>)
    requires next == if hasFetch && |history| >= 1 then [incr] else history + [incr]
    ensures !hasFetch ==> |next| == |history| + 1
    ensures hasFetch ==> |next| == 1
  {
  }
}
