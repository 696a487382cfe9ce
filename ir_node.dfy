/** framework/ir/node.h: a node of the IR graph is an operation or a
  * variable, holds the description it was built from, and lists its input
  * and output nodes. */
module IrNode {
  import opened Wrappers

  type NodeId = nat

  datatype NodeType = Operation | Variable

  /** What a node holds: its name, its kind, the VarDesc or OpDesc it was
    * built from (by name or type), its id and its edges. */
  datatype Node = Node(name: string, nodeType: NodeType, varDesc: Option<string>, opDesc: Option<string>,
                       id: int, inputs: seq<NodeId>, outputs: seq<NodeId>)

  /** Node(name, type, id): no description. */
  function NamedNode(name: string, nodeType: NodeType, id: int): Node
  {
    Node(name, nodeType, None, None, id, [], [])
  }

  /** Node(var_desc, id): a variable named after its description. */
  function VarNode(varDescName: string, id: int): Node
  {
    Node(varDescName, Variable, Some(varDescName), None, id, [], [])
  }

  /** Node(op_desc, id): an operation named after its description's type. */
  function OpNode(opType: string, id: int): Node
  {
    Node(opType, Operation, None, Some(opType), id, [], [])
  }

  predicate IsOp(n: Node)
  {
    n.nodeType == Operation
  }

  predicate IsVar(n: Node)
  {
    n.nodeType == Variable
  }

  /** Every node is exactly one of an operation and a variable. */
  lemma OpOrVar(n: Node)
    ensures IsOp(n) != IsVar(n)
  {
  }

  /** Var(): the VarDesc, which only a variable node may be asked for. */
  function Var(n: Node): (r: Result<Option<string>>)
    ensures r.Ok? <==> IsVar(n)
    ensures r.Ok? ==> r.value == n.varDesc
  {
    if n.nodeType == Variable then Ok(n.varDesc) else Err("node is not a variable")
  }

  /** Op(): the OpDesc, which only an operation node may be asked for. */
  function Op(n: Node): (r: Result<Option<string>>)
    ensures r.Ok? <==> IsOp(n)
    ensures r.Ok? ==> r.value == n.opDesc
  {
    if IsOp(n) then Ok(n.opDesc) else Err("node is not an operation")
  }

  /** A node built from a description answers for that description and
    * refuses the other kind. */
  lemma DescriptionGuards(name: string, id: int)
    ensures Var(VarNode(name, id)) == Ok(Some(name)) && Op(VarNode(name, id)).Err?
    ensures Op(OpNode(name, id)) == Ok(Some(name)) && Var(OpNode(name, id)).Err?
  {
  }

  /** The distinct members of a list. */
  function Members(s: seq<NodeId>): set<NodeId>
  {
    set x | x in s
  }

  predicate NoDuplicates(s: seq<NodeId>)
  {
    forall i, j :: 0 <= i < j < |s| ==> s[i] != s[j]
  }

  /** NoDupInputSize: the number of distinct input nodes. */
  method NoDupInputSize(inputs: seq<NodeId>) returns (n: nat)
    ensures n == |Members(inputs)|
  {
    var res: set<NodeId> := {};
    var i := 0;
    while i < |inputs|
      invariant 0 <= i <= |inputs|
      invariant res == Members(inputs[..i])
    {
      assert inputs[..i + 1] == inputs[..i] + [inputs[i]];
      res := res + {inputs[i]};
      i := i + 1;
    }
    assert inputs[..i] == inputs;
    n := |res|;
  }

  lemma MembersSnoc(s: seq<NodeId>, x: NodeId)
    ensures Members(s + [x]) == Members(s) + {x}
  {
    assert forall y :: y in s + [x] <==> y in s || y == x;
  }

  /** Appending a fresh member keeps a sequence free of duplicates. */
  lemma NoDuplicatesSnoc(s: seq<NodeId>, x: NodeId)
    requires NoDuplicates(s) && x !in s
    ensures NoDuplicates(s + [x])
  {
    var t := s + [x];
    forall i, j | 0 <= i < j < |t| ensures t[i] != t[j] {
      if j == |s| { assert t[i] == s[i] && s[i] in s; }
      else { assert t[i] == s[i] && t[j] == s[j]; }
    }
  }

  lemma MembersPrefix(s: seq<NodeId>, j: nat)
    requires j < |s|
    ensures Members(s[..j + 1]) == Members(s[..j]) + {s[j]}
  {
    assert s[..j + 1] == s[..j] + [s[j]];
    MembersSnoc(s[..j], s[j]);
  }

  /** The distinct count is at most the length, and equals it exactly when
    * no input is listed twice. */
  lemma {:induction false} MembersBound(s: seq<NodeId>)
    ensures |Members(s)| <= |s|
    ensures |Members(s)| == |s| <==> NoDuplicates(s)
    decreases |s|
  {
    if s != [] {
      var front, x := s[..|s| - 1], s[|s| - 1];
      assert s == front + [x];
      MembersSnoc(front, x);
      MembersBound(front);
      if x in Members(front) {
        var i :| 0 <= i < |front| && front[i] == x;
        assert s[i] == s[|s| - 1];
      } else if NoDuplicates(front) {
        forall i, j | 0 <= i < j < |s|
          ensures s[i] != s[j]
        {
          if j < |s| - 1 {
            assert s[i] == front[i] && s[j] == front[j];
          } else {
            assert s[i] == front[i];
          }
        }
      } else {
        var i, j :| 0 <= i < j < |front| && front[i] == front[j];
        assert s[i] == s[j];
      }
    }
  }

  /** A node that lists the same input twice counts it once. */
  lemma RepeatedInputCountedOnce(a: NodeId, b: NodeId)
    requires a != b
    ensures |Members([a, b, a])| == 2
  {
    assert Members([a, b, a]) == {a, b};
  }
}
