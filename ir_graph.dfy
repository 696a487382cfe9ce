/** The IR graph the fusion passes rewrite. framework/ir/graph.h and
  * framework/op_desc.h are not part of this model: a graph is its set of
  * nodes keyed by a fresh id, with the OpDesc of every operation node, and an
  * OpDesc is its type, its parameters and its attributes. */
module IrGraph {
  import opened Wrappers
  import opened IrNode

  /** The attribute values the passes read and write. */
  datatype Attr = IntAttr(i: int) | BoolAttr(b: bool) | StringAttr(s: string) | StringsAttr(l: seq<string>)

  /** One parameter of an OpDesc and its argument names. */
  datatype Param = Param(name: string, args: seq<string>)

  /** An OpDesc. Its parameters are listed in the order OpDesc's std::map
    * keeps them, by parameter name. */
  datatype OpDesc = OpDesc(opType: string, inputs: seq<Param>, outputs: seq<Param>, attrs: map<string, Attr>)

  /** A default-constructed OpDesc. */
  const EmptyDesc := OpDesc("", [], [], map[])

  /** The parameter names of a list of parameters. */
  function ParamNames(params: seq<Param>): (r: set<string>)
    ensures forall i :: 0 <= i < |params| ==> params[i].name in r
  {
    set i | 0 <= i < |params| :: params[i].name
  }

  /** OpDesc::Input / Output: the arguments of a parameter, which must exist. */
  function Arguments(params: seq<Param>, name: string): (r: Result<seq<string>>)
    ensures r.Ok? <==> name in ParamNames(params)
    ensures r.Ok? ==> exists i :: 0 <= i < |params| && params[i] == Param(name, r.value)
  {
    if params == [] then Err("parameter " + name + " cannot be found")
    else if params[0].name == name then Ok(params[0].args)
    else
      var rest := Arguments(params[1..], name);
      assert ParamNames(params) == {params[0].name} + ParamNames(params[1..]) by {
        forall n | n in ParamNames(params)
          ensures n in {params[0].name} + ParamNames(params[1..])
        {
          var i :| 0 <= i < |params| && params[i].name == n;
          if i > 0 {
            assert params[1..][i - 1] == params[i];
          }
        }
      }
      if rest.Ok? then
        var i :| 0 <= i < |params[1..]| && params[1..][i] == Param(name, rest.value);
        assert params[i + 1] == Param(name, rest.value);
        rest
      else rest
  }

  /** InputArgumentNames / OutputArgumentNames: every argument, parameter by parameter. */
  function ArgumentNames(params: seq<Param>): (r: seq<string>)
    ensures |params| == 1 ==> r == params[0].args
  {
    if params == [] then [] else params[0].args + ArgumentNames(params[1..])
  }

  /** OpDesc::SetInput / SetOutput: replaces the arguments of a parameter in
    * place, or adds the parameter at the end. */
  function SetParam(params: seq<Param>, name: string, args: seq<string>): (r: seq<Param>)
    ensures Arguments(r, name) == Ok(args)
    ensures forall n :: n != name ==> Arguments(r, n) == Arguments(params, n)
  {
    if params == [] then [Param(name, args)]
    else if params[0].name == name then [Param(name, args)] + params[1..]
    else [params[0]] + SetParam(params[1..], name, args)
  }

  /** OpDesc::GetAttr: the attribute must exist. */
  function GetAttr(desc: OpDesc, name: string): (r: Result<Attr>)
    ensures r.Ok? <==> name in desc.attrs
    ensures r.Ok? ==> r.value == desc.attrs[name]
  {
    if name in desc.attrs then Ok(desc.attrs[name]) else Err("attribute " + name + " cannot be found")
  }

  /** boost::get<int>(GetAttr(name)): the attribute must exist and be an int. */
  function GetIntAttr(desc: OpDesc, name: string): (r: Result<int>)
    ensures r.Ok? <==> name in desc.attrs && desc.attrs[name].IntAttr?
    ensures r.Ok? ==> desc.attrs[name] == IntAttr(r.value)
  {
    if name in desc.attrs && desc.attrs[name].IntAttr? then Ok(desc.attrs[name].i)
    else Err("attribute " + name + " is not an int")
  }

  /** Every edge of every node leads to a node of the graph: the pointers the
    * source follows are valid. */
  ghost predicate Closed(nodes: map<NodeId, Node>)
  {
    (forall k, x :: k in nodes && x in nodes[k].inputs ==> x in nodes) &&
    (forall k, x :: k in nodes && x in nodes[k].outputs ==> x in nodes)
  }

  /** Every operation node has its OpDesc. */
  ghost predicate Described(nodes: map<NodeId, Node>, descs: map<NodeId, OpDesc>)
  {
    forall k :: k in nodes && IsOp(nodes[k]) ==> k in descs
  }

  class Graph {
    var nodes: map<NodeId, Node>
    var descs: map<NodeId, OpDesc>
    var nextId: NodeId

    ghost predicate Valid()
      reads this
    {
      (forall k :: k in nodes ==> k < nextId) && Described(nodes, descs)
    }

    /** A graph over the given nodes; `firstFree` is above every id in use. */
    constructor (nodes0: map<NodeId, Node>, descs0: map<NodeId, OpDesc>, firstFree: NodeId)
      requires Described(nodes0, descs0)
      requires forall k :: k in nodes0 ==> k < firstFree
      ensures Valid() && nodes == nodes0 && descs == descs0
    {
      nodes := nodes0;
      descs := descs0;
      nextId := firstFree;
    }

    /** Graph::CreateOpNode: a new operation node, named after the
      * description's type, with no edges yet. */
    method CreateOpNode(desc: OpDesc) returns (id: NodeId)
      requires Valid()
      modifies this
      ensures Valid() && id !in old(nodes) && nextId > id
      ensures nodes == old(nodes)[id := OpNode(desc.opType, id)]
      ensures descs == old(descs)[id := desc]
    {
      id := nextId;
      nodes := nodes[id := OpNode(desc.opType, id)];
      descs := descs[id := desc];
      nextId := nextId + 1;
    }

    /** Graph::ReleaseNode: the node leaves the graph; edges to it are kept,
      * as the raw pointers in the source are. */
    method ReleaseNode(id: NodeId)
      requires Valid()
      modifies this
      ensures Valid() && nextId == old(nextId)
      ensures nodes == old(nodes) - {id} && descs == old(descs) - {id}
    {
      nodes := nodes - {id};
      descs := descs - {id};
    }
  }
}
