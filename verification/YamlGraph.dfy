/** YAML nodes in memory: a graph in which aliases point at anchored nodes and nodes may be shared.

    A node is known by its reference; NIL is the null pointer. What a node stands for is its unfolding, with every
    alias followed and every anchor forgotten. */
module YamlGraph {

  type Ref = nat

  const NIL: Ref := 0

  datatype Kind = ZeroNode | DocumentNode | SequenceNode | MappingNode | ScalarNode | AliasNode

  datatype Node = Node(kind: Kind, tag: string, value: string, anchor: string, content: seq<Ref>, alias: Ref)

  type Heap = map<Ref, Node>

  predicate IsAlias(h: Heap, n: Ref) {
    n in h && h[n].kind == AliasNode && h[n].alias != NIL
  }

  /** As parsed: an alias points at a node of the graph that is no alias itself, since an alias has no properties and
      so no anchor (section 7.1 of YAML 1.2.2). */
  ghost predicate WellFormed(h: Heap) {
    && NIL !in h
    && (forall n, i :: n in h && 0 <= i < |h[n].content| ==> h[n].content[i] in h)
    && (forall n :: n in h && h[n].kind == AliasNode ==> h[n].alias in h && h[h[n].alias].kind != AliasNode)
  }

  /** The node an alias stands for. */
  function Resolve(h: Heap, n: Ref): Ref {
    if IsAlias(h, n) then h[n].alias else n
  }

  lemma ResolvesInside(h: Heap, n: Ref)
    requires WellFormed(h) && n in h
    ensures Resolve(h, n) in h && h[Resolve(h, n)].kind != AliasNode
  {
  }

  /** No node contains itself, aliases followed. */
  ghost predicate Acyclic(h: Heap, rank: Ref -> nat) {
    forall n, i :: n in h && 0 <= i < |h[n].content| ==> rank(Resolve(h, h[n].content[i])) < rank(n)
  }

  /** The program follows aliases for as long as it meets one; on a parsed graph that is once. */
  method ResolveAlias(h: Heap, node: Ref) returns (r: Ref)
    requires WellFormed(h) && (node in h || node == NIL)
    ensures r == Resolve(h, node)
  {
    r := node;
    while r != NIL && h[r].kind == AliasNode && h[r].alias != NIL
      invariant r in h || r == NIL
      invariant r == node || (r == Resolve(h, node) && h[r].kind != AliasNode)
      decreases r in h && h[r].kind == AliasNode
    {
      r := h[r].alias;
    }
  }

  /** What a node stands for, down to some depth. */
  datatype Tree = Missing | Cut | Tree(kind: Kind, tag: string, value: string, children: seq<Tree>)

  function Unfold(h: Heap, n: Ref, depth: nat): Tree
    decreases depth
  {
    var r := Resolve(h, n);
    if r !in h then Missing
    else if depth == 0 then Cut
    else
      var content := h[r].content;
      Tree(h[r].kind, h[r].tag, h[r].value,
           seq(|content|, i requires 0 <= i < |content| => Unfold(h, content[i], depth - 1)))
  }

  /** From one node to another by so many steps to a child. */
  ghost predicate ReachesIn(h: Heap, from: Ref, to: Ref, steps: nat)
    decreases steps
  {
    && from in h
    && if steps == 0 then from == to
       else exists i :: 0 <= i < |h[from].content| && ReachesIn(h, h[from].content[i], to, steps - 1)
  }

  ghost predicate Reaches(h: Heap, from: Ref, to: Ref) {
    exists steps: nat :: ReachesIn(h, from, to, steps)
  }

  /** The nodes as the program keeps them; next is a reference not given out yet. */
  class NodeStore {
    var nodes: Heap
    var next: Ref

    ghost predicate Valid()
      reads this
    {
      WellFormed(nodes) && next > NIL && forall n :: n in nodes ==> n < next
    }

    constructor (nodes: Heap, next: Ref)
      requires WellFormed(nodes) && next > NIL && forall n :: n in nodes ==> n < next
      ensures Valid() && this.nodes == nodes
    {
      this.nodes, this.next := nodes, next;
    }

    method New(node: Node) returns (n: Ref)
      requires Valid() && node.kind != AliasNode
      requires forall i :: 0 <= i < |node.content| ==> node.content[i] in nodes
      modifies this
      ensures Valid() && n !in old(nodes) && n != NIL && nodes == old(nodes)[n := node]
    {
      n := next;
      nodes := nodes[n := node];
      next := next + 1;
    }
  }
}
