/** The kernel's intrusive lists: nodes that point at each other. */
module KernelList {
  import opened ListMemory

  class Node {
    var next: Node?
    var prev: Node?
    /** The number of the node; it stands for its address. */
    const id: nat

    constructor (id: nat)
      ensures this.id == id
    {
      this.id := id;
    }
  }

  /** n is one of the nodes, found under its number. */
  ghost predicate Among(nodes: seq<Node>, n: Node?) {
    n != null && n.id < |nodes| && nodes[n.id] == n
  }

  /** The links of the nodes are those of the memory. */
  ghost predicate Represents(nodes: seq<Node>, m: Memory)
    reads nodes
  {
    && Ok(m) && |m.next| == |nodes|
    && (forall i {:trigger nodes[i].id} :: 0 <= i < |nodes| ==> nodes[i].id == i)
    && (forall i {:trigger nodes[i].next} :: 0 <= i < |nodes| ==> nodes[i].next == nodes[m.next[i]])
    && (forall i {:trigger nodes[i].prev} :: 0 <= i < |nodes| ==> nodes[i].prev == nodes[m.prev[i]])
  }

  /** The same, but for the nodes from lo up to hi, whose links may be anything or nothing. */
  ghost predicate RepresentsBut(nodes: seq<Node>, m: Memory, lo: nat, hi: nat)
    reads nodes
  {
    && Ok(m) && |m.next| == |nodes|
    && (forall i {:trigger nodes[i].id} :: 0 <= i < |nodes| ==> nodes[i].id == i)
    && (forall i {:trigger nodes[i].next} :: 0 <= i < |nodes| && !(lo <= i < hi) ==> nodes[i].next == nodes[m.next[i]])
    && (forall i {:trigger nodes[i].prev} :: 0 <= i < |nodes| && !(lo <= i < hi) ==> nodes[i].prev == nodes[m.prev[i]])
  }

  lemma RepresentsAll(nodes: seq<Node>, m: Memory, lo: nat)
    requires RepresentsBut(nodes, m, lo, lo)
    ensures Represents(nodes, m)
  {
  }

  method AssignNext(n: Node, v: Node, ghost nodes: seq<Node>, ghost m: Memory)
    requires Ok(m) && |m.next| == |nodes| && Represents(nodes, m) && Among(nodes, n) && Among(nodes, v)
    modifies n
    ensures n.next == v && n.prev == old(n.prev) && Represents(nodes, SetNext(m, n.id, v.id))
  {
    n.next := v;
  }

  method AssignPrev(n: Node, v: Node, ghost nodes: seq<Node>, ghost m: Memory)
    requires Ok(m) && |m.next| == |nodes| && Represents(nodes, m) && Among(nodes, n) && Among(nodes, v)
    modifies n
    ensures n.prev == v && n.next == old(n.next) && Represents(nodes, SetPrev(m, n.id, v.id))
  {
    n.prev := v;
  }

  /** What the links of a node are. */
  lemma LinksOf(nodes: seq<Node>, m: Memory, n: Node)
    requires Ok(m) && |m.next| == |nodes| && Represents(nodes, m) && Among(nodes, n)
    ensures Among(nodes, n.next) && n.next.id == m.next[n.id]
    ensures Among(nodes, n.prev) && n.prev.id == m.prev[n.id]
  {
    assert nodes[n.id].next == nodes[m.next[n.id]] && nodes[n.id].prev == nodes[m.prev[n.id]];
    assert nodes[m.next[n.id]].id == m.next[n.id] && nodes[m.prev[n.id]].id == m.prev[n.id];
  }

  method InitListHead(n: Node, ghost nodes: seq<Node>, ghost m: Memory)
    requires Ok(m) && |m.next| == |nodes| && Among(nodes, n)
    modifies n
    ensures n.next == n && n.prev == n
    ensures old(Represents(nodes, m)) ==> Represents(nodes, InitHead(m, n.id))
  {
    n.next := n;
    n.prev := n;
  }

  method ListAdd(n: Node, head: Node, ghost nodes: seq<Node>, ghost m: Memory)
    requires Ok(m) && |m.next| == |nodes| && Represents(nodes, m) && Among(nodes, n) && Among(nodes, head)
    modifies nodes
    ensures Represents(nodes, Add(m, n.id, head.id))
  {
    hide Represents;
    LinksOf(nodes, m, head);
    AssignNext(n, head.next, nodes, m);
    ghost var a := SetNext(m, n.id, m.next[head.id]);
    AssignPrev(n, head, nodes, a);
    ghost var b := SetPrev(a, n.id, head.id);
    LinksOf(nodes, b, head);
    AssignPrev(head.next, n, nodes, b);
    AssignNext(head, n, nodes, SetPrev(b, b.next[head.id], n.id));
  }

  method ListAddTail(n: Node, head: Node, ghost nodes: seq<Node>, ghost m: Memory)
    requires Ok(m) && |m.next| == |nodes| && Represents(nodes, m) && Among(nodes, n) && Among(nodes, head)
    modifies nodes
    ensures Represents(nodes, AddTail(m, n.id, head.id))
  {
    hide Represents;
    AssignNext(n, head, nodes, m);
    ghost var a := SetNext(m, n.id, head.id);
    LinksOf(nodes, a, head);
    AssignPrev(n, head.prev, nodes, a);
    ghost var b := SetPrev(a, n.id, a.prev[head.id]);
    LinksOf(nodes, b, head);
    AssignNext(head.prev, n, nodes, b);
    AssignPrev(head, n, nodes, SetNext(b, b.prev[head.id], n.id));
  }

  method ListDel(entry: Node, ghost nodes: seq<Node>, ghost m: Memory)
    requires Ok(m) && |m.next| == |nodes| && Represents(nodes, m) && Among(nodes, entry)
    modifies nodes
    ensures Represents(nodes, Del(m, entry.id))
  {
    hide Represents;
    LinksOf(nodes, m, entry);
    AssignNext(entry.prev, entry.next, nodes, m);
    ghost var a := SetNext(m, m.prev[entry.id], m.next[entry.id]);
    LinksOf(nodes, a, entry);
    AssignPrev(entry.next, entry.prev, nodes, a);
  }

  method ListDelInit(entry: Node, ghost nodes: seq<Node>, ghost m: Memory)
    requires Ok(m) && |m.next| == |nodes| && Represents(nodes, m) && Among(nodes, entry)
    modifies nodes
    ensures Represents(nodes, DelInit(m, entry.id))
  {
    hide Represents;
    ListDel(entry, nodes, m);
    InitListHead(entry, nodes, Del(m, entry.id));
  }

  method ListReplace(o: Node, n: Node, ghost nodes: seq<Node>, ghost m: Memory)
    requires Ok(m) && |m.next| == |nodes| && Represents(nodes, m) && Among(nodes, o) && Among(nodes, n)
    modifies nodes
    ensures Represents(nodes, Replace(m, o.id, n.id))
  {
    hide Represents;
    LinksOf(nodes, m, o);
    AssignNext(n, o.next, nodes, m);
    ghost var a := SetNext(m, n.id, m.next[o.id]);
    LinksOf(nodes, a, o);
    AssignPrev(n, o.prev, nodes, a);
    ghost var b := SetPrev(a, n.id, a.prev[o.id]);
    LinksOf(nodes, b, n);
    AssignPrev(n.next, n, nodes, b);
    ghost var c := SetPrev(b, b.next[n.id], n.id);
    LinksOf(nodes, c, n);
    AssignNext(n.prev, n, nodes, c);
  }

  method ListReplaceInit(o: Node, n: Node, ghost nodes: seq<Node>, ghost m: Memory)
    requires Ok(m) && |m.next| == |nodes| && Represents(nodes, m) && Among(nodes, o) && Among(nodes, n)
    modifies nodes
    ensures Represents(nodes, ReplaceInit(m, o.id, n.id))
  {
    hide Represents;
    ListReplace(o, n, nodes, m);
    InitListHead(o, nodes, Replace(m, o.id, n.id));
  }

  method ListMove(list: Node, head: Node, ghost nodes: seq<Node>, ghost m: Memory)
    requires Ok(m) && |m.next| == |nodes| && Represents(nodes, m) && Among(nodes, list) && Among(nodes, head)
    modifies nodes
    ensures Represents(nodes, Move(m, list.id, head.id))
  {
    hide Represents;
    ListDel(list, nodes, m);
    ListAdd(list, head, nodes, Del(m, list.id));
  }

  method ListMoveTail(list: Node, head: Node, ghost nodes: seq<Node>, ghost m: Memory)
    requires Ok(m) && |m.next| == |nodes| && Represents(nodes, m) && Among(nodes, list) && Among(nodes, head)
    modifies nodes
    ensures Represents(nodes, MoveTail(m, list.id, head.id))
  {
    hide Represents;
    ListDel(list, nodes, m);
    ListAddTail(list, head, nodes, Del(m, list.id));
  }

  method ListEmpty(head: Node, ghost nodes: seq<Node>, ghost m: Memory, ghost q: seq<nat>) returns (empty: bool)
    requires Ok(m) && |m.next| == |nodes| && Represents(nodes, m) && Among(nodes, head) && Ring(m, q) && q[0] == head.id
    ensures empty <==> |q| == 1
  {
    LinksOf(nodes, m, head);
    assert m.next[q[0]] == q[After(q, 0)];
    empty := head.next == head;
  }
}
