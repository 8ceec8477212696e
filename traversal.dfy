/**
 * The order in which the linter calls a rule's visitors: on entering a node
 * (`Atrule`, `StyleSheet`, ...) and on leaving it (`Atrule:exit`,
 * `StyleSheet:exit`). A node is entered, then its links are traversed in
 * the order of `walk` (children, prelude, block, value), then it is left.
 */
module Traversal {
  import opened Wrappers
  import opened Ast

  datatype Event = Enter(node: Node) | Exit(node: Node)

  function Events(n: Node): (r: seq<Event>)
    ensures |r| >= 2 && r[0] == Enter(n) && r[|r| - 1] == Exit(n)
    decreases n, 2
  {
    [Enter(n)] + EventsBelow(n) + [Exit(n)]
  }

  function EventsBelow(n: Node): seq<Event>
    decreases n, 1
  {
    (if n.hasChildren then EventsAll(n.children) else []) + EventsLinks(n)
  }

  /** The traversals of the prelude, the block and the value, in that order. */
  function EventsLinks(n: Node): seq<Event>
    decreases n, 0
  {
    EventsOpt(n.prelude) + EventsOpt(n.block) + EventsOpt(n.value)
  }

  function EventsOpt(o: Option<Node>): seq<Event>
    decreases o
  {
    if o.Some? then Events(o.value) else []
  }

  function EventsAll(cs: seq<Node>): seq<Event>
    decreases cs
  {
    if cs == [] then [] else Events(cs[0]) + EventsAll(cs[1..])
  }

  /** The nodes entered, in order. */
  function Entered(es: seq<Event>): seq<Node>
  {
    if es == [] then []
    else (if es[0].Enter? then [es[0].node] else []) + Entered(es[1..])
  }

  lemma {:induction false} EnteredConcat(a: seq<Event>, b: seq<Event>)
    ensures Entered(a + b) == Entered(a) + Entered(b)
  {
    if a == [] {
      assert a + b == b;
    } else {
      assert (a + b)[0] == a[0] && (a + b)[1..] == a[1..] + b;
      EnteredConcat(a[1..], b);
    }
  }

  /** The `enter` visits come in the order of `walk`: every node is entered once, in pre-order. */
  lemma {:induction false} EnteredInWalkOrder(n: Node)
    ensures Entered(Events(n)) == Nodes(n)
    decreases n, 2
  {
    EnteredBelow(n);
    EnteredConcat([Enter(n)], EventsBelow(n));
    EnteredConcat([Enter(n)] + EventsBelow(n), [Exit(n)]);
  }

  lemma {:induction false} EnteredBelow(n: Node)
    ensures Entered(EventsBelow(n)) == NodesBelow(n)
    decreases n, 1
  {
    var c := if n.hasChildren then EventsAll(n.children) else [];
    if n.hasChildren { EnteredAll(n.children); }
    EnteredLinks(n);
    EnteredConcat(c, EventsLinks(n));
  }

  lemma {:induction false} EnteredLinks(n: Node)
    ensures Entered(EventsLinks(n)) == NodesLinks(n)
    decreases n, 0
  {
    var p, b, v := EventsOpt(n.prelude), EventsOpt(n.block), EventsOpt(n.value);
    EnteredOpt(n.prelude);
    EnteredOpt(n.block);
    EnteredOpt(n.value);
    EnteredConcat(p + b, v);
    EnteredConcat(p, b);
  }

  lemma {:induction false} EnteredOpt(o: Option<Node>)
    ensures Entered(EventsOpt(o)) == NodesOpt(o)
    decreases o
  {
    if o.Some? { EnteredInWalkOrder(o.value); }
  }

  lemma {:induction false} EnteredAll(cs: seq<Node>)
    ensures Entered(EventsAll(cs)) == NodesAll(cs)
    decreases cs
  {
    if cs != [] {
      EnteredInWalkOrder(cs[0]);
      EnteredAll(cs[1..]);
      EnteredConcat(Events(cs[0]), EventsAll(cs[1..]));
    }
  }
}
