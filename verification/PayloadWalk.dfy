/**
 * The explicit-stack walk that bounds untrusted JSON before it is used. Four places of the source
 * run this loop, each with its own rule for what a node may be.
 */
module PayloadWalk {
  import opened Texts
  import opened Json

  const MAX_NODES: nat := 1_024
  const MAX_DEPTH: nat := 8

  /** What a walk allows at one node: scalars, array lengths, and the keys of an object. */
  datatype Policy = Policy(scalar: Json -> bool, length: nat -> bool, keys: seq<Text> -> bool)

  predicate NodeAllowed(policy: Policy, v: Json)
  {
    match v
    case Array(items) => policy.length(|items|)
    case Object(ms) => policy.keys(Keys(ms))
    case _ => policy.scalar(v)
  }

  // ----- the recursive reading -----

  /** Every node is allowed and none lies deeper than the bound. */
  ghost predicate Allowed(policy: Policy, v: Json, depth: nat)
    decreases v
  {
    depth <= MAX_DEPTH && NodeAllowed(policy, v) &&
    match v
    case Array(items) => forall i :: 0 <= i < |items| ==> Allowed(policy, items[i], depth + 1)
    case Object(ms) => forall i :: 0 <= i < |ms| ==> Allowed(policy, ms[i].value, depth + 1)
    case _ => true
  }

  ghost function Nodes(v: Json): (n: nat)
    ensures n >= 1
    decreases v, 1
  {
    match v
    case Array(items) => 1 + ItemNodes(items)
    case Object(ms) => 1 + MemberNodes(ms)
    case _ => 1
  }

  ghost function ItemNodes(items: seq<Json>): nat
    decreases items, 0
  {
    if items == [] then 0 else Nodes(items[0]) + ItemNodes(items[1..])
  }

  ghost function MemberNodes(ms: seq<Member>): nat
    decreases ms, 0
  {
    if ms == [] then 0 else Nodes(ms[0].value) + MemberNodes(ms[1..])
  }

  ghost predicate Admitted(policy: Policy, v: Json)
  {
    Allowed(policy, v, 0) && Nodes(v) <= MAX_NODES
  }

  // ----- the stack -----

  datatype Visit = Visit(value: Json, depth: nat)

  ghost function Total(pending: seq<Visit>): nat
  {
    if pending == [] then 0 else Nodes(pending[0].value) + Total(pending[1..])
  }

  ghost predicate AllAllowed(policy: Policy, pending: seq<Visit>)
  {
    forall i :: 0 <= i < |pending| ==> Allowed(policy, pending[i].value, pending[i].depth)
  }

  lemma {:induction false} TotalConcat(a: seq<Visit>, b: seq<Visit>)
    ensures Total(a + b) == Total(a) + Total(b)
  {
    if a == [] {
      assert a + b == b;
    } else {
      TotalConcat(a[1..], b);
      assert (a + b)[1..] == a[1..] + b;
    }
  }

  lemma {:induction false} AllAllowedConcat(policy: Policy, a: seq<Visit>, b: seq<Visit>)
    ensures AllAllowed(policy, a + b) <==> AllAllowed(policy, a) && AllAllowed(policy, b)
  {
    assert forall i :: 0 <= i < |a| ==> (a + b)[i] == a[i];
    assert forall i :: 0 <= i < |b| ==> (a + b)[|a| + i] == b[i];
  }

  /** The children a node pushes. */
  function Children(v: Json, depth: nat): (r: seq<Visit>)
  {
    match v
    case Array(items) => seq(|items|, i requires 0 <= i < |items| => Visit(items[i], depth + 1))
    case Object(ms) => seq(|ms|, i requires 0 <= i < |ms| => Visit(ms[i].value, depth + 1))
    case _ => []
  }

  lemma {:induction false} ItemTotal(items: seq<Json>, depth: nat)
    ensures Total(Children(Array(items), depth)) == ItemNodes(items)
  {
    if items != [] {
      ItemTotal(items[1..], depth);
      assert Children(Array(items), depth)[1..] == Children(Array(items[1..]), depth);
    }
  }

  lemma {:induction false} MemberTotal(ms: seq<Member>, depth: nat)
    ensures Total(Children(Object(ms), depth)) == MemberNodes(ms)
  {
    if ms != [] {
      MemberTotal(ms[1..], depth);
      assert Children(Object(ms), depth)[1..] == Children(Object(ms[1..]), depth);
    }
  }

  lemma {:induction false} ChildrenTotal(v: Json, depth: nat)
    ensures Nodes(v) == 1 + Total(Children(v, depth))
  {
    match v {
      case Array(items) => ItemTotal(items, depth);
      case Object(ms) => MemberTotal(ms, depth);
      case _ =>
    }
  }

  lemma {:induction false} ChildrenAllowed(policy: Policy, v: Json, depth: nat)
    ensures Allowed(policy, v, depth) <==>
            depth <= MAX_DEPTH && NodeAllowed(policy, v) && AllAllowed(policy, Children(v, depth))
  {
    var cs := Children(v, depth);
    match v {
      case Array(items) =>
        assert forall i :: 0 <= i < |items| ==> cs[i] == Visit(items[i], depth + 1);
      case Object(ms) =>
        assert forall i :: 0 <= i < |ms| ==> cs[i] == Visit(ms[i].value, depth + 1);
      case _ =>
    }
  }

  /**
   * The walk accepts exactly the trees with at most 1024 nodes, none deeper than 8, every node
   * allowed, and it takes at most 1025 nodes off its stack.
   */
  method Walk(policy: Policy, root: Json) returns (ok: bool, nodes: nat)
    ensures ok <==> Admitted(policy, root)
    ensures nodes <= MAX_NODES + 1
    ensures ok ==> nodes == Nodes(root)
  {
    var pending := [Visit(root, 0)];
    nodes := 0;
    while pending != []
      invariant nodes <= MAX_NODES
      invariant nodes + Total(pending) == Nodes(root)
      invariant Allowed(policy, root, 0) <==> AllAllowed(policy, pending)
      decreases Total(pending)
    {
      var current := pending[|pending| - 1];
      var rest := pending[..|pending| - 1];
      assert pending == rest + [current];
      TotalConcat(rest, [current]);
      AllAllowedConcat(policy, rest, [current]);
      assert AllAllowed(policy, [current]) <==> Allowed(policy, current.value, current.depth);
      ChildrenTotal(current.value, current.depth);
      ChildrenAllowed(policy, current.value, current.depth);
      nodes := nodes + 1;
      if nodes > MAX_NODES || current.depth > MAX_DEPTH || !NodeAllowed(policy, current.value) {
        return false, nodes;
      }
      var pushed := Children(current.value, current.depth);
      TotalConcat(rest, pushed);
      AllAllowedConcat(policy, rest, pushed);
      pending := rest + pushed;
    }
    return true, nodes;
  }
}
