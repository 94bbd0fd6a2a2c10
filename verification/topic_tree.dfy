/** The mutable topic tree, proved against the flat subscription table. */
module TopicTrees {
  import opened PacketParser
  import opened Topics

  class TopicNode {
    var children: map<Str, TopicNode>
    var subscribers: map<Str, nat>

    constructor ()
      ensures children == map[] && subscribers == map[]
    {
      children, subscribers := map[], map[];
    }
  }

  type Path = seq<Str>

  /** Which subscriptions a part of the tree contributes to a match: (client, QoS) pairs. */
  ghost function Hits(table: Table, path: Path, topic: seq<Str>): iset<(Str, nat)> {
    iset f, c | (f, c) in table && path <= f && Matches(f[|path|..], topic) :: (c, table[(f, c)])
  }

  ghost function At(table: Table, path: Path): iset<(Str, nat)> {
    iset c | (path, c) in table :: (c, table[(path, c)])
  }

  /** `after` is `before` raised to the maximum with every hit. */
  ghost predicate Merged(before: map<Str, nat>, after: map<Str, nat>, hits: iset<(Str, nat)>) {
    && (forall c :: c in before ==> c in after && before[c] <= after[c])
    && (forall h :: h in hits ==> h.0 in after && h.1 <= after[h.0])
    && (forall c :: c in after ==> (c in before && after[c] == before[c]) || (c, after[c]) in hits)
  }

  lemma MergedTwice(a: map<Str, nat>, b: map<Str, nat>, c: map<Str, nat>, h: iset<(Str, nat)>, g: iset<(Str, nat)>)
    requires Merged(a, b, h) && Merged(b, c, g)
    ensures Merged(a, c, h + g)
  {
  }

  /** A topic with levels left is served by the children for its level, for `+`, and by `#` itself. */
  lemma HitsSplit(table: Table, path: Path, topic: seq<Str>)
    requires topic != []
    ensures Hits(table, path, topic) ==
            Hits(table, Child(path, topic[0]), topic[1..]) + Hits(table, Child(path, PLUS), topic[1..]) +
            At(table, Child(path, HASH))
  {
    var one, any, rest := Child(path, topic[0]), Child(path, PLUS), Child(path, HASH);
    forall f, c | (f, c) in table && path <= f && Matches(f[|path|..], topic)
      ensures (c, table[(f, c)]) in Hits(table, one, topic[1..]) + Hits(table, any, topic[1..]) + At(table, rest)
    {
      var tail := f[|path|..];
      assert f == path + tail;
      if tail == [HASH] {
        assert f == rest;
      } else {
        assert tail[1..] == f[|path| + 1..];
        assert one <= f || any <= f;
      }
    }
    forall f, c | (f, c) in table && one <= f && Matches(f[|one|..], topic[1..])
      ensures (c, table[(f, c)]) in Hits(table, path, topic)
    {
      assert f[|path|..][1..] == f[|one|..] && f[|path|..][0] == topic[0];
    }
    forall f, c | (f, c) in table && any <= f && Matches(f[|any|..], topic[1..])
      ensures (c, table[(f, c)]) in Hits(table, path, topic)
    {
      assert f[|path|..][1..] == f[|any|..] && f[|path|..][0] == PLUS;
    }
    forall c | (rest, c) in table
      ensures (c, table[(rest, c)]) in Hits(table, path, topic)
    {
      assert rest[|path|..] == [HASH];
    }
  }

  lemma HitsAtEnd(table: Table, path: Path)
    ensures Hits(table, path, []) == At(table, path)
  {
    forall f, c | (f, c) in table && path <= f && Matches(f[|path|..], [])
      ensures f == path
    {
      assert f == path + f[|path|..];
    }
    assert path[|path|..] == [];
  }

  lemma MergedIsBest(table: Table, topic: seq<Str>, results: map<Str, nat>)
    requires Merged(map[], results, Hits(table, [], topic))
    ensures forall c :: c in results <==> Subscribed(table, topic, c)
    ensures forall c :: c in results ==> IsBest(table, topic, c, results[c])
  {
    forall f, c | (f, c) in table && Matches(f, topic)
      ensures c in results && table[(f, c)] <= results[c]
    {
      assert f[0..] == f && [] <= f;
      assert (c, table[(f, c)]) in Hits(table, [], topic);
    }
    forall c | c in results
      ensures Subscribed(table, topic, c) && IsBest(table, topic, c, results[c])
    {
      assert (c, results[c]) in Hits(table, [], topic);
      var f :| (f, c) in table && [] <= f && Matches(f[0..], topic) && table[(f, c)] == results[c];
      assert f[0..] == f;
    }
  }

  ghost function Pairs(subscribers: map<Str, nat>, clients: set<Str>): iset<(Str, nat)> {
    iset c | c in clients && c in subscribers :: (c, subscribers[c])
  }

  /** Raises the results to each entry of a subscriber table, in whatever order it is walked. */
  method MergeAll(subscribers: map<Str, nat>, results: map<Str, nat>) returns (merged: map<Str, nat>)
    ensures Merged(results, merged, Pairs(subscribers, subscribers.Keys))
  {
    merged := results;
    var todo := subscribers.Keys;
    while todo != {}
      invariant todo <= subscribers.Keys
      invariant Merged(results, merged, Pairs(subscribers, subscribers.Keys - todo))
      decreases todo
    {
      var client :| client in todo;
      var qos := subscribers[client];
      var sofar := if client in merged then merged[client] else 0;
      merged := merged[client := if sofar >= qos then sofar else qos];
      todo := todo - {client};
    }
  }

  /** The results as a list of pairs, in some order. */
  method Items(results: map<Str, nat>) returns (pairs: seq<(Str, nat)>)
    ensures forall i, j :: 0 <= i < j < |pairs| ==> pairs[i].0 != pairs[j].0
    ensures forall i :: 0 <= i < |pairs| ==> pairs[i].0 in results && results[pairs[i].0] == pairs[i].1
    ensures forall c :: c in results ==> exists i :: 0 <= i < |pairs| && pairs[i].0 == c
  {
    pairs := [];
    var todo := results.Keys;
    while todo != {}
      invariant todo <= results.Keys
      invariant forall i, j :: 0 <= i < j < |pairs| ==> pairs[i].0 != pairs[j].0
      invariant forall i :: 0 <= i < |pairs| ==>
        pairs[i].0 in results && pairs[i].0 !in todo && results[pairs[i].0] == pairs[i].1
      invariant forall c :: c in results && c !in todo ==> exists i :: 0 <= i < |pairs| && pairs[i].0 == c
      decreases todo
    {
      var c :| c in todo;
      ghost var before := pairs;
      pairs := pairs + [(c, results[c])];
      todo := todo - {c};
      assert pairs[|before|].0 == c;
      assert forall i :: 0 <= i < |before| ==> pairs[i] == before[i];
    }
  }

  // ---------------------------------------------------------------- the shape of a tree

  function Child(path: Path, part: Str): Path {
    path + [part]
  }

  lemma TakeOneMore(parts: seq<Str>, i: nat)
    requires i <= |parts|
    ensures if i < |parts| then parts[..i + 1] == Child(parts[..i], parts[i]) else parts[..i] == parts
  {
  }

  /** A picture of the tree: every node by the levels that lead to it, what each node holds, and the
      flat table of all subscriptions; and the set of its nodes. */
  datatype View = View(
    nodes: Nodes, kids: Kids, subs: Subs, table: Table, members: set<TopicNode>)

  type Nodes = map<Path, TopicNode>
  type Kids = map<Path, map<Str, TopicNode>>
  type Subs = map<Path, map<Str, nat>>

  /** The path is the root's, or its last level is a child where its other levels lead. */
  ghost predicate HasParent(kids: Kids, path: Path) {
    path == [] || (path[..|path| - 1] in kids && path[|path| - 1] in kids[path[..|path| - 1]])
  }

  /** The nodes form a tree: rooted, closed under children, holding nothing else, and without sharing. */
  ghost predicate Shape(root: TopicNode, nodes: Nodes, kids: Kids) {
    && [] in nodes && nodes[[]] == root && kids.Keys == nodes.Keys
    && (forall path, part {:trigger part in kids[path]} :: path in kids && part in kids[path] ==>
          Child(path, part) in nodes && nodes[Child(path, part)] == kids[path][part])
    && (forall path {:trigger HasParent(kids, path)} :: path in nodes ==> HasParent(kids, path))
    && (forall p, q {:trigger nodes[p], nodes[q]} :: p in nodes && q in nodes && nodes[p] == nodes[q] ==> p == q)
  }

  /** The table lists exactly the entries of the nodes' subscriber tables. */
  ghost predicate Lists(subs: Subs, table: Table) {
    && (forall path, c {:trigger (path, c) in table} :: (path, c) in table ==>
          path in subs && c in subs[path] && subs[path][c] == table[(path, c)])
    && (forall path, c {:trigger c in subs[path]} :: path in subs && c in subs[path] ==> (path, c) in table)
  }

  ghost predicate Tree(root: TopicNode, v: View) {
    match v
    case View(nodes, kids, subs, table, members) =>
      && Shape(root, nodes, kids) && subs.Keys == nodes.Keys && Lists(subs, table)
      && forall path {:trigger nodes[path]} :: path in nodes ==> nodes[path] in members
  }

  /** Nothing lies below a child that is not there. */
  lemma {:induction false} NoChildNoNodes(root: TopicNode, v: View, path: Path, part: Str, f: Path)
    requires Shape(root, v.nodes, v.kids) && path in v.nodes && part !in v.kids[path] && Child(path, part) <= f
    ensures f !in v.nodes
    decreases |f|
  {
    var init := f[..|f| - 1];
    if |f| == |path| + 1 {
      assert f == Child(path, part) && init == path;
    } else {
      assert Child(path, part) <= init;
      NoChildNoNodes(root, v, path, part, init);
    }
    assert f in v.nodes ==> HasParent(v.kids, f);
  }

  // ---------------------------------------------------------------- what an update does to the picture

  ghost function WithChild(v: View, path: Path, part: Str, child: TopicNode): View
    requires path in v.kids
  {
    var at := Child(path, part);
    v.(nodes := v.nodes[at := child],
       kids := v.kids[path := v.kids[path][part := child]][at := map[]],
       subs := v.subs[at := map[]],
       members := v.members + {child})
  }

  /** The new child's path is new, and every node keeps its parent. */
  lemma AddedChildParents(root: TopicNode, v: View, path: Path, part: Str, child: TopicNode, p: Path)
    requires Tree(root, v) && path in v.nodes && Child(path, part) !in v.nodes
    requires p in WithChild(v, path, part, child).nodes
    ensures HasParent(WithChild(v, path, part, child).kids, p)
  {
    hide Lists;
    var at := Child(path, part);
    assert at[..|path|] == path && at != path;
    assert p != at ==> HasParent(v.kids, p);
  }

  lemma AddedChildKids(root: TopicNode, v: View, path: Path, part: Str, child: TopicNode, p: Path, q: Str)
    requires Tree(root, v) && path in v.nodes && part !in v.kids[path] && Child(path, part) !in v.nodes
    requires var kids := WithChild(v, path, part, child).kids; p in kids && q in kids[p]
    ensures var v' := WithChild(v, path, part, child); Child(p, q) in v'.nodes && v'.nodes[Child(p, q)] == v'.kids[p][q]
  {
    hide Lists, HasParent;
    if p != path || q != part {
      assert p in v.kids && q in v.kids[p];
      assert Child(p, q) in v.nodes;
    }
  }

  lemma AddedChildDistinct(root: TopicNode, v: View, path: Path, part: Str, child: TopicNode, p: Path, q: Path)
    requires Tree(root, v) && path in v.nodes && child !in v.members
    requires var nodes := WithChild(v, path, part, child).nodes; p in nodes && q in nodes && nodes[p] == nodes[q]
    ensures p == q
  {
    hide Lists, HasParent;
    var nodes := WithChild(v, path, part, child).nodes;
    assert p in v.nodes ==> v.nodes[p] in v.members;
    assert q in v.nodes ==> v.nodes[q] in v.members;
  }

  lemma AddedChildShape(root: TopicNode, v: View, path: Path, part: Str, child: TopicNode)
    requires Tree(root, v) && path in v.nodes && part !in v.kids[path] && child !in v.members
    requires Child(path, part) !in v.nodes
    ensures Shape(root, WithChild(v, path, part, child).nodes, WithChild(v, path, part, child).kids)
  {
    hide Lists, HasParent;
    var v' := WithChild(v, path, part, child);
    assert Child(path, part) != [];
    forall p | p in v'.nodes
      ensures HasParent(v'.kids, p)
    {
      AddedChildParents(root, v, path, part, child, p);
    }
    forall p, q | p in v'.kids && q in v'.kids[p]
      ensures Child(p, q) in v'.nodes && v'.nodes[Child(p, q)] == v'.kids[p][q]
    {
      AddedChildKids(root, v, path, part, child, p, q);
    }
    forall p, q | p in v'.nodes && q in v'.nodes && v'.nodes[p] == v'.nodes[q]
      ensures p == q
    {
      AddedChildDistinct(root, v, path, part, child, p, q);
    }
  }

  lemma AddedChild(root: TopicNode, v: View, path: Path, part: Str, child: TopicNode)
    requires Tree(root, v) && path in v.nodes && part !in v.kids[path] && child !in v.members
    ensures Child(path, part) !in v.nodes && Child(path, part) != path && path in v.kids
    ensures var v' := WithChild(v, path, part, child); v'.kids.Keys == v'.nodes.Keys && v'.subs.Keys == v'.nodes.Keys
    ensures Tree(root, WithChild(v, path, part, child))
  {
    NoChildNoNodes(root, v, path, part, Child(path, part));
    AddedChildShape(root, v, path, part, child);
    var v' := WithChild(v, path, part, child);
    assert Lists(v'.subs, v'.table);
  }

  /** Every node but the parent and the new child is what it was. */
  lemma AddedChildElsewhere(root: TopicNode, v: View, path: Path, part: Str, child: TopicNode, p: Path)
    requires Tree(root, v) && path in v.nodes && child !in v.members && Child(path, part) !in v.nodes
    requires p in WithChild(v, path, part, child).nodes
    ensures var v' := WithChild(v, path, part, child);
            if p == Child(path, part) then v'.nodes[p] == child && v'.kids[p] == map[] && v'.subs[p] == map[]
            else p in v.nodes && v'.nodes[p] == v.nodes[p] != child && v'.subs[p] == v.subs[p] &&
                 if p == path then v'.kids[p] == v.kids[p][part := child]
                 else v.nodes[p] != v.nodes[path] && v'.kids[p] == v.kids[p]
  {
  }

  lemma OtherNode(root: TopicNode, v: View, path: Path, p: Path)
    requires Tree(root, v) && path in v.nodes && p in v.nodes
    ensures p == path || v.nodes[p] != v.nodes[path]
  {
  }

  ghost function WithSubscriber(v: View, path: Path, client: Str, qos: nat): View
    requires path in v.subs
  {
    var own: map<Str, nat> := v.subs[path][client := qos];
    v.(subs := v.subs[path := own], table := v.table[(path, client) := qos])
  }

  lemma SubscriberSet(root: TopicNode, v: View, path: Path, client: Str, qos: nat)
    requires Tree(root, v) && path in v.nodes
    ensures Tree(root, WithSubscriber(v, path, client, qos))
  {
  }

  ghost function WithoutSubscriber(v: View, path: Path, client: Str): View
    requires path in v.subs
  {
    v.(subs := v.subs[path := v.subs[path] - {client}], table := v.table - {(path, client)})
  }

  lemma SubscriberPopped(root: TopicNode, v: View, path: Path, client: Str)
    requires Tree(root, v) && path in v.nodes
    ensures Tree(root, WithoutSubscriber(v, path, client))
  {
  }

  // ---------------------------------------------------------------- subtrees

  ghost function PathsBelow(nodes: Nodes, path: Path): set<Path> {
    set q | q in nodes && path <= q
  }

  /** The paths from `path` down, leaving out what lies below the children in `todo`. */
  ghost function PathsBelowExcept(nodes: Nodes, path: Path, todo: set<Str>): set<Path> {
    set q | q in nodes && path <= q && (|q| > |path| ==> q[|path|] !in todo)
  }

  lemma BelowIsChildren(root: TopicNode, v: View, path: Path)
    requires Shape(root, v.nodes, v.kids) && path in v.nodes
    ensures PathsBelowExcept(v.nodes, path, v.kids[path].Keys) == {path}
    ensures PathsBelowExcept(v.nodes, path, {}) == PathsBelow(v.nodes, path)
  {
    forall q | q in v.nodes && path <= q && |q| > |path|
      ensures q[|path|] in v.kids[path]
    {
      if q[|path|] !in v.kids[path] {
        NoChildNoNodes(root, v, path, q[|path|], q);
      }
    }
    forall q | q in PathsBelowExcept(v.nodes, path, v.kids[path].Keys)
      ensures q == path
    {
      assert |q| == |path|;
    }
  }

  lemma BelowOneMore(v: View, path: Path, todo: set<Str>, part: Str)
    requires path in v.nodes && part in todo
    ensures PathsBelowExcept(v.nodes, path, todo - {part}) ==
            PathsBelowExcept(v.nodes, path, todo) + PathsBelow(v.nodes, Child(path, part))
    ensures PathsBelow(v.nodes, Child(path, part)) < PathsBelow(v.nodes, path)
  {
    var at := Child(path, part);
    assert path in PathsBelow(v.nodes, path) && path !in PathsBelow(v.nodes, at);
    forall q | q in v.nodes
      ensures at <= q <==> path <= q && |q| > |path| && q[|path|] == part
    {
    }
  }

  /** The entries of `client` at the given paths taken out. */
  ghost function DropAt(table: Table, client: Str, paths: set<Path>): Table {
    map k | k in table && !(k.1 == client && k.0 in paths) :: table[k]
  }

  lemma DropOne(table: Table, client: Str, path: Path)
    ensures table - {(path, client)} == DropAt(table, client, {path})
  {
  }

  lemma DropTwice(table: Table, client: Str, a: set<Path>, b: set<Path>)
    ensures DropAt(DropAt(table, client, a), client, b) == DropAt(table, client, a + b)
  {
  }

  lemma DropEverywhere(v: View, client: Str, root: TopicNode)
    requires Tree(root, v)
    ensures DropAt(v.table, client, PathsBelow(v.nodes, [])) == Without(v.table, client)
  {
    forall k | k in v.table
      ensures k.0 in PathsBelow(v.nodes, [])
    {
      assert (k.0, k.1) in v.table;
    }
  }

  // ---------------------------------------------------------------- the tree

  class TopicTree {
    var root: TopicNode
    ghost var view: View

    /** The picture is right, and the nodes hold what it says. */
    ghost predicate Valid()
      reads this, view.members
    {
      match view
      case View(nodes, kids, subs, _, _) =>
        && Tree(root, view)
        && forall path {:trigger nodes[path]} :: path in nodes ==>
          nodes[path].children == kids[path] && nodes[path].subscribers == subs[path]
    }

    ghost predicate NodeAt(path: Path, node: TopicNode)
      reads this
    {
      path in view.nodes && node == view.nodes[path]
    }

    constructor ()
      ensures Valid() && view.table == map[]
      ensures fresh(view.members)
    {
      var node := new TopicNode();
      root := node;
      view := View(map[[] := node], map[[] := map[]], map[[] := map[]], map[], {node});
    }

    /** Every node is an old one or freshly made. */
    twostate predicate OnlyNewNodes()
      reads this
    {
      fresh(view.members - old(view.members))
    }

    method Subscribe(client: Str, filter: Str, qos: nat)
      requires Valid()
      modifies this, view.members
      ensures Valid() && OnlyNewNodes()
      ensures view.table == old(view.table)[(Split(filter), client) := qos]
    {
      hide Valid, Split;
      var parts := Split(filter);
      var node := Walk(parts);
      SetSubscriber(parts, node, client, qos);
    }

    /** The node at the end of a path, with the nodes that were missing on the way. */
    method Walk(parts: seq<Str>) returns (node: TopicNode)
      requires Valid()
      modifies this`view, view.members
      ensures Valid() && OnlyNewNodes()
      ensures NodeAt(parts, node) && node in view.members && view.table == old(view.table)
    {
      node := Root();
      hide *;
      ghost var table := view.table;
      for i := 0 to |parts|
        invariant Valid() && fresh(view.members - old(view.members))
        invariant NodeAt(parts[..i], node) && node in view.members && view.table == table
      {
        node := DescendAlong(parts, i, node);
      }
      TakeOneMore(parts, |parts|);
    }

    method DescendAlong(parts: seq<Str>, i: nat, node: TopicNode) returns (child: TopicNode)
      requires Valid() && i < |parts| && NodeAt(parts[..i], node)
      modifies this`view, node
      ensures Valid() && OnlyNewNodes()
      ensures NodeAt(parts[..i + 1], child) && child in view.members && view.table == old(view.table)
    {
      hide Valid, NodeAt;
      TakeOneMore(parts, i);
      child := Descend(parts[..i], node, parts[i]);
    }

    method Root() returns (node: TopicNode)
      requires Valid()
      ensures NodeAt([], node) && node in view.members
    {
      node := root;
    }

    /** The child of a node, hung below it first if it is not there. */
    method Descend(ghost path: Path, node: TopicNode, part: Str) returns (child: TopicNode)
      requires Valid() && NodeAt(path, node)
      modifies this`view, node
      ensures Valid() && OnlyNewNodes()
      ensures NodeAt(Child(path, part), child) && child in view.members && view.table == old(view.table)
    {
      if part !in node.children {
        AddChild(path, node, part);
      }
      child := node.children[part];
    }

    method AddChild(ghost path: Path, node: TopicNode, part: Str)
      requires Valid() && NodeAt(path, node) && part !in node.children
      modifies this`view, node
      ensures Valid() && OnlyNewNodes()
      ensures part in node.children && NodeAt(Child(path, part), node.children[part]) && view.table == old(view.table)
    {
      hide Tree, Shape, Lists, HasParent;
      var child := new TopicNode();
      AddedChild(root, view, path, part, child);
      Hang(path, node, part, child);
    }

    /** Hangs a node that is in no tree below another. */
    method Hang(ghost path: Path, node: TopicNode, part: Str, child: TopicNode)
      requires Valid() && NodeAt(path, node) && part !in node.children && child !in view.members
      requires child != node && child.children == map[] && child.subscribers == map[] && path in view.kids
      modifies this`view, node
      ensures Valid() && view == WithChild(old(view), path, part, child)
      ensures node.children == old(node.children)[part := child]
    {
      hide Tree, Shape, Lists, HasParent, Child;
      ghost var v := view;
      AddedChild(root, v, path, part, child);
      node.children := node.children[part := child];
      view := WithChild(v, path, part, child);
      forall p | p in view.nodes
        ensures view.nodes[p].children == view.kids[p] && view.nodes[p].subscribers == view.subs[p]
      {
        AddedChildElsewhere(root, v, path, part, child, p);
      }
    }

    method SetSubscriber(ghost path: Path, node: TopicNode, client: Str, qos: nat)
      requires Valid() && NodeAt(path, node)
      modifies this`view, node
      ensures Valid() && view == WithSubscriber(old(view), path, client, qos)
    {
      ghost var v := view;
      SubscriberSet(root, v, path, client, qos);
      node.subscribers := node.subscribers[client := qos];
      view := WithSubscriber(v, path, client, qos);
      forall p | p in view.nodes
        ensures view.nodes[p].children == view.kids[p] && view.nodes[p].subscribers == view.subs[p]
      {
        OtherNode(root, v, path, p);
      }
    }

    method PopSubscriber(ghost path: Path, node: TopicNode, client: Str)
      requires Valid() && NodeAt(path, node)
      modifies this`view, node
      ensures Valid() && view == WithoutSubscriber(old(view), path, client)
    {
      ghost var v := view;
      SubscriberPopped(root, v, path, client);
      node.subscribers := node.subscribers - {client};
      view := WithoutSubscriber(v, path, client);
      forall p | p in view.nodes
        ensures view.nodes[p].children == view.kids[p] && view.nodes[p].subscribers == view.subs[p]
      {
        OtherNode(root, v, path, p);
      }
    }

    /** The nodes and their links are as they were. */
    twostate predicate SameNodes()
      reads this
    {
      view.nodes == old(view.nodes) && view.kids == old(view.kids) && view.members == old(view.members)
    }

    method Unsubscribe(client: Str, filter: Str)
      requires Valid()
      modifies this`view, view.members
      ensures Valid() && SameNodes()
      ensures view.table == old(view.table) - {(Split(filter), client)}
    {
      var parts := Split(filter);
      UnsubscribeNode(root, parts, 0, client);
    }

    method UnsubscribeNode(node: TopicNode, parts: seq<Str>, idx: nat, client: Str)
      requires Valid() && idx <= |parts| && NodeAt(parts[..idx], node)
      modifies this`view, view.members
      ensures Valid() && SameNodes()
      ensures view.table == old(view.table) - {(parts, client)}
      decreases |parts| - idx
    {
      if idx == |parts| {
        TakeOneMore(parts, idx);
        PopSubscriber(parts, node, client);
        return;
      }
      var part := parts[idx];
      TakeOneMore(parts, idx);
      if part in node.children {
        UnsubscribeNode(node.children[part], parts, idx + 1, client);
      } else {
        NoChildNoNodes(root, view, parts[..idx], part, parts);
      }
    }

    method Match(topic: Str) returns (pairs: seq<(Str, nat)>)
      requires Valid()
      ensures IsMatch(view.table, Split(topic), pairs)
    {
      var parts := Split(topic);
      var results := MatchNode([], root, parts, 0, map[]);
      assert parts[0..] == parts;
      MergedIsBest(view.table, parts, results);
      pairs := Items(results);
    }

    method MatchNode(ghost path: Path, node: TopicNode, parts: seq<Str>, idx: nat, results: map<Str, nat>)
      returns (merged: map<Str, nat>)
      requires Valid() && NodeAt(path, node) && idx <= |parts|
      ensures Merged(results, merged, Hits(view.table, path, parts[idx..]))
      decreases |parts| - idx
    {
      if idx == |parts| {
        HitsAtEnd(view.table, path);
        merged := MergeSubscribers(path, node, results);
        return;
      }
      ghost var topic := parts[idx..];
      ghost var one := Hits(view.table, Child(path, parts[idx]), topic[1..]);
      ghost var any := Hits(view.table, Child(path, PLUS), topic[1..]);
      assert topic[1..] == parts[idx + 1..];
      HitsSplit(view.table, path, topic);
      var exact := MatchChild(path, node, parts[idx], parts, idx, results);
      var plus := MatchChild(path, node, PLUS, parts, idx, exact);
      MergedTwice(results, exact, plus, one, any);
      merged := MatchHash(path, node, plus);
      MergedTwice(results, plus, merged, one + any, At(view.table, Child(path, HASH)));
    }

    /** Matches the rest of the topic below one child, when the child is there. */
    method MatchChild(ghost path: Path, node: TopicNode, part: Str, parts: seq<Str>, idx: nat, results: map<Str, nat>)
      returns (merged: map<Str, nat>)
      requires Valid() && NodeAt(path, node) && idx < |parts|
      ensures Merged(results, merged, Hits(view.table, Child(path, part), parts[idx + 1..]))
      decreases |parts| - idx, 0
    {
      if part in node.children {
        merged := MatchNode(Child(path, part), node.children[part], parts, idx + 1, results);
      } else {
        merged := results;
        forall f, c | (f, c) in view.table
          ensures !(Child(path, part) <= f)
        {
          if Child(path, part) <= f {
            NoChildNoNodes(root, view, path, part, f);
          }
        }
      }
    }

    /** The subscriptions of the `#` child, when it is there. */
    method MatchHash(ghost path: Path, node: TopicNode, results: map<Str, nat>) returns (merged: map<Str, nat>)
      requires Valid() && NodeAt(path, node)
      ensures Merged(results, merged, At(view.table, Child(path, HASH)))
    {
      if HASH in node.children {
        merged := MergeSubscribers(Child(path, HASH), node.children[HASH], results);
      } else {
        NoChildNoNodes(root, view, path, HASH, Child(path, HASH));
        merged := results;
      }
    }

    /** Raises the results to the node's own subscriptions. */
    method MergeSubscribers(ghost path: Path, node: TopicNode, results: map<Str, nat>) returns (merged: map<Str, nat>)
      requires Valid() && NodeAt(path, node)
      ensures Merged(results, merged, At(view.table, path))
    {
      merged := MergeAll(node.subscribers, results);
      assert At(view.table, path) == Pairs(node.subscribers, node.subscribers.Keys);
    }

    method RemoveClient(client: Str)
      requires Valid()
      modifies this`view, view.members
      ensures Valid() && SameNodes()
      ensures view.table == Without(old(view.table), client)
    {
      DropEverywhere(view, client, root);
      RemoveFromNode([], root, client);
    }

    /** Removes the client from a node and everything below it. */
    method RemoveFromNode(ghost path: Path, node: TopicNode, client: Str)
      requires Valid() && NodeAt(path, node)
      modifies this`view, view.members
      ensures Valid() && SameNodes()
      ensures view.table == DropAt(old(view.table), client, PathsBelow(old(view.nodes), path))
      decreases PathsBelow(view.nodes, path)
    {
      ghost var v := view;
      BelowIsChildren(root, view, path);
      DropOne(v.table, client, path);
      PopSubscriber(path, node, client);
      var todo := node.children.Keys;
      ghost var done := {path};
      while todo != {}
        invariant todo <= node.children.Keys
        invariant Valid() && view.nodes == v.nodes && view.kids == v.kids && view.members == v.members
        invariant view.table == DropAt(v.table, client, done)
        invariant done == PathsBelowExcept(v.nodes, path, todo)
        decreases todo
      {
        var part :| part in todo;
        BelowOneMore(v, path, todo, part);
        DropTwice(v.table, client, done, PathsBelow(v.nodes, Child(path, part)));
        RemoveFromNode(Child(path, part), node.children[part], client);
        todo := todo - {part};
        done := done + PathsBelow(v.nodes, Child(path, part));
      }
    }
  }

  // ---------------------------------------------------------------- histories

  method Apply(tree: TopicTree, op: TreeOp)
    requires tree.Valid()
    modifies tree, tree.view.members
    ensures tree.Valid() && tree.OnlyNewNodes()
    ensures tree.view.table == ApplyOp(old(tree.view.table), op)
  {
    match op {
      case Subscribe(client, filter, qos) => tree.Subscribe(client, filter, qos);
      case Unsubscribe(client, filter) => tree.Unsubscribe(client, filter);
      case RemoveClient(client) => tree.RemoveClient(client);
    }
  }

  /** Applies a history of operations to a new tree. */
  method Replay(ops: seq<TreeOp>) returns (tree: TopicTree)
    ensures tree.Valid() && tree.view.table == RunOps(ops)
  {
    hide TopicTree.Valid, ApplyOp;
    tree := new TopicTree();
    for i := 0 to |ops|
      invariant fresh(tree) && fresh(tree.view.members)
      invariant tree.Valid() && tree.view.table == RunOps(ops[..i])
    {
      assert ops[..i + 1][..i] == ops[..i];
      Apply(tree, ops[i]);
    }
    assert ops[..|ops|] == ops;
  }

  /** After any history, a match lists each client with a live matching filter exactly once, with the
      largest QoS it last subscribed such a filter with. */
  method MatchAfter(ops: seq<TreeOp>, topic: Str) returns (pairs: seq<(Str, nat)>)
    ensures forall i, j :: 0 <= i < j < |pairs| ==> pairs[i].0 != pairs[j].0
    ensures forall i :: 0 <= i < |pairs| ==> HistoryBest(ops, topic, pairs[i].0, pairs[i].1)
    ensures forall client, filter, qos: nat ::
      LastSubscribed(ops, client, filter, qos) && Matches(Split(filter), Split(topic)) ==>
      exists i :: 0 <= i < |pairs| && pairs[i].0 == client
  {
    var tree := Replay(ops);
    pairs := tree.Match(topic);
    forall i | 0 <= i < |pairs|
      ensures HistoryBest(ops, topic, pairs[i].0, pairs[i].1)
    {
      BestOfHistory(ops, topic, pairs[i].0, pairs[i].1);
    }
    forall client, filter, qos: nat | LastSubscribed(ops, client, filter, qos) && Matches(Split(filter), Split(topic))
      ensures exists i :: 0 <= i < |pairs| && pairs[i].0 == client
    {
      LiveExactly(ops, client, filter, qos);
      assert Subscribed(RunOps(ops), Split(topic), client);
    }
  }
}
