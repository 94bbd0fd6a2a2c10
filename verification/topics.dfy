/** Topics, filters and the flat subscription table that the topic tree stands for. */
module Topics {
  import opened Bytes
  import opened PacketParser

  // ---------------------------------------------------------------- levels

  const SLASH: byte := 47
  const PLUS: Str := [43]
  const HASH: Str := [35]

  /** The levels of a topic or filter: the string cut at its slashes. */
  function Split(s: Str): (parts: seq<Str>)
    ensures |parts| >= 1
  {
    if s == [] then [[]]
    else
      var rest := Split(s[1..]);
      if s[0] == SLASH then [[]] + rest else [[s[0]] + rest[0]] + rest[1..]
  }

  function Join(parts: seq<Str>): Str
    requires |parts| >= 1
  {
    if |parts| == 1 then parts[0] else parts[0] + [SLASH] + Join(parts[1..])
  }

  lemma JoinOne(first: Str)
    ensures Join([first]) == first
  {
  }

  lemma JoinLonger(first: Str, rest: seq<Str>)
    requires rest != []
    ensures Join([first] + rest) == first + [SLASH] + Join(rest)
  {
    assert ([first] + rest)[1..] == rest;
  }

  lemma Regroup(a: Str, b: Str, c: Str, d: Str)
    ensures (a + b) + c + d == a + (b + c + d)
  {
  }

  /** A character put before the first level stands before the whole. */
  lemma JoinFirst(c: Str, head: Str, tail: seq<Str>)
    ensures Join([c + head] + tail) == c + Join([head] + tail)
  {
    hide Join;
    if tail == [] {
      JoinOne(c + head);
      JoinOne(head);
      assert [c + head] + tail == [c + head] && [head] + tail == [head];
    } else {
      JoinLonger(c + head, tail);
      JoinLonger(head, tail);
      Regroup(c, head, [SLASH], Join(tail));
    }
  }

  lemma {:induction false} JoinSplit(s: Str)
    ensures Join(Split(s)) == s
  {
    if s == [] {
      JoinOne([]);
    } else {
      hide Join;
      var rest := Split(s[1..]);
      JoinSplit(s[1..]);
      assert [s[0]] + s[1..] == s && [rest[0]] + rest[1..] == rest;
      if s[0] == SLASH {
        JoinLonger([], rest);
      } else {
        JoinFirst([s[0]], rest[0], rest[1..]);
      }
    }
  }

  /** No level holds a slash: the string is cut at every one of them. */
  lemma {:induction false} LevelsHaveNoSlash(s: Str)
    ensures forall i :: 0 <= i < |Split(s)| ==> SLASH !in Split(s)[i]
  {
    if s != [] {
      LevelsHaveNoSlash(s[1..]);
    }
  }

  /** Different strings have different levels, so the tree may be keyed by either. */
  lemma SplitInjective(a: Str, b: Str)
    ensures Split(a) == Split(b) <==> a == b
  {
    JoinSplit(a);
    JoinSplit(b);
  }

  // ---------------------------------------------------------------- matching

  /** The broker's matching relation: level by level equal or `+`, with a final `#` standing for one or
      more remaining levels. */
  predicate Matches(filter: seq<Str>, topic: seq<Str>) {
    if filter == [] || topic == [] then filter == topic
    else if filter == [HASH] then true
    else (filter[0] == topic[0] || filter[0] == PLUS) && Matches(filter[1..], topic[1..])
  }

  // ---------------------------------------------------------------- the flat table

  /** Every live subscription: (filter levels, client) to its QoS. */
  type Table = map<(seq<Str>, Str), nat>

  /** Client `c` has a live filter that matches. */
  ghost predicate Subscribed(table: Table, topic: seq<Str>, c: Str) {
    exists f :: (f, c) in table && Matches(f, topic)
  }

  /** `q` is the best QoS among the live filters of `c` that match. */
  ghost predicate IsBest(table: Table, topic: seq<Str>, c: Str, q: nat) {
    && (exists f :: (f, c) in table && Matches(f, topic) && table[(f, c)] == q)
    && (forall f :: (f, c) in table && Matches(f, topic) ==> table[(f, c)] <= q)
  }

  /** A match result lists each subscribed client once, with its best QoS. */
  ghost predicate IsMatch(table: Table, topic: seq<Str>, pairs: seq<(Str, nat)>) {
    && (forall i, j :: 0 <= i < j < |pairs| ==> pairs[i].0 != pairs[j].0)
    && (forall i :: 0 <= i < |pairs| ==> IsBest(table, topic, pairs[i].0, pairs[i].1))
    && (forall c :: Subscribed(table, topic, c) ==> exists i :: 0 <= i < |pairs| && pairs[i].0 == c)
  }

  /** The match of a topic is determined, up to its order. */
  lemma MatchIsDetermined(table: Table, topic: seq<Str>, a: seq<(Str, nat)>, b: seq<(Str, nat)>, p: (Str, nat))
    requires IsMatch(table, topic, a) && IsMatch(table, topic, b) && p in a
    ensures p in b
  {
    var i :| 0 <= i < |a| && a[i] == p;
    assert IsBest(table, topic, p.0, p.1);
    assert Subscribed(table, topic, p.0);
    var j :| 0 <= j < |b| && b[j].0 == p.0;
    assert IsBest(table, topic, b[j].0, b[j].1);
    assert b[j] == p;
  }

  // ---------------------------------------------------------------- histories

  datatype TreeOp =
    | Subscribe(client: Str, filter: Str, qos: nat)
    | Unsubscribe(client: Str, filter: Str)
    | RemoveClient(client: Str)

  function Without(table: Table, client: Str): Table {
    map k | k in table && k.1 != client :: table[k]
  }

  function ApplyOp(table: Table, op: TreeOp): Table {
    match op
    case Subscribe(client, filter, qos) => table[(Split(filter), client) := qos]
    case Unsubscribe(client, filter) => table - {(Split(filter), client)}
    case RemoveClient(client) => Without(table, client)
  }

  function RunOps(ops: seq<TreeOp>): Table {
    if ops == [] then map[] else ApplyOp(RunOps(ops[..|ops| - 1]), ops[|ops| - 1])
  }

  /** The operation sets or ends the subscription of `client` to `filter`. */
  predicate Touches(op: TreeOp, client: Str, filter: Str) {
    op.client == client && (op.RemoveClient? || op.filter == filter)
  }

  /** Operation `i` subscribed with `qos`, and nothing later touched the subscription. */
  ghost predicate LastAt(ops: seq<TreeOp>, i: nat, client: Str, filter: Str, qos: nat) {
    i < |ops| && ops[i] == Subscribe(client, filter, qos) &&
    forall j :: i < j < |ops| ==> !Touches(ops[j], client, filter)
  }

  ghost predicate LastSubscribed(ops: seq<TreeOp>, client: Str, filter: Str, qos: nat) {
    exists i :: LastAt(ops, i, client, filter, qos)
  }

  lemma LastSubscribedSnoc(before: seq<TreeOp>, op: TreeOp, client: Str, filter: Str, qos: nat)
    ensures LastSubscribed(before + [op], client, filter, qos) <==>
            if Touches(op, client, filter) then op == Subscribe(client, filter, qos)
            else LastSubscribed(before, client, filter, qos)
  {
    var ops, n := before + [op], |before|;
    assert ops[n] == op;
    if op == Subscribe(client, filter, qos) {
      assert LastAt(ops, n, client, filter, qos);
    } else if !Touches(op, client, filter) && LastSubscribed(before, client, filter, qos) {
      var i: nat :| LastAt(before, i, client, filter, qos);
      assert LastAt(ops, i, client, filter, qos);
    }
    if LastSubscribed(ops, client, filter, qos) {
      var i: nat :| LastAt(ops, i, client, filter, qos);
      if i < n {
        assert LastAt(before, i, client, filter, qos) by {
          assert forall j :: 0 <= j < n ==> ops[j] == before[j];
        }
      }
    }
  }

  ghost predicate Holds(table: Table, client: Str, filter: Str, qos: nat) {
    (Split(filter), client) in table && table[(Split(filter), client)] == qos
  }

  lemma HoldsStep(table: Table, op: TreeOp, client: Str, filter: Str, qos: nat)
    ensures Holds(ApplyOp(table, op), client, filter, qos) <==>
            if Touches(op, client, filter) then op == Subscribe(client, filter, qos)
            else Holds(table, client, filter, qos)
  {
    if !op.RemoveClient? {
      SplitInjective(op.filter, filter);
    }
  }

  /** A subscription is live, with a given QoS, exactly when the history last subscribed it so. */
  lemma {:induction false} LiveExactly(ops: seq<TreeOp>, client: Str, filter: Str, qos: nat)
    ensures Holds(RunOps(ops), client, filter, qos) <==> LastSubscribed(ops, client, filter, qos)
  {
    if ops != [] {
      var before, op := ops[..|ops| - 1], ops[|ops| - 1];
      assert ops == before + [op];
      LiveExactly(before, client, filter, qos);
      LastSubscribedSnoc(before, op, client, filter, qos);
      HoldsStep(RunOps(before), op, client, filter, qos);
    }
  }

  /** The table of a history is keyed by the levels of filters that were given as strings. */
  lemma {:induction false} KeysAreSplits(ops: seq<TreeOp>, f: seq<Str>, c: Str)
    requires (f, c) in RunOps(ops)
    ensures |f| >= 1 && Split(Join(f)) == f
  {
    var before, op := ops[..|ops| - 1], ops[|ops| - 1];
    if op.Subscribe? && Split(op.filter) == f {
      JoinSplit(op.filter);
    }
    if (f, c) in RunOps(before) {
      KeysAreSplits(before, f, c);
    }
  }

  /** `q` is the largest QoS `c` was last subscribed with by a filter that matches the topic. */
  ghost predicate HistoryBest(ops: seq<TreeOp>, topic: Str, c: Str, q: nat) {
    && (exists filter :: LastSubscribed(ops, c, filter, q) && Matches(Split(filter), Split(topic)))
    && (forall filter, other: nat :: LastSubscribed(ops, c, filter, other) && Matches(Split(filter), Split(topic)) ==>
      other <= q)
  }

  lemma BestOfHistory(ops: seq<TreeOp>, topic: Str, c: Str, q: nat)
    ensures IsBest(RunOps(ops), Split(topic), c, q) <==> HistoryBest(ops, topic, c, q)
  {
    var table, t := RunOps(ops), Split(topic);
    forall filter, other: nat
      ensures Holds(table, c, filter, other) <==> LastSubscribed(ops, c, filter, other)
    {
      LiveExactly(ops, c, filter, other);
    }
    forall f | (f, c) in table
      ensures |f| >= 1 && Split(Join(f)) == f && Holds(table, c, Join(f), table[(f, c)])
    {
      KeysAreSplits(ops, f, c);
    }
    if IsBest(table, t, c, q) {
      var f :| (f, c) in table && Matches(f, t) && table[(f, c)] == q;
      assert LastSubscribed(ops, c, Join(f), q);
    }
    if HistoryBest(ops, topic, c, q) {
      var filter :| LastSubscribed(ops, c, filter, q) && Matches(Split(filter), t);
      assert Holds(table, c, filter, q);
    }
  }
}
