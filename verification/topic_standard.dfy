/** The broker's matching against section 4.7 of MQTT 5.0: where they differ, and which clients that concerns. */
module TopicStandard {
  import opened Bytes
  import opened PacketParser
  import opened Topics

  // ---------------------------------------------------------------- section 4.7.1

  /** Section 4.7.1: `+` stands for one level, a final `#` for any number of levels, including none. */
  predicate StandardMatches(filter: seq<Str>, topic: seq<Str>) {
    if filter == [HASH] then true
    else if filter == [] || topic == [] then filter == topic
    else (filter[0] == topic[0] || filter[0] == PLUS) && StandardMatches(filter[1..], topic[1..])
  }

  /** The filter is the topic's own levels, or `+` for them, and then `#`: the topic is the parent level. */
  predicate IsParentLevel(filter: seq<Str>, topic: seq<Str>) {
    && |filter| == |topic| + 1 && filter[|topic|] == HASH
    && forall i :: 0 <= i < |topic| ==> filter[i] == topic[i] || filter[i] == PLUS
  }

  lemma ParentLevelStep(filter: seq<Str>, topic: seq<Str>)
    requires filter != [] && topic != []
    ensures IsParentLevel(filter, topic) <==>
            (filter[0] == topic[0] || filter[0] == PLUS) && IsParentLevel(filter[1..], topic[1..])
  {
    if IsParentLevel(filter[1..], topic[1..]) && (filter[0] == topic[0] || filter[0] == PLUS) {
      forall i | 0 <= i < |topic|
        ensures filter[i] == topic[i] || filter[i] == PLUS
      {
        assert i > 0 ==> filter[i] == filter[1..][i - 1] && topic[i] == topic[1..][i - 1];
      }
    }
  }

  /** The code leaves out the parent level, and differs from section 4.7.1 in nothing else. */
  lemma {:induction false} DiffersAtParentExactly(filter: seq<Str>, topic: seq<Str>)
    ensures Matches(filter, topic) != StandardMatches(filter, topic) <==> IsParentLevel(filter, topic)
    ensures Matches(filter, topic) ==> StandardMatches(filter, topic)
    decreases |filter|
  {
    if filter != [] && topic != [] && filter != [HASH] {
      DiffersAtParentExactly(filter[1..], topic[1..]);
      ParentLevelStep(filter, topic);
    }
  }

  lemma SplitFirst(first: byte, rest: Str)
    ensures Split([first] + rest) ==
            if first == SLASH then [[]] + Split(rest) else [[first] + Split(rest)[0]] + Split(rest)[1..]
  {
    assert ([first] + rest)[1..] == rest;
  }

  /** For one: `a/#` does not match `a`. */
  lemma ParentLevelIsMissed()
    ensures StandardMatches(Split([97, SLASH, 35]), Split([97])) && !Matches(Split([97, SLASH, 35]), Split([97]))
  {
    SplitFirst(35, []);
    SplitFirst(SLASH, [35]);
    SplitFirst(97, [SLASH, 35]);
    SplitFirst(97, []);
    assert [97, SLASH, 35] == [97] + [SLASH, 35] && [SLASH, 35] == [SLASH] + [35];
    assert [35] == [35] + [] && [97] == [97] + [];
    assert Split([97]) == [[97]] && Split([97, SLASH, 35]) == [[97], HASH];
    assert IsParentLevel([[97], HASH], [[97]]);
    DiffersAtParentExactly([[97], HASH], [[97]]);
  }

  // ---------------------------------------------------------------- match results

  type Relation = (seq<Str>, seq<Str>) -> bool

  ghost predicate SubscribedBy(reach: Relation, table: Table, topic: seq<Str>, c: Str) {
    exists f :: (f, c) in table && reach(f, topic)
  }

  ghost predicate IsBestBy(reach: Relation, table: Table, topic: seq<Str>, c: Str, q: nat) {
    && (exists f :: (f, c) in table && reach(f, topic) && table[(f, c)] == q)
    && (forall f :: (f, c) in table && reach(f, topic) ==> table[(f, c)] <= q)
  }

  /** What a match owes when filters reach topics by the given relation: each subscribed client once, at its
      best QoS. */
  ghost predicate IsMatchBy(reach: Relation, table: Table, topic: seq<Str>, pairs: seq<(Str, nat)>) {
    && (forall i, j :: 0 <= i < j < |pairs| ==> pairs[i].0 != pairs[j].0)
    && (forall i :: 0 <= i < |pairs| ==> IsBestBy(reach, table, topic, pairs[i].0, pairs[i].1))
    && (forall c :: SubscribedBy(reach, table, topic, c) ==> Lists(pairs, c))
  }

  predicate Lists(pairs: seq<(Str, nat)>, c: Str) {
    exists i :: 0 <= i < |pairs| && pairs[i].0 == c
  }

  lemma CodeMatch(table: Table, topic: seq<Str>, pairs: seq<(Str, nat)>)
    requires IsMatch(table, topic, pairs)
    ensures IsMatchBy(Matches, table, topic, pairs)
  {
    forall i | 0 <= i < |pairs|
      ensures IsBestBy(Matches, table, topic, pairs[i].0, pairs[i].1)
    {
      assert IsBest(table, topic, pairs[i].0, pairs[i].1);
    }
    forall c | SubscribedBy(Matches, table, topic, c)
      ensures Lists(pairs, c)
    {
      assert Subscribed(table, topic, c);
    }
  }

  lemma ListedIsSubscribed(reach: Relation, table: Table, topic: seq<Str>, pairs: seq<(Str, nat)>, c: Str)
    requires IsMatchBy(reach, table, topic, pairs)
    ensures Lists(pairs, c) <==> SubscribedBy(reach, table, topic, c)
  {
    if Lists(pairs, c) {
      var i :| 0 <= i < |pairs| && pairs[i].0 == c;
      assert IsBestBy(reach, table, topic, pairs[i].0, pairs[i].1);
    }
  }

  /** Some filter of `c` reaches the topic with at least the QoS of its filter `f`. */
  ghost predicate MadeUpFor(reach: Relation, table: Table, topic: seq<Str>, f: seq<Str>, c: Str)
    requires (f, c) in table
  {
    exists g :: (g, c) in table && reach(g, topic) && table[(f, c)] <= table[(g, c)]
  }

  /** Every filter that reaches the topic by one relation is made up for by one that does by the other. */
  ghost predicate Covers(from: Relation, to: Relation, table: Table, topic: seq<Str>) {
    forall f, c :: (f, c) in table && from(f, topic) ==> MadeUpFor(to, table, topic, f, c)
  }

  lemma SameBest(from: Relation, to: Relation, table: Table, topic: seq<Str>, c: Str, q: nat)
    requires Covers(from, to, table, topic) && Covers(to, from, table, topic)
    requires IsBestBy(from, table, topic, c, q)
    ensures IsBestBy(to, table, topic, c, q)
  {
    var f :| (f, c) in table && from(f, topic) && table[(f, c)] == q;
    forall g | (g, c) in table && to(g, topic)
      ensures table[(g, c)] <= q
    {
      assert MadeUpFor(from, table, topic, g, c);
    }
    assert MadeUpFor(to, table, topic, f, c);
  }

  lemma MatchCovers(from: Relation, to: Relation, table: Table, topic: seq<Str>, pairs: seq<(Str, nat)>)
    requires IsMatchBy(from, table, topic, pairs) && IsMatchBy(to, table, topic, pairs)
    ensures Covers(from, to, table, topic)
  {
    forall f, c | (f, c) in table && from(f, topic)
      ensures MadeUpFor(to, table, topic, f, c)
    {
      assert SubscribedBy(from, table, topic, c);
      var i :| 0 <= i < |pairs| && pairs[i].0 == c;
      assert IsBestBy(from, table, topic, pairs[i].0, pairs[i].1);
      assert IsBestBy(to, table, topic, pairs[i].0, pairs[i].1);
    }
  }

  /** A match by one relation is a match by another exactly when each covers the other. */
  lemma MatchByOtherIff(from: Relation, to: Relation, table: Table, topic: seq<Str>, pairs: seq<(Str, nat)>)
    requires IsMatchBy(from, table, topic, pairs)
    ensures IsMatchBy(to, table, topic, pairs) <==> Covers(from, to, table, topic) && Covers(to, from, table, topic)
  {
    if Covers(from, to, table, topic) && Covers(to, from, table, topic) {
      forall i | 0 <= i < |pairs|
        ensures IsBestBy(to, table, topic, pairs[i].0, pairs[i].1)
      {
        SameBest(from, to, table, topic, pairs[i].0, pairs[i].1);
      }
      forall c | SubscribedBy(to, table, topic, c)
        ensures Lists(pairs, c)
      {
        var f :| (f, c) in table && to(f, topic);
        assert MadeUpFor(from, table, topic, f, c);
      }
    } else if IsMatchBy(to, table, topic, pairs) {
      MatchCovers(from, to, table, topic, pairs);
      MatchCovers(to, from, table, topic, pairs);
    }
  }

  /** The clients the broker's match leaves out are exactly those reached only by filters whose parent level is
      the topic. */
  lemma MissedClientsExactly(table: Table, topic: seq<Str>, pairs: seq<(Str, nat)>, c: Str)
    requires IsMatch(table, topic, pairs)
    ensures SubscribedBy(StandardMatches, table, topic, c) && !Lists(pairs, c) <==>
            (exists f :: (f, c) in table && IsParentLevel(f, topic)) && !Subscribed(table, topic, c)
  {
    CodeMatch(table, topic, pairs);
    ListedIsSubscribed(Matches, table, topic, pairs, c);
    StandardIsMore(topic);
  }

  lemma StandardIsMore(topic: seq<Str>)
    ensures forall f :: StandardMatches(f, topic) <==> Matches(f, topic) || IsParentLevel(f, topic)
    ensures forall f :: !(Matches(f, topic) && IsParentLevel(f, topic))
  {
    forall f
      ensures StandardMatches(f, topic) <==> Matches(f, topic) || IsParentLevel(f, topic)
      ensures !(Matches(f, topic) && IsParentLevel(f, topic))
    {
      DiffersAtParentExactly(f, topic);
    }
  }

  /** The broker's match is the one section 4.7.1 asks for exactly when every parent-level filter is made up for by
      a filter of the same client that matches with at least its QoS. */
  lemma MatchIsStandardIff(table: Table, topic: seq<Str>, pairs: seq<(Str, nat)>)
    requires IsMatch(table, topic, pairs)
    ensures IsMatchBy(StandardMatches, table, topic, pairs) <==>
            forall f, c :: (f, c) in table && IsParentLevel(f, topic) ==> MadeUpFor(Matches, table, topic, f, c)
  {
    CodeMatch(table, topic, pairs);
    StandardIsMore(topic);
    MatchByOtherIff(Matches, StandardMatches, table, topic, pairs);
    assert Covers(Matches, StandardMatches, table, topic);
  }

  // ---------------------------------------------------------------- section 4.7.2

  const DOLLAR: byte := 36

  /** Section 4.7.2: a filter that starts with a wildcard does not reach a topic that starts with `$`. */
  predicate IsShielded(filter: seq<Str>, topic: seq<Str>) {
    && topic != [] && topic[0] != [] && topic[0][0] == DOLLAR
    && filter != [] && (filter[0] == PLUS || filter[0] == HASH)
  }

  /** Both sections together. */
  predicate Reaches(filter: seq<Str>, topic: seq<Str>) {
    StandardMatches(filter, topic) && !IsShielded(filter, topic)
  }

  /** The code differs from the two sections on the filters that section 4.7.1 lets match and that are either
      shielded or at the parent level, but not both. */
  lemma DiffersFromBothExactly(filter: seq<Str>, topic: seq<Str>)
    ensures Matches(filter, topic) != Reaches(filter, topic) <==>
            StandardMatches(filter, topic) && IsShielded(filter, topic) != IsParentLevel(filter, topic)
  {
    DiffersAtParentExactly(filter, topic);
  }

  /** For one: `#` matches `$a`. */
  lemma ShieldedIsMatched()
    ensures Matches(Split([35]), Split([DOLLAR, 97])) && !Reaches(Split([35]), Split([DOLLAR, 97]))
  {
    SplitFirst(35, []);
    SplitFirst(DOLLAR, [97]);
    SplitFirst(97, []);
    assert [35] == [35] + [] && [DOLLAR, 97] == [DOLLAR] + [97] && [97] == [97] + [];
    assert Split([35]) == [HASH] && Split([DOLLAR, 97]) == [[DOLLAR, 97]];
  }

  /** The clients the broker's match lists against the two sections are exactly those with a filter that matches and
      no filter that section 4.7.1 lets match unshielded. */
  lemma WrongClientsExactly(table: Table, topic: seq<Str>, pairs: seq<(Str, nat)>, c: Str)
    requires IsMatch(table, topic, pairs)
    ensures Lists(pairs, c) && !SubscribedBy(Reaches, table, topic, c) <==>
            (exists f :: (f, c) in table && StandardMatches(f, topic) && !IsParentLevel(f, topic)) &&
            (forall f :: (f, c) in table && StandardMatches(f, topic) ==> IsShielded(f, topic))
  {
    CodeMatch(table, topic, pairs);
    ListedIsSubscribed(Matches, table, topic, pairs, c);
    StandardIsMore(topic);
  }

  /** The clients it leaves out against them are exactly those with an unshielded filter at the parent level, whose
      other filters that section 4.7.1 lets match are at the parent level too. */
  lemma LostClientsExactly(table: Table, topic: seq<Str>, pairs: seq<(Str, nat)>, c: Str)
    requires IsMatch(table, topic, pairs)
    ensures SubscribedBy(Reaches, table, topic, c) && !Lists(pairs, c) <==>
            (exists f :: (f, c) in table && IsParentLevel(f, topic) && !IsShielded(f, topic)) &&
            (forall f :: (f, c) in table && StandardMatches(f, topic) ==> IsParentLevel(f, topic))
  {
    CodeMatch(table, topic, pairs);
    ListedIsSubscribed(Matches, table, topic, pairs, c);
    StandardIsMore(topic);
  }

  /** The broker's match is the one both sections ask for exactly when every filter on which they differ, shielded or
      at the parent level, is made up for by one of the same client on the other side. */
  lemma MatchMeetsBothIff(table: Table, topic: seq<Str>, pairs: seq<(Str, nat)>)
    requires IsMatch(table, topic, pairs)
    ensures IsMatchBy(Reaches, table, topic, pairs) <==>
            forall f, c :: (f, c) in table && StandardMatches(f, topic) ==>
              (IsParentLevel(f, topic) && !IsShielded(f, topic) ==> MadeUpFor(Matches, table, topic, f, c)) &&
              (IsShielded(f, topic) && !IsParentLevel(f, topic) ==> MadeUpFor(Reaches, table, topic, f, c))
  {
    CodeMatch(table, topic, pairs);
    StandardIsMore(topic);
    MatchByOtherIff(Matches, Reaches, table, topic, pairs);
    BothCover(table, topic);
  }

  lemma BothCover(table: Table, topic: seq<Str>)
    ensures Covers(Matches, Reaches, table, topic) <==>
            forall f, c :: (f, c) in table && Matches(f, topic) && IsShielded(f, topic) ==>
              MadeUpFor(Reaches, table, topic, f, c)
    ensures Covers(Reaches, Matches, table, topic) <==>
            forall f, c :: (f, c) in table && IsParentLevel(f, topic) && !IsShielded(f, topic) ==>
              MadeUpFor(Matches, table, topic, f, c)
  {
    StandardIsMore(topic);
  }
}
