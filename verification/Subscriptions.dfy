/** Subscription lists and their algebra: covering, difference, and the list of all the more
    general topics a node advertises. */
module Subscriptions {
  import opened Strings
  import opened Lists
  import opened Topics

  const MAX_SUBSCRIPTION_LEN := 32

  type Subs = seq<Topic>

  predicate Contains(s: Subs, target: Topic) {
    exists i | 0 <= i < |s| :: s[i].IsEqual(target)
  }

  function AddTopic(s: Subs, t: Topic): Subs {
    if Contains(s, t) then s else s + [t]
  }

  predicate Covers(s: Subs, target: Topic) {
    exists i | 0 <= i < |s| :: s[i].ContainsTopic(target)
  }

  predicate AllValid(s: Subs) {
    forall i | 0 <= i < |s| :: s[i].IsValid()
  }

  predicate IsValid(s: Subs) {
    1 <= |s| <= MAX_SUBSCRIPTION_LEN && AllValid(s)
  }

  predicate NoDuplicates(s: Subs) {
    forall i, j | 0 <= i < j < |s| :: !s[i].IsEqual(s[j])
  }

  // ---------------------------------------------------------------- difference

  /** The first `n` topics of `s` that `a` does not cover, copied and without repetition. */
  function DiffUpTo(s: Subs, a: Subs, n: nat): Subs
    requires n <= |s|
  {
    if n == 0 then []
    else
      var r := DiffUpTo(s, a, n - 1);
      if Covers(a, s[n - 1]) then r else AddTopic(r, s[n - 1].Copy())
  }

  function DiffOf(s: Subs, a: Subs): Subs {
    DiffUpTo(s, a, |s|)
  }

  method Diff(s: Subs, a: Subs) returns (res: Subs)
    ensures res == DiffOf(s, a)
  {
    res := [];
    for i := 0 to |s|
      invariant res == DiffUpTo(s, a, i)
    {
      if !Covers(a, s[i]) {
        res := AddTopic(res, s[i].Copy());
      }
    }
  }

  lemma AddTopicContains(s: Subs, t: Topic, target: Topic)
    requires t.String() == target.String() || Contains(s, target)
    ensures Contains(AddTopic(s, t), target)
  {
    hide Topic.String;
    if Contains(s, target) {
      var i :| 0 <= i < |s| && s[i].IsEqual(target);
      assert AddTopic(s, t)[i] == s[i];
    } else if !Contains(s, t) {
      assert AddTopic(s, t)[|s|] == t;
    }
  }

  lemma CopyIsEqual(t: Topic)
    ensures t.Copy().String() == t.String()
  {
  }

  lemma {:induction false} DiffMembers(s: Subs, a: Subs, n: nat)
    requires n <= |s|
    ensures forall r | r in DiffUpTo(s, a, n) ::
              exists i | 0 <= i < n :: r == s[i].Copy() && !Covers(a, s[i])
    ensures forall i | 0 <= i < n && !Covers(a, s[i]) :: Contains(DiffUpTo(s, a, n), s[i])
  {
    hide Covers, Topic.String, Topic.Copy, Contains;
    if n > 0 {
      DiffMembers(s, a, n - 1);
      if !Covers(a, s[n - 1]) {
        var t := s[n - 1].Copy();
        CopyIsEqual(s[n - 1]);
        forall i | 0 <= i < n && !Covers(a, s[i])
          ensures Contains(DiffUpTo(s, a, n), s[i])
        {
          AddTopicContains(DiffUpTo(s, a, n - 1), t, s[i]);
        }
      }
    }
  }

  /** A difference never covers more than the list it was taken from. */
  lemma DiffCoversNoMore(s: Subs, a: Subs, m: Topic)
    requires Covers(DiffOf(s, a), m)
    ensures Covers(s, m)
  {
    var d := DiffOf(s, a);
    var k :| 0 <= k < |d| && d[k].ContainsTopic(m);
    DiffMembers(s, a, |s|);
    assert d[k] in d;
    var i :| 0 <= i < |s| && d[k] == s[i].Copy() && !Covers(a, s[i]);
    assert s[i].ContainsTopic(m);
  }

  /** Whatever the new list covers is covered by the old one or by the difference. */
  lemma DiffSplits(s: Subs, a: Subs, m: Topic)
    requires AllValid(s) && Covers(s, m)
    ensures Covers(a, m) || Covers(DiffOf(s, a), m)
  {
    var i :| 0 <= i < |s| && s[i].ContainsTopic(m);
    if Covers(a, s[i]) {
      var j :| 0 <= j < |a| && a[j].ContainsTopic(s[i]);
      ContainsTopicTransitive(a[j], s[i], m);
    } else {
      var d := DiffOf(s, a);
      DiffMembers(s, a, |s|);
      var k :| 0 <= k < |d| && d[k].IsEqual(s[i]);
      assert d[k] in d;
      var l :| 0 <= l < |s| && d[k] == s[l].Copy() && !Covers(a, s[l]);
      StringDeterminesTags(d[k], s[i]);
      assert d[k].ContainsTopic(m);
    }
  }

  /** The difference is nil exactly when every topic of `s` is already covered. */
  lemma DiffIsNil(s: Subs, a: Subs)
    ensures DiffOf(s, a) == [] <==> forall i | 0 <= i < |s| :: Covers(a, s[i])
  {
    DiffMembers(s, a, |s|);
    if DiffOf(s, a) != [] {
      assert DiffOf(s, a)[0] in DiffOf(s, a);
    }
  }

  /** The topic is the first of its string that `a` does not cover: a copy of it is in the difference. */
  predicate Kept(s: Subs, a: Subs, i: nat)
    requires i < |s|
  {
    !Covers(a, s[i]) && forall j | 0 <= j < i && s[j].IsEqual(s[i]) :: Covers(a, s[j])
  }

  predicate CopyOfKept(s: Subs, a: Subs, n: nat, r: Topic)
    requires n <= |s|
  {
    exists i | 0 <= i < n :: Kept(s, a, i) && r == s[i].Copy()
  }

  lemma CopyOfKeptStep(s: Subs, a: Subs, n: nat, r: Topic)
    requires n < |s|
    ensures CopyOfKept(s, a, n + 1, r) <==> CopyOfKept(s, a, n, r) || (Kept(s, a, n) && r == s[n].Copy())
  {
    hide Kept, Topic.Copy;
  }

  lemma NoneKept(s: Subs, a: Subs, r: Topic)
    ensures !CopyOfKept(s, a, 0, r) && DiffUpTo(s, a, 0) == []
  {
  }

  lemma InSnoc(s: Subs, last: Topic, r: Topic)
    ensures r in s + [last] <==> r in s || r == last
    ensures s + [] == s
  {
  }

  lemma {:induction false} KeptAreTheDifference(s: Subs, a: Subs, n: nat, r: Topic)
    requires n <= |s|
    ensures r in DiffUpTo(s, a, n) <==> CopyOfKept(s, a, n, r)
  {
    hide Kept, Topic.Copy, CopyOfKept, AddTopic, Covers;
    if n == 0 {
      NoneKept(s, a, r);
    } else {
      KeptAreTheDifference(s, a, n - 1, r);
      KeptStep(s, a, n);
      CopyOfKeptStep(s, a, n - 1, r);
      InSnoc(DiffUpTo(s, a, n - 1), s[n - 1].Copy(), r);
    }
  }

  lemma KeptStep(s: Subs, a: Subs, n: nat)
    requires 0 < n <= |s|
    ensures DiffUpTo(s, a, n) == DiffUpTo(s, a, n - 1) + if Kept(s, a, n - 1) then [s[n - 1].Copy()] else []
  {
    hide Topic.String;
    var r, t := DiffUpTo(s, a, n - 1), s[n - 1];
    assert r + [] == r;
    DiffMembers(s, a, n - 1);
    SameString(t);
    if Contains(r, t.Copy()) {
      var k :| 0 <= k < |r| && r[k].IsEqual(t.Copy());
      assert r[k] in r;
      var j :| 0 <= j < n - 1 && r[k] == s[j].Copy() && !Covers(a, s[j]);
      SameString(s[j]);
      assert s[j].IsEqual(t);
    } else {
      forall j | 0 <= j < n - 1 && s[j].IsEqual(t)
        ensures Covers(a, s[j])
      {
        if !Covers(a, s[j]) {
          ContainsEqual(r, s[j], t.Copy());
        }
      }
    }
  }

  lemma SameString(t: Topic)
    ensures t.Copy().String() == t.String()
  {
  }

  lemma ContainsEqual(s: Subs, x: Topic, t: Topic)
    requires Contains(s, x) && x.IsEqual(t)
    ensures Contains(s, t)
  {
    var k :| 0 <= k < |s| && s[k].IsEqual(x);
    assert s[k].IsEqual(t);
  }

  /** The list splits into what was covered and the difference, for all topics, exactly when every topic
      that is not covered has all the tags of some kept one. For valid topics that is always so. */
  lemma DiffSplitsExactly(s: Subs, a: Subs)
    ensures (forall m :: Covers(s, m) ==> Covers(a, m) || Covers(DiffOf(s, a), m)) <==>
            (forall i | 0 <= i < |s| && !Covers(a, s[i]) :: exists j | 0 <= j < |s| :: Kept(s, a, j) && s[j].ContainsTopic(s[i]))
  {
    hide DiffOf, Kept;
    if forall m :: Covers(s, m) ==> Covers(a, m) || Covers(DiffOf(s, a), m) {
      forall i | 0 <= i < |s| && !Covers(a, s[i])
        ensures exists j | 0 <= j < |s| :: Kept(s, a, j) && s[j].ContainsTopic(s[i])
      {
        assert s[i].ContainsTopic(s[i]);
        CoversByKept(s, a, s[i]);
      }
    }
    if forall i | 0 <= i < |s| && !Covers(a, s[i]) :: exists j | 0 <= j < |s| :: Kept(s, a, j) && s[j].ContainsTopic(s[i]) {
      forall m | Covers(s, m)
        ensures Covers(a, m) || Covers(DiffOf(s, a), m)
      {
        var i :| 0 <= i < |s| && s[i].ContainsTopic(m);
        if Covers(a, s[i]) {
          var k :| 0 <= k < |a| && a[k].ContainsTopic(s[i]);
          ContainsTopicTransitive(a[k], s[i], m);
        } else {
          var j :| 0 <= j < |s| && Kept(s, a, j) && s[j].ContainsTopic(s[i]);
          ContainsTopicTransitive(s[j], s[i], m);
          CoversByKept(s, a, m);
        }
      }
    }
  }

  lemma CoversByKept(s: Subs, a: Subs, m: Topic)
    ensures Covers(DiffOf(s, a), m) <==> exists j | 0 <= j < |s| :: Kept(s, a, j) && s[j].ContainsTopic(m)
  {
    var d := DiffOf(s, a);
    if Covers(d, m) {
      var k :| 0 <= k < |d| && d[k].ContainsTopic(m);
      KeptAreTheDifference(s, a, |s|, d[k]);
      var j :| 0 <= j < |s| && Kept(s, a, j) && d[k] == s[j].Copy();
      assert s[j].ContainsTopic(m);
    }
    if j :| 0 <= j < |s| && Kept(s, a, j) && s[j].ContainsTopic(m) {
      KeptAreTheDifference(s, a, |s|, s[j].Copy());
      var k :| 0 <= k < |d| && d[k] == s[j].Copy();
      assert d[k].ContainsTopic(m);
    }
  }

  // ---------------------------------------------------------------- combinations

  /** Recursion of `addCombinations`: the topic itself, then the topic without each of its tags. */
  function AddCombinations(s: Subs, t: Topic): Subs
    decreases |t.Elems()|, 1, 0
  {
    AddSmaller(AddTopic(s, t), t, |t.Elems()|)
  }

  /** The loop of `addCombinations` after `n` tags. */
  function AddSmaller(s: Subs, t: Topic, n: nat): Subs
    requires n <= |t.Elems()|
    decreases |t.Elems()|, 0, n
  {
    if n == 0 then s
    else
      var r := AddSmaller(s, t, n - 1);
      var sup := Without(t, n - 1);
      if |sup.list| > 0 then AddCombinations(r, sup) else r
  }

  function CombinationsUpTo(s: Subs, n: nat): Subs
    requires n <= |s|
  {
    if n == 0 then [] else AddCombinations(CombinationsUpTo(s, n - 1), s[n - 1])
  }

  function Combinations(s: Subs): Subs {
    CombinationsUpTo(s, |s|)
  }

  lemma AddCombinationsUnfolds(s: Subs, t: Topic)
    ensures AddCombinations(s, t) == AddSmaller(AddTopic(s, t), t, |t.Elems()|)
    ensures AddSmaller(AddTopic(s, t), t, 0) == AddTopic(s, t)
  {
  }

  lemma AddSmallerStarts(s: Subs, t: Topic)
    ensures AddSmaller(s, t, 0) == s
  {
  }

  function AddNonEmpty(s: Subs, sup: Topic): Subs
    requires sup.Tags?
  {
    if |sup.list| > 0 then AddCombinations(s, sup) else s
  }

  lemma AddSmallerUnfolds(s: Subs, t: Topic, n: nat)
    requires n < |t.Elems()|
    ensures AddSmaller(s, t, n + 1) == AddNonEmpty(AddSmaller(s, t, n), Without(t, n))
  {
  }

  method AddCombinationsOf(s: Subs, t: Topic) returns (res: Subs)
    ensures res == AddCombinations(s, t)
    decreases |t.Elems()|, 1
  {
    ghost var rounds := CombinationRounds(s, t);
    res := AddTopic(s, t);
    var tags := t.Elems();
    for i := 0 to |tags|
      invariant res == rounds[i]
    {
      res := AddCombinationsWithout(res, t, i);
    }
  }

  /** The list after each turn of the loop. */
  lemma CombinationRounds(s: Subs, t: Topic) returns (rounds: seq<Subs>)
    ensures |rounds| == |t.Elems()| + 1 && rounds[0] == AddTopic(s, t) && rounds[|t.Elems()|] == AddCombinations(s, t)
    ensures forall i | 0 <= i < |t.Elems()| :: rounds[i + 1] == AddNonEmpty(rounds[i], Without(t, i))
  {
    AddCombinationsUnfolds(s, t);
    hide AddCombinations, AddSmaller, AddNonEmpty, Without;
    rounds := seq(|t.Elems()| + 1, n requires 0 <= n <= |t.Elems()| => AddSmaller(AddTopic(s, t), t, n));
    forall i | 0 <= i < |t.Elems()|
      ensures rounds[i + 1] == AddNonEmpty(rounds[i], Without(t, i))
    {
      AddSmallerUnfolds(AddTopic(s, t), t, i);
    }
  }

  /** One turn of the loop. */
  method AddCombinationsWithout(s: Subs, t: Topic, n: nat) returns (res: Subs)
    requires n < |t.Elems()|
    ensures res == AddNonEmpty(s, Without(t, n))
    decreases |t.Elems()|, 0
  {
    var supTopic := Remove(t, t.Elems()[n]);
    assert supTopic == Some(Without(t, n));
    RemovedIsOneLess(t.Elems(), t.Elems()[n]);
    if |supTopic.value.list| > 0 {
      res := AddCombinationsOf(s, supTopic.value);
    } else {
      res := s;
    }
  }

  method ToCombinations(s: Subs) returns (res: Subs)
    ensures res == Combinations(s)
  {
    res := [];
    for i := 0 to |s|
      invariant res == CombinationsUpTo(s, i)
    {
      res := AddCombinationsOf(res, s[i]);
    }
  }

  predicate TagsOK(s: Subs) {
    forall i | 0 <= i < |s| :: AllTagsValid(s[i].Elems())
  }

  /** Some entry of the list has exactly these tags. */
  predicate Offers(s: Subs, tags: set<Tag>) {
    exists i | 0 <= i < |s| :: s[i].HasTags(tags)
  }

  /** A non-empty set of tags of the topic. */
  predicate Below(tags: set<Tag>, t: Topic) {
    tags != {} && t.Includes(tags)
  }

  lemma AddTopicKeeps(s: Subs, t: Topic)
    requires TagsOK(s) && AllTagsValid(t.Elems())
    ensures TagsOK(AddTopic(s, t))
    ensures NoDuplicates(s) ==> NoDuplicates(AddTopic(s, t))
  {
  }

  lemma AddTopicOffers(s: Subs, t: Topic, tags: set<Tag>)
    requires TagsOK(s) && AllTagsValid(t.Elems())
    ensures Offers(AddTopic(s, t), tags) <==> Offers(s, tags) || t.HasTags(tags)
  {
    if Contains(s, t) {
      var i :| 0 <= i < |s| && s[i].IsEqual(t);
      StringDeterminesTags(s[i], t);
      assert s[i].HasTags(tags) == t.HasTags(tags);
    } else {
      var r := AddTopic(s, t);
      assert r[|s|] == t;
      assert forall i | 0 <= i < |s| :: r[i] == s[i];
    }
  }

  function Without(t: Topic, n: nat): (sup: Topic)
    requires n < |t.Elems()|
    ensures sup.Tags?
  {
    Tags(Removed(t.Elems(), t.Elems()[n]))
  }

  /** Removing the tag at a place leaves valid tags, all from the topic, and loses at most that tag. */
  lemma WithoutTags(t: Topic, n: nat, tags: set<Tag>)
    requires n < |t.Elems()| && AllTagsValid(t.Elems())
    ensures AllTagsValid(Without(t, n).Elems()) && |Without(t, n).Elems()| == |t.Elems()| - 1
    ensures Without(t, n).Includes(tags) ==> t.Includes(tags)
    ensures t.Includes(tags) && t.Elems()[n] !in tags ==> Without(t, n).Includes(tags)
  {
    WithoutMembers(t, n);
  }

  lemma WithoutMembers(t: Topic, n: nat)
    requires n < |t.Elems()| && AllTagsValid(t.Elems())
    ensures AllTagsValid(Without(t, n).Elems()) && |Without(t, n).Elems()| == |t.Elems()| - 1
    ensures forall x | x in Without(t, n).Elems() :: x in t.Elems()
    ensures forall x | x in t.Elems() && x != t.Elems()[n] :: x in Without(t, n).Elems()
  {
    var elems, r := t.Elems(), Without(t, n).Elems();
    RemovedIsOneLess(elems, elems[n]);
    forall x ensures (x in r ==> x in elems) && (x in elems && x != elems[n] ==> x in r)
    {
      assert x in r <==> x in multiset(r);
      assert x in elems <==> x in multiset(elems);
    }
  }

  lemma {:induction false} AddCombinationsKeeps(s: Subs, t: Topic)
    requires TagsOK(s) && AllTagsValid(t.Elems())
    ensures TagsOK(AddCombinations(s, t))
    ensures NoDuplicates(s) ==> NoDuplicates(AddCombinations(s, t))
    decreases |t.Elems()|, 1, 0
  {
    AddTopicKeeps(s, t);
    AddSmallerKeeps(AddTopic(s, t), t, |t.Elems()|);
  }

  lemma {:induction false} AddSmallerKeeps(s: Subs, t: Topic, n: nat)
    requires n <= |t.Elems()|
    requires TagsOK(s) && AllTagsValid(t.Elems())
    ensures TagsOK(AddSmaller(s, t, n))
    ensures NoDuplicates(s) ==> NoDuplicates(AddSmaller(s, t, n))
    decreases |t.Elems()|, 0, n
  {
    hide AddCombinations, AddSmaller, Without, TagsOK, NoDuplicates, AllTagsValid;
    AddSmallerStarts(s, t);
    if n > 0 {
      AddSmallerUnfolds(s, t, n - 1);
      AddSmallerKeeps(s, t, n - 1);
      WithoutMembers(t, n - 1);
      if |Without(t, n - 1).list| > 0 {
        AddCombinationsKeeps(AddSmaller(s, t, n - 1), Without(t, n - 1));
      }
    }
  }

  /** A topic contributes its own tag set and every non-empty subset of it. */
  predicate Contributes(t: Topic, tags: set<Tag>) {
    t.HasTags(tags) || Below(tags, t)
  }

  /** An entry made from a topic: its tags are among the topic's, and it is empty only if the topic is. */
  predicate MadeFrom(t: Topic, e: Topic) {
    (forall tag | tag in e.Elems() :: tag in t.Elems()) && (e.Elems() == [] ==> t.Elems() == [])
  }

  /** Nothing is dropped from the list, and every new entry is made from the topic. */
  lemma {:induction false} AddCombinationsSound(s: Subs, t: Topic)
    requires AllTagsValid(t.Elems())
    ensures s <= AddCombinations(s, t)
    ensures forall e | e in AddCombinations(s, t) :: e in s || MadeFrom(t, e)
    decreases |t.Elems()|, 1, 0
  {
    AddSmallerSound(AddTopic(s, t), t, |t.Elems()|);
  }

  lemma {:induction false} AddSmallerSound(s: Subs, t: Topic, n: nat)
    requires n <= |t.Elems()| && AllTagsValid(t.Elems())
    ensures s <= AddSmaller(s, t, n)
    ensures forall e | e in AddSmaller(s, t, n) :: e in s || MadeFrom(t, e)
    decreases |t.Elems()|, 0, n
  {
    hide AddCombinations, AddSmaller, Without, AllTagsValid;
    AddSmallerStarts(s, t);
    if n > 0 {
      var sup := Without(t, n - 1);
      AddSmallerUnfolds(s, t, n - 1);
      AddSmallerSound(s, t, n - 1);
      WithoutMembers(t, n - 1);
      if |sup.list| > 0 {
        AddCombinationsSound(AddSmaller(s, t, n - 1), sup);
      }
    }
  }

  lemma PrefixOffers(s: Subs, r: Subs, tags: set<Tag>)
    requires s <= r && Offers(s, tags)
    ensures Offers(r, tags)
  {
    var i :| 0 <= i < |s| && s[i].HasTags(tags);
    assert r[i] == s[i];
  }

  /** Everything the topic contributes ends up in the list. */
  lemma {:induction false} AddCombinationsComplete(s: Subs, t: Topic, tags: set<Tag>)
    requires TagsOK(s) && AllTagsValid(t.Elems()) && Contributes(t, tags)
    ensures Offers(AddCombinations(s, t), tags)
    decreases |t.Elems()|, 1, 0
  {
    AddTopicKeeps(s, t);
    if t.HasTags(tags) {
      AddTopicOffers(s, t, tags);
      AddSmallerSound(AddTopic(s, t), t, |t.Elems()|);
      PrefixOffers(AddTopic(s, t), AddCombinations(s, t), tags);
    } else {
      var i :| 0 <= i < |t.Elems()| && t.Elems()[i] !in tags;
      WithoutTags(t, i, tags);
      AddSmallerComplete(AddTopic(s, t), t, |t.Elems()|, i, tags);
    }
  }

  lemma {:induction false} AddSmallerComplete(s: Subs, t: Topic, n: nat, i: nat, tags: set<Tag>)
    requires i < n <= |t.Elems()|
    requires TagsOK(s) && AllTagsValid(t.Elems()) && Below(tags, Without(t, i))
    ensures Offers(AddSmaller(s, t, n), tags)
    decreases |t.Elems()|, 0, n
  {
    hide AddCombinations, AddSmaller, Without, AllTagsValid;
    var r, sup := AddSmaller(s, t, n - 1), Without(t, n - 1);
    AddSmallerUnfolds(s, t, n - 1);
    WithoutTags(t, n - 1, tags);
    if i == n - 1 {
      assert |sup.list| > 0 by { var tag :| tag in tags; }
      AddSmallerKeeps(s, t, n - 1);
      AddCombinationsComplete(r, sup, tags);
    } else {
      AddSmallerComplete(s, t, n - 1, i, tags);
      if |sup.list| > 0 {
        AddCombinationsSound(r, sup);
        PrefixOffers(r, AddCombinations(r, sup), tags);
      }
    }
  }

  /** The advertised topics, counted as tag sets, are exactly the non-empty subsets of the tags of
      the subscribed topics (an empty topic contributes itself). */
  lemma CombinationsAreSubsets(s: Subs, tags: set<Tag>)
    requires TagsOK(s)
    ensures Offers(Combinations(s), tags) <==> exists i | 0 <= i < |s| :: Contributes(s[i], tags)
  {
    var res := Combinations(s);
    if Offers(res, tags) {
      var k :| 0 <= k < |res| && res[k].HasTags(tags);
      CombinationsUpToSound(s, |s|);
      assert res[k] in res;
      var i :| 0 <= i < |s| && MadeFrom(s[i], res[k]);
      MadeFromContributes(s[i], res[k], tags);
    }
    if i :| 0 <= i < |s| && Contributes(s[i], tags) {
      CombinationsUpToComplete(s, |s|, i, tags);
    }
  }

  lemma MadeFromContributes(t: Topic, e: Topic, tags: set<Tag>)
    requires MadeFrom(t, e) && e.HasTags(tags)
    ensures Contributes(t, tags)
  {
    if e.Elems() != [] {
      assert e.Elems()[0] in tags;
    }
  }

  /** No two advertised topics are equal as strings. */
  lemma CombinationsAreDistinct(s: Subs)
    requires TagsOK(s)
    ensures NoDuplicates(Combinations(s))
  {
    CombinationsUpToKeeps(s, |s|);
  }

  lemma {:induction false} CombinationsUpToKeeps(s: Subs, n: nat)
    requires n <= |s| && TagsOK(s)
    ensures TagsOK(CombinationsUpTo(s, n)) && NoDuplicates(CombinationsUpTo(s, n))
  {
    hide AddCombinations, AddSmaller;
    if n > 0 {
      var r := CombinationsUpTo(s, n - 1);
      assert CombinationsUpTo(s, n) == AddCombinations(r, s[n - 1]);
      CombinationsUpToKeeps(s, n - 1);
      AddCombinationsKeeps(r, s[n - 1]);
    }
  }

  lemma {:induction false} CombinationsUpToSound(s: Subs, n: nat)
    requires n <= |s| && TagsOK(s)
    ensures forall e | e in CombinationsUpTo(s, n) :: exists i | 0 <= i < n :: MadeFrom(s[i], e)
  {
    if n > 0 {
      CombinationsUpToSound(s, n - 1);
      AddCombinationsSound(CombinationsUpTo(s, n - 1), s[n - 1]);
    }
  }

  lemma {:induction false} CombinationsUpToComplete(s: Subs, n: nat, i: nat, tags: set<Tag>)
    requires i < n <= |s| && TagsOK(s) && Contributes(s[i], tags)
    ensures Offers(CombinationsUpTo(s, n), tags)
  {
    hide AddCombinations, AddSmaller;
    var r := CombinationsUpTo(s, n - 1);
    assert CombinationsUpTo(s, n) == AddCombinations(r, s[n - 1]);
    if i == n - 1 {
      CombinationsUpToKeeps(s, n - 1);
      AddCombinationsComplete(r, s[i], tags);
    } else {
      CombinationsUpToComplete(s, n - 1, i, tags);
      AddCombinationsSound(r, s[n - 1]);
      PrefixOffers(r, AddCombinations(r, s[n - 1]), tags);
    }
  }

  // ---------------------------------------------------------------- what covering means

  function TagSet(t: Topic): set<Tag> {
    set tag | tag in t.Elems()
  }

  /** What is covered by a list is what would be advertised: a topic is covered exactly if the list has the
      nil topic, or a topic whose tags are among the combinations advertised for the covered one. */
  lemma CoveringIsAdvertising(s: Subs, m: Topic)
    requires AllValid(s) && m.IsValid()
    ensures Covers(s, m) <==>
            exists i | 0 <= i < |s| :: s[i].NilTopic? || Offers(Combinations([m]), TagSet(s[i]))
  {
    hide Combinations, Offers;
    forall i | 0 <= i < |s|
      ensures s[i].ContainsTopic(m) <==> s[i].NilTopic? || Offers(Combinations([m]), TagSet(s[i]))
    {
      CombinationsAreSubsets([m], TagSet(s[i]));
      assert [m][0] == m;
      if s[i].Tags? {
        assert s[i].list[0] in TagSet(s[i]);
      }
    }
  }

  /** Covering grows with the tags of what is covered and shrinks with those of the subscription. */
  lemma CoveringIsMonotone(t: Topic, t': Topic, m: Topic, m': Topic)
    requires Covers([t], m) && TagSet(t') <= TagSet(t) && TagSet(m) <= TagSet(m')
    ensures Covers([t'], m')
  {
    assert [t][0].ContainsTopic(m);
    forall tag | tag in t'.Elems()
      ensures m'.ContainsTag(tag)
    {
      assert tag in TagSet(t') && tag in TagSet(t) && t.ContainsTopic(m);
      assert tag in TagSet(m);
      assert tag in TagSet(m');
    }
    assert [t'][0].ContainsTopic(m');
  }

  /** One topic covers another exactly if it has no tag that the other has not; so a topic without tags covers
      everything, and nothing else does. */
  lemma CoversByTags(t: Topic, m: Topic)
    ensures Covers([t], m) <==> TagSet(t) <= TagSet(m)
    ensures (forall x :: Covers([t], x)) <==> t.Elems() == []
  {
    TagsDecide(t, m);
    TagsDecide(t, NilTopic);
    if t.Elems() != [] {
      assert t.Elems()[0] in TagSet(t);
    }
  }

  lemma TagsDecide(t: Topic, m: Topic)
    ensures Covers([t], m) <==> TagSet(t) <= TagSet(m)
  {
    assert [t][0] == t;
    assert t.ContainsTopic(m) <==> forall tag | tag in t.Elems() :: tag in TagSet(m);
    assert forall tag | tag in t.Elems() :: tag in TagSet(t);
  }

  // ---------------------------------------------------------------- one tag set in several orders

  /** The topic after the tags at these places have been removed one by one. */
  function WithoutAll(t: Topic, places: seq<nat>): Option<Topic>
    decreases places
  {
    if places == [] then Some(t)
    else if places[0] < |t.Elems()| then WithoutAll(Without(t, places[0]), places[1..])
    else None
  }

  /** Whatever removals lead to, in the order they leave the tags in, is listed as a string. */
  lemma {:induction false} RemovalsAreListed(s: Subs, t: Topic, places: seq<nat>)
    requires AllTagsValid(t.Elems()) && |places| < |t.Elems()| && WithoutAll(t, places).Some?
    ensures Contains(AddCombinations(s, t), WithoutAll(t, places).value)
    decreases places
  {
    hide AddCombinations, AddSmaller, Without;
    AddCombinationsUnfolds(s, t);
    var r := AddTopic(s, t);
    if places == [] {
      AddSmallerSound(r, t, |t.Elems()|);
      ContainsItself(s, t);
      PrefixContains(r, AddCombinations(s, t), t);
    } else {
      var n := places[0];
      var before := AddSmaller(r, t, n);
      AddSmallerUnfolds(r, t, n);
      WithoutMembers(t, n);
      RemovalsAreListed(before, Without(t, n), places[1..]);
      LaterPrefix(r, t, n + 1, |t.Elems()|);
      PrefixContains(AddSmaller(r, t, n + 1), AddCombinations(s, t), WithoutAll(t, places).value);
    }
  }

  lemma ContainsItself(s: Subs, t: Topic)
    ensures Contains(AddTopic(s, t), t)
  {
    if !Contains(s, t) {
      assert AddTopic(s, t)[|s|].IsEqual(t);
    }
  }

  lemma PrefixContains(s: Subs, r: Subs, t: Topic)
    requires s <= r && Contains(s, t)
    ensures Contains(r, t)
  {
    var i :| 0 <= i < |s| && s[i].IsEqual(t);
    assert r[i].IsEqual(t);
  }

  lemma {:induction false} LaterPrefix(s: Subs, t: Topic, n: nat, k: nat)
    requires n <= k <= |t.Elems()| && AllTagsValid(t.Elems())
    ensures AddSmaller(s, t, n) <= AddSmaller(s, t, k)
  {
    hide AddCombinations, AddSmaller, Without;
    if n < k {
      LaterPrefix(s, t, n, k - 1);
      AddSmallerUnfolds(s, t, k - 1);
      WithoutMembers(t, k - 1);
      AddCombinationsSound(AddSmaller(s, t, k - 1), Without(t, k - 1));
    }
  }

  /** The same two tags are advertised in both orders: removal swaps with the last tag. */
  lemma OrdersAreRepeated()
    ensures var t := Tags(["a", "b", "c", "d"]);
            && t.IsValid()
            && Contains(Combinations([t]), Tags(["d", "c"])) && Contains(Combinations([t]), Tags(["c", "d"]))
            && !Tags(["d", "c"]).IsEqual(Tags(["c", "d"]))
  {
    var t := Tags(["a", "b", "c", "d"]);
    FourTags();
    hide AddCombinations, WithoutAll, Contains, AddTopic, AddSmaller, Without, Removed, Join;
    assert Combinations([t]) == AddCombinations(CombinationsUpTo([t], 0), t);
    RemovalsAreListed([], t, [0, 1]);
    RemovalsAreListed([], t, [1, 0]);
    assert ["d", "c"][0] != ["c", "d"][0];
    if Tags(["d", "c"]).IsEqual(Tags(["c", "d"])) {
      StringDeterminesTags(Tags(["d", "c"]), Tags(["c", "d"]));
    }
  }

  lemma FourTags()
    ensures var t := Tags(["a", "b", "c", "d"]);
            && t.IsValid() && AllTagsValid(["d", "c"]) && AllTagsValid(["c", "d"])
            && WithoutAll(t, [0, 1]) == Some(Tags(["d", "c"])) && WithoutAll(t, [1, 0]) == Some(Tags(["c", "d"]))
  {
    var t := Tags(["a", "b", "c", "d"]);
    hide Removed, Without, FirstIndex;
    WithoutAt(t, 0, Tags(["d", "b", "c"]));
    WithoutAt(Tags(["d", "b", "c"]), 1, Tags(["d", "c"]));
    WithoutAt(t, 1, Tags(["a", "d", "c"]));
    WithoutAt(Tags(["a", "d", "c"]), 0, Tags(["c", "d"]));
    assert [0, 1][1..] == [1] && [1, 0][1..] == [0];
  }

  lemma WithoutAt(t: Topic, n: nat, u: Topic)
    requires t.Tags? && u.Tags? && n < |t.list| && Distinct(t.list)
    requires u.list == t.list[n := t.list[|t.list| - 1]][..|t.list| - 1]
    ensures Without(t, n) == u
  {
  }

  // ---------------------------------------------------------------- how many combinations

  function Pow2(n: nat): nat {
    if n == 0 then 1 else 2 * Pow2(n - 1)
  }

  /** All the sets made of elements of the list. */
  ghost function SubsetsOf<T>(list: seq<T>): set<set<T>> {
    if list == [] then {{}}
    else
      var rest := SubsetsOf(list[1..]);
      rest + set x | x in rest :: x + {list[0]}
  }

  lemma {:induction false} SubsetsOfMembers<T>(list: seq<T>, x: set<T>)
    ensures x in SubsetsOf(list) <==> forall e | e in x :: e in list
  {
    if list == [] {
      if forall e | e in x :: e in list {
        assert x == {};
      }
    } else {
      var rest, head := list[1..], list[0];
      SubsetsOfMembers(rest, x);
      SubsetsOfMembers(rest, x - {head});
      if x !in SubsetsOf(rest) && x in SubsetsOf(list) {
        var y :| y in SubsetsOf(rest) && x == y + {head};
        SubsetsOfMembers(rest, y);
      }
      if head in x && x - {head} in SubsetsOf(rest) {
        assert x == (x - {head}) + {head};
      }
    }
  }

  lemma {:induction false} SubsetsOfCount<T>(list: seq<T>)
    requires forall i, j | 0 <= i < j < |list| :: list[i] != list[j]
    ensures |SubsetsOf(list)| == Pow2(|list|)
  {
    if list != [] {
      var rest, head := SubsetsOf(list[1..]), list[0];
      SubsetsOfCount(list[1..]);
      forall x | x in rest ensures head !in x {
        SubsetsOfMembers(list[1..], x);
      }
      SameSize(rest, head);
      assert rest !! set x | x in rest :: x + {head};
    }
  }

  /** Adding one new element to every set of a family does not merge any two of them. */
  lemma {:induction false} SameSize<T>(family: set<set<T>>, e: T)
    requires forall x | x in family :: e !in x
    ensures |set x | x in family :: x + {e}| == |family|
    decreases |family|
  {
    var added := set x | x in family :: x + {e};
    if family == {} {
      assert added == {};
    } else {
      var x :| x in family;
      var rest := family - {x};
      var fewer := set y | y in rest :: y + {e};
      SameSize(rest, e);
      forall y | y in rest
        ensures y + {e} != x + {e}
      {
        assert (y + {e}) - {e} == y && (x + {e}) - {e} == x;
      }
      assert x + {e} !in fewer;
      assert added == fewer + {x + {e}};
    }
  }

  /** A topic of n tags is advertised as 2^n - 1 tag sets. */
  lemma CombinationsCount(t: Topic)
    requires t.IsValid() && t.Tags?
    ensures |set tags | tags in SubsetsOf(t.list) && Offers(Combinations([t]), tags)| == Pow2(|t.list|) - 1
    ensures forall tags :: Offers(Combinations([t]), tags) ==> tags in SubsetsOf(t.list)
  {
    var res, all := Combinations([t]), SubsetsOf(t.list);
    SubsetsOfCount(t.list);
    forall tags: set<Tag>
      ensures Offers(res, tags) <==> tags in all && tags != {}
    {
      ListsOne(t, tags);
    }
    SubsetsOfMembers(t.list, {});
    assert (set tags | tags in all && Offers(res, tags)) == all - {{}};
  }

  lemma ListsOne(t: Topic, tags: set<Tag>)
    requires t.IsValid() && t.Tags?
    ensures Offers(Combinations([t]), tags) <==> tags in SubsetsOf(t.list) && tags != {}
  {
    CombinationsAreSubsets([t], tags);
    SubsetsOfMembers(t.list, tags);
    assert [t][0] == t;
    assert t.HasTags(tags) ==> t.list[0] in tags;
  }

  // ---------------------------------------------------------------- printing and reading

  function TopicStrings(s: Subs): seq<string> {
    seq(|s|, i requires 0 <= i < |s| => s[i].String())
  }

  function String(s: Subs): string {
    Terminated(TopicStrings(s))
  }

  /** The reading loop. A malformed or repeated line is skipped; the line that would bring the list
      past its limit makes the whole result nil, although no error is reported. */
  function ReadLines(subs: Subs, lines: seq<string>): Subs
    decreases lines
  {
    if lines == [] then subs
    else
      match NewTopic(lines[0])
      case None => ReadLines(subs, lines[1..])
      case Some(t) =>
        if Contains(subs, t) then ReadLines(subs, lines[1..])
        else if |subs| > MAX_SUBSCRIPTION_LEN then []
        else ReadLines(subs + [t], lines[1..])
  }

  method Read(text: string) returns (subs: Subs)
    ensures subs == ReadLines([], Lines(text))
  {
    subs := [];
    var lines := Lines(text);
    for i := 0 to |lines|
      invariant ReadLines([], lines) == ReadLines(subs, lines[i..])
    {
      var topic := NewTopic(lines[i]);
      assert lines[i..][1..] == lines[i + 1..];
      if topic.Some? && !Contains(subs, topic.value) {
        if |subs| > MAX_SUBSCRIPTION_LEN {
          return [];
        }
        subs := subs + [topic.value];
      }
    }
  }

  /** The topics of the lines that parse, each where it first occurs. */
  function FirstValid(lines: seq<string>): Subs {
    if lines == [] then []
    else
      var last := |lines| - 1;
      var r := FirstValid(lines[..last]);
      match NewTopic(lines[last])
      case None => r
      case Some(t) => if t in r then r else r + [t]
  }

  /** The topic of the line at a place, which no earlier line has. */
  ghost predicate FirstAt(lines: seq<string>, k: nat, t: Topic) {
    k < |lines| && NewTopic(lines[k]) == Some(t) && forall j | 0 <= j < k :: NewTopic(lines[j]) != Some(t)
  }

  /** Every line that parses is there, once, and nothing else. */
  lemma {:induction false} FirstValidMembers(lines: seq<string>)
    ensures AllValid(FirstValid(lines)) && Distinct(FirstValid(lines))
    ensures forall t :: t in FirstValid(lines) <==> exists line | line in lines :: NewTopic(line) == Some(t)
  {
    if lines != [] {
      var init, last := lines[..|lines| - 1], lines[|lines| - 1];
      assert lines == init + [last];
      FirstValidMembers(init);
      if NewTopic(last).Some? {
        TopicParseRoundTrip(last);
      }
      hide NewTopic, Topic.IsValid;
      forall t
        ensures t in FirstValid(lines) <==> exists line | line in lines :: NewTopic(line) == Some(t)
      {
        assert (exists line | line in lines :: NewTopic(line) == Some(t)) <==>
               (exists line | line in init :: NewTopic(line) == Some(t)) || NewTopic(last) == Some(t);
      }
    }
  }

  /** The places where the topics first occur, which increase. */
  lemma {:induction false} FirstPlaces(lines: seq<string>) returns (places: seq<nat>)
    ensures |places| == |FirstValid(lines)|
    ensures forall i | 0 <= i < |places| :: FirstAt(lines, places[i], FirstValid(lines)[i])
    ensures forall i, j | 0 <= i < j < |places| :: places[i] < places[j]
  {
    places := [];
    if lines != [] {
      var init, line := lines[..|lines| - 1], lines[|lines| - 1];
      assert lines == init + [line];
      places := FirstPlaces(init);
      var before := FirstValid(init);
      FirstValidSnoc(init, line);
      hide FirstValid, FirstAt;
      forall i | 0 <= i < |places|
        ensures FirstAt(lines, places[i], before[i])
      {
        FirstAtStays(init, line, places[i], before[i]);
      }
      if NewTopic(line).Some? && NewTopic(line).value !in before {
        FirstAtEnd(init, line, NewTopic(line).value);
        assert forall i | 0 <= i < |places| :: places[i] < |init| by { PlacesAreInside(init, before, places); }
        places := places + [|init|];
      }
    }
  }

  lemma FirstValidSnoc(init: seq<string>, line: string)
    ensures FirstValid(init + [line]) ==
            match NewTopic(line)
            case None => FirstValid(init)
            case Some(t) => if t in FirstValid(init) then FirstValid(init) else FirstValid(init) + [t]
  {
    assert (init + [line])[..|init|] == init;
  }

  lemma FirstAtStays(init: seq<string>, line: string, k: nat, t: Topic)
    requires FirstAt(init, k, t)
    ensures FirstAt(init + [line], k, t)
  {
    hide NewTopic;
  }

  lemma FirstAtEnd(init: seq<string>, line: string, t: Topic)
    requires NewTopic(line) == Some(t) && t !in FirstValid(init)
    ensures FirstAt(init + [line], |init|, t)
  {
    FirstValidMembers(init);
    hide NewTopic, FirstValid;
    forall j | 0 <= j < |init|
      ensures NewTopic((init + [line])[j]) != Some(t)
    {
      assert init[j] in init;
    }
  }

  lemma PlacesAreInside(lines: seq<string>, topics: Subs, places: seq<nat>)
    requires |places| == |topics| && forall i | 0 <= i < |places| :: FirstAt(lines, places[i], topics[i])
    ensures forall i | 0 <= i < |places| :: places[i] < |lines|
  {
  }

  /** The list is in the order in which its topics first occur. */
  lemma FirstValidInOrder(lines: seq<string>, i: nat, j: nat, k: nat, l: nat)
    requires i < |FirstValid(lines)| && j < |FirstValid(lines)|
    requires FirstAt(lines, k, FirstValid(lines)[i]) && FirstAt(lines, l, FirstValid(lines)[j])
    ensures i < j <==> k < l
  {
    hide FirstValid, NewTopic;
    var places := FirstPlaces(lines);
    assert places[i] == k && places[j] == l;
  }

  /** In a list of valid topics, being equal as strings is being equal. */
  lemma ContainsValid(s: Subs, t: Topic)
    requires AllValid(s) && t.IsValid()
    ensures Contains(s, t) <==> t in s
  {
    if i :| 0 <= i < |s| && s[i].IsEqual(t) {
      StringDeterminesTags(s[i], t);
      assert s[i] == t;
    }
    if i :| 0 <= i < |s| && s[i] == t {
      assert s[i].IsEqual(t);
    }
  }

  lemma {:induction false} MoreLinesMoreTopics(lines: seq<string>, rest: seq<string>)
    ensures FirstValid(lines) <= FirstValid(lines + rest)
    decreases rest
  {
    if rest == [] {
      assert lines + rest == lines;
    } else {
      var last := |rest| - 1;
      MoreLinesMoreTopics(lines, rest[..last]);
      assert (lines + rest)[..|lines| + last] == lines + rest[..last];
    }
  }

  lemma {:induction false} ReadContinues(done: seq<string>, rest: seq<string>)
    requires |FirstValid(done)| <= MAX_SUBSCRIPTION_LEN + 1
    ensures ReadLines(FirstValid(done), rest) ==
            if |FirstValid(done + rest)| <= MAX_SUBSCRIPTION_LEN + 1 then FirstValid(done + rest) else []
    decreases rest
  {
    if rest == [] {
      assert done + rest == done;
    } else {
      var more := done + [rest[0]];
      assert more + rest[1..] == done + rest && more[..|done|] == done;
      FirstValidMembers(done);
      MoreLinesMoreTopics(more, rest[1..]);
      if NewTopic(rest[0]).Some? {
        TopicParseRoundTrip(rest[0]);
        ContainsValid(FirstValid(done), NewTopic(rest[0]).value);
      }
      if |FirstValid(more)| <= MAX_SUBSCRIPTION_LEN + 1 {
        ReadContinues(more, rest[1..]);
      }
    }
  }

  /** What is read of any text: exactly the topics of the lines that parse, wherever malformed or repeated
      lines come between them, or nothing when they are more than 33. */
  lemma ReadKeepsValidLines(lines: seq<string>)
    ensures ReadLines([], lines) == if |FirstValid(lines)| <= MAX_SUBSCRIPTION_LEN + 1 then FirstValid(lines) else []
  {
    ReadContinues([], lines);
    assert [] + lines == lines;
  }

  lemma {:induction false} ReadPrinted(s: Subs, n: nat)
    requires AllValid(s) && NoDuplicates(s) && n <= |s| && n <= MAX_SUBSCRIPTION_LEN + 1
    ensures ReadLines(s[..n], TopicStrings(s)[n..]) == if |s| <= MAX_SUBSCRIPTION_LEN + 1 then s else []
    decreases |s| - n
  {
    var lines := TopicStrings(s)[n..];
    if n == |s| {
      assert s[..n] == s;
    } else {
      TopicRoundTrip(s[n]);
      assert lines[0] == s[n].String();
      assert !Contains(s[..n], s[n]);
      if n <= MAX_SUBSCRIPTION_LEN {
        ReadPrinted(s, n + 1);
        assert s[..n] + [s[n]] == s[..n + 1];
        assert lines[1..] == TopicStrings(s)[n + 1..];
      }
    }
  }

  /** Reading what was printed gives the list back exactly up to one more topic than the limit; a
      longer list is read as nil. */
  lemma RoundTrip(s: Subs)
    requires AllValid(s) && NoDuplicates(s)
    ensures ReadLines([], Lines(String(s))) == s <==> |s| <= MAX_SUBSCRIPTION_LEN + 1
  {
    var lines := TopicStrings(s);
    forall line | line in lines
      ensures '\n' !in line && '\r' !in line
    {
      var i :| 0 <= i < |s| && line == s[i].String();
      ValidTopicStringHasNoLineBreak(s[i].Elems());
    }
    LinesTerminated(lines);
    ReadPrinted(s, 0);
    assert lines[0..] == lines && s[..0] == [];
  }
}
