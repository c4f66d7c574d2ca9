/** Topics: a comma-separated list of tags. */
module Topics {
  import opened Lists
  import opened Strings

  type Tag = string

  const MAX_TAG_LEN := 24
  const MAX_TOPIC_CAPACITY := 8

  datatype Option<+T> = None | Some(value: T)

  /** A nil slice is a legal topic, an empty one that is not nil is not: the two are kept apart. */
  datatype Topic = NilTopic | Tags(list: seq<Tag>) {

    function Elems(): seq<Tag> {
      if NilTopic? then [] else list
    }

    function String(): string {
      Join(Elems(), ',')
    }

    predicate IsEqual(target: Topic) {
      String() == target.String()
    }

    predicate ContainsTag(target: Tag) {
      target in Elems()
    }

    /** Every tag of this topic occurs in `subtopic`. */
    predicate ContainsTopic(subtopic: Topic) {
      forall tag | tag in Elems() :: subtopic.ContainsTag(tag)
    }

    /** A copied slice is never nil. */
    function Copy(): Topic {
      Tags(Elems())
    }

    predicate IsValid() {
      NilTopic? || (1 <= |list| <= MAX_TOPIC_CAPACITY && Distinct(list) && AllTagsValid(list))
    }

    /** The topic has exactly these tags, in whatever order. */
    predicate HasTags(tags: set<Tag>) {
      Includes(tags) && forall tag | tag in Elems() :: tag in tags
    }

    predicate Includes(tags: set<Tag>) {
      forall tag | tag in tags :: tag in Elems()
    }
  }

  predicate IsTagChar(c: char) {
    'a' <= c <= 'z' || '0' <= c <= '9' || c == '_'
  }

  predicate IsTagValid(tag: Tag) {
    1 <= |tag| <= MAX_TAG_LEN && forall c | c in tag :: IsTagChar(c)
  }

  predicate AllTagsValid(tags: seq<Tag>) {
    forall tag | tag in tags :: IsTagValid(tag)
  }

  /** The validity scan: one pass over the tags with the set of tags already seen. */
  method CheckValid(t: Topic) returns (valid: bool)
    ensures valid == t.IsValid()
  {
    if t.Tags? && |t.list| == 0 {
      return false;
    }
    var tags := t.Elems();
    if |tags| > MAX_TOPIC_CAPACITY {
      return false;
    }
    var seen: set<Tag> := {};
    for i := 0 to |tags|
      invariant seen == set tag | tag in tags[..i]
      invariant Distinct(tags[..i]) && AllTagsValid(tags[..i])
    {
      assert tags[..i + 1] == tags[..i] + [tags[i]];
      if tags[i] in seen {
        var j :| 0 <= j < i && tags[j] == tags[i];
        return false;
      }
      seen := seen + {tags[i]};
      if !IsTagValid(tags[i]) {
        assert tags[i] in tags;
        return false;
      }
    }
    assert tags[..|tags|] == tags;
    return true;
  }

  /** Parses a topic; an invalid one is refused. The empty string is the nil topic. */
  function NewTopic(str: string): Option<Topic> {
    if str == "" then Some(NilTopic)
    else
      var t := Tags(Split(str, ','));
      if t.IsValid() then Some(t) else None
  }

  /** Valid tags contain neither the topic separator nor a line break. */
  lemma ValidTagHasNoSeparator(tag: Tag)
    requires IsTagValid(tag)
    ensures ',' !in tag && '\n' !in tag && '\r' !in tag && tag != ""
  {
  }

  lemma {:induction false} ValidTopicStringHasNoLineBreak(tags: seq<Tag>)
    requires AllTagsValid(tags)
    ensures '\n' !in Join(tags, ',') && '\r' !in Join(tags, ',')
    ensures tags != [] ==> Join(tags, ',') != ""
  {
    if tags != [] {
      ValidTagHasNoSeparator(tags[0]);
      ValidTopicStringHasNoLineBreak(tags[1..]);
    }
  }

  /** Parsing the string of a topic gives the topic back. */
  lemma TopicRoundTrip(t: Topic)
    requires t.IsValid()
    ensures NewTopic(t.String()) == Some(t)
  {
    if t.Tags? {
      ValidTopicStringHasNoLineBreak(t.list);
      forall tag | tag in t.list ensures ',' !in tag {
        ValidTagHasNoSeparator(tag);
      }
      SplitJoin(t.list, ',');
    }
  }

  /** The format: tags separated by commas, in their order. */
  lemma TopicFormat(a: Tag, b: Tag)
    requires IsTagValid(a) && IsTagValid(b) && a != b
    ensures NewTopic(a + "," + b) == Some(Tags([a, b])) && Tags([a, b]).String() == a + "," + b
    ensures NewTopic(a + "," + a) == None && NewTopic(a + ",") == None
  {
    ValidTagHasNoSeparator(a);
    ValidTagHasNoSeparator(b);
    JoinTwo(a, b);
    JoinTwo(a, a);
    JoinTwo(a, "");
    assert Tags([a, b]).IsValid();
    TopicRoundTrip(Tags([a, b]));
    SplitJoin([a, a], ',');
    SplitJoin([a, ""], ',');
    assert [a, a][0] == [a, a][1] && !IsTagValid("") && "" in [a, ""];
    assert a + "," + "" == a + ",";
  }

  lemma JoinTwo(a: string, b: string)
    ensures Join([a, b], ',') == a + "," + b
  {
    assert [a, b][1..] == [b];
  }

  /** The other direction: whatever `NewTopic` accepts is valid and prints as the parsed string. */
  lemma TopicParseRoundTrip(str: string)
    requires NewTopic(str).Some?
    ensures NewTopic(str).value.IsValid()
    ensures NewTopic(str).value.String() == str
  {
    if str != "" {
      JoinSplit(str, ',');
    }
  }

  /** Topics are compared as strings; on lists of valid tags that is equality of the lists. */
  lemma StringDeterminesTags(a: Topic, b: Topic)
    requires AllTagsValid(a.Elems()) && AllTagsValid(b.Elems())
    requires a.IsEqual(b)
    ensures a.Elems() == b.Elems()
  {
    var x, y := a.Elems(), b.Elems();
    ValidTopicStringHasNoLineBreak(x);
    ValidTopicStringHasNoLineBreak(y);
    if x != [] {
      forall tag | tag in x + y ensures ',' !in tag {
        ValidTagHasNoSeparator(tag);
      }
      SplitJoin(x, ',');
      SplitJoin(y, ',');
    }
  }

  lemma ContainsTopicTransitive(a: Topic, b: Topic, c: Topic)
    requires a.ContainsTopic(b) && b.ContainsTopic(c)
    ensures a.ContainsTopic(c)
  {
  }

  /** The index of the first occurrence of `target`, or the length. */
  function FirstIndex(tags: seq<Tag>, target: Tag): (i: nat)
    ensures i <= |tags|
    ensures i < |tags| ==> tags[i] == target
    ensures forall j | 0 <= j < i :: tags[j] != target
  {
    if tags == [] || tags[0] == target then 0 else 1 + FirstIndex(tags[1..], target)
  }

  /** The list with the first `target` replaced by the last tag and the last place cut off. */
  function Removed(tags: seq<Tag>, target: Tag): seq<Tag>
    requires target in tags
  {
    var last := |tags| - 1;
    tags[FirstIndex(tags, target) := tags[last]][..last]
  }

  /** Swap-with-last removal in a copy of the topic. `None` is the error NoSuchTag. */
  method Remove(t: Topic, target: Tag) returns (res: Option<Topic>)
    ensures res.None? <==> !t.ContainsTag(target)
    ensures t.ContainsTag(target) ==> res == Some(Tags(Removed(t.Elems(), target)))
  {
    var tags := t.Copy().list;
    for i := 0 to |tags|
      invariant forall j | 0 <= j < i :: tags[j] != target
    {
      if tags[i] == target {
        assert i == FirstIndex(tags, target);
        tags := tags[|tags| - 1 := tags[i]][i := tags[|tags| - 1]];
        tags := tags[..|tags| - 1];
        return Some(Tags(tags));
      }
    }
    return None;
  }

  /** Exactly one occurrence of the tag disappears, though the order of the others may change. */
  lemma RemovedIsOneLess(tags: seq<Tag>, target: Tag)
    requires target in tags
    ensures |Removed(tags, target)| == |tags| - 1
    ensures multiset(Removed(tags, target)) == multiset(tags) - multiset{target}
  {
    var i, last := FirstIndex(tags, target), |tags| - 1;
    var swapped := tags[i := tags[last]][last := target];
    assert multiset(swapped) == multiset(tags);
    assert swapped == swapped[..last] + [target];
    assert swapped[..last] == Removed(tags, target);
  }
}
