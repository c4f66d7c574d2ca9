/** The owner's settings: two tables of the profile database, each behind a cache that is dropped
    before every write and refilled by the next read. */
module Profiles {
  import opened Lists
  import opened Topics
  import opened Subscriptions
  import opened Entities

  datatype Status = Fine | AlreadyModerator | ForbiddenOperation | NoSuchModerator | AlreadySubscribed | NotSubscribed

  function Deleted<T(==)>(table: seq<T>, x: T): seq<T> {
    if table == [] then []
    else if table[0] == x then table[1..]
    else [table[0]] + Deleted(table[1..], x)
  }

  /** Deleting the row of a key removes it and nothing else, in a table without repetitions. */
  lemma {:induction false} DeletedRemoves<T>(table: seq<T>, x: T)
    requires Distinct(table)
    ensures Distinct(Deleted(table, x))
    ensures forall y :: y in Deleted(table, x) <==> y in table && y != x
  {
    if table != [] {
      DeletedRemoves(table[1..], x);
      if table[0] != x {
        var rest := Deleted(table[1..], x);
        assert table[0] !in table[1..];
        assert Distinct([table[0]] + rest);
      }
    }
  }

  /** The rows of the subscription table, parsed; a row that does not parse halts the program. */
  function Parsed(table: seq<string>): Option<Subs> {
    if table == [] then Some([])
    else
      var last := |table| - 1;
      match Parsed(table[..last])
      case None => None
      case Some(s) =>
        match NewTopic(table[last])
        case None => None
        case Some(t) => Some(AddTopic(s, t))
  }

  function CopyUpTo(s: Subs, n: nat): Subs
    requires n <= |s|
  {
    if n == 0 then [] else AddTopic(CopyUpTo(s, n - 1), s[n - 1].Copy())
  }

  /** Every operation keeps `Valid`, so after any run of them the moderator list that is read is the
      table and the owner, and the subscriptions that are read are what the table's rows parse to. */
  class Profile {
    const selfID: ID
    var moderatorTable: seq<ID>
    var subscriptionTable: seq<string>
    var moderators: seq<ID>
    var subs: Subs

    /** An empty list stands for the nil cache. */
    ghost predicate Valid()
      reads this
    {
      && Distinct(moderatorTable) && selfID !in moderatorTable && Distinct(subscriptionTable)
      && (moderators == [] || moderators == moderatorTable + [selfID])
      && (subs == [] || Parsed(subscriptionTable) == Some(subs))
    }

    /** The owner is always among the moderators. */
    ghost function Moderators(): set<ID>
      reads this`moderatorTable
    {
      {selfID} + set id | id in moderatorTable
    }

    constructor (selfID: ID)
      ensures Valid() && this.selfID == selfID && Moderators() == {selfID} && subscriptionTable == []
    {
      this.selfID := selfID;
      moderatorTable, subscriptionTable, moderators, subs := [], [], [], [];
    }

    method PutModerator(id: ID) returns (status: Status)
      requires Valid()
      modifies this`moderatorTable, this`moderators
      ensures Valid() && Moderators() == old(Moderators()) + {id}
      ensures status == if id in old(Moderators()) then AlreadyModerator else Fine
    {
      if id == selfID {
        return AlreadyModerator;
      }
      moderators := [];
      if id in moderatorTable {
        return AlreadyModerator;
      }
      moderatorTable := moderatorTable + [id];
      return Fine;
    }

    method RemoveModerator(id: ID) returns (status: Status)
      requires Valid()
      modifies this`moderatorTable, this`moderators
      ensures Valid()
      ensures Moderators() == if id == selfID then old(Moderators()) else old(Moderators()) - {id}
      ensures status == if id == selfID then ForbiddenOperation
                        else if id in old(Moderators()) then Fine else NoSuchModerator
    {
      if id == selfID {
        return ForbiddenOperation;
      }
      moderators := [];
      DeletedRemoves(moderatorTable, id);
      var found := id in moderatorTable;
      moderatorTable := Deleted(moderatorTable, id);
      return if found then Fine else NoSuchModerator;
    }

    method GetModerators() returns (res: seq<ID>)
      requires Valid()
      modifies this`moderators
      ensures Valid() && moderators == res == moderatorTable + [selfID]
    {
      if moderators == [] {
        moderators := moderatorTable;
        moderators := moderators + [selfID];
      }
      return moderators;
    }

    method HasModerator(id: ID) returns (has: bool)
      requires Valid()
      modifies this`moderators
      ensures Valid()
      ensures has <==> id in Moderators()
    {
      if id == selfID {
        return true;
      }
      var mm := GetModerators();
      for i := 0 to |mm|
        invariant id !in mm[..i]
      {
        if mm[i] == id {
          return true;
        }
        assert mm[..i + 1] == mm[..i] + [mm[i]];
      }
      assert mm[..|mm|] == mm;
      return false;
    }

    method PutSubscription(t: Topic) returns (status: Status)
      requires Valid()
      modifies this`subscriptionTable, this`subs
      ensures Valid()
      ensures subscriptionTable ==
              old(subscriptionTable) + if t.String() in old(subscriptionTable) then [] else [t.String()]
      ensures status == if t.String() in old(subscriptionTable) then AlreadySubscribed else Fine
    {
      subs := [];
      if t.String() in subscriptionTable {
        return AlreadySubscribed;
      }
      subscriptionTable := subscriptionTable + [t.String()];
      return Fine;
    }

    method RemoveSubscription(t: Topic) returns (status: Status)
      requires Valid()
      modifies this`subscriptionTable, this`subs
      ensures Valid() && subscriptionTable == Deleted(old(subscriptionTable), t.String())
      ensures status == if t.String() in old(subscriptionTable) then Fine else NotSubscribed
    {
      subs := [];
      DeletedRemoves(subscriptionTable, t.String());
      var found := t.String() in subscriptionTable;
      subscriptionTable := Deleted(subscriptionTable, t.String());
      return if found then Fine else NotSubscribed;
    }

    /** A copy of the parsed table, or `None` for the halt on a malformed row. */
    method GetSubscriptions() returns (res: Option<Subs>)
      requires Valid()
      modifies this`subs
      ensures Valid()
      ensures match Parsed(subscriptionTable)
              case None => res == None
              case Some(s) => res == Some(CopyUpTo(s, |s|))
    {
      if subs == [] {
        var parsed := Parsed(subscriptionTable);
        if parsed.None? {
          return None;
        }
        subs := parsed.value;
      }
      var copy: Subs := [];
      for i := 0 to |subs|
        invariant copy == CopyUpTo(subs, i)
      {
        copy := AddTopic(copy, subs[i].Copy());
      }
      return Some(copy);
    }
  }

  /** What the table's rows parse to is valid and prints as rows of the table. */
  lemma {:induction false} ParsedIsValid(table: seq<string>)
    requires Parsed(table).Some?
    ensures AllValid(Parsed(table).value)
    ensures forall t | t in Parsed(table).value :: t.String() in table
  {
    if table != [] {
      var last := |table| - 1;
      ParsedIsValid(table[..last]);
      TopicParseRoundTrip(table[last]);
      assert table == table[..last] + [table[last]];
      var s, t := Parsed(table[..last]).value, NewTopic(table[last]).value;
      forall x | x in AddTopic(s, t)
        ensures x.String() in table
      {
        assert x in s || x == t;
      }
    }
  }

  /** The table is read row by row: it parses if every row does, and then to the topics of its rows. */
  lemma {:induction false} ParsedExactly(table: seq<string>)
    ensures Parsed(table) == if forall row | row in table :: NewTopic(row).Some? then Some(FirstValid(table)) else None
  {
    if table != [] {
      var init, last := table[..|table| - 1], table[|table| - 1];
      ParsedExactly(init);
      assert table == init + [last];
      if Parsed(init).Some? && NewTopic(last).Some? {
        FirstValidMembers(init);
        TopicParseRoundTrip(last);
        ContainsValid(FirstValid(init), NewTopic(last).value);
      }
    }
  }

  /** Different rows are different topics, so each row of the table is there, in the order of the table. */
  lemma {:induction false} RowsAreKept(table: seq<string>)
    requires Distinct(table) && forall row | row in table :: NewTopic(row).Some?
    ensures TopicStrings(FirstValid(table)) == table
  {
    if table != [] {
      var init, last := table[..|table| - 1], table[|table| - 1];
      assert table == init + [last];
      RowsAreKept(init);
      var r, t := FirstValid(init), NewTopic(last).value;
      TopicParseRoundTrip(last);
      forall i | 0 <= i < |r|
        ensures r[i] != t
      {
        assert r[i].String() == TopicStrings(r)[i] == table[i] != last;
      }
    }
  }

  /** What the owner's subscriptions are: the rows of the table, read back, copied, and printed again, are
      the rows of the table. */
  lemma SubscriptionsAreTheTable(table: seq<string>)
    requires Distinct(table) && Parsed(table).Some?
    ensures var s := Parsed(table).value; TopicStrings(s) == table && TopicStrings(CopyUpTo(s, |s|)) == table
  {
    ParsedExactly(table);
    RowsAreKept(table);
    FirstValidMembers(table);
    CopyInOrder(FirstValid(table), |table|);
  }

  lemma {:induction false} CopyInOrder(s: Subs, n: nat)
    requires n <= |s| && AllValid(s) && Distinct(s)
    ensures |CopyUpTo(s, n)| == n && forall i | 0 <= i < n :: CopyUpTo(s, n)[i] == s[i].Copy()
  {
    if n > 0 {
      CopyInOrder(s, n - 1);
      var r, t := CopyUpTo(s, n - 1), s[n - 1].Copy();
      forall i | 0 <= i < |r|
        ensures !r[i].IsEqual(t)
      {
        CopiesDiffer(s[i], s[n - 1]);
      }
      assert !Contains(r, t);
      assert CopyUpTo(s, n) == r + [t];
    }
  }

  lemma CopiesDiffer(a: Topic, b: Topic)
    requires a.IsValid() && b.IsValid() && a != b
    ensures !a.Copy().IsEqual(b.Copy())
  {
    if a.Copy().IsEqual(b.Copy()) {
      StringDeterminesTags(a.Copy(), b.Copy());
    }
  }

  lemma {:induction false} CopyMembers(s: Subs, n: nat)
    requires n <= |s|
    ensures forall c | c in CopyUpTo(s, n) :: c.Tags? && exists i | 0 <= i < n :: c == s[i].Copy()
  {
    if n > 0 {
      CopyMembers(s, n - 1);
    }
  }

  lemma {:induction false} CopyCovers(s: Subs, n: nat, i: nat)
    requires i < n <= |s| && AllValid(s)
    ensures exists c | c in CopyUpTo(s, n) :: c.Elems() == s[i].Elems()
  {
    var r, t := CopyUpTo(s, n - 1), s[n - 1].Copy();
    if i < n - 1 {
      CopyCovers(s, n - 1, i);
      var c :| c in r && c.Elems() == s[i].Elems();
      assert c in AddTopic(r, t);
    } else if Contains(r, t) {
      CopyMembers(s, n - 1);
      var k :| 0 <= k < |r| && r[k].IsEqual(t);
      assert r[k] in r;
      var j :| 0 <= j < n - 1 && r[k] == s[j].Copy();
      StringDeterminesTags(r[k], t);
    } else {
      assert t in AddTopic(r, t);
    }
  }

  /** Copying turns the nil topic into an empty one, which is not valid: the subscriptions a node
      introduces itself with are all valid exactly when none of them is the nil topic. */
  lemma HelloIsValidExactly(s: Subs)
    requires AllValid(s)
    ensures AllValid(CopyUpTo(s, |s|)) <==> forall i | 0 <= i < |s| :: s[i].Tags?
  {
    var r := CopyUpTo(s, |s|);
    CopyMembers(s, |s|);
    if i :| 0 <= i < |s| && s[i].NilTopic? {
      CopyCovers(s, |s|, i);
      var c :| c in r && c.Elems() == s[i].Elems();
      assert c.Tags? && c.list == [];
      var k :| 0 <= k < |r| && r[k] == c;
      assert !r[k].IsValid();
    } else {
      forall k | 0 <= k < |r|
        ensures r[k].IsValid()
      {
        assert r[k] in r;
        var i :| 0 <= i < |s| && r[k] == s[i].Copy();
        assert s[i].IsValid() && s[i].Tags?;
      }
    }
  }

  /** So which tables make a valid Hello, and thus let the node complete a handshake: those with one to
      thirty-two rows, all of which are read, and none of them empty. */
  lemma HelloOfTableExactly(table: seq<string>)
    requires Distinct(table) && Parsed(table).Some?
    ensures var s := Parsed(table).value;
            Subscriptions.IsValid(CopyUpTo(s, |s|)) <==> 1 <= |table| <= 32 && "" !in table
  {
    var s := Parsed(table).value;
    ParsedExactly(table);
    RowsAreKept(table);
    FirstValidMembers(table);
    CopyInOrder(s, |s|);
    HelloIsValidExactly(s);
    hide CopyUpTo, Parsed, FirstValid;
    assert |s| == |table|;
    forall i | 0 <= i < |s|
      ensures s[i].NilTopic? <==> table[i] == ""
    {
      assert TopicStrings(s)[i] == s[i].String() == table[i];
      if s[i].Tags? { ValidTopicStringHasNoLineBreak(s[i].list); }
    }
  }
}
