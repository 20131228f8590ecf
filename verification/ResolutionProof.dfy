/**
 What a resolution returns: only matching topics, all of them when none is delivered
 twice, and a refusal only for the reason it states.
 */
module ResolutionProof {
  import opened Wrappers
  import opened Text
  import opened Topics
  import opened BoundedSearch
  import opened SearchExactness
  import opened Resolution
  import Glob

  /** Redis answers for every address. */
  ghost predicate Complete(delivery: Delivery, addresses: seq<string>) {
    forall i :: 0 <= i < |addresses| ==> addresses[i] in delivery
  }

  /** The whole indexes of the addresses. */
  ghost function Contents(delivery: Delivery, addresses: seq<string>): seq<seq<string>>
    requires Complete(delivery, addresses)
  {
    if addresses == [] then []
    else Contents(delivery, addresses[..|addresses| - 1]) + [Members(delivery[addresses[|addresses| - 1]])]
  }

  lemma {:induction false} CompleteIndexes(delivery: Delivery, addresses: seq<string>)
    requires Complete(delivery, addresses)
    ensures Indexes(delivery, addresses) == AllRead(Contents(delivery, addresses))
    decreases |addresses|
  {
    if addresses != [] {
      CompleteIndexes(delivery, addresses[..|addresses| - 1]);
    }
  }

  lemma {:induction false} EachIndex(delivery: Delivery, addresses: seq<string>)
    ensures |Indexes(delivery, addresses)| == |addresses|
    ensures forall i :: 0 <= i < |addresses| ==> Indexes(delivery, addresses)[i] == Index(delivery, addresses[i])
    decreases |addresses|
  {
    if addresses != [] {
      var init := addresses[..|addresses| - 1];
      EachIndex(delivery, init);
    }
  }

  /** A search that succeeds has read every index. */
  lemma SuccessIsComplete(delivery: Delivery, f: StateMulti)
    requires Gather(Table(f), Indexes(delivery, f.addresses), MAX).Ok?
    ensures Complete(delivery, f.addresses)
  {
    SuccessHasReadAll(Table(f), Indexes(delivery, f.addresses), MAX);
    EachIndex(delivery, f.addresses);
    forall i | 0 <= i < |f.addresses| ensures f.addresses[i] in delivery {
      assert Indexes(delivery, f.addresses)[i] == Index(delivery, f.addresses[i]);
    }
  }

  /** What a filter keeps: members that are concrete state topics of a listed address, with a key that some pattern denotes. */
  lemma TableMeaning(f: StateMulti, member: string, t: Topic)
    ensures member in Table(f) && Table(f)[member] == t
       <==> exists s :: && ParseStr(member) == Some(t)
                        && t == SingleUri(s) && PathSegment(s.address) && PathSegment(s.key)
                        && s.address in f.addresses && exists p :: p in f.keyPatterns && Glob.Denotes(p, s.key)
  {
    forall s ensures AsStateSingle(t) == Some(s) <==> t == SingleUri(s) && PathSegment(s.address) && PathSegment(s.key) {
      SingleRoundTrip(t, s);
    }
    if ParseStr(member) == Some(t) {
      ParsesIff(member);
    }
  }

  /** Every topic a filter matches in the indexes, and the size of the indexes. */
  ghost function AllMatching(delivery: Delivery, f: StateMulti): seq<Topic>
    requires Complete(delivery, f.addresses)
  {
    Matching(Table(f), Contents(delivery, f.addresses))
  }

  ghost function IndexSize(delivery: Delivery, f: StateMulti): nat
    requires Complete(delivery, f.addresses)
  {
    Total(Contents(delivery, f.addresses))
  }

  /** Whatever the scans deliver, a success has only matching topics, none twice, within the bound. */
  lemma ResolvedTopicsMatch(delivery: Delivery, f: StateMulti)
    requires Resolve(delivery, f).Ok?
    ensures Complete(delivery, f.addresses)
    ensures |Resolve(delivery, f).value| <= MAX_SUBTOPICS
    ensures Among(Resolve(delivery, f).value, AllMatching(delivery, f))
  {
    SuccessIsComplete(delivery, f);
    CompleteIndexes(delivery, f.addresses);
    FoundTopicsMatch(Table(f), Contents(delivery, f.addresses), MAX);
  }

  ghost predicate FewParts(f: StateMulti) {
    |f.addresses| <= MAX_ADDRESSES && |f.keyPatterns| <= MAX_KEY_PATTERNS
  }

  /** The whole indexes never end the search, walking them with what is left of both budgets. */
  ghost predicate AllAddressesPass(delivery: Delivery, f: StateMulti)
    requires Complete(delivery, f.addresses)
  {
    AllPass(Table(f), Contents(delivery, f.addresses), MAX)
  }

  /** The topics of everything that the walk examines. */
  ghost function SeenTopics(delivery: Delivery, f: StateMulti): seq<Topic>
    requires Complete(delivery, f.addresses)
  {
    TopicsOf(Table(f), Seen(Table(f), Contents(delivery, f.addresses), MAX))
  }

  /** Every topic behind a cut also occurs in a part that was examined. */
  ghost predicate CutsAreCovered(delivery: Delivery, f: StateMulti)
    requires Complete(delivery, f.addresses)
  {
    Covered(Table(f), Contents(delivery, f.addresses), MAX)
  }

  /** Exactly when a resolution succeeds, and exactly what it then returns. */
  lemma ResolutionSucceedsIff(delivery: Delivery, f: StateMulti)
    requires Complete(delivery, f.addresses)
    ensures Resolve(delivery, f).Ok? <==> FewParts(f) && AllAddressesPass(delivery, f)
    ensures Resolve(delivery, f).Ok? ==> Resolve(delivery, f).value == AddAll([], SeenTopics(delivery, f))
  {
    CompleteIndexes(delivery, f.addresses);
    SearchIsWalk(Table(f), Contents(delivery, f.addresses), MAX);
  }

  /**
   Exactly when a resolution keeps its promise, whatever is delivered and however often:
   each address's kept members fit, or those at the cut repeat a topic and every topic
   behind the cut occurs in a part that was examined.
   */
  lemma ResolutionIsCompleteIff(delivery: Delivery, f: StateMulti)
    requires Complete(delivery, f.addresses)
    ensures (&& Resolve(delivery, f).Ok?
             && forall t :: t in AllMatching(delivery, f) ==> t in Resolve(delivery, f).value)
       <==> FewParts(f) && AllAddressesPass(delivery, f) && CutsAreCovered(delivery, f)
  {
    CompleteIndexes(delivery, f.addresses);
    CompleteIff(Table(f), Contents(delivery, f.addresses), MAX);
  }

  /** Within the limits, counted with repetitions, a resolution returns every matching topic. */
  lemma WithinLimitsAllIsReturned(delivery: Delivery, f: StateMulti)
    requires Complete(delivery, f.addresses) && FewParts(f)
    requires IndexSize(delivery, f) <= MAX_INDEX_MEMBERS && |AllMatching(delivery, f)| <= MAX_SUBTOPICS
    ensures Resolve(delivery, f) == Ok(AddAll([], AllMatching(delivery, f)))
    ensures forall t :: t in AllMatching(delivery, f) ==> t in Resolve(delivery, f).value
  {
    CompleteIndexes(delivery, f.addresses);
    WithinLimitsIsComplete(Table(f), Contents(delivery, f.addresses), MAX);
  }

  /**
   When no topic is delivered twice, a resolution succeeds exactly within the
   documented limits, and then returns every matching topic.
   */
  lemma ResolutionIsExact(delivery: Delivery, f: StateMulti)
    requires Complete(delivery, f.addresses) && Distinct(AllMatching(delivery, f))
    ensures Resolve(delivery, f).Ok? <==>
              && FewParts(f)
              && IndexSize(delivery, f) <= MAX_INDEX_MEMBERS
              && |AllMatching(delivery, f)| <= MAX_SUBTOPICS
    ensures Resolve(delivery, f).Ok? ==> Resolve(delivery, f).value == AllMatching(delivery, f)
  {
    CompleteIndexes(delivery, f.addresses);
    SearchIsExact(Table(f), Contents(delivery, f.addresses), MAX);
  }

  /** Whatever the scans deliver, a refusal is for the reason that it states. */
  lemma RefusalHasItsReason(delivery: Delivery, f: StateMulti)
    requires Complete(delivery, f.addresses) && Resolve(delivery, f).Err?
    ensures match Resolve(delivery, f).error
            case TooManyParts => |f.addresses| > MAX_ADDRESSES || |f.keyPatterns| > MAX_KEY_PATTERNS
            case Refused(e) => Justified(e, AllMatching(delivery, f), IndexSize(delivery, f))
  {
    if Resolve(delivery, f).error.Refused? {
      CompleteIndexes(delivery, f.addresses);
      RefusalReason(Table(f), Contents(delivery, f.addresses));
    }
  }

  /** The addresses up to the first for which Redis does not answer. */
  lemma {:induction false} AnsweredFront(delivery: Delivery, addresses: seq<string>) returns (n: nat)
    ensures n <= |addresses| && Complete(delivery, addresses[..n])
    ensures n < |addresses| ==> addresses[n] !in delivery
    decreases |addresses|
  {
    n := 0;
    if addresses != [] {
      var init := addresses[..|addresses| - 1];
      n := AnsweredFront(delivery, init);
      assert addresses[..n] == init[..n];
      if n == |init| && addresses[n] in delivery {
        n := n + 1;
        assert addresses[..n] == addresses;
      }
    }
  }

  /**
   A failed resolution, also when Redis does not answer for some address: a limit is exceeded
   by what it answered before, or the failure is that address.
   */
  lemma FailureHasItsReason(delivery: Delivery, f: StateMulti) returns (n: nat)
    requires Resolve(delivery, f).Err?
    ensures n <= |f.addresses| && Complete(delivery, f.addresses[..n])
    ensures n < |f.addresses| ==> f.addresses[n] !in delivery
    ensures match Resolve(delivery, f).error
            case TooManyParts => |f.addresses| > MAX_ADDRESSES || |f.keyPatterns| > MAX_KEY_PATTERNS
            case Refused(e) =>
              var read := Contents(delivery, f.addresses[..n]);
              if e.SourceFailure? then n < |f.addresses| else Justified(e, Matching(Table(f), read), Total(read))
  {
    n := AnsweredFront(delivery, f.addresses);
    if Resolve(delivery, f).error.Refused? {
      FrontIsRead(delivery, f.addresses, n);
      FailsAt(Table(f), Indexes(delivery, f.addresses), Contents(delivery, f.addresses[..n]), MAX);
    }
  }

  lemma FrontIsRead(delivery: Delivery, addresses: seq<string>, n: nat)
    requires n <= |addresses| && Complete(delivery, addresses[..n])
    requires n < |addresses| ==> addresses[n] !in delivery
    ensures var indexes, read := Indexes(delivery, addresses), Contents(delivery, addresses[..n]);
            && |indexes| == |addresses| && |read| == n && indexes[..n] == AllRead(read)
            && (n < |indexes| ==> indexes[n].None?)
  {
    CompleteIndexes(delivery, addresses[..n]);
    EachIndex(delivery, addresses);
    EachIndex(delivery, addresses[..n]);
    ContentsCount(delivery, addresses[..n]);
    assert Indexes(delivery, addresses)[..n] == Indexes(delivery, addresses[..n]);
  }

  lemma {:induction false} ContentsCount(delivery: Delivery, addresses: seq<string>)
    requires Complete(delivery, addresses)
    ensures |Contents(delivery, addresses)| == |addresses|
    decreases |addresses|
  {
    if addresses != [] {
      ContentsCount(delivery, addresses[..|addresses| - 1]);
    }
  }

  ghost predicate Justified<T(!new)>(e: SearchError, matching: seq<T>, total: nat) {
    match e
    case TooManyKeys => TooManyMatch(matching, MAX)
    case TooManyMembers => total > MAX_INDEX_MEMBERS
    case SourceFailure => false
  }

  lemma RefusalReason<M, T(!new)>(table: imap<M, T>, indexes: seq<seq<M>>)
    requires Gather(table, AllRead(indexes), MAX).Err?
    ensures Justified(Gather(table, AllRead(indexes), MAX).error, Matching(table, indexes), Total(indexes))
  {
    RefusalIsJustified(table, indexes, MAX);
  }

  // ----- A successful resolution that omits a topic -----

  ghost function Ks(n: nat): (s: string)
    ensures |s| == n && IsAscii(s)
    ensures '/' !in s && '?' !in s
  {
    if n == 0 then [] else Ks(n - 1) + ['k']
  }

  ghost function Entry(i: nat): string {
    SingleUri(StateSingle("A", Ks(i + 1)))
  }

  ghost const EVERY_KEY_OF_A := StateMulti(["A"], ["*"])

  lemma StarDenotesAll(t: string)
    ensures Glob.Denotes("*", t)
  {
    assert t + Glob.Fill([], []) == t;
    assert "*"[1..] == [];
    assert Glob.FillsTo("*", [t], t);
  }

  lemma EntryIsKept(i: nat)
    ensures Entry(i) in Table(EVERY_KEY_OF_A) && Table(EVERY_KEY_OF_A)[Entry(i)] == Entry(i)
    ensures |Entry(i)| == |SINGLE_PREFIX| + 3 + i
  {
    AsciiSingleParses(StateSingle("A", Ks(i + 1)));
    StarDenotesAll(Ks(i + 1));
    assert EVERY_KEY_OF_A.keyPatterns[0] == "*";
  }

  /** Key 0 twice, then keys 1, 2, 3, ... */
  ghost function Entries(n: nat): (s: seq<string>)
    ensures |s| == n
  {
    if n == 0 then [] else Entries(n - 1) + [Entry(if n == 1 then 0 else n - 2)]
  }

  lemma {:induction false} EntriesAreKept(n: nat)
    ensures forall m :: m in Entries(n) ==> m in Table(EVERY_KEY_OF_A)
    ensures TopicsOf(Table(EVERY_KEY_OF_A), Entries(n)) == Entries(n)
  {
    if n > 0 {
      var last := Entry(if n == 1 then 0 else n - 2);
      EntriesAreKept(n - 1);
      EntryIsKept(if n == 1 then 0 else n - 2);
      TopicsOfSnoc(Table(EVERY_KEY_OF_A), Entries(n - 1), last);
    }
  }

  lemma {:induction false} EntriesRepeatOne(n: nat)
    requires n >= 2
    ensures !Distinct(Entries(n))
  {
    if n == 2 {
      assert Entries(1) == [] + [Entry(0)];
      DistinctSnoc(Entries(1), Entry(0));
    } else {
      EntriesRepeatOne(n - 1);
      DistinctSnoc(Entries(n - 1), Entry(n - 2));
    }
  }

  lemma {:induction false} EntriesAreShort(n: nat, m: string)
    requires n >= 2 && m in Entries(n)
    ensures |m| < |SINGLE_PREFIX| + 2 + n
  {
    EntryIsKept(0);
    EntryIsKept(n - 2);
    if m != Entry(n - 2) && n > 2 {
      assert m in Entries(n - 1);
      EntriesAreShort(n - 1, m);
    }
  }

  lemma NextEntryIsNew(n: nat)
    requires n >= 2
    ensures Entry(n - 1) in Entries(n + 1) && Entry(n - 1) !in Entries(n)
  {
    EntryIsKept(n - 1);
    if Entry(n - 1) in Entries(n) {
      EntriesAreShort(n, Entry(n - 1));
    }
    assert Entries(n + 1)[n] == Entry(n - 1);
  }

  ghost predicate OmitsTopic(delivery: Delivery, f: StateMulti, t: Topic) {
    && Complete(delivery, f.addresses)
    && Resolve(delivery, f).Ok?
    && t in AllMatching(delivery, f)
    && t !in Resolve(delivery, f).value
  }

  /** A topic is omitted iff the resolution succeeds and the topic occurs behind a cut only. */
  lemma OmitsIff(delivery: Delivery, f: StateMulti, t: Topic)
    requires Complete(delivery, f.addresses)
    ensures OmitsTopic(delivery, f, t)
       <==> && FewParts(f) && AllAddressesPass(delivery, f)
            && t in AllMatching(delivery, f) && t !in SeenTopics(delivery, f)
  {
    ResolutionSucceedsIff(delivery, f);
    var found := AddAllMembers([], SeenTopics(delivery, f));
  }

  lemma OneContent(delivery: Delivery, addresses: seq<string>)
    requires |addresses| == 1 && Complete(delivery, addresses)
    ensures Contents(delivery, addresses) == [Members(delivery[addresses[0]])]
  {
    assert addresses[..0] == [];
  }

  lemma OneMatching<M, T>(table: imap<M, T>, members: seq<M>)
    ensures Matching(table, [members]) == TopicsOf(table, members)
  {
    assert [members][..0] == [];
  }

  /**
   One address with more members kept than the limit: the resolution succeeds iff the
   first 1001 repeat a topic, and then omits exactly the topics that occur after them only.
   */
  lemma RepetitionOmits(delivery: Delivery, f: StateMulti, front: seq<string>, rest: seq<string>)
    requires |f.addresses| == 1 && FewParts(f) && Complete(delivery, f.addresses)
    requires Members(delivery[f.addresses[0]]) == front + rest
    requires |front| == MAX_SUBTOPICS + 1 && forall m :: m in front ==> m in Table(f)
    ensures Resolve(delivery, f).Ok? <==> !Distinct(TopicsOf(Table(f), front))
    ensures Resolve(delivery, f).Ok? ==>
              forall t :: OmitsTopic(delivery, f, t)
                <==> t in TopicsOf(Table(f), rest) && t !in TopicsOf(Table(f), front)
  {
    OneContent(delivery, f.addresses);
    OneMatching(Table(f), front + rest);
    OneIndexWalk(Table(f), front + rest, MAX);
    CutAfter(Table(f), front, rest, MAX);
    TopicsOfConcat(Table(f), front, rest);
    ResolutionSucceedsIff(delivery, f);
    forall t
      ensures OmitsTopic(delivery, f, t)
         <==> (Resolve(delivery, f).Ok? && t in TopicsOf(Table(f), rest) && t !in TopicsOf(Table(f), front))
    {
      OmitsIff(delivery, f, t);
    }
  }

  /** 1001 keys, the first delivered twice, and one more key. */
  lemma RepeatedEntries() returns (f: StateMulti, front: seq<string>, last: string)
    ensures |f.addresses| == 1 && FewParts(f)
    ensures |front| == MAX_SUBTOPICS + 1
    ensures (forall m :: m in front ==> m in Table(f)) && !Distinct(TopicsOf(Table(f), front))
    ensures last in Table(f) && Table(f)[last] !in TopicsOf(Table(f), front)
  {
    var n := MAX_SUBTOPICS + 1;
    EntriesAreKept(n);
    EntriesRepeatOne(n);
    NextEntryIsNew(n);
    EntryIsKept(n - 1);
    f, front, last := EVERY_KEY_OF_A, Entries(n), Entry(n - 1);
  }

  lemma OnePage(members: seq<string>)
    ensures Members([Page(members)]) == members
  {
    assert [Page(members)][..0] == [];
  }

  /** So the resolution of a multi-topic may succeed and omit a topic. */
  lemma ResolutionMayOmitATopic()
    ensures exists delivery: Delivery, f: StateMulti, t: Topic :: OmitsTopic(delivery, f, t)
  {
    var f, front, last := RepeatedEntries();
    var delivery := DeliveredAtOnce(f, front + [last]);
    LastIsOmitted(delivery, f, front, last);
    assert OmitsTopic(delivery, f, Table(f)[last]);
  }

  lemma DeliveredAtOnce(f: StateMulti, members: seq<string>) returns (delivery: Delivery)
    requires |f.addresses| == 1
    ensures Complete(delivery, f.addresses) && Members(delivery[f.addresses[0]]) == members
  {
    delivery := map[f.addresses[0] := [Page(members)]];
    OnePage(members);
  }

  lemma LastIsOmitted(delivery: Delivery, f: StateMulti, front: seq<string>, last: string)
    requires |f.addresses| == 1 && FewParts(f) && Complete(delivery, f.addresses)
    requires Members(delivery[f.addresses[0]]) == front + [last]
    requires |front| == MAX_SUBTOPICS + 1 && forall m :: m in front ==> m in Table(f)
    requires !Distinct(TopicsOf(Table(f), front))
    requires last in Table(f) && Table(f)[last] !in TopicsOf(Table(f), front)
    ensures OmitsTopic(delivery, f, Table(f)[last])
  {
    RepetitionOmits(delivery, f, front, [last]);
    LastTopic(Table(f), last);
  }

  lemma LastTopic<M, T>(table: imap<M, T>, last: M)
    requires last in table
    ensures table[last] in TopicsOf(table, [last])
  {
    assert [last][..0] == [];
  }
}
