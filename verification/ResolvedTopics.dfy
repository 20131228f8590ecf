/**
 From the resolution of a multi-topic to the commit of a subscribe
 (apps/websocket-api/src/websocket.rs): what the unlocked phase hands to the commit is
 what the protocol asks for.
 */
module ResolvedTopics {
  import opened Wrappers
  import opened Text
  import opened Topics
  import opened BoundedSearch
  import opened Resolution
  import opened ResolutionProof
  import opened Registry
  import opened Protocol

  /** A canonical URI with what it says. */
  function ParsedOf(uri: Topic): ParsedTopic {
    ParsedTopic(uri, KindOf(uri))
  }

  /** `parse_subtopic_list`: every URI of the resolved list is parsed again. */
  function ParsedList(uris: seq<Topic>): Option<seq<ParsedTopic>> {
    if uris == [] then Some([])
    else
      var before := ParsedList(uris[..|uris| - 1]);
      var last := ParseStr(uris[|uris| - 1]);
      if before.None? || last.None? then None else Some(before.value + [ParsedOf(last.value)])
  }

  /** A canonical URI of a concrete topic that the filter matches. */
  ghost predicate Concrete(f: StateMulti, uri: Topic) {
    && ParseStr(uri) == Some(uri)
    && KindOf(uri).Single? && FilterMatches(f, KindOf(uri).single)
  }

  lemma KeptIsConcrete(f: StateMulti, member: string)
    requires member in Table(f)
    ensures Concrete(f, Table(f)[member])
  {
    ParsedIsCanonical(member);
    SingleIsNotMulti(Table(f)[member]);
  }

  lemma {:induction false} ListIsParsed(f: StateMulti, uris: seq<Topic>) returns (list: seq<ParsedTopic>)
    requires forall u :: u in uris ==> Concrete(f, u)
    ensures ParsedList(uris) == Some(list)
    ensures |list| == |uris| && forall i :: 0 <= i < |uris| ==> list[i].uri == uris[i]
    ensures forall t :: t in list ==> t.kind.Single? && FilterMatches(f, t.kind.single)
  {
    list := [];
    if uris != [] {
      var init, last := FrontMembers(uris);
      list := ListIsParsed(f, init);
      assert Concrete(f, last);
      list := list + [ParsedOf(last)];
    }
  }

  lemma DifferentUris(list: seq<ParsedTopic>, uris: seq<Topic>)
    requires |list| == |uris| && forall i :: 0 <= i < |uris| ==> list[i].uri == uris[i]
    requires Distinct(uris)
    ensures Distinct(list)
  {
    NoneTwice(uris);
    forall i, j | 0 <= i < j < |list| ensures list[i] != list[j] {
      assert list[i].uri == uris[i] && list[j].uri == uris[j];
    }
    NoneTwice(list);
  }

  /** Everything found is a concrete topic that matches. */
  lemma FoundAreConcrete(delivery: Delivery, f: StateMulti)
    requires Resolve(delivery, f).Ok?
    ensures forall u :: u in Resolve(delivery, f).value ==> Concrete(f, u)
  {
    ResolvedTopicsMatch(delivery, f);
    forall u | u in Resolve(delivery, f).value ensures Concrete(f, u) {
      MatchingMember(Table(f), Contents(delivery, f.addresses), u);
      var m :| InSome(Contents(delivery, f.addresses), m) && m in Table(f) && Table(f)[m] == u;
      KeptIsConcrete(f, m);
    }
  }

  /**
   Whatever Redis delivers, a successful resolution is a list that the commit of this
   multi-topic may take: concrete topics that match its filter, at most the permitted
   number, none twice.
   */
  lemma ResolutionMayBeCommitted(delivery: Delivery, t: ParsedTopic) returns (list: seq<ParsedTopic>)
    requires t.kind.Multi? && Resolve(delivery, t.kind.filter).Ok?
    ensures ParsedList(SortDedup(Resolve(delivery, t.kind.filter).value)) == Some(list)
    ensures Resolved(t, list)
    ensures forall s :: s in list ==> FilterMatches(t.kind.filter, s.kind.single)
  {
    var found := Resolve(delivery, t.kind.filter).value;
    var sorted := SortDedup(found);
    FoundAreConcrete(delivery, t.kind.filter);
    ResolvedTopicsMatch(delivery, t.kind.filter);
    SameElements(found);
    SortedIsDistinct(sorted, |sorted|);
    assert sorted[..|sorted|] == sorted;
    DistinctCount(sorted);
    ElemsAtMost(found);
    list := ListIsParsed(t.kind.filter, sorted);
    DifferentUris(list, sorted);
  }
}
