/**
 Resolving a state multi-topic: the per-address index scan
 (apps/websocket-api/src/repo.rs) and the search over the addresses of a filter
 (`resolve_multitopic` in apps/websocket-api/src/websocket.rs).
 */
module Resolution {
  import opened Wrappers
  import opened Text
  import opened Topics
  import opened BoundedSearch

  const MAX_ADDRESSES := 20
  const MAX_KEY_PATTERNS := 20
  const MAX_INDEX_MEMBERS := 50_000

  const MAX := Limits(MAX_SUBTOPICS, MAX_INDEX_MEMBERS)

  datatype ResolveError = TooManyParts | Refused(reason: SearchError)

  // ----- What a filter keeps -----

  ghost predicate Keeps(f: StateMulti, member: string) {
    && ParseStr(member).Some?
    && AsStateSingle(ParseStr(member).value).Some?
    && FilterMatches(f, AsStateSingle(ParseStr(member).value).value)
  }

  /** The index members that a filter keeps, with the topic each of them names. */
  ghost function Table(f: StateMulti): imap<string, Topic> {
    imap m | Keeps(f, m) :: PercentEncode(m)
  }

  method Keep(f: StateMulti, member: string) returns (r: bool)
    ensures r <==> member in Table(f)
  {
    var topic := ParseStr(member);
    if topic.None? {
      return false;
    }
    var single := AsStateSingle(topic.value);
    if single.None? {
      return false;
    }
    r := Matches(f, single.value);
  }

  // ----- The scan of one address's index -----

  /** The loop body of the scan. */
  method ExamineMember(scan: IndexScan<string>, member: string, f: StateMulti, ghost limit: Limits)
    returns (next: IndexScan<string>)
    requires !Over(scan, limit)
    ensures next == ScanOne(Table(f), scan, member, limit)
  {
    var kept := Keep(f, member);
    next := IndexScan(if kept then scan.kept + [member] else scan.kept, scan.examined + 1);
    assert scan.kept + [] == scan.kept;
  }

  method ScanPage(scan: IndexScan<string>, page: Page<string>, f: StateMulti, limit: Limits, ghost before: seq<string>)
    returns (next: IndexScan<string>)
    requires scan == Scan(Table(f), before, limit)
    ensures next == Scan(Table(f), before + page.members, limit)
  {
    next := scan;
    ghost var table := Table(f);
    assert before + page.members[..0] == before;
    var j := 0;
    while j < |page.members| && !Over(next, limit)
      invariant 0 <= j <= |page.members|
      invariant next == Scan(table, before + page.members[..j], limit)
    {
      NextMember(table, before, page.members, j, limit);
      next := ExamineMember(next, page.members[j], f, limit);
      j := j + 1;
    }
    RestOfPage(table, before, page.members, j, limit);
  }

  method ScanStateIndex(pages: seq<Page<string>>, f: StateMulti, limit: Limits) returns (scan: IndexScan<string>)
    ensures scan == Scan(Table(f), Members(pages), limit)
  {
    scan := IndexScan([], 0);
    var i := 0;
    while i < |pages| && !Over(scan, limit)
      invariant 0 <= i <= |pages|
      invariant scan == Scan(Table(f), Members(pages[..i]), limit)
    {
      NextPage(pages, i);
      scan := ScanPage(scan, pages[i], f, limit, Members(pages[..i]));
      i := i + 1;
    }
    var rest := RestOfPages(pages, i);
    if Over(scan, limit) {
      StoppedScanIsFinal(Table(f), Members(pages[..i]), rest, limit);
    } else {
      assert pages[..i] == pages;
    }
  }

  // ----- The search over the addresses -----

  /** What Redis delivers for each address: the pages of its index, or a failure. */
  type Delivery = map<string, seq<Page<string>>>

  ghost function Index(delivery: Delivery, address: string): Option<seq<string>> {
    if address in delivery then Some(Members(delivery[address])) else None
  }

  ghost function Indexes(delivery: Delivery, addresses: seq<string>): seq<Option<seq<string>>> {
    if addresses == [] then []
    else Indexes(delivery, addresses[..|addresses| - 1]) + [Index(delivery, addresses[|addresses| - 1])]
  }

  /** The topics found by resolving `f`, in the order they were found, or the refusal. */
  ghost function Resolve(delivery: Delivery, f: StateMulti): (r: Result<seq<Topic>, ResolveError>)
  {
    if |f.addresses| > MAX_ADDRESSES || |f.keyPatterns| > MAX_KEY_PATTERNS then Err(TooManyParts)
    else match Gather(Table(f), Indexes(delivery, f.addresses), MAX)
         case Ok(p) => Ok(p.found)
         case Err(e) => Err(Refused(e))
  }

  method ResolveMultitopic(delivery: Delivery, f: StateMulti) returns (r: Result<seq<Topic>, ResolveError>)
    ensures r == match Resolve(delivery, f)
                 case Ok(found) => Ok(SortDedup(found))
                 case Err(e) => Err(e)
  {
    if |f.addresses| > MAX_ADDRESSES || |f.keyPatterns| > MAX_KEY_PATTERNS {
      return Err(TooManyParts);
    }
    var p := Progress([], 0);
    assert f.addresses[..|f.addresses|] == f.addresses;
    for i := 0 to |f.addresses|
      invariant Gather(Table(f), Indexes(delivery, f.addresses[..i]), MAX) == Ok(p)
    {
      NextIndex(Table(f), delivery, f.addresses, i, p, MAX);
      if f.addresses[i] !in delivery {
        return Err(Refused(SourceFailure));
      }
      var next := SearchIndex(delivery[f.addresses[i]], f, p);
      if next.Err? {
        return Err(Refused(next.error));
      }
      p := next.value;
    }
    r := Ok(SortDedup(p.found));
  }

  /** The loop body of the search: one index, with what is left of both budgets. */
  method SearchIndex(pages: seq<Page<string>>, f: StateMulti, p: Progress<Topic>)
    returns (r: Result<Progress<Topic>, SearchError>)
    requires Within(p, MAX)
    ensures r == GatherOne(Table(f), Members(pages), p, MAX)
  {
    var scan := ScanStateIndex(pages, f, Remaining(p, MAX));
    KeptAreNamed(f, Members(pages), Remaining(p, MAX), scan);
    var found := InsertAll(p.found, scan.kept, Table(f));
    GatherOneFrom(Table(f), Members(pages), p, MAX, scan, found);
    r := CheckBounds(Progress(found, p.examined + scan.examined), MAX);
  }

  /** A table gives a member the topic that parsing it gives. */
  ghost predicate Names(table: imap<string, Topic>, member: string) {
    member in table && ParseStr(member) == Some(table[member])
  }

  lemma TableNames(f: StateMulti, member: string)
    requires member in Table(f)
    ensures Names(Table(f), member)
  {
  }

  lemma KeptAreNamed(f: StateMulti, members: seq<string>, limit: Limits, scan: IndexScan<string>)
    requires scan == Scan(Table(f), members, limit)
    ensures forall m :: m in scan.kept ==> Names(Table(f), m)
  {
    KeptAreInTable(Table(f), members, limit, scan);
    forall m | m in scan.kept ensures Names(Table(f), m) {
      TableNames(f, m);
    }
  }

  /** `found.insert(..)` for one member; it parses, since it was kept. */
  method InsertOne(found: seq<Topic>, member: string, ghost table: imap<string, Topic>) returns (r: seq<Topic>)
    requires Names(table, member)
    ensures r == Add(found, table[member])
  {
    var topic := ParseStr(member);
    r := if topic.Some? then Add(found, topic.value) else found;
  }

  method InsertAll(found: seq<Topic>, kept: seq<string>, ghost table: imap<string, Topic>) returns (r: seq<Topic>)
    requires forall m :: m in kept ==> Names(table, m)
    ensures r == AddAll(found, TopicsOf(table, kept))
  {
    r := found;
    for i := 0 to |kept|
      invariant r == AddAll(found, TopicsOf(table, kept[..i]))
    {
      assert Names(table, kept[i]);
      NextTopic(table, found, kept, i);
      r := InsertOne(r, kept[i], table);
    }
    assert kept[..|kept|] == kept;
  }

  /** One more address: the search goes on, or ends with the error that it returns. */
  lemma NextIndex(table: imap<string, Topic>, delivery: Delivery, addresses: seq<string>, i: nat, p: Progress<Topic>, max: Limits)
    requires i < |addresses| && Gather(table, Indexes(delivery, addresses[..i]), max) == Ok(p)
    ensures Within(p, max)
    ensures var next := Continue(table, Index(delivery, addresses[i]), p, max);
            && Gather(table, Indexes(delivery, addresses[..i + 1]), max) == next
            && (next.Err? ==> Gather(table, Indexes(delivery, addresses), max) == next)
  {
    var front, index := Indexes(delivery, addresses[..i]), Index(delivery, addresses[i]);
    assert addresses[..i + 1][..i] == addresses[..i];
    assert Indexes(delivery, addresses[..i + 1]) == front + [index];
    var rest := IndexesFront(delivery, addresses, i + 1);
    NextInGather(table, front, index, rest, max);
  }

  lemma {:induction false} IndexesFront(delivery: Delivery, addresses: seq<string>, n: nat)
    returns (rest: seq<Option<seq<string>>>)
    requires n <= |addresses|
    ensures Indexes(delivery, addresses) == Indexes(delivery, addresses[..n]) + rest
    decreases |addresses|
  {
    if n == |addresses| {
      assert addresses[..n] == addresses;
      rest := [];
    } else {
      var init := addresses[..|addresses| - 1];
      assert init[..n] == addresses[..n];
      rest := IndexesFront(delivery, init, n);
      rest := rest + [Index(delivery, addresses[|addresses| - 1])];
    }
  }
}
