/**
 The writer of the state index: publishing data entries to Redis
 (apps/blockchain-postgres-sync/src/lib/publisher.rs), and resolution from end to
 end, from a history of published entries to the topics of a multi-topic.
 */
module Publisher {
  import opened Wrappers
  import opened Text
  import opened Topics
  import opened BoundedSearch
  import opened Resolution
  import opened ResolutionProof

  const INDEX_PREFIX := "topic://state-index/"

  /** One keyspace: a key holds a string or a set, never both. */
  datatype RedisValue = Str(s: string) | Set(members: set<string>)
  type Keyspace = map<string, RedisValue>

  datatype DataEntryEvent = DataEntryEvent(channel: string, value: string)

  function IndexKey(address: string): string {
    INDEX_PREFIX + address
  }

  /** The address of a channel `topic://state/{address}/{key}`; the key may hold any character. */
  function ChannelAddress(channel: string): Option<string> {
    if !(SINGLE_PREFIX <= channel) then None
    else
      var rest := channel[|SINGLE_PREFIX|..];
      var slash := Find(rest, '/');
      if slash == 0 || slash + 1 >= |rest| then None else Some(rest[..slash])
  }

  /** `SADD` fails on a key that holds a string. */
  function AfterSadd(db: Keyspace, key: string, member: string): Option<Keyspace> {
    if key !in db then Some(db[key := Set({member})])
    else if db[key].Str? then None
    else Some(db[key := Set(db[key].members + {member})])
  }

  /** The keyspace after one event; a failed command is skipped. */
  function AfterEvent(db: Keyspace, e: DataEntryEvent): Keyspace {
    var set1 := db[e.channel := Str(e.value)];
    var address := ChannelAddress(e.channel);
    if address.None? then set1
    else
      var set2 := AfterSadd(set1, IndexKey(address.value), e.channel);
      if set2.None? then set1 else set2.value
  }

  function AfterEvents(db: Keyspace, events: seq<DataEntryEvent>): Keyspace {
    if events == [] then db
    else AfterEvent(AfterEvents(db, events[..|events| - 1]), events[|events| - 1])
  }

  class Redis {
    var db: Keyspace

    constructor ()
      ensures db == map[]
    {
      db := map[];
    }

    method SetString(key: string, value: string)
      modifies this
      ensures db == old(db)[key := Str(value)]
    {
      db := db[key := Str(value)];
    }

    method Sadd(key: string, member: string) returns (ok: bool)
      modifies this
      ensures ok <==> AfterSadd(old(db), key, member).Some?
      ensures db == if ok then AfterSadd(old(db), key, member).value else old(db)
    {
      if key in db && db[key].Str? {
        return false;
      }
      var members := if key in db then db[key].members else {};
      assert {} + {member} == {member};
      db := db[key := Set(members + {member})];
      ok := true;
    }
  }

  method PublishBatch(redis: Redis, events: seq<DataEntryEvent>)
    modifies redis
    ensures redis.db == AfterEvents(old(redis.db), events)
  {
    for i := 0 to |events|
      invariant redis.db == AfterEvents(old(redis.db), events[..i])
    {
      assert events[..i + 1][..i] == events[..i];
      redis.SetString(events[i].channel, events[i].value);
      var address := ChannelAddress(events[i].channel);
      if address.Some? {
        var _ := redis.Sadd(IndexKey(address.value), events[i].channel);
      }
    }
    assert events[..|events|] == events;
  }

  // ----- What the index holds -----

  ghost predicate StateEvents(events: seq<DataEntryEvent>) {
    forall i :: 0 <= i < |events| ==> SINGLE_PREFIX <= events[i].channel
  }

  ghost predicate Published(events: seq<DataEntryEvent>, channel: string) {
    exists i :: 0 <= i < |events| && events[i].channel == channel
  }

  ghost function IndexOf(db: Keyspace, address: string): set<string> {
    if IndexKey(address) in db && db[IndexKey(address)].Set? then db[IndexKey(address)].members
    else {}
  }

  lemma IndexKeysAreNotChannels(address: string, channel: string)
    requires SINGLE_PREFIX <= channel
    ensures IndexKey(address) != channel
  {
    var i := |SINGLE_PREFIX| - 1;
    assert channel[i] == '/';
    assert IndexKey(address)[i] == '-';
  }

  lemma IndexKeysAreDistinct(a: string, b: string)
    ensures IndexKey(a) == IndexKey(b) <==> a == b
  {
    assert IndexKey(a)[|INDEX_PREFIX|..] == a;
    assert IndexKey(b)[|INDEX_PREFIX|..] == b;
  }

  lemma PublishedOneMore(events: seq<DataEntryEvent>, init: seq<DataEntryEvent>, e: DataEntryEvent)
    requires events != [] && init == events[..|events| - 1] && e == events[|events| - 1]
    ensures StateEvents(events) ==> StateEvents(init)
    ensures forall c :: Published(events, c) <==> Published(init, c) || c == e.channel
  {
    assert forall i :: 0 <= i < |init| ==> init[i] == events[i];
    forall c ensures Published(events, c) <==> Published(init, c) || c == e.channel {
      assert c == e.channel ==> events[|events| - 1].channel == c;
      if Published(init, c) {
        var i :| 0 <= i < |init| && init[i].channel == c;
        assert events[i].channel == c;
      }
    }
  }

  /**
   After any history of state events the index of an address lists exactly the
   channels published for it; no `SADD` fails, since no channel is an index key.
   */
  lemma {:induction false} IndexIsExact(events: seq<DataEntryEvent>, address: string)
    requires StateEvents(events)
    ensures IndexKey(address) in AfterEvents(map[], events) ==>
              AfterEvents(map[], events)[IndexKey(address)].Set?
    ensures forall c :: c in IndexOf(AfterEvents(map[], events), address)
               <==> Published(events, c) && ChannelAddress(c) == Some(address)
    decreases |events|
  {
    if events != [] {
      var init, e := events[..|events| - 1], events[|events| - 1];
      PublishedOneMore(events, init, e);
      IndexIsExact(init, address);
      var db := AfterEvents(map[], init);
      IndexKeysAreNotChannels(address, e.channel);
      var a := ChannelAddress(e.channel);
      if a.Some? {
        IndexKeysAreNotChannels(a.value, e.channel);
        IndexKeysAreDistinct(a.value, address);
        IndexIsExact(init, a.value);
      }
    }
  }

  /** The `i`-th event is the last of its channel. */
  ghost predicate LastAt(events: seq<DataEntryEvent>, i: nat, channel: string, value: string) {
    && i < |events| && events[i] == DataEntryEvent(channel, value)
    && forall j :: i < j < |events| ==> events[j].channel != channel
  }

  /** The value of the last event of a channel. */
  ghost predicate LastValue(events: seq<DataEntryEvent>, channel: string, value: string) {
    exists i :: LastAt(events, i, channel, value)
  }

  lemma LastValueSnoc(events: seq<DataEntryEvent>, e: DataEntryEvent, channel: string, value: string)
    ensures LastValue(events + [e], channel, value)
       <==> if e.channel == channel then e.value == value else LastValue(events, channel, value)
  {
    var all := events + [e];
    assert all[|events|] == e;
    if e.channel == channel {
      if e.value == value {
        assert LastAt(all, |events|, channel, value);
      }
    } else {
      forall i: nat ensures LastAt(all, i, channel, value) <==> LastAt(events, i, channel, value) {
        assert forall j :: 0 <= j < |events| ==> events[j] == all[j];
      }
    }
  }

  /** A channel of the address is published. */
  ghost predicate HasChannel(events: seq<DataEntryEvent>, address: string) {
    exists c :: Published(events, c) && ChannelAddress(c) == Some(address)
  }

  /** One state event writes its channel and touches one index, no other key. */
  lemma EventWrites(db: Keyspace, e: DataEntryEvent, key: string)
    requires SINGLE_PREFIX <= e.channel
    requires forall a :: IndexKey(a) in db ==> db[IndexKey(a)].Set?
    ensures var n, a := AfterEvent(db, e), ChannelAddress(e.channel);
            && e.channel in n && n[e.channel] == Str(e.value)
            && (key in n <==> key in db || key == e.channel || (a.Some? && key == IndexKey(a.value)))
            && (key in n && key != e.channel && !(a.Some? && key == IndexKey(a.value)) ==> n[key] == db[key])
  {
    var a := ChannelAddress(e.channel);
    if a.Some? {
      IndexKeysAreNotChannels(a.value, e.channel);
    }
  }

  /** Some address has a published channel, and this is its index. */
  ghost predicate IsIndex(events: seq<DataEntryEvent>, key: string) {
    exists a :: key == IndexKey(a) && HasChannel(events, a)
  }

  lemma IsIndexSnoc(events: seq<DataEntryEvent>, init: seq<DataEntryEvent>, e: DataEntryEvent, key: string)
    requires events != [] && init == events[..|events| - 1] && e == events[|events| - 1]
    ensures IsIndex(events, key)
       <==> IsIndex(init, key) || (ChannelAddress(e.channel).Some? && key == IndexKey(ChannelAddress(e.channel).value))
  {
    PublishedOneMore(events, init, e);
    forall a ensures HasChannel(events, a) <==> HasChannel(init, a) || ChannelAddress(e.channel) == Some(a) {
      assert Published(events, e.channel);
      if HasChannel(init, a) {
        var c :| Published(init, c) && ChannelAddress(c) == Some(a);
        assert Published(events, c);
      }
    }
  }

  /**
   After any history of state events, every published channel holds the value of its last
   event, every address with a published channel has its index, and there is no other key.
   */
  lemma {:induction false} KeyspaceIsExact(events: seq<DataEntryEvent>, key: string)
    requires StateEvents(events)
    ensures var db := AfterEvents(map[], events);
            && (forall value :: LastValue(events, key, value) ==> key in db && db[key] == Str(value))
            && (key in db <==> Published(events, key) || IsIndex(events, key))
    decreases |events|
  {
    if events != [] {
      var init, e := events[..|events| - 1], events[|events| - 1];
      SplitLast(events);
      PublishedOneMore(events, init, e);
      KeyspaceIsExact(init, key);
      IsIndexSnoc(events, init, e, key);
      forall a ensures IndexKey(a) in AfterEvents(map[], init) ==> AfterEvents(map[], init)[IndexKey(a)].Set? {
        IndexIsExact(init, a);
      }
      EventWrites(AfterEvents(map[], init), e, key);
      forall value | LastValue(events, key, value)
        ensures key in AfterEvents(map[], events) && AfterEvents(map[], events)[key] == Str(value)
      {
        LastValueSnoc(init, e, key, value);
        LastIsPublished(events, key, value);
        if ChannelAddress(e.channel).Some? {
          IndexKeysAreNotChannels(ChannelAddress(e.channel).value, key);
        }
      }
    }
  }

  lemma LastIsPublished(events: seq<DataEntryEvent>, channel: string, value: string)
    requires StateEvents(events) && LastValue(events, channel, value)
    ensures Published(events, channel) && SINGLE_PREFIX <= channel
  {
  }

  /** Every published channel has a last value. */
  lemma {:induction false} PublishedHasLastValue(events: seq<DataEntryEvent>, channel: string) returns (value: string)
    requires Published(events, channel)
    ensures LastValue(events, channel, value)
    decreases |events|
  {
    var init, e := events[..|events| - 1], events[|events| - 1];
    SplitLast(events);
    PublishedOneMore(events, init, e);
    value := e.value;
    if e.channel != channel {
      value := PublishedHasLastValue(init, channel);
    }
    LastValueSnoc(init, e, channel, value);
  }

  /** So a new subscriber of a published channel reads the value of its last event. */
  lemma LastValueIsRead(events: seq<DataEntryEvent>, channel: string) returns (value: string)
    requires StateEvents(events) && Published(events, channel)
    ensures LastValue(events, channel, value)
    ensures channel in AfterEvents(map[], events) && AfterEvents(map[], events)[channel] == Str(value)
  {
    value := PublishedHasLastValue(events, channel);
    KeyspaceIsExact(events, channel);
  }

  // ----- Channels and their topics -----

  lemma EncodingKeepsSeparators(s: string, c: char)
    requires c == '/' || c == '?'
    ensures c in PercentEncode(s) <==> c in s
  {
    if s != [] {
      var init, last := s[..|s| - 1], s[|s| - 1];
      SplitLast(s);
      EncodingKeepsSeparators(init, c);
      EncodeSnoc(init, last);
      EncodedChar(last);
    }
  }

  /** A text is cut at its first separator in one way only. */
  lemma CutIsUnique(a: string, k: string, b: string, l: string, c: char)
    requires a + [c] + k == b + [c] + l && c !in a && c !in b
    ensures a == b && k == l
  {
    CutConcat(a, c, k);
    CutConcat(b, c, l);
  }

  /** Encoding a path encodes its segments and keeps their separator. */
  lemma SegmentsEncoded(a: string, k: string)
    ensures PercentEncode(a + ['/'] + k) == PercentEncode(a) + ['/'] + PercentEncode(k)
    ensures '/' !in a ==> '/' !in PercentEncode(a)
  {
    EncodeConcat(a + ['/'], k);
    EncodeSnoc(a, '/');
    EncodedChar('/');
    EncodingKeepsSeparators(a, '/');
  }

  lemma PathAddress(a: string, k: string)
    requires '/' !in a
    ensures ChannelAddress(SINGLE_PREFIX + (a + ['/'] + k)) == if a == [] || k == [] then None else Some(a)
  {
    var path := a + ['/'] + k;
    assert (SINGLE_PREFIX + path)[|SINGLE_PREFIX|..] == path;
    CutConcat(a, '/', k);
  }

  lemma PathTopic(path: string, s: StateSingle)
    requires ParseStr(SINGLE_PREFIX + path) == Some(SingleUri(s))
    ensures PercentEncode(path) == s.address + ['/'] + s.key
  {
    EncodedPath(path);
    UriPath(s);
    SameRest(SINGLE_PREFIX, PercentEncode(path), s.address + ['/'] + s.key);
  }

  lemma EncodedPath(path: string)
    ensures ParseStr(SINGLE_PREFIX + path) == Some(SINGLE_PREFIX + PercentEncode(path))
  {
    ConcreteUriParses(SINGLE_PREFIX + path);
    EncodeKeepsFront(SINGLE_PREFIX, path);
  }

  lemma UriPath(s: StateSingle)
    ensures SingleUri(s) == SINGLE_PREFIX + (s.address + ['/'] + s.key)
  {
    Associate(SINGLE_PREFIX, s.address, ['/']);
    Associate(SINGLE_PREFIX, s.address + ['/'], s.key);
  }

  lemma SameRest<T>(front: seq<T>, a: seq<T>, b: seq<T>)
    requires front + a == front + b
    ensures a == b
  {
    assert (front + a)[|front|..] == a && (front + b)[|front|..] == b;
  }

  lemma CutAtFirst(path: string, c: char) returns (a: string, k: string)
    requires c in path
    ensures path == a + [c] + k && c !in a
  {
    var i := Find(path, c);
    a, k := path[..i], path[i + 1..];
  }

  /** A channel whose topic is concrete is published under the address that encodes to the topic's. */
  lemma ChannelOfTopic(c: string, s: StateSingle) returns (a: string)
    requires SINGLE_PREFIX <= c && ParseStr(c) == Some(SingleUri(s))
    requires PathSegment(s.address) && PathSegment(s.key)
    ensures ChannelAddress(c) == Some(a) && PercentEncode(a) == s.address
  {
    var path, k := c[|SINGLE_PREFIX|..], [];
    assert c == SINGLE_PREFIX + path;
    PathTopic(path, s);
    EncodingKeepsSeparators(path, '/');
    assert (s.address + ['/'] + s.key)[|s.address|] == '/';
    a, k := CutAtFirst(path, '/');
    SegmentsEncoded(a, k);
    CutIsUnique(PercentEncode(a), PercentEncode(k), s.address, s.key, '/');
    PathAddress(a, k);
  }

  // ----- From a published history to a resolved multi-topic -----

  /** The channels of a history. */
  ghost function Channels(events: seq<DataEntryEvent>): iset<string> {
    iset c | Published(events, c)
  }

  /** Addresses are base58, hence ASCII. */
  ghost predicate AsciiAddresses(events: seq<DataEntryEvent>) {
    && StateEvents(events)
    && (forall c :: Published(events, c) && ChannelAddress(c).Some? ==> IsAscii(ChannelAddress(c).value))
  }

  /** And no two channels have one normal form. */
  ghost predicate Normal(events: seq<DataEntryEvent>) {
    && AsciiAddresses(events)
    && (forall c, d :: Published(events, c) && Published(events, d) && SameTopic(c, d) ==> c == d)
  }

  ghost predicate SameTopic(c: string, d: string) {
    ParseStr(c).Some? && ParseStr(c) == ParseStr(d)
  }

  /** Every history of ASCII state channels is such a history, and its topics are its channels. */
  lemma AsciiHistoryIsNormal(events: seq<DataEntryEvent>)
    requires StateEvents(events)
    requires forall i :: 0 <= i < |events| ==> IsAscii(events[i].channel)
    ensures Normal(events)
    ensures forall c :: Published(events, c) && ParseStr(c).Some? ==> ParseStr(c).value == c
  {
    forall c | Published(events, c) ensures ParseStr(c).Some? ==> ParseStr(c).value == c {
      AsciiIsUnchanged(c);
    }
  }

  /** The scan of each address delivers its index, every member at least once, as Redis promises. */
  ghost predicate Delivers(delivery: Delivery, db: Keyspace, addresses: seq<string>) {
    forall i :: 0 <= i < |addresses| ==> DeliversIndex(delivery, db, addresses[i])
  }

  ghost predicate DeliversIndex(delivery: Delivery, db: Keyspace, a: string) {
    a in delivery && forall c :: c in Members(delivery[a]) <==> c in IndexOf(db, a)
  }

  /** And none twice. */
  ghost predicate OnceEach(delivery: Delivery, addresses: seq<string>) {
    forall i :: 0 <= i < |addresses| && addresses[i] in delivery ==> Distinct(Members(delivery[addresses[i]]))
  }

  /** The published channels of one of the addresses. */
  ghost predicate OfAddresses(events: seq<DataEntryEvent>, addresses: seq<string>, c: string) {
    Published(events, c) && ChannelAddress(c).Some? && ChannelAddress(c).value in addresses
  }

  lemma {:induction false} DeliveredChannels(delivery: Delivery, events: seq<DataEntryEvent>, addresses: seq<string>)
    requires StateEvents(events) && Delivers(delivery, AfterEvents(map[], events), addresses)
    ensures Complete(delivery, addresses)
    ensures forall c :: InSome(Contents(delivery, addresses), c) <==> OfAddresses(events, addresses, c)
    decreases |addresses|
  {
    if addresses != [] {
      var init, a := addresses[..|addresses| - 1], addresses[|addresses| - 1];
      assert forall i :: 0 <= i < |init| ==> addresses[i] == init[i];
      SplitLast(addresses);
      DeliveredChannels(delivery, events, init);
      assert DeliversIndex(delivery, AfterEvents(map[], events), a);
      OneMoreAddress(delivery, events, init, a, Contents(delivery, init));
    }
  }

  lemma OneMoreAddress(
      delivery: Delivery, events: seq<DataEntryEvent>, init: seq<string>, a: string, contents: seq<seq<string>>)
    requires StateEvents(events) && DeliversIndex(delivery, AfterEvents(map[], events), a)
    requires forall c :: InSome(contents, c) <==> OfAddresses(events, init, c)
    ensures forall c :: InSome(contents + [Members(delivery[a])], c) <==> OfAddresses(events, init + [a], c)
    ensures a !in init ==> forall c :: c in Members(delivery[a]) ==> !InSome(contents, c)
  {
    var last := Members(delivery[a]);
    IndexIsExact(events, a);
    forall c ensures InSome(contents + [last], c) <==> InSome(contents, c) || c in last {
      InSomeSnoc(contents + [last], c);
      assert (contents + [last])[..|contents|] == contents;
    }
  }

  /** Delivered once each, the indexes of different addresses have nothing in common. */
  lemma {:induction false} DeliveredSeparately(delivery: Delivery, events: seq<DataEntryEvent>, addresses: seq<string>)
    requires StateEvents(events) && Distinct(addresses) && OnceEach(delivery, addresses)
    requires Delivers(delivery, AfterEvents(map[], events), addresses)
    ensures Complete(delivery, addresses) && Separate(Contents(delivery, addresses))
    decreases |addresses|
  {
    if addresses != [] {
      var init, a := addresses[..|addresses| - 1], addresses[|addresses| - 1];
      assert forall i :: 0 <= i < |init| ==> addresses[i] == init[i];
      DeliveredSeparately(delivery, events, init);
      DeliveredChannels(delivery, events, init);
      var contents := Contents(delivery, init);
      assert DeliversIndex(delivery, AfterEvents(map[], events), a);
      OneMoreAddress(delivery, events, init, a, contents);
      assert (contents + [Members(delivery[a])])[..|contents|] == contents;
    }
  }

  /** The concrete state topics of a history that the filter matches. */
  ghost predicate Expected(events: seq<DataEntryEvent>, f: StateMulti, t: Topic) {
    exists c :: Published(events, c) && c in Table(f) && Table(f)[c] == t
  }

  /** A kept channel is published under one of the filter's addresses. */
  lemma KeptChannelIsIndexed(events: seq<DataEntryEvent>, f: StateMulti, c: string)
    requires AsciiAddresses(events) && Published(events, c) && c in Table(f)
    ensures OfAddresses(events, f.addresses, c)
  {
    var t := ParseStr(c).value;
    var s := AsStateSingle(t).value;
    SingleRoundTrip(t, s);
    var a := ChannelOfTopic(c, s);
    AsciiIsUnchanged(a);
  }

  lemma SameTopicSameChannel(events: seq<DataEntryEvent>, table: imap<string, Topic>, c: string, d: string)
    requires Normal(events) && Published(events, c) && Published(events, d)
    requires Names(table, c) && Names(table, d) && table[c] == table[d]
    ensures c == d
  {
    assert SameTopic(c, d);
  }

  lemma NormalIsInjective(events: seq<DataEntryEvent>, table: imap<string, Topic>)
    requires Normal(events)
    requires forall c :: c in table ==> Names(table, c)
    ensures Injective(table, Channels(events))
  {
    forall c, d | c in Channels(events) && d in Channels(events) && c in table && d in table && table[c] == table[d]
      ensures c == d
    {
      SameTopicSameChannel(events, table, c, d);
    }
  }

  /** The topics that a filter matches in the delivered indexes are the published topics it matches. */
  lemma MatchingIsExpected(delivery: Delivery, events: seq<DataEntryEvent>, f: StateMulti)
    requires AsciiAddresses(events) && Delivers(delivery, AfterEvents(map[], events), f.addresses)
    ensures Complete(delivery, f.addresses)
    ensures forall t :: t in AllMatching(delivery, f) <==> Expected(events, f, t)
  {
    DeliveredChannels(delivery, events, f.addresses);
    var contents := Contents(delivery, f.addresses);
    forall t ensures t in AllMatching(delivery, f) <==> Expected(events, f, t) {
      MatchingMember(Table(f), contents, t);
      forall c | Published(events, c) && c in Table(f) ensures InSome(contents, c) {
        KeptChannelIsIndexed(events, f, c);
      }
    }
  }

  /** After a normal history, and delivered once each, they occur once each. */
  lemma MatchingIsDistinct(delivery: Delivery, events: seq<DataEntryEvent>, f: StateMulti)
    requires Normal(events) && Distinct(f.addresses) && OnceEach(delivery, f.addresses)
    requires Delivers(delivery, AfterEvents(map[], events), f.addresses)
    ensures Complete(delivery, f.addresses) && Distinct(AllMatching(delivery, f))
  {
    DeliveredSeparately(delivery, events, f.addresses);
    DeliveredChannels(delivery, events, f.addresses);
    forall c | c in Table(f) ensures Names(Table(f), c) {
      TableNames(f, c);
    }
    NormalIsInjective(events, Table(f));
    MatchingDistinct(Table(f), Contents(delivery, f.addresses), Channels(events));
  }

  /**
   End to end, with repetitions: after any history of published state entries, resolving a
   filter over the indexes they left returns published topics that match, and, within
   the limits counted with repetitions, all of them.
   */
  lemma RepeatedDeliveryIsResolved(delivery: Delivery, events: seq<DataEntryEvent>, f: StateMulti)
    requires AsciiAddresses(events) && Delivers(delivery, AfterEvents(map[], events), f.addresses)
    ensures Complete(delivery, f.addresses)
    ensures Resolve(delivery, f).Ok? ==> forall t :: t in Resolve(delivery, f).value ==> Expected(events, f, t)
    ensures FewParts(f) && IndexSize(delivery, f) <= MAX_INDEX_MEMBERS && |AllMatching(delivery, f)| <= MAX_SUBTOPICS ==>
              Resolve(delivery, f).Ok? && forall t :: Expected(events, f, t) ==> t in Resolve(delivery, f).value
  {
    MatchingIsExpected(delivery, events, f);
    if Resolve(delivery, f).Ok? {
      ResolvedTopicsMatch(delivery, f);
    }
    if FewParts(f) && IndexSize(delivery, f) <= MAX_INDEX_MEMBERS && |AllMatching(delivery, f)| <= MAX_SUBTOPICS {
      WithinLimitsAllIsReturned(delivery, f);
    }
  }

  /**
   End to end, without: after any normal history, a resolution succeeds exactly within the
   documented limits, and then returns, sorted, exactly the published topics that match.
   */
  lemma PublishedTopicsAreResolved(delivery: Delivery, events: seq<DataEntryEvent>, f: StateMulti)
    requires Normal(events) && StrictlySorted(f.addresses) && OnceEach(delivery, f.addresses)
    requires Delivers(delivery, AfterEvents(map[], events), f.addresses)
    ensures Complete(delivery, f.addresses)
    ensures Resolve(delivery, f).Ok? <==>
              && FewParts(f)
              && IndexSize(delivery, f) <= MAX_INDEX_MEMBERS
              && |AllMatching(delivery, f)| <= MAX_SUBTOPICS
    ensures Resolve(delivery, f).Ok? ==>
              forall t :: t in SortDedup(Resolve(delivery, f).value) <==> Expected(events, f, t)
  {
    SortedIsDistinct(f.addresses, |f.addresses|);
    assert f.addresses[..|f.addresses|] == f.addresses;
    MatchingIsExpected(delivery, events, f);
    MatchingIsDistinct(delivery, events, f);
    ResolutionIsExact(delivery, f);
    if Resolve(delivery, f).Ok? {
      SameElements(Resolve(delivery, f).value);
    }
  }
}
