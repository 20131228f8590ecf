/**
 Topic URIs: parsing, the concrete state topics and the filters of state
 multi-topics (apps/websocket-api/src/topic.rs).
 */
module Topics {
  import opened Wrappers
  import opened Text
  import Glob

  /** A parsed topic is its canonical URI: two topics are equal iff their URIs are. */
  type Topic = string

  const SCHEME := "topic://"
  const SINGLE_PREFIX := "topic://state/"
  const MULTI_PREFIX := "topic://state?"

  /** The most concrete topics a multi-topic may stand for. */
  const MAX_SUBTOPICS := 1000

  /** Address and key of a concrete state topic. */
  datatype StateSingle = StateSingle(address: string, key: string)

  /** Filter of a state multi-topic. */
  datatype StateMulti = StateMulti(addresses: seq<string>, keyPatterns: seq<string>)

  // ----- Percent-encoding -----

  ghost predicate IsAscii(s: string) {
    forall i :: 0 <= i < |s| ==> s[i] as int < 128
  }

  function Hex(n: nat): char
    requires n < 16
  {
    if n < 10 then (n + 48) as char else (n + 55) as char
  }

  type Byte = n: nat | n < 256

  /** The UTF-8 form of a character (section 3 of RFC 3629). */
  function Utf8(c: char): seq<Byte> {
    var n := c as int;
    if n < 0x80 then [n]
    else if n < 0x800 then [0xC0 + n / 64, 0x80 + n % 64]
    else if n < 0x1_0000 then [0xE0 + n / 4096, 0x80 + n / 64 % 64, 0x80 + n % 64]
    else [0xF0 + n / 262144, 0x80 + n / 4096 % 64, 0x80 + n / 64 % 64, 0x80 + n % 64]
  }

  function Utf8Bytes(s: string): seq<Byte> {
    if s == [] then [] else Utf8Bytes(s[..|s| - 1]) + Utf8(s[|s| - 1])
  }

  function EncodeByte(b: Byte): string {
    if b < 128 then [b as char] else ['%', Hex(b / 16), Hex(b % 16)]
  }

  function EncodeBytes(bytes: seq<Byte>): string {
    if bytes == [] then [] else EncodeBytes(bytes[..|bytes| - 1]) + EncodeByte(bytes[|bytes| - 1])
  }

  /** Characters beyond ASCII are written as their percent-encoded bytes. */
  function PercentEncode(s: string): string {
    if s == [] then [] else PercentEncode(s[..|s| - 1]) + EncodeBytes(Utf8(s[|s| - 1]))
  }

  lemma EncodeSnoc(s: string, c: char)
    ensures PercentEncode(s + [c]) == PercentEncode(s) + EncodeBytes(Utf8(c))
  {
    assert (s + [c])[..|s|] == s;
  }

  lemma {:induction false} EncodeBytesConcat(a: seq<Byte>, b: seq<Byte>)
    ensures EncodeBytes(a + b) == EncodeBytes(a) + EncodeBytes(b)
    decreases |b|
  {
    if b == [] {
      assert a + b == a;
    } else {
      var init, last := b[..|b| - 1], b[|b| - 1];
      SplitLast(b);
      EncodeBytesConcat(a, init);
      Associate(a, init, [last]);
      assert (a + init + [last])[..|a + init|] == a + init;
      Associate(EncodeBytes(a), EncodeBytes(init), EncodeByte(last));
    }
  }

  /** Encoding byte by byte is encoding character by character. */
  lemma {:induction false} BytesAreEncoded(s: string)
    ensures EncodeBytes(Utf8Bytes(s)) == PercentEncode(s)
  {
    if s != [] {
      BytesAreEncoded(s[..|s| - 1]);
      EncodeBytesConcat(Utf8Bytes(s[..|s| - 1]), Utf8(s[|s| - 1]));
    }
  }

  method PercentEncodeNonAscii(s: string) returns (out: string)
    ensures out == PercentEncode(s)
  {
    out := [];
    var bytes := Utf8Bytes(s);
    for i := 0 to |bytes|
      invariant out == EncodeBytes(bytes[..i])
    {
      assert bytes[..i + 1][..i] == bytes[..i];
      if bytes[i] < 128 {
        out := out + [bytes[i] as char];
      } else {
        out := out + ['%', Hex(bytes[i] / 16), Hex(bytes[i] % 16)];
      }
    }
    assert bytes[..|bytes|] == bytes;
    BytesAreEncoded(s);
  }

  predicate IsEscape(c: char) {
    c == '%' || '0' <= c <= '9' || 'A' <= c <= 'F'
  }

  lemma {:induction false} HighBytesAreEscaped(bytes: seq<Byte>)
    requires forall b :: b in bytes ==> b >= 128
    ensures forall c :: c in EncodeBytes(bytes) ==> IsEscape(c)
    ensures bytes != [] ==> EncodeBytes(bytes) != [] && EncodeBytes(bytes)[0] == '%'
  {
    if bytes != [] {
      var init, last := FrontMembers(bytes);
      HighBytesAreEscaped(init);
    }
  }

  /** ASCII characters stay, others are escaped. */
  lemma EncodedChar(c: char)
    ensures c as int < 128 ==> EncodeBytes(Utf8(c)) == [c]
    ensures c as int >= 128 ==>
              && EncodeBytes(Utf8(c)) != [] && EncodeBytes(Utf8(c))[0] == '%'
              && forall d :: d in EncodeBytes(Utf8(c)) ==> IsEscape(d)
    ensures IsAscii(EncodeBytes(Utf8(c)))
  {
    if c as int >= 128 {
      HighBytesAreEscaped(Utf8(c));
      var r := EncodeBytes(Utf8(c));
      assert forall i :: 0 <= i < |r| ==> r[i] in r;
    }
  }

  // Reading the encoding back.

  function HexValue(c: char): (v: nat)
    ensures v < 16
  {
    if '0' <= c <= '9' then c as int - 48 else if 'A' <= c <= 'F' then c as int - 55 else 0
  }

  /** Every escape is a byte, every other character is its own. */
  function DecodeBytes(s: string): seq<Byte>
    requires IsAscii(s)
  {
    if s == [] then []
    else if s[0] == '%' && |s| >= 3 then [HexValue(s[1]) * 16 + HexValue(s[2])] + DecodeBytes(s[3..])
    else [s[0] as int] + DecodeBytes(s[1..])
  }

  lemma DecodeOne(b: Byte, rest: string)
    requires IsAscii(rest) && b != '%' as int
    ensures IsAscii(EncodeByte(b) + rest)
    ensures DecodeBytes(EncodeByte(b) + rest) == [b] + DecodeBytes(rest)
  {
    var s := EncodeByte(b) + rest;
    if b < 128 {
      assert s[1..] == rest;
    } else {
      assert s[3..] == rest;
      assert s[0] == '%' && s[1] == Hex(b / 16) && s[2] == Hex(b % 16);
    }
  }

  lemma {:induction false} BytesRoundTrip(bytes: seq<Byte>)
    requires '%' as int !in bytes
    ensures IsAscii(EncodeBytes(bytes)) && DecodeBytes(EncodeBytes(bytes)) == bytes
    decreases |bytes|
  {
    if bytes != [] {
      var first, rest := bytes[0], bytes[1..];
      assert bytes == [first] + rest;
      BytesRoundTrip(rest);
      EncodeBytesConcat([first], rest);
      assert [first][..0] == [];
      assert EncodeBytes([first]) == EncodeByte(first);
      DecodeOne(first, EncodeBytes(rest));
    }
  }

  lemma {:induction false} NoPercent(s: string)
    requires '%' !in s
    ensures '%' as int !in Utf8Bytes(s)
  {
    if s != [] {
      NoPercent(s[..|s| - 1]);
      assert s[|s| - 1] != '%';
    }
  }

  /** Decoding an encoded text gives its UTF-8 bytes back, unless it held a `%` itself. */
  lemma EncodingRoundTrip(s: string)
    requires '%' !in s
    ensures IsAscii(PercentEncode(s)) && DecodeBytes(PercentEncode(s)) == Utf8Bytes(s)
  {
    NoPercent(s);
    BytesAreEncoded(s);
    BytesRoundTrip(Utf8Bytes(s));
  }

  function Continued(b: Byte): int {
    b as int - 0x80
  }

  /** The number that one to four bytes stand for. */
  function Scalar(bytes: seq<Byte>): int
    requires 1 <= |bytes| <= 4
  {
    var lead: int := bytes[0];
    if |bytes| == 1 then lead
    else if |bytes| == 2 then (lead - 0xC0) * 64 + Continued(bytes[1])
    else if |bytes| == 3 then (lead - 0xE0) * 4096 + Continued(bytes[1]) * 64 + Continued(bytes[2])
    else (lead - 0xF0) * 262144 + Continued(bytes[1]) * 4096 + Continued(bytes[2]) * 64 + Continued(bytes[3])
  }

  /** As few bytes as the number needs, the first saying how many, the others continuing it. */
  lemma Utf8Decodes(c: char)
    ensures 1 <= |Utf8(c)| <= 4 && Scalar(Utf8(c)) == c as int
    ensures |Utf8(c)| == if c as int < 0x80 then 1 else if c as int < 0x800 then 2 else if c as int < 0x1_0000 then 3 else 4
    ensures |Utf8(c)| == 2 ==> 0xC0 <= Utf8(c)[0] < 0xE0
    ensures |Utf8(c)| == 3 ==> 0xE0 <= Utf8(c)[0] < 0xF0
    ensures |Utf8(c)| == 4 ==> 0xF0 <= Utf8(c)[0] < 0xF8
    ensures forall i :: 1 <= i < |Utf8(c)| ==> 0x80 <= Utf8(c)[i] < 0xC0
  {
    SixBits(c as int);
  }

  /** A number in groups of six bits. */
  lemma SixBits(n: nat)
    ensures n == n / 64 * 64 + n % 64
    ensures n / 64 == n / 4096 * 64 + n / 64 % 64
    ensures n / 4096 == n / 262144 * 64 + n / 4096 % 64
  {
    assert n / 4096 == n / 64 / 64 && n / 262144 == n / 4096 / 64;
  }

  lemma {:induction false} EncodedIsAscii(s: string)
    ensures IsAscii(PercentEncode(s))
  {
    if s != [] {
      EncodedIsAscii(s[..|s| - 1]);
      EncodedChar(s[|s| - 1]);
    }
  }

  lemma {:induction false} AsciiIsUnchanged(s: string)
    requires IsAscii(s)
    ensures PercentEncode(s) == s
  {
    if s != [] {
      AsciiIsUnchanged(s[..|s| - 1]);
      EncodedChar(s[|s| - 1]);
      SplitLast(s);
    }
  }

  lemma {:induction false} EncodeConcat(a: string, b: string)
    ensures PercentEncode(a + b) == PercentEncode(a) + PercentEncode(b)
    decreases |b|
  {
    if b == [] {
      assert a + b == a;
    } else {
      var init, c := b[..|b| - 1], b[|b| - 1];
      SplitLast(b);
      EncodeConcat(a, init);
      Associate(a, init, [c]);
      EncodeSnoc(a + init, c);
      Associate(PercentEncode(a), PercentEncode(init), EncodeBytes(Utf8(c)));
    }
  }

  // ----- Parsing -----

  /** `None` when the scheme or the type component is missing. */
  function ParseStr(s: string): Option<Topic> {
    if !(SCHEME <= s) then None
    else
      var rest := s[|SCHEME|..];
      if rest == [] || rest[0] == '/' || rest[0] == '?' then None
      else Some(PercentEncode(s))
  }

  ghost predicate HasType(rest: string) {
    rest != [] && rest[0] != '/' && rest[0] != '?'
  }

  lemma ParsesWithScheme(rest: string)
    ensures ParseStr(SCHEME + rest) == if HasType(rest) then Some(PercentEncode(SCHEME + rest)) else None
  {
    assert (SCHEME + rest)[|SCHEME|..] == rest;
  }

  /** A text is a topic iff after the scheme comes a character that starts a type; its canonical form is encoded. */
  lemma ParsesIff(s: string)
    ensures ParseStr(s).Some? <==> exists c, rest :: c != '/' && c != '?' && s == SCHEME + [c] + rest
    ensures ParseStr(s).Some? ==> ParseStr(s).value == PercentEncode(s)
  {
    if ParseStr(s).Some? {
      var rest := s[|SCHEME|..];
      assert s == SCHEME + [rest[0]] + rest[1..];
    }
    if c, rest :| c != '/' && c != '?' && s == SCHEME + [c] + rest {
      Associate(SCHEME, [c], rest);
      ParsesWithScheme([c] + rest);
    }
  }

  /** Parsing its own output changes nothing, so a topic has one canonical form. */
  lemma ParsedIsCanonical(s: string)
    requires ParseStr(s).Some?
    ensures IsAscii(ParseStr(s).value)
    ensures ParseStr(ParseStr(s).value) == ParseStr(s)
  {
    var rest := s[|SCHEME|..];
    assert s == SCHEME + rest;
    EncodedIsAscii(s);
    AsciiIsUnchanged(PercentEncode(s));
    EncodeKeepsFront(SCHEME, rest);
    EncodeKeepsHead(rest);
    ParsesWithScheme(PercentEncode(rest));
  }

  lemma EncodeKeepsFront(a: string, b: string)
    requires IsAscii(a)
    ensures PercentEncode(a + b) == a + PercentEncode(b)
  {
    EncodeConcat(a, b);
    AsciiIsUnchanged(a);
  }

  /** An encoded text starts with `/` or `?` only if the text did. */
  lemma EncodeKeepsHead(s: string)
    requires s != []
    ensures PercentEncode(s) != []
    ensures PercentEncode(s)[0] == if s[0] as int < 128 then s[0] else '%'
  {
    var none: string := [];
    assert s == [s[0]] + s[1..] && [s[0]] == none + [s[0]];
    EncodeConcat([s[0]], s[1..]);
    EncodeSnoc(none, s[0]);
    EncodedChar(s[0]);
  }

  predicate IsMultiTopic(t: Topic) {
    MULTI_PREFIX <= t
  }

  function AsStateSingle(t: Topic): Option<StateSingle> {
    if !(SINGLE_PREFIX <= t) then None
    else
      var rest := t[|SINGLE_PREFIX|..];
      var slash := Find(rest, '/');
      if '?' in rest || slash == 0 || slash == |rest| then None
      else
        var key := rest[slash + 1..];
        if key == [] || '/' in key then None
        else Some(StateSingle(rest[..slash], key))
  }

  ghost predicate PathSegment(s: string) {
    s != [] && '/' !in s && '?' !in s
  }

  function SingleUri(s: StateSingle): Topic {
    SINGLE_PREFIX + s.address + ['/'] + s.key
  }

  /** The concrete state topics are exactly the URIs built from two path segments. */
  lemma SingleRoundTrip(t: Topic, s: StateSingle)
    ensures AsStateSingle(t) == Some(s)
       <==> t == SingleUri(s) && PathSegment(s.address) && PathSegment(s.key)
  {
    if t == SingleUri(s) && PathSegment(s.address) && PathSegment(s.key) {
      var rest := s.address + ['/'] + s.key;
      assert t[|SINGLE_PREFIX|..] == rest;
      FindFirst(s.address, '/', s.key);
      assert rest[..|s.address|] == s.address && rest[|s.address| + 1..] == s.key;
    }
    if AsStateSingle(t) == Some(s) {
      var rest := t[|SINGLE_PREFIX|..];
      assert rest == s.address + ['/'] + s.key;
      assert t == SINGLE_PREFIX + rest;
    }
  }

  lemma AsciiSingleParses(s: StateSingle)
    requires PathSegment(s.address) && PathSegment(s.key) && IsAscii(s.address) && IsAscii(s.key)
    ensures ParseStr(SingleUri(s)) == Some(SingleUri(s))
    ensures AsStateSingle(SingleUri(s)) == Some(s)
  {
    SingleRoundTrip(SingleUri(s), s);
    ConcreteUriParses(SingleUri(s));
    AsciiUri(s);
    AsciiIsUnchanged(SingleUri(s));
  }

  lemma AsciiUri(s: StateSingle)
    requires IsAscii(s.address) && IsAscii(s.key)
    ensures IsAscii(SingleUri(s))
  {
    AsciiConcat(SINGLE_PREFIX, s.address, s.key);
  }

  lemma AsciiConcat(a: string, b: string, c: string)
    requires IsAscii(a) && IsAscii(b) && IsAscii(c)
    ensures IsAscii(a + b + ['/'] + c)
  {
  }

  lemma ConcreteUriParses(t: string)
    requires SINGLE_PREFIX <= t
    ensures ParseStr(t) == Some(PercentEncode(t))
  {
    assert t[|SCHEME|] == SINGLE_PREFIX[|SCHEME|];
  }

  lemma SingleIsNotMulti(t: Topic)
    requires AsStateSingle(t).Some?
    ensures !IsMultiTopic(t)
  {
    assert t[|SINGLE_PREFIX| - 1] == '/';
  }

  // ----- Filters -----

  datatype Params = Params(addresses: seq<string>, patterns: seq<string>)

  const ADDRESS_NAMES := ["address__in[]", "address__in%5B%5D"]
  const PATTERN_NAMES := ["key__match_any[]", "key__match_any%5B%5D"]

  /** One `name=value` pair; `None` when it is malformed or has an unknown name. */
  function ReadPair(acc: Params, pair: string): Option<Params> {
    var eq := Find(pair, '=');
    if eq == |pair| || eq + 1 == |pair| then None
    else
      var name, value := pair[..eq], pair[eq + 1..];
      if name in ADDRESS_NAMES then Some(acc.(addresses := acc.addresses + [value]))
      else if name in PATTERN_NAMES then Some(acc.(patterns := acc.patterns + [value]))
      else None
  }

  function ReadPairs(pairs: seq<string>): Option<Params> {
    if pairs == [] then Some(Params([], []))
    else
      var acc := ReadPairs(pairs[..|pairs| - 1]);
      var pair := pairs[|pairs| - 1];
      if acc.None? || pair == [] then acc else ReadPair(acc.value, pair)
  }

  /** The filter of a state multi-topic URI, when it has one. */
  function AsStateMulti(t: Topic): Option<StateMulti> {
    if !IsMultiTopic(t) then None
    else
      var read := ReadPairs(Split(t[|MULTI_PREFIX|..], '&'));
      if read.None? || read.value.addresses == [] || read.value.patterns == [] then None
      else Some(StateMulti(SortDedup(read.value.addresses), SortDedup(read.value.patterns)))
  }

  /** One more pair is read. */
  lemma NextPair(pairs: seq<string>, i: nat, acc: Params)
    requires i < |pairs| && ReadPairs(pairs[..i]) == Some(acc)
    ensures ReadPairs(pairs[..i + 1]) == if pairs[i] == [] then Some(acc) else ReadPair(acc, pairs[i])
  {
    assert pairs[..i + 1][..i] == pairs[..i];
  }

  /** The loop over the pairs of a query. */
  method ReadQuery(pairs: seq<string>) returns (r: Option<Params>)
    ensures r == ReadPairs(pairs)
  {
    var addresses, patterns := [], [];
    for i := 0 to |pairs|
      invariant ReadPairs(pairs[..i]) == Some(Params(addresses, patterns))
    {
      NextPair(pairs, i, Params(addresses, patterns));
      if pairs[i] != [] {
        var eq := Find(pairs[i], '=');
        if eq == |pairs[i]| || eq + 1 == |pairs[i]| {
          FailedReadIsFinal(pairs, i + 1);
          return None;
        }
        var name, value := pairs[i][..eq], pairs[i][eq + 1..];
        if name in ADDRESS_NAMES {
          addresses := addresses + [value];
        } else if name in PATTERN_NAMES {
          patterns := patterns + [value];
        } else {
          FailedReadIsFinal(pairs, i + 1);
          return None;
        }
      }
    }
    assert pairs[..|pairs|] == pairs;
    r := Some(Params(addresses, patterns));
  }

  method ParseStateMulti(t: Topic) returns (r: Option<StateMulti>)
    ensures r == AsStateMulti(t)
  {
    if !(MULTI_PREFIX <= t) {
      return None;
    }
    var read := ReadQuery(Split(t[|MULTI_PREFIX|..], '&'));
    if read.None? || read.value.addresses == [] || read.value.patterns == [] {
      return None;
    }
    r := Some(StateMulti(SortDedup(read.value.addresses), SortDedup(read.value.patterns)));
  }

  lemma {:induction false} FailedReadIsFinal(pairs: seq<string>, n: nat)
    requires n <= |pairs| && ReadPairs(pairs[..n]).None?
    ensures ReadPairs(pairs).None?
    decreases |pairs|
  {
    if n == |pairs| {
      assert pairs[..n] == pairs;
    } else {
      assert pairs[..|pairs| - 1][..n] == pairs[..n];
      FailedReadIsFinal(pairs[..|pairs| - 1], n);
    }
  }

  // What a filter URI says, without reading it from left to right.

  ghost predicate Lists(names: seq<string>, pair: string, value: string) {
    value != [] && exists i :: 0 <= i < |names| && pair == names[i] + "=" + value
  }

  ghost predicate WellFormedPair(pair: string) {
    exists value :: Lists(ADDRESS_NAMES, pair, value) || Lists(PATTERN_NAMES, pair, value)
  }

  lemma PairListsOneValue(acc: Params, pair: string)
    ensures ReadPair(acc, pair).Some? <==> WellFormedPair(pair)
    ensures forall r :: ReadPair(acc, pair) == Some(r) ==>
              && (forall v :: v in r.addresses <==> v in acc.addresses || Lists(ADDRESS_NAMES, pair, v))
              && (forall v :: v in r.patterns <==> v in acc.patterns || Lists(PATTERN_NAMES, pair, v))
  {
    var eq := Find(pair, '=');
    forall v ensures Lists(ADDRESS_NAMES, pair, v)
                <==> eq + 1 < |pair| && pair[eq + 1..] == v && pair[..eq] in ADDRESS_NAMES {
      ListsIffCut(ADDRESS_NAMES, pair, v);
    }
    forall v ensures Lists(PATTERN_NAMES, pair, v)
                <==> eq + 1 < |pair| && pair[eq + 1..] == v && pair[..eq] in PATTERN_NAMES {
      ListsIffCut(PATTERN_NAMES, pair, v);
    }
    if ReadPair(acc, pair).Some? {
      var value := pair[eq + 1..];
      assert Lists(ADDRESS_NAMES, pair, value) || Lists(PATTERN_NAMES, pair, value);
    }
    NamesDiffer();
  }

  lemma NamesDiffer()
    ensures forall n :: n in ADDRESS_NAMES ==> n !in PATTERN_NAMES
  {
    assert forall i :: 0 <= i < 2 ==> ADDRESS_NAMES[i][0] == 'a' && PATTERN_NAMES[i][0] == 'k';
  }

  /** A pair lists a value iff cutting it at its first `=` gives a name and the value. */
  lemma ListsIffCut(names: seq<string>, pair: string, v: string)
    requires forall i :: 0 <= i < |names| ==> '=' !in names[i]
    ensures Lists(names, pair, v) <==>
              var eq := Find(pair, '=');
              eq + 1 < |pair| && pair[eq + 1..] == v && pair[..eq] in names
  {
    var eq := Find(pair, '=');
    if Lists(names, pair, v) {
      var i :| 0 <= i < |names| && pair == names[i] + "=" + v;
      CutConcat(names[i], '=', v);
    } else if eq + 1 < |pair| && pair[eq + 1..] == v && pair[..eq] in names {
      CutAt(pair, eq);
    }
  }

  ghost predicate Listed(names: seq<string>, pairs: seq<string>, value: string) {
    exists i :: 0 <= i < |pairs| && Lists(names, pairs[i], value)
  }

  ghost predicate WellFormed(pairs: seq<string>) {
    forall i :: 0 <= i < |pairs| && pairs[i] != [] ==> WellFormedPair(pairs[i])
  }

  lemma {:induction false} ReadPairsMeaning(pairs: seq<string>)
    ensures ReadPairs(pairs).Some? <==> WellFormed(pairs)
    ensures ReadPairs(pairs).Some? ==>
              forall v :: v in ReadPairs(pairs).value.addresses <==> Listed(ADDRESS_NAMES, pairs, v)
    ensures ReadPairs(pairs).Some? ==>
              forall v :: v in ReadPairs(pairs).value.patterns <==> Listed(PATTERN_NAMES, pairs, v)
    decreases |pairs|
  {
    if pairs != [] {
      var init, last := pairs[..|pairs| - 1], pairs[|pairs| - 1];
      ReadPairsMeaning(init);
      WellFormedFront(pairs);
      forall v ensures Listed(ADDRESS_NAMES, pairs, v) <==> Listed(ADDRESS_NAMES, init, v) || Lists(ADDRESS_NAMES, last, v) {
        ListedInFront(ADDRESS_NAMES, pairs, v);
      }
      forall v ensures Listed(PATTERN_NAMES, pairs, v) <==> Listed(PATTERN_NAMES, init, v) || Lists(PATTERN_NAMES, last, v) {
        ListedInFront(PATTERN_NAMES, pairs, v);
      }
      if last == [] {
        EmptyPairListsNothing();
      }
      if ReadPairs(init).Some? {
        PairListsOneValue(ReadPairs(init).value, last);
      }
    }
  }

  lemma EmptyPairListsNothing()
    ensures forall v :: !Lists(ADDRESS_NAMES, [], v) && !Lists(PATTERN_NAMES, [], v)
  {
  }

  lemma WellFormedFront(pairs: seq<string>)
    requires pairs != []
    ensures WellFormed(pairs) <==>
      WellFormed(pairs[..|pairs| - 1]) && (pairs[|pairs| - 1] != [] ==> WellFormedPair(pairs[|pairs| - 1]))
  {
    var init := pairs[..|pairs| - 1];
    assert forall i :: 0 <= i < |init| ==> pairs[i] == init[i];
  }

  lemma ListedInFront(names: seq<string>, pairs: seq<string>, v: string)
    requires pairs != []
    ensures Listed(names, pairs, v)
       <==> Listed(names, pairs[..|pairs| - 1], v) || Lists(names, pairs[|pairs| - 1], v)
  {
    var init := pairs[..|pairs| - 1];
    assert forall i :: 0 <= i < |init| ==> pairs[i] == init[i];
    if Listed(names, pairs, v) && !Lists(names, pairs[|pairs| - 1], v) {
      var i :| 0 <= i < |pairs| && Lists(names, pairs[i], v);
      assert Lists(names, init[i], v);
    }
  }

  function FilterPairs(t: Topic): seq<string>
    requires MULTI_PREFIX <= t
  {
    Split(t[|MULTI_PREFIX|..], '&')
  }

  /**
   A URI has a filter iff it is a multi-topic URI of well-formed pairs that lists
   an address and a pattern; the filter holds exactly the listed values, sorted.
   */
  lemma FilterMeaning(t: Topic)
    ensures IsMultiTopic(t) <==> MULTI_PREFIX <= t
    ensures AsStateMulti(t).Some? <==>
              && MULTI_PREFIX <= t
              && WellFormed(FilterPairs(t))
              && (exists v :: Listed(ADDRESS_NAMES, FilterPairs(t), v))
              && (exists v :: Listed(PATTERN_NAMES, FilterPairs(t), v))
    ensures forall f :: AsStateMulti(t) == Some(f) ==>
              && StrictlySorted(f.addresses) && StrictlySorted(f.keyPatterns)
              && (forall v :: v in f.addresses <==> Listed(ADDRESS_NAMES, FilterPairs(t), v))
              && (forall v :: v in f.keyPatterns <==> Listed(PATTERN_NAMES, FilterPairs(t), v))
  {
    if MULTI_PREFIX <= t {
      var pairs := FilterPairs(t);
      ReadPairsMeaning(pairs);
      var read := ReadPairs(pairs);
      if read.Some? {
        NonEmpty(read.value.addresses);
        NonEmpty(read.value.patterns);
        SameElements(read.value.addresses);
        SameElements(read.value.patterns);
      }
    }
  }

  lemma NonEmpty(s: seq<string>)
    ensures s == [] <==> forall v :: v !in s
  {
    assert s != [] ==> s[0] in s;
  }

  lemma SameElements(s: seq<string>)
    ensures forall v :: v in SortDedup(s) <==> v in s
  {
    forall v ensures v in SortDedup(s) <==> v in s {
      assert v in Elems(SortDedup(s)) <==> v in Elems(s);
    }
  }

  ghost predicate FilterMatches(f: StateMulti, s: StateSingle) {
    s.address in f.addresses && exists p :: p in f.keyPatterns && Glob.Denotes(p, s.key)
  }

  method Matches(f: StateMulti, s: StateSingle) returns (r: bool)
    ensures r <==> FilterMatches(f, s)
  {
    if s.address !in f.addresses {
      return false;
    }
    for i := 0 to |f.keyPatterns|
      invariant forall j :: 0 <= j < i ==> !Glob.Denotes(f.keyPatterns[j], s.key)
    {
      var hit, _ := Glob.GlobMatch(f.keyPatterns[i], s.key);
      if hit {
        return true;
      }
    }
    r := false;
  }
}
