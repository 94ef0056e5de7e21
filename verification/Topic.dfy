/**
 Topics: a service name with query parameters, their canonical ZMQ string (parameters in key
 order, closed by '#'), and their MDP URI.
 */
module Topic {
  import opened Wrappers
  import opened Uri
  import opened UriQuery

  datatype TopicError =
    | InvalidServiceName
    | BadUri(error: UriError)

  /** The parameters are a `std::map`, written as the sequence it enumerates. */
  datatype Topic = Topic(service: string, params: seq<Entry>)

  /** What parsing a topic finds, before the parameters are put in order. */
  datatype Parsed = Parsed(service: string, params: Params)

  predicate IsServiceChar(c: char) {
    c == '/' || c == '.' || c == '_' || IsAlnum(c)
  }

  predicate IsValidServiceName(s: string) {
    && |s| > 1 && s[0] == '/' && s[|s| - 1] != '/'
    && All(s, IsServiceChar)
  }

  /** The names of services, written out. */
  lemma ServiceAlphabet(s: string)
    ensures IsValidServiceName(s) <==>
              && |s| >= 2 && s[0] == '/' && s[|s| - 1] != '/'
              && forall i | 0 <= i < |s| :: InTables(s[i]) || s[i] in "/._"
  {
    forall i | 0 <= i < |s| ensures IsServiceChar(s[i]) <==> InTables(s[i]) || s[i] in "/._" {
      AlnumIff(s[i]);
    }
  }

  // ----- the order of a std::map ---------------------------------------------------------------

  predicate Less(a: string, b: string) {
    b != "" && (a == "" || a[0] < b[0] || (a[0] == b[0] && Less(a[1..], b[1..])))
  }

  lemma {:induction false} LessTotal(a: string, b: string)
    ensures Less(a, b) || a == b || Less(b, a)
    ensures Less(a, b) ==> a != b && !Less(b, a)
  {
    if a != "" && b != "" {
      LessTotal(a[1..], b[1..]);
      if a[0] == b[0] && a[1..] == b[1..] {
        assert a == [a[0]] + a[1..] == b;
      }
    }
  }

  lemma {:induction false} LessTransitive(a: string, b: string, c: string)
    requires Less(a, b) && Less(b, c)
    ensures Less(a, c)
  {
    if a != "" && a[0] == b[0] == c[0] {
      LessTransitive(a[1..], b[1..], c[1..]);
    }
  }

  predicate Sorted(es: seq<Entry>) {
    forall i, j | 0 <= i < j < |es| :: Less(es[i].0, es[j].0)
  }

  /** `std::map::insert`: keeps the entries in key order, and an entry that is already there. */
  function Insert(es: seq<Entry>, e: Entry): seq<Entry> {
    if es == [] then [e]
    else if Less(e.0, es[0].0) then [e] + es
    else if e.0 == es[0].0 then es
    else [es[0]] + Insert(es[1..], e)
  }

  /** A `std::map` filled in the given order, as it enumerates. */
  function SortedMap(es: seq<Entry>): seq<Entry> {
    if es == [] then [] else Insert(SortedMap(es[..|es| - 1]), es[|es| - 1])
  }

  lemma {:induction false} InsertElements(es: seq<Entry>, e: Entry)
    ensures forall i | 0 <= i < |Insert(es, e)| :: Insert(es, e)[i] == e || Insert(es, e)[i] in es
  {
    if es != [] && !Less(e.0, es[0].0) && e.0 != es[0].0 {
      InsertElements(es[1..], e);
    }
  }

  lemma {:induction false} InsertSorted(es: seq<Entry>, e: Entry)
    requires Sorted(es)
    ensures Sorted(Insert(es, e))
  {
    if es != [] {
      LessTotal(e.0, es[0].0);
      if Less(e.0, es[0].0) {
        forall j | 0 < j < |es| ensures Less(e.0, es[j].0) {
          LessTransitive(e.0, es[0].0, es[j].0);
        }
      } else if e.0 != es[0].0 {
        InsertSorted(es[1..], e);
        InsertElements(es[1..], e);
        var later := Insert(es[1..], e);
        forall j | 0 <= j < |later| ensures Less(es[0].0, later[j].0) {
          if later[j] != e {
            var i :| 0 <= i < |es[1..]| && es[1..][i] == later[j];
            assert es[i + 1] == later[j];
          }
        }
      }
    }
  }

  lemma {:induction false} InsertMap(es: seq<Entry>, e: Entry)
    requires forall i | 0 <= i < |es| :: es[i].0 != e.0
    ensures MapOf(Insert(es, e)) == MapOf(es)[e.0 := e.1]
  {
    if es == [] {
      assert [e][..0] == [];
    } else if Less(e.0, es[0].0) {
      MapOfCons([e] + es);
      assert ([e] + es)[1..] == es;
      MapOfKeys(es, e.0);
    } else {
      InsertMap(es[1..], e);
      var later := Insert(es[1..], e);
      MapOfCons([es[0]] + later);
      assert ([es[0]] + later)[1..] == later;
      MapOfCons(es);
    }
  }

  lemma {:induction false} SortedMapIsSorted(es: seq<Entry>)
    requires Distinct(es)
    ensures Sorted(SortedMap(es)) && MapOf(SortedMap(es)) == MapOf(es)
  {
    if es != [] {
      var n := |es| - 1;
      SortedMapIsSorted(es[..n]);
      var front := SortedMap(es[..n]);
      InsertSorted(front, es[n]);
      InsertMap(front, es[n]) by {
        OldKeysDiffer(es, front);
      }
    }
  }

  lemma OldKeysDiffer(es: seq<Entry>, front: seq<Entry>)
    requires Distinct(es) && es != [] && MapOf(front) == MapOf(es[..|es| - 1])
    ensures forall i | 0 <= i < |front| :: front[i].0 != es[|es| - 1].0
  {
    var n := |es| - 1;
    forall i | 0 <= i < |front| ensures front[i].0 != es[n].0 {
      MapOfKeys(front, front[i].0);
      MapOfKeys(es[..n], front[i].0);
      var j :| 0 <= j < n && es[..n][j].0 == front[i].0;
      assert es[j].0 == front[i].0;
    }
  }

  lemma SortedHead(es: seq<Entry>, fs: seq<Entry>)
    requires Sorted(es) && Sorted(fs) && es != [] && fs != [] && MapOf(es) == MapOf(fs)
    ensures es[0] == fs[0]
  {
    SortedFirst(es, fs);
    SortedFirst(fs, es);
    LessTotal(es[0].0, fs[0].0);
    SortedLookup(es, 0);
    SortedLookup(fs, 0);
  }

  lemma SortedFirst(es: seq<Entry>, fs: seq<Entry>)
    requires Sorted(es) && es != [] && fs != [] && MapOf(es) == MapOf(fs)
    ensures !Less(fs[0].0, es[0].0)
  {
    MapOfKeys(fs, fs[0].0);
    MapOfKeys(es, fs[0].0);
    var j :| 0 <= j < |es| && es[j].0 == fs[0].0;
    LessTotal(es[0].0, es[j].0);
  }

  lemma {:induction false} SortedLookup(es: seq<Entry>, i: nat)
    requires Sorted(es) && i < |es|
    ensures es[i].0 in MapOf(es) && MapOf(es)[es[i].0] == es[i].1
  {
    var n := |es| - 1;
    if i < n {
      SortedLookup(es[..n], i);
      assert es[..n][i] == es[i];
      LessTotal(es[i].0, es[n].0);
    }
  }

  lemma SortedTail(es: seq<Entry>)
    requires Sorted(es) && es != []
    ensures MapOf(es[1..]) == MapOf(es) - {es[0].0}
  {
    MapOfCons(es);
    MapOfKeys(es[1..], es[0].0);
    forall i | 0 <= i < |es| - 1 ensures es[1..][i].0 != es[0].0 {
      LessTotal(es[0].0, es[i + 1].0);
    }
  }

  /** There is one enumeration in key order: the ZMQ string depends on the map alone. */
  lemma {:induction false} SortedUnique(es: seq<Entry>, fs: seq<Entry>)
    requires Sorted(es) && Sorted(fs) && MapOf(es) == MapOf(fs)
    ensures es == fs
  {
    if es == [] || fs == [] {
      if es != [] {
        MapOfKeys(es, es[0].0);
      }
      if fs != [] {
        MapOfKeys(fs, fs[0].0);
      }
    } else {
      SortedHead(es, fs);
      SortedTail(es);
      SortedTail(fs);
      SortedUnique(es[1..], fs[1..]);
      assert es == [es[0]] + es[1..] == [fs[0]] + fs[1..] == fs;
    }
  }

  /** Filling the map in another order gives the same enumeration. */
  lemma InsertionOrderIrrelevant(es: seq<Entry>, fs: seq<Entry>)
    requires Distinct(es) && Distinct(fs) && MapOf(es) == MapOf(fs)
    ensures SortedMap(es) == SortedMap(fs)
  {
    SortedMapIsSorted(es);
    SortedMapIsSorted(fs);
    SortedUnique(SortedMap(es), SortedMap(fs));
  }

  /** The topic that parsing yields, whatever order the parsed parameters are inserted in. */
  ghost predicate Yields(p: Parsed, t: Topic) {
    t.service == p.service && Sorted(t.params) && MapOf(t.params) == p.params
  }

  lemma YieldsIsUnique(p: Parsed, t: Topic, order: seq<Entry>)
    requires Yields(p, t) && Distinct(order) && MapOf(order) == p.params
    ensures Topic(p.service, SortedMap(order)) == t
  {
    SortedMapIsSorted(order);
    SortedUnique(SortedMap(order), t.params);
  }

  // ----- parsing -------------------------------------------------------------------------------

  predicate IsQuestionMark(c: char) { c == '?' }

  function TrimSlashes(s: string): string {
    if s != "" && s[|s| - 1] == '/' then TrimSlashes(s[..|s| - 1]) else s
  }

  function ServiceOf(s: string): string {
    var trimmed := TrimSlashes(s[..FirstWhere(s, IsQuestionMark)]);
    if trimmed != "" && trimmed[0] == '/' then trimmed else "/" + trimmed
  }

  method ParseService(s: string) returns (service: string)
    ensures service == ServiceOf(s)
    ensures service[0] == '/'
    ensures '?' !in service
    ensures |service| > 1 ==> service[|service| - 1] != '/'
  {
    var str := s[..FirstWhere(s, IsQuestionMark)];
    ghost var full := str;
    while str != "" && str[|str| - 1] == '/'
      invariant str <= full
      invariant TrimSlashes(str) == TrimSlashes(full)
      decreases |str|
    {
      str := str[..|str| - 1];
    }
    assert '?' !in str by {
      assert forall i | 0 <= i < |str| :: str[i] == full[i] == s[i] && !IsQuestionMark(s[i]);
    }
    if str == "" || str[0] != '/' {
      return "/" + str;
    }
    service := str;
  }

  lemma {:induction false} TrimmedIs(name: string, slashes: string)
    requires (forall i | 0 <= i < |slashes| :: slashes[i] == '/') && (name == "" || name[|name| - 1] != '/')
    ensures TrimSlashes(name + slashes) == name
    decreases |slashes|
  {
    if slashes == "" {
      assert name + slashes == name;
    } else {
      var n := |slashes| - 1;
      assert (name + slashes)[..|name + slashes| - 1] == name + slashes[..n];
      TrimmedIs(name, slashes[..n]);
    }
  }

  /** The service is the path without the slashes at its end and without the query, with a slash in front. */
  lemma ServiceIs(name: string, slashes: string, query: string)
    requires (forall i | 0 <= i < |slashes| :: slashes[i] == '/') && (name == "" || name[|name| - 1] != '/')
    requires '?' !in name && (query == "" || query[0] == '?')
    ensures ServiceOf(name + slashes + query) == if name != "" && name[0] == '/' then name else "/" + name
  {
    var path := name + slashes;
    assert forall i | 0 <= i < |path| :: !IsQuestionMark(path[i]);
    FirstWhereIs(path, query, IsQuestionMark);
    assert (path + query)[..|path|] == path;
    TrimmedIs(name, slashes);
  }

  function FromString(text: string): Result<Parsed, TopicError> {
    var params := if FirstWhere(text, IsQuestionMark) == |text| then Ok(map[])
                  else
                    var uri :- ParseUri(text, false);
                    QueryMap(uri.query, false);
    if params.Err? then Err(BadUri(params.error))
    else if !IsValidServiceName(ServiceOf(text)) then Err(InvalidServiceName)
    else Ok(Parsed(ServiceOf(text), params.value))
  }

  function FromZmqTopic(text: string): Result<Parsed, TopicError> {
    FromString(if text != "" && text[|text| - 1] == '#' then text[..|text| - 1] else text)
  }

  /** From a parsed MDP URI, whose path is the service and whose query the parameters. */
  function FromMdpTopic(uri: Components): Result<Parsed, TopicError> {
    var params := QueryMap(uri.query, true);
    var path := if uri.path == "" then "/" else uri.path;
    if params.Err? then Err(BadUri(params.error))
    else if !IsValidServiceName(ServiceOf(path)) then Err(InvalidServiceName)
    else Ok(Parsed(ServiceOf(path), params.value))
  }

  // ----- printing ------------------------------------------------------------------------------

  /** Keys are printed as they are, values percent-encoded. */
  function RawText(e: Entry): string
    requires EntryBytes(e)
  {
    e.0 + (if e.1.Some? then "=" + Encode(e.1.value) else "")
  }

  function RawTexts(es: seq<Entry>): (texts: seq<string>)
    requires AllBytes(es)
    ensures |texts| == |es|
  {
    seq(|es|, i requires 0 <= i < |es| => RawText(es[i]))
  }

  function Joined(texts: seq<string>): string {
    if texts == [] then ""
    else if |texts| == 1 then texts[0]
    else texts[0] + ("&" + Joined(texts[1..]))
  }

  function RawJoined(es: seq<Entry>): string
    requires AllBytes(es)
  {
    Joined(RawTexts(es))
  }

  function ZmqText(t: Topic): string
    requires AllBytes(t.params)
  {
    t.service + (if t.params == [] then "" else "?" + RawJoined(t.params)) + "#"
  }

  lemma {:induction false} JoinedSplit(texts: seq<string>)
    requires texts != []
    ensures var n := |texts| - 1;
            Joined(texts) == Joined(texts[..n]) + (if n == 0 then "" else "&") + texts[n]
    decreases |texts|
  {
    var n := |texts| - 1;
    if n > 0 {
      JoinedSplit(texts[1..]);
      assert texts[1..][..n - 1] == texts[..n][1..];
    }
  }

  lemma ExtendText(service: string, joined: string, ampersand: string, key: string, value: string)
    ensures service + "?" + joined + ampersand + key + value
            == service + "?" + (joined + ampersand + (key + value))
  {
  }

  method ToZmqTopic(t: Topic) returns (zmqTopic: string)
    requires AllBytes(t.params)
    ensures zmqTopic == ZmqText(t)
  {
    zmqTopic := t.service;
    if t.params == [] {
      zmqTopic := zmqTopic + "#";
      return;
    }
    zmqTopic := zmqTopic + "?";
    var isFirst := true;
    ghost var texts := RawTexts(t.params);
    for i := 0 to |t.params|
      invariant isFirst <==> i == 0
      invariant zmqTopic == t.service + "?" + Joined(texts[..i])
    {
      var (key, value) := t.params[i];
      var ampersand := if isFirst then "" else "&";
      var assignment := "";
      if value.Some? {
        assignment := EncodeText(value.value);
        assignment := "=" + assignment;
      }
      assert t.service + "?" + Joined(texts[..i + 1]) == zmqTopic + ampersand + key + assignment by {
        JoinedSplit(texts[..i + 1]);
        assert texts[..i + 1][..i] == texts[..i] && texts[i] == key + assignment;
        ExtendText(t.service, Joined(texts[..i]), ampersand, key, assignment);
      }
      zmqTopic := zmqTopic + ampersand + key + assignment;
      isFirst := false;
    }
    assert texts[..|t.params|] == texts;
    assert zmqTopic == t.service + ("?" + RawJoined(t.params));
    zmqTopic := zmqTopic + "#";
  }

  // ----- the round trip through the ZMQ string ----------------------------------------------------

  predicate IsKeyChar(c: char) {
    !EndsKey(c) && c != '%' && c != '#'
  }

  /** Keys are not encoded, so they must be free of the characters the parser acts on. */
  predicate CleanEntry(e: Entry) {
    EntryBytes(e) && e.0 != "" && All(e.0, IsKeyChar)
  }

  predicate CleanEntries(es: seq<Entry>) {
    AllBytes(es) && forall i | 0 <= i < |es| :: CleanEntry(es[i])
  }

  predicate Clean(t: Topic) {
    IsValidServiceName(t.service) && Sorted(t.params) && CleanEntries(t.params)
  }

  /** The parser drops an empty value in the last position, and only there. */
  function Settled(es: seq<Entry>): seq<Entry> {
    if es == [] then []
    else
      var (key, value) := es[|es| - 1];
      es[..|es| - 1] + [(key, if value == Some("") then None else value)]
  }

  lemma {:induction false} DecodePlain(k: string, strict: bool)
    requires All(k, IsKeyChar)
    ensures Decode(k, strict) == Ok(k)
  {
    if k != "" {
      DecodePlain(k[1..], strict);
      assert IsKeyChar(k[0]);
      assert k == [k[0]] + k[1..];
    }
  }

  lemma ParseRawLast(e: Entry, m: Params, strict: bool)
    requires CleanEntry(e)
    ensures ParseEntries(RawText(e), m, strict)
            == Ok(m[e.0 := if e.1 == Some("") then None else e.1])
  {
    if e.1.Some? {
      var v := e.1.value;
      EncodedHasNoSeparator(v);
      DecodeEncode(v, strict);
      EncodeEmptyIff(v);
      DecodePlain(e.0, strict);
      assert Encode(v) + "" == Encode(v);
      ParseValueText(Encode(v), e.0, v, "", m, strict);
      ParseKeyText(e.0, e.0, Encode(v), m, strict);
    } else {
      FirstWhereIs(e.0, "", EndsKey);
      assert RawText(e) == e.0 == e.0 + "";
    }
  }

  lemma RawTextBefore(e: Entry, tail: string)
    requires EntryBytes(e)
    ensures RawText(e) + tail == e.0 + (if e.1.Some? then "=" + (Encode(e.1.value) + tail) else tail)
  {
  }

  lemma ParseRawFirst(e: Entry, later: string, m: Params, strict: bool)
    requires CleanEntry(e)
    ensures ParseEntries(RawText(e) + ("&" + later), m, strict) == ParseEntries(later, m[e.0 := e.1], strict)
  {
    var tail := "&" + later;
    assert tail[1..] == later;
    assert ParseEntry(RawText(e) + tail, m, strict) == Ok((later, m[e.0 := e.1])) by {
      RawTextBefore(e, tail);
      DecodePlain(e.0, strict);
      if e.1.Some? {
        var v := e.1.value;
        EncodedHasNoSeparator(v);
        DecodeEncode(v, strict);
        EncodeEmptyIff(v);
        ParseValueText(Encode(v), e.0, v, tail, m, strict);
        ParseKeyText(e.0, e.0, Encode(v) + tail, m, strict);
      } else {
        ParseBareText(e.0, e.0, tail, m, strict);
      }
    }
  }

  lemma SettledCons(es: seq<Entry>, m: Params)
    requires |es| > 1
    ensures m[es[0].0 := es[0].1] + MapOf(Settled(es[1..])) == m + MapOf(Settled(es))
  {
    var settled := Settled(es);
    MapOfCons(settled);
    assert es[1..][..|es| - 2] == es[..|es| - 1][1..];
    assert settled[1..] == Settled(es[1..]);
    Prepended(m, es[0].0, es[0].1, MapOf(settled[1..]));
  }

  lemma ParseRawOne(es: seq<Entry>, m: Params, strict: bool)
    requires |es| == 1 && CleanEntries(es)
    ensures ParseEntries(RawJoined(es), m, strict) == Ok(m + MapOf(Settled(es)))
  {
    var settled := Settled(es);
    assert RawJoined(es) == RawText(es[0]);
    ParseRawLast(es[0], m, strict);
    MapOfCons(settled);
    assert settled[1..] == [];
    Prepended(m, es[0].0, settled[0].1, map[]);
    assert m[es[0].0 := settled[0].1] + map[] == m[es[0].0 := settled[0].1];
  }

  lemma RawJoinedCons(es: seq<Entry>)
    requires |es| > 1 && AllBytes(es)
    ensures RawJoined(es) == RawText(es[0]) + ("&" + RawJoined(es[1..]))
  {
    assert RawTexts(es)[1..] == RawTexts(es[1..]);
  }

  lemma {:induction false} ParseRawJoined(es: seq<Entry>, m: Params, strict: bool)
    requires es != [] && CleanEntries(es)
    ensures ParseEntries(RawJoined(es), m, strict) == Ok(m + MapOf(Settled(es)))
    decreases |es|
  {
    if |es| == 1 {
      ParseRawOne(es, m, strict);
    } else {
      var first, rest := es[0], es[1..];
      RawJoinedCons(es);
      assert ParseEntries(RawJoined(es), m, strict) == ParseEntries(RawJoined(rest), m[first.0 := first.1], strict) by {
        ParseRawFirst(first, RawJoined(rest), m, strict);
      }
      ParseRawJoined(rest, m[first.0 := first.1], strict);
      SettledCons(es, m);
    }
  }

  predicate NoHash(s: string) {
    forall i | 0 <= i < |s| :: s[i] != '#'
  }

  lemma RawTextHasNoHash(e: Entry)
    requires CleanEntry(e)
    ensures NoHash(RawText(e)) && RawText(e) != ""
  {
    assert forall i | 0 <= i < |e.0| :: IsKeyChar(e.0[i]);
    if e.1.Some? {
      var v := Encode(e.1.value);
      EncodeAlphabet(e.1.value);
      assert forall i | 0 <= i < |v| :: IsEncodedChar(v[i]);
    }
  }

  lemma {:induction false} RawJoinedHasNoHash(es: seq<Entry>)
    requires es != [] && CleanEntries(es)
    ensures NoHash(RawJoined(es)) && RawJoined(es) != ""
    decreases |es|
  {
    RawTextHasNoHash(es[0]);
    if |es| > 1 {
      assert RawTexts(es)[1..] == RawTexts(es[1..]);
      RawJoinedHasNoHash(es[1..]);
    }
  }

  lemma ServiceText(service: string)
    requires IsValidServiceName(service)
    ensures NoHash(service)
    ensures forall i | 0 <= i < |service| :: !EndsPath(service[i]) && !IsQuestionMark(service[i]) && IsPathChar(service[i])
    ensures TrimSlashes(service) == service
  {
    forall i | 0 <= i < |service|
      ensures service[i] != '#' && !EndsPath(service[i]) && IsPathChar(service[i])
    {
      assert IsServiceChar(service[i]);
    }
  }

  lemma ServiceOfText(service: string, back: string)
    requires IsValidServiceName(service) && (back == "" || back[0] == '?')
    ensures ServiceOf(service + back) == service
    ensures FirstWhere(service + back, IsQuestionMark) == |service|
  {
    ServiceText(service);
    FirstWhereIs(service, back, IsQuestionMark);
    assert (service + back)[..|service|] == service;
  }

  lemma QueryOfText(service: string, query: string)
    requires IsValidServiceName(service) && NoHash(query)
    ensures ParseUri(service + ("?" + query), false) == Ok(Components("", "", service, query, ""))
  {
    var back := "?" + query;
    var source := service + back;
    ServiceText(service);
    FirstWhereIs(service, back, EndsPath);
    assert source[..|service|] == service;
    assert source[|service|..] == back;
    FirstWhereIs(back, "", IsHash);
    assert back + "" == back;
    assert source[|service| + 1..|source|] == query;
  }

  lemma FromBare(service: string)
    requires IsValidServiceName(service)
    ensures FromString(service) == Ok(Parsed(service, map[]))
  {
    assert service + "" == service;
    ServiceOfText(service, "");
  }

  lemma FromQuery(service: string, query: string, params: Params)
    requires IsValidServiceName(service) && NoHash(query) && QueryMap(query, false) == Ok(params)
    ensures FromString(service + ("?" + query)) == Ok(Parsed(service, params))
  {
    ServiceOfText(service, "?" + query);
    QueryOfText(service, query);
  }

  lemma PrintedQuery(params: seq<Entry>)
    requires params != [] && CleanEntries(params)
    ensures QueryMap(RawJoined(params), false) == Ok(MapOf(Settled(params))) && NoHash(RawJoined(params))
  {
    var settled := MapOf(Settled(params));
    RawJoinedHasNoHash(params);
    ParseRawJoined(params, map[], false);
    assert map[] + settled == settled;
  }

  lemma FromPrintedQuery(t: Topic)
    requires Clean(t) && t.params != []
    ensures FromZmqTopic(ZmqText(t)) == Ok(Parsed(t.service, MapOf(Settled(t.params))))
  {
    var text := ZmqText(t);
    assert text[..|text| - 1] == t.service + ("?" + RawJoined(t.params));
    PrintedQuery(t.params);
    FromQuery(t.service, RawJoined(t.params), MapOf(Settled(t.params)));
  }

  lemma FromPrinted(t: Topic)
    requires Clean(t)
    ensures FromZmqTopic(ZmqText(t)) == Ok(Parsed(t.service, MapOf(Settled(t.params))))
  {
    if t.params == [] {
      var text := ZmqText(t);
      assert text[..|text| - 1] == t.service;
      FromBare(t.service);
    } else {
      FromPrintedQuery(t);
    }
  }

  lemma SettledSorted(es: seq<Entry>)
    requires Sorted(es)
    ensures Sorted(Settled(es))
    ensures |Settled(es)| == |es| && forall i | 0 <= i < |es| :: Settled(es)[i].0 == es[i].0
  {
  }

  lemma SettledMapIff(es: seq<Entry>)
    requires Sorted(es) && es != []
    ensures MapOf(Settled(es)) == MapOf(es) <==> es[|es| - 1].1 != Some("")
  {
    var n := |es| - 1;
    if es[n].1 == Some("") {
      SettledSorted(es);
      SortedLookup(es, n);
      SortedLookup(Settled(es), n);
    } else {
      assert Settled(es) == es;
    }
  }

  /**
   Reading back the ZMQ string of a topic with clean keys gives the topic, exactly unless its
   last parameter has an empty value.
   */
  lemma ZmqRoundTripIff(t: Topic)
    requires Clean(t)
    ensures FromZmqTopic(ZmqText(t)).Ok?
    ensures Yields(FromZmqTopic(ZmqText(t)).value, t)
            <==> t.params == [] || t.params[|t.params| - 1].1 != Some("")
  {
    FromPrinted(t);
    assert Yields(FromZmqTopic(ZmqText(t)).value, t) <==> MapOf(t.params) == MapOf(Settled(t.params));
    if t.params != [] {
      SettledMapIff(t.params);
    }
  }

  // ----- prefix subscription ----------------------------------------------------------------------

  predicate IsAmpersand(c: char) { c == '&' }
  predicate IsEqualSign(c: char) { c == '=' }
  predicate EndsService(c: char) { c == '?' || c == '#' }

  /** Keys are printed as they are, so they must not contain what separates entries and values. */
  predicate SplittableEntry(e: Entry) {
    EntryBytes(e) && forall i | 0 <= i < |e.0| :: !IsAmpersand(e.0[i]) && !IsEqualSign(e.0[i])
  }

  predicate Splittable(es: seq<Entry>) {
    AllBytes(es) && forall i | 0 <= i < |es| :: SplittableEntry(es[i])
  }

  lemma RawTextHasNoAmpersand(e: Entry)
    requires SplittableEntry(e)
    ensures forall i | 0 <= i < |RawText(e)| :: !IsAmpersand(RawText(e)[i])
  {
    if e.1.Some? {
      EncodedHasNoSeparator(e.1.value);
    }
  }

  /** Two texts that agree, each ending at its first separator, agree in front of it and behind it. */
  lemma SplitsAgree(a: string, x: string, b: string, y: string, p: char -> bool)
    requires forall i | 0 <= i < |a| :: !p(a[i])
    requires forall i | 0 <= i < |b| :: !p(b[i])
    requires (x == "" || p(x[0])) && (y == "" || p(y[0])) && a + x == b + y
    ensures a == b && x == y
  {
    FirstWhereIs(a, x, p);
    FirstWhereIs(b, y, p);
    assert a == (a + x)[..|a|] && b == (b + y)[..|b|];
    assert x == (a + x)[|a|..] && y == (b + y)[|b|..];
  }

  lemma EncodeInjective(a: string, b: string)
    requires IsBytes(a) && IsBytes(b) && Encode(a) == Encode(b)
    ensures a == b
  {
    DecodeEncode(a, true);
    DecodeEncode(b, true);
  }

  lemma RawTextInjective(e: Entry, f: Entry)
    requires SplittableEntry(e) && SplittableEntry(f) && RawText(e) == RawText(f)
    ensures e == f
  {
    var x := if e.1.Some? then "=" + Encode(e.1.value) else "";
    var y := if f.1.Some? then "=" + Encode(f.1.value) else "";
    SplitsAgree(e.0, x, f.0, y, IsEqualSign);
    if e.1.Some? {
      assert x[1..] == Encode(e.1.value) && y[1..] == Encode(f.1.value);
      EncodeInjective(e.1.value, f.1.value);
    }
  }

  /** What follows the first entry: nothing, or a separator and the other entries. */
  function RawTail(es: seq<Entry>): string
    requires es != [] && AllBytes(es)
  {
    if |es| == 1 then "" else "&" + RawJoined(es[1..])
  }

  lemma RawHead(es: seq<Entry>)
    requires es != [] && AllBytes(es)
    ensures RawJoined(es) == RawText(es[0]) + RawTail(es)
  {
    if |es| > 1 {
      RawJoinedCons(es);
    }
  }

  lemma HeadsAgree(es: seq<Entry>, fs: seq<Entry>)
    requires es != [] && fs != [] && Splittable(es) && Splittable(fs) && RawJoined(es) == RawJoined(fs)
    ensures es[0] == fs[0] && RawTail(es) == RawTail(fs)
  {
    RawHead(es);
    RawHead(fs);
    RawTextHasNoAmpersand(es[0]);
    RawTextHasNoAmpersand(fs[0]);
    SplitsAgree(RawText(es[0]), RawTail(es), RawText(fs[0]), RawTail(fs), IsAmpersand);
    RawTextInjective(es[0], fs[0]);
  }

  lemma TailsAgree(es: seq<Entry>, fs: seq<Entry>)
    requires es != [] && fs != [] && AllBytes(es) && AllBytes(fs) && RawTail(es) == RawTail(fs)
    ensures |es| == 1 <==> |fs| == 1
    ensures |es| > 1 ==> RawJoined(es[1..]) == RawJoined(fs[1..])
  {
    if |es| > 1 && |fs| > 1 {
      assert RawTail(es)[1..] == RawJoined(es[1..]) && RawTail(fs)[1..] == RawJoined(fs[1..]);
    }
  }

  lemma {:induction false} RawJoinedInjective(es: seq<Entry>, fs: seq<Entry>)
    requires es != [] && fs != [] && Splittable(es) && Splittable(fs) && RawJoined(es) == RawJoined(fs)
    ensures es == fs
    decreases |es|
  {
    HeadsAgree(es, fs);
    TailsAgree(es, fs);
    if |es| > 1 {
      RawJoinedInjective(es[1..], fs[1..]);
    }
    assert es == [es[0]] + es[1..] && fs == [fs[0]] + fs[1..];
  }

  /** Different topics have different ZMQ strings, unless a key contains a separator. */
  lemma ZmqTextInjective(a: Topic, b: Topic)
    requires IsValidServiceName(a.service) && IsValidServiceName(b.service)
    requires Splittable(a.params) && Splittable(b.params) && ZmqText(a) == ZmqText(b)
    ensures a == b
  {
    ServiceText(a.service);
    ServiceText(b.service);
    var x := (if a.params == [] then "" else "?" + RawJoined(a.params)) + "#";
    var y := (if b.params == [] then "" else "?" + RawJoined(b.params)) + "#";
    assert ZmqText(a) == a.service + x && ZmqText(b) == b.service + y;
    SplitsAgree(a.service, x, b.service, y, EndsService);
    if a.params != [] {
      assert x[1..|x| - 1] == RawJoined(a.params) && y[1..|y| - 1] == RawJoined(b.params);
      RawJoinedInjective(a.params, b.params);
    }
  }

  /** A key with a separator can pass for a key and its value. */
  lemma SeparatorInKeyConfuses()
    ensures ZmqText(Topic("/s", [("a=b", None)])) == ZmqText(Topic("/s", [("a", Some("b"))]))
  {
    var bare: seq<Entry> := [("a=b", None)];
    var valued: seq<Entry> := [("a", Some("b"))];
    UnreservedIsFixed("b");
    assert RawText(valued[0]) == "a" + ("=" + "b") == "a=b" == RawText(bare[0]);
    assert RawTexts(valued) == [RawText(valued[0])] == [RawText(bare[0])] == RawTexts(bare);
  }

  /** Keys are printed as they are, so they could contain the character that closes the text. */
  predicate HashFree(es: seq<Entry>) {
    forall i | 0 <= i < |es| :: NoHash(es[i].0)
  }

  lemma AppendedText(a: string, b: string)
    ensures NoHash(a + b) <==> NoHash(a) && NoHash(b)
    ensures IsBytes(a + b) <==> IsBytes(a) && IsBytes(b)
  {
    var s := a + b;
    assert forall i | 0 <= i < |a| :: s[i] == a[i];
    assert forall i | 0 <= i < |b| :: s[|a| + i] == b[i];
  }

  lemma RawTextHashIff(e: Entry)
    requires EntryBytes(e)
    ensures NoHash(RawText(e)) <==> NoHash(e.0)
    ensures IsBytes(RawText(e))
  {
    if e.1.Some? {
      var value := Encode(e.1.value);
      EncodedIsBytes(e.1.value);
      EncodedHasNoSeparator(e.1.value);
      assert NoHash(value) by {
        forall i | 0 <= i < |value| ensures value[i] != '#' {
          assert IsQueryChar(value[i]);
        }
      }
      AppendedText("=", value);
      AppendedText(e.0, "=" + value);
    } else {
      assert RawText(e) == e.0;
    }
  }

  lemma {:induction false} RawJoinedHashIff(es: seq<Entry>)
    requires es != [] && AllBytes(es)
    ensures NoHash(RawJoined(es)) <==> HashFree(es)
    ensures IsBytes(RawJoined(es))
    decreases |es|
  {
    RawHead(es);
    RawTextHashIff(es[0]);
    AppendedText(RawText(es[0]), RawTail(es));
    if |es| > 1 {
      var rest := es[1..];
      RawJoinedHashIff(rest);
      AppendedText("&", RawJoined(rest));
      assert HashFree(es) <==> NoHash(es[0].0) && HashFree(rest) by {
        assert forall i | 0 <= i < |rest| :: rest[i] == es[i + 1];
        assert HashFree(rest) ==> forall i | 0 < i < |es| :: es[i] == rest[i - 1];
      }
    }
  }

  lemma OneHash(t: Topic)
    requires IsValidServiceName(t.service) && AllBytes(t.params) && HashFree(t.params)
    ensures var text := ZmqText(t);
            forall i | 0 <= i < |text| :: text[i] == '#' <==> i == |text| - 1
  {
    ServiceText(t.service);
    if t.params != [] {
      RawJoinedHashIff(t.params);
    }
  }

  /**
   ZMQ delivers what starts with the subscribed string. Because of the closing '#' that is only
   ever the subscribed topic itself, as long as no published key contains that character.
   */
  lemma PrefixSubscriptionIsExact(subscribed: Topic, published: Topic)
    requires IsValidServiceName(subscribed.service) && IsValidServiceName(published.service)
    requires Splittable(subscribed.params) && Splittable(published.params) && HashFree(published.params)
    ensures ZmqText(subscribed) <= ZmqText(published) <==> subscribed == published
  {
    var a, b := ZmqText(subscribed), ZmqText(published);
    if a <= b {
      OneHash(published);
      assert a[|a| - 1] == '#';
      assert b[|a| - 1] == '#';
      assert a == b;
      ZmqTextInjective(subscribed, published);
    }
  }

  lemma BareTopicText(service: string, key: string)
    requires IsBytes(key)
    ensures ZmqText(Topic(service, [(key, None)])) == service + ("?" + (key + "#"))
  {
    var es: seq<Entry> := [(key, None)];
    assert RawText(es[0]) == key;
    assert RawTexts(es) == [key];
    assert RawJoined(es) == key;
  }

  lemma CutAtHash(service: string, joined: string, i: nat)
    requires i < |joined| && joined[i] == '#'
    ensures service + ("?" + (joined[..i] + "#")) < service + ("?" + joined) + "#"
  {
    assert joined[..i] + "#" == joined[..i + 1];
    assert joined == joined[..i + 1] + joined[i + 1..];
  }

  /** Every topic with such a key is also delivered to a subscriber of another topic. */
  lemma HashInKeyOverMatches(published: Topic) returns (subscribed: Topic)
    requires AllBytes(published.params) && !HashFree(published.params)
    ensures subscribed.service == published.service && AllBytes(subscribed.params)
    ensures subscribed != published && ZmqText(subscribed) < ZmqText(published)
  {
    var joined := RawJoined(published.params);
    RawJoinedHashIff(published.params);
    var i :| 0 <= i < |joined| && joined[i] == '#';
    assert IsBytes(joined[..i]);
    subscribed := Topic(published.service, [(joined[..i], None)]);
    BareTopicText(published.service, joined[..i]);
    CutAtHash(published.service, joined, i);
    assert ZmqText(published) == published.service + ("?" + joined) + "#";
  }

  /** The shortest case: a subscriber of `a` gets what is published for `a#b`. */
  lemma HashExample()
    ensures ZmqText(Topic("/s", [("a", None)])) < ZmqText(Topic("/s", [("a#b", None)]))
  {
    BareTopicText("/s", "a");
    BareTopicText("/s", "a#b");
  }

  // ----- the round trip through the MDP URI -------------------------------------------------------

  /**
   `toMdpTopic` prints the parameters in the enumeration order of a hash map; reading the URI
   back gives the topic exactly when that order round-trips.
   */
  lemma MdpRoundTripIff(t: Topic, order: seq<Entry>)
    requires IsValidServiceName(t.service) && Sorted(t.params)
    requires Entries(order) && MapOf(order) == MapOf(t.params)
    ensures var uri := ParseUri(UriText("", "", t.service, Printed("", order)), true);
            && uri.Ok?
            && FromMdpTopic(uri.value).Ok?
            && (Yields(FromMdpTopic(uri.value).value, t) <==> RoundTrips(order))
  {
    ServiceText(t.service);
    BuiltUriRoundTripsIff("", "", t.service, order, true);
    QueryRoundTripIff(order, true);
    ServiceOfText(t.service, "");
    assert t.service + "" == t.service;
  }
}
