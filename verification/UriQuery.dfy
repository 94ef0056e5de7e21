/**
 The query of a URI as a map of parameters (section 3.4 of RFC 3986): parsing it, printing it in
 any enumeration order of the map, and when the two fit together.
 */
module UriQuery {
  import opened Wrappers
  import opened Uri

  type Params = map<string, Option<string>>

  type Entry = (string, Option<string>)

  predicate EndsKey(c: char) { c == '=' || c == ';' || c == '&' }
  predicate EndsValue(c: char) { c == ';' || c == '&' }
  predicate IsQueryChar(c: char) { IsUnreserved(c) || EndsKey(c) || c == '%' || c == ':' || c == '/' }

  /** The separators and the alphabet of a query, written out. */
  lemma QueryAlphabet(c: char)
    ensures EndsKey(c) <==> c in "=;&"
    ensures EndsValue(c) <==> c in ";&"
    ensures IsQueryChar(c) <==> InTables(c) || c in "-_.~=;&%:/"
  {
    AlnumIff(c);
  }

  // ----- parsing -----------------------------------------------------------------------------

  /** Behind `key=`: leaves the unread text and the map so far. */
  function ParseValue(key: string, rest: string, m: Params, strict: bool): (r: Result<(string, Params), UriError>)
    ensures r.Ok? ==> |r.value.0| <= |rest|
  {
    if rest == "" then Ok(("", m[key := None]))
    else
      var valueEnd := FirstWhere(rest, EndsValue);
      var value :- Decode(rest[..valueEnd], strict);
      if valueEnd < |rest| then Ok((rest[valueEnd + 1..], m[key := Some(value)]))
      else Ok(("", m[key := if value == "" then None else Some(value)]))
  }

  function ParseAfterKey(key: Result<string, UriError>, separator: char, rest: string, m: Params, strict: bool)
    : (r: Result<(string, Params), UriError>)
    ensures r.Ok? ==> |r.value.0| <= |rest|
  {
    if key.Err? then Err(key.error)
    else if separator != '=' then Ok((rest, m[key.value := None]))
    else ParseValue(key.value, rest, m, strict)
  }

  /** One turn of the parse loop. */
  function ParseEntry(q: string, m: Params, strict: bool): (r: Result<(string, Params), UriError>)
    requires q != ""
    ensures r.Ok? ==> |r.value.0| < |q|
  {
    var keyEnd := FirstWhere(q, EndsKey);
    if keyEnd == |q| then Ok(("", m[q := None]))
    else ParseAfterKey(Decode(q[..keyEnd], strict), q[keyEnd], q[keyEnd + 1..], m, strict)
  }

  function ParseEntries(q: string, m: Params, strict: bool): Result<Params, UriError>
    decreases |q|
  {
    if q == "" then Ok(m)
    else
      var (rest, m') :- ParseEntry(q, m, strict);
      ParseEntries(rest, m', strict)
  }

  function QueryMap(query: string, strict: bool): Result<Params, UriError> {
    if strict && !All(query, IsQueryChar) then Err(IllegalQuery)
    else ParseEntries(query, map[], strict)
  }

  method QueryParamMap(query: string, strict: bool) returns (r: Result<Params, UriError>)
    ensures r == QueryMap(query, strict)
  {
    if strict && !All(query, IsQueryChar) {
      return Err(IllegalQuery);
    }
    var queryMap: Params := map[];
    var readPos := 0;
    assert query[0..] == query;
    while readPos < |query|
      invariant 0 <= readPos <= |query|
      invariant ParseEntries(query[readPos..], queryMap, strict) == QueryMap(query, strict)
      decreases |query| - readPos
    {
      var step, next := ReadEntry(query, readPos, queryMap, strict);
      if step.Err? {
        return Err(step.error);
      }
      queryMap := step.value;
      readPos := next;
    }
    assert query[readPos..] == "";
    r := Ok(queryMap);
  }

  lemma Slices(query: string, start: nat, end: nat)
    requires start <= end < |query|
    ensures query[start..end] == query[start..][..end - start]
    ensures query[start..][end - start + 1..] == query[end + 1..]
  {
  }

  /** The body of the parse loop, in positions of the query; a `break` is the end of the query. */
  method ReadEntry(query: string, readPos: nat, queryMap: Params, strict: bool)
    returns (r: Result<Params, UriError>, next: nat)
    requires readPos < |query|
    ensures r.Ok? ==> readPos < next <= |query|
    ensures ParseEntry(query[readPos..], queryMap, strict) ==
            if r.Ok? then Ok((query[next..], r.value)) else Err(r.error)
  {
    var keyEnd := readPos + FirstWhere(query[readPos..], EndsKey);
    if keyEnd == |query| {
      next := |query|;
      assert query[next..] == "";
      return Ok(queryMap[query[readPos..] := None]), next;
    }
    Slices(query, readPos, keyEnd);
    var key := DecodeText(query[readPos..keyEnd], strict);
    r, next := ReadAfterKey(query, keyEnd, key, queryMap, strict);
  }

  method ReadAfterKey(query: string, keyEnd: nat, key: Result<string, UriError>, queryMap: Params, strict: bool)
    returns (r: Result<Params, UriError>, next: nat)
    requires keyEnd < |query|
    ensures r.Ok? ==> keyEnd < next <= |query|
    ensures ParseAfterKey(key, query[keyEnd], query[keyEnd + 1..], queryMap, strict) ==
            if r.Ok? then Ok((query[next..], r.value)) else Err(r.error)
  {
    if key.Err? {
      return Err(key.error), keyEnd;
    }
    if query[keyEnd] != '=' {
      return Ok(queryMap[key.value := None]), keyEnd + 1;
    }
    r, next := ReadValue(query, keyEnd + 1, key.value, queryMap, strict);
  }

  method ReadValue(query: string, readPos: nat, key: string, queryMap: Params, strict: bool)
    returns (r: Result<Params, UriError>, next: nat)
    requires readPos <= |query|
    ensures r.Ok? ==> readPos <= next <= |query|
    ensures ParseValue(key, query[readPos..], queryMap, strict) ==
            if r.Ok? then Ok((query[next..], r.value)) else Err(r.error)
  {
    next := |query|;
    assert query[next..] == "";
    if readPos == |query| {
      return Ok(queryMap[key := None]), next;
    }
    ghost var rest := query[readPos..];
    var valueEnd := readPos + FirstWhere(query[readPos..], EndsValue);
    assert query[readPos..valueEnd] == rest[..valueEnd - readPos];
    var value := DecodeText(query[readPos..valueEnd], strict);
    if value.Err? {
      return Err(value.error), next;
    }
    if valueEnd < |query| {
      assert rest[valueEnd - readPos + 1..] == query[valueEnd + 1..];
      return Ok(queryMap[key := Some(value.value)]), valueEnd + 1;
    }
    r := Ok(queryMap[key := if value.value == "" then None else Some(value.value)]);
  }

  // ----- printing ------------------------------------------------------------------------------

  predicate EntryBytes(e: Entry) {
    IsBytes(e.0) && (e.1.Some? ==> IsBytes(e.1.value))
  }

  predicate AllBytes(es: seq<Entry>) {
    forall i | 0 <= i < |es| :: EntryBytes(es[i])
  }

  predicate Distinct(es: seq<Entry>) {
    forall i, j | 0 <= i < j < |es| :: es[i].0 != es[j].0
  }

  predicate Entries(es: seq<Entry>) {
    AllBytes(es) && Distinct(es)
  }

  function EntryText(e: Entry): string
    requires EntryBytes(e)
  {
    Encode(e.0) + (if e.1.Some? then "=" + Encode(e.1.value) else "")
  }

  function Printed(query: string, es: seq<Entry>): string
    requires AllBytes(es)
    decreases |es|
  {
    if es == [] then query
    else Printed(query + (if query == "" then "" else "&") + EntryText(es[0]), es[1..])
  }

  /** The loop of `UriFactory::toString` over the parameter map, in its enumeration order. */
  method PrintQuery(es: seq<Entry>) returns (query: string)
    requires Entries(es)
    ensures query == Printed("", es)
  {
    query := "";
    assert es[0..] == es;
    for i := 0 to |es|
      invariant Printed(query, es[i..]) == Printed("", es)
    {
      var ampersand := if query == "" then "" else "&";
      var encodedKey := EncodeText(es[i].0);
      var encodedValue := "";
      if es[i].1.Some? {
        encodedValue := EncodeText(es[i].1.value);
        encodedValue := "=" + encodedValue;
      }
      assert es[i..][1..] == es[i + 1..];
      assert query + ampersand + (encodedKey + encodedValue) == query + ampersand + EntryText(es[i]);
      query := query + ampersand + (encodedKey + encodedValue);
    }
  }

  function MapOf(es: seq<Entry>): Params {
    if es == [] then map[] else MapOf(es[..|es| - 1])[es[|es| - 1].0 := es[|es| - 1].1]
  }

  // ----- what printing and then parsing does -----------------------------------------------------

  function Joined(es: seq<Entry>): string
    requires es != [] && AllBytes(es)
  {
    if |es| == 1 then EntryText(es[0]) else EntryText(es[0]) + ("&" + Joined(es[1..]))
  }

  /** The last entry is read differently: a bare key is not decoded, an empty value is dropped. */
  function ReadLast(e: Entry, m: Params): Params
    requires EntryBytes(e)
  {
    if e.1.Some? then m[e.0 := if e.1.value == "" then None else e.1]
    else if e.0 == "" then m
    else m[Encode(e.0) := None]
  }

  function ReadBack(es: seq<Entry>, m: Params): Params
    requires es != [] && AllBytes(es)
  {
    if |es| == 1 then ReadLast(es[0], m) else ReadBack(es[1..], m[es[0].0 := es[0].1])
  }

  lemma EncodedHasNoSeparator(s: string)
    requires IsBytes(s)
    ensures All(Encode(s), IsQueryChar)
    ensures forall i | 0 <= i < |Encode(s)| :: !EndsKey(Encode(s)[i]) && !EndsValue(Encode(s)[i])
  {
    EncodeAlphabet(s);
    forall i | 0 <= i < |Encode(s)| ensures IsQueryChar(Encode(s)[i]) && !EndsKey(Encode(s)[i]) {
      assert IsEncodedChar(Encode(s)[i]);
    }
  }

  lemma EncodeEmptyIff(s: string)
    requires IsBytes(s)
    ensures Encode(s) == "" <==> s == ""
  {
    EncodeLonger(s);
  }

  lemma ParseKeyText(k: string, key: string, rest: string, m: Params, strict: bool)
    requires forall i | 0 <= i < |k| :: !EndsKey(k[i])
    requires Decode(k, strict) == Ok(key)
    ensures ParseEntry(k + ("=" + rest), m, strict) == ParseValue(key, rest, m, strict)
  {
    var q := k + ("=" + rest);
    FirstWhereIs(k, "=" + rest, EndsKey);
    assert q[..|k|] == k;
    assert q[|k| + 1..] == rest;
  }

  /** An encoded value followed by `tail`, which is empty or starts with the separator. */
  lemma ParseValueText(v: string, key: string, value: string, tail: string, m: Params, strict: bool)
    requires forall i | 0 <= i < |v| :: !EndsValue(v[i])
    requires Decode(v, strict) == Ok(value)
    requires v == "" <==> value == ""
    requires tail == "" || tail[0] == '&'
    ensures ParseValue(key, v + tail, m, strict) ==
            if tail == "" then Ok(("", m[key := if value == "" then None else Some(value)]))
            else Ok((tail[1..], m[key := Some(value)]))
  {
    var rest := v + tail;
    FirstWhereIs(v, tail, EndsValue);
    assert rest[..|v|] == v;
    if tail != "" {
      assert rest[|v| + 1..] == tail[1..];
    }
  }

  lemma ParseValueEntry(key: string, value: string, tail: string, m: Params, strict: bool)
    requires IsBytes(key) && IsBytes(value) && (tail == "" || tail[0] == '&')
    ensures ParseEntry(Encode(key) + ("=" + (Encode(value) + tail)), m, strict) ==
            if tail == "" then Ok(("", m[key := if value == "" then None else Some(value)]))
            else Ok((tail[1..], m[key := Some(value)]))
  {
    EncodedHasNoSeparator(key);
    EncodedHasNoSeparator(value);
    DecodeEncode(key, strict);
    DecodeEncode(value, strict);
    EncodeEmptyIff(value);
    ParseKeyText(Encode(key), key, Encode(value) + tail, m, strict);
    ParseValueText(Encode(value), key, value, tail, m, strict);
  }

  lemma ParseBareText(k: string, key: string, tail: string, m: Params, strict: bool)
    requires forall i | 0 <= i < |k| :: !EndsKey(k[i])
    requires Decode(k, strict) == Ok(key)
    requires tail != "" && tail[0] == '&'
    ensures ParseEntry(k + tail, m, strict) == Ok((tail[1..], m[key := None]))
  {
    FirstWhereIs(k, tail, EndsKey);
    assert (k + tail)[..|k|] == k;
    assert (k + tail)[|k| + 1..] == tail[1..];
  }

  lemma ParseLastEntry(e: Entry, m: Params, strict: bool)
    requires EntryBytes(e)
    ensures ParseEntries(EntryText(e), m, strict) == Ok(ReadLast(e, m))
  {
    var k := Encode(e.0);
    if e.1.Some? {
      ParseValueEntry(e.0, e.1.value, "", m, strict);
      assert EntryText(e) == k + ("=" + (Encode(e.1.value) + ""));
    } else {
      EncodeEmptyIff(e.0);
      EncodedHasNoSeparator(e.0);
      assert EntryText(e) == k == k + "";
      FirstWhereIs(k, "", EndsKey);
    }
  }

  lemma EntryTextBefore(e: Entry, tail: string)
    requires EntryBytes(e)
    ensures EntryText(e) + tail ==
            Encode(e.0) + (if e.1.Some? then "=" + (Encode(e.1.value) + tail) else tail)
  {
  }

  lemma ParseFirstEntry(e: Entry, later: string, m: Params, strict: bool)
    requires EntryBytes(e)
    ensures ParseEntries(EntryText(e) + ("&" + later), m, strict) == ParseEntries(later, m[e.0 := e.1], strict)
  {
    var tail := "&" + later;
    var q := EntryText(e) + tail;
    assert tail[1..] == later;
    assert ParseEntry(q, m, strict) == Ok((later, m[e.0 := e.1])) by {
      EntryTextBefore(e, tail);
      if e.1.Some? {
        ParseValueEntry(e.0, e.1.value, tail, m, strict);
      } else {
        EncodedHasNoSeparator(e.0);
        DecodeEncode(e.0, strict);
        ParseBareText(Encode(e.0), e.0, tail, m, strict);
      }
    }
  }

  lemma {:induction false} ParseJoined(es: seq<Entry>, m: Params, strict: bool)
    requires es != [] && AllBytes(es)
    ensures ParseEntries(Joined(es), m, strict) == Ok(ReadBack(es, m))
    decreases |es|
  {
    if |es| == 1 {
      ParseLastEntry(es[0], m, strict);
    } else {
      ParseFirstEntry(es[0], Joined(es[1..]), m, strict);
      ParseJoined(es[1..], m[es[0].0 := es[0].1], strict);
    }
  }

  lemma EntryTextIsQuery(e: Entry)
    requires EntryBytes(e)
    ensures All(EntryText(e), IsQueryChar)
    ensures EntryText(e) == "" <==> e == ("", None)
  {
    EncodedHasNoSeparator(e.0);
    EncodeEmptyIff(e.0);
    if e.1.Some? {
      EncodedHasNoSeparator(e.1.value);
    }
  }

  lemma {:induction false} JoinedIsQuery(es: seq<Entry>)
    requires es != [] && AllBytes(es)
    ensures All(Joined(es), IsQueryChar)
    decreases |es|
  {
    EntryTextIsQuery(es[0]);
    if |es| > 1 {
      JoinedIsQuery(es[1..]);
    }
  }

  lemma Regroup(query: string, text: string, later: string)
    ensures query + "&" + text == query + ("&" + text)
    ensures query + "&" + text + ("&" + later) == query + ("&" + (text + ("&" + later)))
  {
  }

  lemma {:induction false} PrintedBehind(query: string, es: seq<Entry>)
    requires query != "" && AllBytes(es)
    ensures Printed(query, es) == if es == [] then query else query + ("&" + Joined(es))
    decreases |es|
  {
    if es != [] {
      PrintedBehind(query + "&" + EntryText(es[0]), es[1..]);
      Regroup(query, EntryText(es[0]), if |es| > 1 then Joined(es[1..]) else "");
    }
  }

  /** A bare empty key in front leaves no trace, not even a separator. */
  lemma PrintedIsJoined(es: seq<Entry>)
    requires es != [] && AllBytes(es)
    ensures es[0] != ("", None) ==> Printed("", es) == Joined(es)
    ensures es[0] == ("", None) ==> Printed("", es) == Printed("", es[1..])
  {
    EntryTextIsQuery(es[0]);
    var text := EntryText(es[0]);
    assert "" + "" + text == text;
    if text != "" {
      PrintedBehind(text, es[1..]);
    }
  }

  // ----- when the round trip works --------------------------------------------------------------

  /** An entry that survives in the last position. */
  predicate Sturdy(e: Entry) {
    if e.1.Some? then e.1.value != "" else e.0 != "" && All(e.0, IsUnreserved)
  }

  predicate AllSturdy(es: seq<Entry>) {
    forall i | 0 <= i < |es| :: Sturdy(es[i])
  }

  predicate RoundTrips(es: seq<Entry>) {
    es == [] || (es[0] != ("", None) && Sturdy(es[|es| - 1]))
  }

  lemma Prepended<K, V>(m: map<K, V>, key: K, value: V, rest: map<K, V>)
    ensures m[key := value] + rest == m + (map[key := value] + rest)
  {
  }

  lemma {:induction false} ReadBackIs(es: seq<Entry>, m: Params)
    requires es != [] && AllBytes(es)
    ensures ReadBack(es, m) == ReadLast(es[|es| - 1], m + MapOf(es[..|es| - 1]))
    decreases |es|
  {
    var n := |es| - 1;
    if n == 0 {
      assert es[..0] == [];
      assert m + map[] == m;
    } else {
      ReadBackIs(es[1..], m[es[0].0 := es[0].1]);
      MapOfCons(es[..n]);
      assert es[1..][..n - 1] == es[..n][1..];
      Prepended(m, es[0].0, es[0].1, MapOf(es[..n][1..]));
    }
  }

  lemma {:induction false} MapOfCons(es: seq<Entry>)
    requires es != []
    ensures MapOf(es) == map[es[0].0 := es[0].1] + MapOf(es[1..])
    decreases |es|
  {
    var n := |es| - 1;
    if n > 0 {
      MapOfCons(es[..n]);
      assert es[..n][1..] == es[1..][..n - 1];
    }
  }

  lemma {:induction false} MapOfKeys(es: seq<Entry>, key: string)
    ensures key in MapOf(es) <==> exists i :: 0 <= i < |es| && es[i].0 == key
  {
    if es != [] {
      var n := |es| - 1;
      MapOfKeys(es[..n], key);
      if key in MapOf(es) && key != es[n].0 {
        var i :| 0 <= i < n && es[..n][i].0 == key;
        assert es[i].0 == key;
      }
      if exists i :: 0 <= i < n && es[i].0 == key {
        var i :| 0 <= i < n && es[i].0 == key;
        assert es[..n][i].0 == key;
      }
    }
  }

  /** A joined query is read entry by entry; only the last one meets the end of the text. */
  lemma JoinedReads(es: seq<Entry>, strict: bool)
    requires es != [] && AllBytes(es)
    ensures QueryMap(Joined(es), strict) == Ok(ReadLast(es[|es| - 1], MapOf(es[..|es| - 1])))
  {
    JoinedIsQuery(es);
    ParseJoined(es, map[], strict);
    ReadBackIs(es, map[]);
    var front := MapOf(es[..|es| - 1]);
    assert map[] + front == front;
  }

  /**
   Printing the parameters in this enumeration order and parsing the text gives the same map
   back exactly when the first entry is not a bare empty key, and the last entry has a non-empty
   value or is a bare key of unreserved characters. Nothing is asked of the entries in between.
   */
  lemma QueryRoundTripIff(es: seq<Entry>, strict: bool)
    requires Entries(es)
    ensures QueryMap(Printed("", es), strict).Ok?
    ensures QueryMap(Printed("", es), strict) == Ok(MapOf(es)) <==> RoundTrips(es)
  {
    if es == [] {
    } else if es[0] == ("", None) {
      PrintedIsJoined(es);
      DroppedKeyIsLost(es, strict);
    } else {
      PrintedIsJoined(es);
      JoinedReads(es, strict);
      LastEntryIff(es, MapOf(es[..|es| - 1]));
    }
  }

  lemma LastEntryIff(es: seq<Entry>, front: Params)
    requires Entries(es) && es != [] && front == MapOf(es[..|es| - 1])
    ensures ReadLast(es[|es| - 1], front) == MapOf(es) <==> Sturdy(es[|es| - 1])
  {
    var n := |es| - 1;
    var e := es[n];
    UnreservedIsFixed(e.0);
    MapOfKeys(es[..n], e.0);
    assert e.0 !in front;
    if e.1.Some? && e.1.value == "" {
      assert ReadLast(e, front)[e.0] == None;
    } else if e.1.None? && !Sturdy(e) {
      assert e.0 !in ReadLast(e, front);
    }
  }

  lemma DroppedKeyIsLost(es: seq<Entry>, strict: bool)
    requires Entries(es) && es != [] && es[0] == ("", None)
    ensures QueryMap(Printed("", es[1..]), strict).Ok?
    ensures QueryMap(Printed("", es[1..]), strict) != Ok(MapOf(es))
  {
    MapOfKeys(es, "");
    var rest := es[1..];
    if rest != [] {
      assert rest[0].0 == es[1].0 != "";
      PrintedIsJoined(rest);
      JoinedReads(rest, strict);
      var n := |rest| - 1;
      assert "" !in MapOf(rest[..n]) by {
        MapOfKeys(rest[..n], "");
        assert forall i | 0 <= i < |rest| :: rest[i].0 == es[i + 1].0 != "";
      }
      EncodeEmptyIff(rest[n].0);
      assert "" !in ReadLast(rest[n], MapOf(rest[..n]));
    }
  }

  predicate Permuted(es: seq<Entry>, fs: seq<Entry>) {
    multiset(es) == multiset(fs)
  }

  lemma {:induction false} MapOfEntry(es: seq<Entry>, i: nat)
    requires Entries(es) && i < |es|
    ensures es[i].0 in MapOf(es) && MapOf(es)[es[i].0] == es[i].1
  {
    var n := |es| - 1;
    if i < n {
      MapOfEntry(es[..n], i);
      assert es[..n][i] == es[i];
    }
  }

  lemma SameElements(es: seq<Entry>, fs: seq<Entry>)
    requires Permuted(es, fs)
    ensures forall i | 0 <= i < |fs| :: exists j :: 0 <= j < |es| && es[j] == fs[i]
  {
    forall i | 0 <= i < |fs| ensures exists j :: 0 <= j < |es| && es[j] == fs[i] {
      assert fs[i] in multiset(fs);
      assert fs[i] in multiset(es);
      var j :| 0 <= j < |es| && es[j] == fs[i];
    }
  }

  lemma MapOfIncludes(es: seq<Entry>, fs: seq<Entry>)
    requires Entries(es) && Entries(fs) && Permuted(es, fs)
    ensures forall key | key in MapOf(fs) :: key in MapOf(es) && MapOf(es)[key] == MapOf(fs)[key]
  {
    SameElements(es, fs);
    forall key | key in MapOf(fs) ensures key in MapOf(es) && MapOf(es)[key] == MapOf(fs)[key] {
      MapOfKeys(fs, key);
      var i :| 0 <= i < |fs| && fs[i].0 == key;
      MapOfEntry(fs, i);
      var j :| 0 <= j < |es| && es[j] == fs[i];
      MapOfEntry(es, j);
    }
  }

  /** The order of distinct entries does not matter for the map. */
  lemma PermutedMapOf(es: seq<Entry>, fs: seq<Entry>)
    requires Entries(es) && Entries(fs) && Permuted(es, fs)
    ensures MapOf(es) == MapOf(fs)
  {
    MapOfIncludes(es, fs);
    MapOfIncludes(fs, es);
  }

  ghost predicate EveryOrderRoundTrips(es: seq<Entry>, strict: bool)
    requires Entries(es)
  {
    forall fs | Permuted(es, fs) && Entries(fs) :: QueryMap(Printed("", fs), strict) == Ok(MapOf(es))
  }

  lemma SturdyOrderRoundTrips(es: seq<Entry>, fs: seq<Entry>, strict: bool)
    requires Entries(es) && Entries(fs) && Permuted(es, fs)
    requires AllSturdy(es)
    ensures QueryMap(Printed("", fs), strict) == Ok(MapOf(es))
  {
    SameElements(es, fs);
    assert RoundTrips(fs);
    QueryRoundTripIff(fs, strict);
    PermutedMapOf(es, fs);
  }

  lemma WeakEntryBreaksAnOrder(es: seq<Entry>, i: nat, strict: bool)
    requires Entries(es) && i < |es| && !Sturdy(es[i])
    ensures !EveryOrderRoundTrips(es, strict)
  {
    var fs := es[..i] + es[i + 1..] + [es[i]];
    MovedLast(es, i);
    assert !RoundTrips(fs);
    QueryRoundTripIff(fs, strict);
    PermutedMapOf(es, fs);
  }

  /**
   The same map comes back whatever order the hash map enumerates its entries in, exactly when
   every entry is sturdy.
   */
  lemma EveryOrderRoundTripsIff(es: seq<Entry>, strict: bool)
    requires Entries(es)
    ensures EveryOrderRoundTrips(es, strict) <==> AllSturdy(es)
  {
    if AllSturdy(es) {
      forall fs | Permuted(es, fs) && Entries(fs)
        ensures QueryMap(Printed("", fs), strict) == Ok(MapOf(es))
      {
        SturdyOrderRoundTrips(es, fs, strict);
      }
    } else {
      var i :| 0 <= i < |es| && !Sturdy(es[i]);
      WeakEntryBreaksAnOrder(es, i, strict);
    }
  }

  lemma MovedLast(es: seq<Entry>, i: nat)
    requires i < |es| && Entries(es)
    ensures var fs := es[..i] + es[i + 1..] + [es[i]];
            Permuted(es, fs) && Entries(fs)
  {
    var rest := es[..i] + es[i + 1..];
    assert es == es[..i] + [es[i]] + es[i + 1..];
    assert forall k | 0 <= k < |rest| :: rest[k] == es[if k < i then k else k + 1];
    EntriesSnoc(rest, es[i]);
  }

  lemma QueryTextIsQueryable(query: string, strict: bool)
    requires All(query, IsQueryChar)
    ensures Queryable(query, strict)
  {
    forall i | 0 <= i < |query| ensures IsUriChar(query[i]) && !IsHash(query[i]) {
      assert IsQueryChar(query[i]);
    }
  }

  lemma {:induction false} PrintedIsQuery(es: seq<Entry>)
    requires Entries(es)
    ensures All(Printed("", es), IsQueryChar)
  {
    if es != [] {
      PrintedIsJoined(es);
      if es[0] == ("", None) {
        PrintedIsQuery(es[1..]);
      } else {
        JoinedIsQuery(es);
      }
    }
  }

  /**
   A URI built from a scheme, an authority, a path and a parameter map parses into the same
   components, and into the same map exactly when the enumeration order round-trips.
   */
  lemma BuiltUriRoundTripsIff(scheme: string, authority: string, path: string, es: seq<Entry>, strict: bool)
    requires Addressable(scheme, authority, path, strict) && Entries(es)
    ensures var query := Printed("", es);
            && ParseUri(UriText(scheme, authority, path, query), strict)
               == Ok(Components(scheme, authority, path, query, ""))
            && (QueryMap(query, strict) == Ok(MapOf(es)) <==> RoundTrips(es))
  {
    PrintedIsQuery(es);
    QueryTextIsQueryable(Printed("", es), strict);
    BuildParses(scheme, authority, path, Printed("", es), strict);
    QueryRoundTripIff(es, strict);
  }

  // ----- rebuilding a query --------------------------------------------------------------------------

  /** The entries without the one of a key, in the same order. */
  function Erase(es: seq<Entry>, key: string): (fs: seq<Entry>)
    ensures AllBytes(es) ==> AllBytes(fs)
  {
    if es == [] then []
    else if es[0].0 == key then Erase(es[1..], key)
    else [es[0]] + Erase(es[1..], key)
  }

  lemma {:induction false} EraseElements(es: seq<Entry>, key: string)
    ensures forall e :: e in Erase(es, key) <==> e in es && e.0 != key
  {
    if es != [] {
      EraseElements(es[1..], key);
      assert es == [es[0]] + es[1..];
    }
  }

  lemma {:induction false} EraseSnoc(es: seq<Entry>, e: Entry, key: string)
    ensures Erase(es + [e], key) == if e.0 == key then Erase(es, key) else Erase(es, key) + [e]
  {
    if es == [] {
      assert [e][1..] == [];
    } else {
      EraseSnoc(es[1..], e, key);
      assert (es + [e])[1..] == es[1..] + [e];
    }
  }

  lemma {:induction false} EraseDistinct(es: seq<Entry>, key: string)
    requires Distinct(es)
    ensures Distinct(Erase(es, key))
  {
    if es != [] {
      EraseDistinct(es[1..], key);
      EraseElements(es[1..], key);
      var rest := Erase(es[1..], key);
      forall j | 0 <= j < |rest| ensures rest[j].0 != es[0].0 {
        var i :| 0 <= i < |es[1..]| && es[1..][i] == rest[j];
        assert es[i + 1] == rest[j];
      }
    }
  }

  lemma MinusHead<K, V>(key: K, value: V, rest: map<K, V>, erased: K)
    ensures (map[key := value] + rest) - {erased}
            == if key == erased then rest - {erased} else map[key := value] + (rest - {erased})
  {
  }

  lemma {:induction false} EraseMap(es: seq<Entry>, key: string)
    ensures MapOf(Erase(es, key)) == MapOf(es) - {key}
  {
    if es == [] {
      assert MapOf(es) - {key} == map[];
    } else {
      EraseMap(es[1..], key);
      MapOfCons(es);
      MinusHead(es[0].0, es[0].1, MapOf(es[1..]), key);
      if es[0].0 != key {
        MapOfCons(Erase(es, key));
        assert Erase(es, key)[1..] == Erase(es[1..], key);
      }
    }
  }

  lemma {:induction false} EraseAbsent(es: seq<Entry>, key: string)
    requires forall i | 0 <= i < |es| :: es[i].0 != key
    ensures Erase(es, key) == es
  {
    if es != [] {
      EraseAbsent(es[1..], key);
    }
  }

  /** The last entry as it is read back behind the others. */
  function LastEntry(front: seq<Entry>, e: Entry): (fs: seq<Entry>)
    requires AllBytes(front) && EntryBytes(e)
    ensures AllBytes(fs)
  {
    EncodedIsBytes(e.0);
    if e.1.Some? then front + [(e.0, if e.1.value == "" then None else e.1)]
    else if e.0 == "" then front
    else Erase(front, Encode(e.0)) + [(Encode(e.0), None)]
  }

  /** The parameters of a URI that is built from the given ones and parsed again. */
  function Rebuilt(es: seq<Entry>): (fs: seq<Entry>)
    requires AllBytes(es)
    ensures AllBytes(fs)
  {
    if es == [] then []
    else if es[0] == ("", None) then Rebuilt(es[1..])
    else LastEntry(es[..|es| - 1], es[|es| - 1])
  }

  lemma EncodedIsBytes(s: string)
    requires IsBytes(s)
    ensures IsBytes(Encode(s))
  {
    EncodeAlphabet(s);
    forall i | 0 <= i < |Encode(s)| ensures Encode(s)[i] as int < 256 {
      assert IsEncodedChar(Encode(s)[i]);
    }
  }

  lemma MapOfSnoc(front: seq<Entry>, e: Entry)
    ensures MapOf(front + [e]) == MapOf(front)[e.0 := e.1]
  {
    assert (front + [e])[..|front|] == front;
  }

  lemma EntriesSnoc(front: seq<Entry>, e: Entry)
    requires Entries(front) && EntryBytes(e) && forall i | 0 <= i < |front| :: front[i].0 != e.0
    ensures Entries(front + [e])
  {
  }

  lemma EntriesFront(front: seq<Entry>, e: Entry)
    requires Entries(front + [e])
    ensures Entries(front) && EntryBytes(e) && forall i | 0 <= i < |front| :: front[i].0 != e.0
  {
    var es := front + [e];
    assert es[|front|] == e;
    assert forall i | 0 <= i < |front| :: front[i] == es[i];
  }

  lemma Reassigned<K, V>(m: map<K, V>, key: K, value: V)
    ensures (m - {key})[key := value] == m[key := value]
  {
  }

  lemma EraseEntries(es: seq<Entry>, key: string)
    requires Entries(es)
    ensures Entries(Erase(es, key))
  {
    EraseDistinct(es, key);
  }

  lemma LastEntryEntries(front: seq<Entry>, e: Entry)
    requires AllBytes(front) && EntryBytes(e) && Entries(front + [e])
    ensures Entries(LastEntry(front, e))
    ensures MapOf(LastEntry(front, e)) == ReadLast(e, MapOf(front))
  {
    EntriesFront(front, e);
    if e.1.Some? {
      var last: Entry := (e.0, if e.1.value == "" then None else e.1);
      EntriesSnoc(front, last);
      MapOfSnoc(front, last);
    } else if e.0 != "" {
      var k := Encode(e.0);
      EncodedIsBytes(e.0);
      EraseEntries(front, k);
      EraseElements(front, k);
      EraseMap(front, k);
      EntriesSnoc(Erase(front, k), (k, None));
      MapOfSnoc(Erase(front, k), (k, None));
      Reassigned(MapOf(front), k, None);
    }
  }

  lemma LastOf(es: seq<Entry>, front: seq<Entry>, e: Entry)
    requires Entries(es) && es == front + [e]
    ensures AllBytes(front) && EntryBytes(e)
  {
    assert e == es[|front|];
    assert forall i | 0 <= i < |front| :: front[i] == es[i];
  }

  lemma RebuiltSplits(es: seq<Entry>, front: seq<Entry>, e: Entry)
    requires AllBytes(es) && es == front + [e] && es[0] != ("", None) && AllBytes(front) && EntryBytes(e)
    ensures Rebuilt(es) == LastEntry(front, e)
  {
    assert es[..|front|] == front;
  }

  lemma RebuiltJoined(es: seq<Entry>, strict: bool)
    requires Entries(es) && es != [] && es[0] != ("", None)
    ensures QueryMap(Printed("", es), strict) == Ok(MapOf(Rebuilt(es))) && Entries(Rebuilt(es))
  {
    var n := |es| - 1;
    var front, e := es[..n], es[n];
    LastOf(es, front, e);
    RebuiltSplits(es, front, e);
    LastEntryEntries(front, e);
    PrintedIsJoined(es);
    JoinedReads(es, strict);
  }

  /** What building a URI and parsing it makes of its parameters, for every enumeration order. */
  lemma RebuiltIs(es: seq<Entry>, strict: bool)
    requires Entries(es)
    ensures QueryMap(Printed("", es), strict) == Ok(MapOf(Rebuilt(es))) && Entries(Rebuilt(es))
  {
    if es != [] && es[0] == ("", None) {
      PrintedIsJoined(es);
      var rest := es[1..];
      assert forall i | 0 <= i < |rest| :: rest[i] == es[i + 1];
      if rest != [] {
        RebuiltJoined(rest, strict);
      }
    } else if es != [] {
      RebuiltJoined(es, strict);
    }
  }
}
