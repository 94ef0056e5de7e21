/**
 Timing contexts: four numbers, each possibly a wildcard, written as a selector text such as
 `FAIR.SELECTOR.C=1:S=2:P=3:T=4` and read back from it.
 */
module TimingCtx {
  import opened Wrappers
  import opened Text

  type int32 = x: int | -0x8000_0000 <= x < 0x8000_0000

  const WILDCARD: int32 := -1
  const WILDCARD_TEXT: string := "ALL"
  const PREFIX: string := "FAIR.SELECTOR."

  datatype Selector = Selector(cid: int32, sid: int32, pid: int32, gid: int32)

  const ALL := Selector(WILDCARD, WILDCARD, WILDCARD, WILDCARD)

  datatype Error = InvalidPrefix | ShortTag | InvalidFormat | InvalidNumber | UnknownKey

  // ----- reading --------------------------------------------------------------------------------------

  /** The first position of a character, or the length of the text. */
  function IndexOf(s: string, c: char): (i: nat)
    ensures i <= |s| && (i < |s| ==> s[i] == c)
    ensures forall k | 0 <= k < i :: s[k] != c
  {
    if s == "" || s[0] == c then 0 else 1 + IndexOf(s[1..], c)
  }

  function Upper(c: char): char {
    if 'a' <= c <= 'z' then (c as int - 32) as char else c
  }

  function ToUpper(s: string): string {
    seq(|s|, i requires 0 <= i < |s| => Upper(s[i]))
  }

  function DigitCount(s: string): (n: nat)
    ensures n <= |s| && forall k | 0 <= k < n :: IsDigit(s[k])
    ensures n < |s| ==> !IsDigit(s[n])
  {
    if s == "" || !IsDigit(s[0]) then 0 else 1 + DigitCount(s[1..])
  }

  /** `std::from_chars`: the longest number at the start; a number out of range leaves zero. */
  function FromChars(s: string): Option<int32> {
    var negative := s != "" && s[0] == '-';
    var digits := if negative then s[1..] else s;
    var n := DigitCount(digits);
    if n == 0 then None
    else
      var value: int := if negative then 0 - DecimalValue(digits[..n]) else DecimalValue(digits[..n]);
      Some(if -0x8000_0000 <= value < 0x8000_0000 then value else 0)
  }

  function Assign(q: Selector, key: char, value: int32): Result<Selector, Error> {
    if key == 'C' then Ok(q.(cid := value))
    else if key == 'S' then Ok(q.(sid := value))
    else if key == 'P' then Ok(q.(pid := value))
    else if key == 'T' then Ok(q.(gid := value))
    else Err(UnknownKey)
  }

  function ReadValue(text: string): Result<int32, Error> {
    if text == WILDCARD_TEXT then Ok(WILDCARD)
    else
      var number := FromChars(text);
      if number.None? then Err(InvalidNumber) else Ok(number.value)
  }

  function ReadTag(q: Selector, tag: string): (r: Result<Selector, Error>)
    ensures r != Err(InvalidPrefix)
  {
    if |tag| < 3 then Err(ShortTag)
    else if IndexOf(tag, '=') != 1 || IndexOf(tag[2..], '=') < |tag[2..]| then Err(InvalidFormat)
    else
      var value :- ReadValue(tag[2..]);
      Assign(q, tag[0], value)
  }

  /** The fields as they are when reading stops, and why it stopped, if not at the end. */
  datatype Outcome = Outcome(fields: Selector, error: Option<Error>)

  function ReadTags(q: Selector, text: string): (r: Outcome)
    ensures r.error != Some(InvalidPrefix)
    decreases |text|
  {
    var colon := IndexOf(text, ':');
    var r := ReadTag(q, text[..colon]);
    if r.Err? then Outcome(q, Some(r.error))
    else if colon == |text| then Outcome(r.value, None)
    else ReadTags(r.value, text[colon + 1..])
  }

  function Read(selector: string): Outcome {
    var text := ToUpper(selector);
    if text == "" || text == WILDCARD_TEXT then Outcome(ALL, None)
    else if !(PREFIX <= text) then Outcome(ALL, Some(InvalidPrefix))
    else if text[|PREFIX|..] == WILDCARD_TEXT then Outcome(ALL, None)
    else ReadTags(ALL, text[|PREFIX|..])
  }

  function Parse(selector: string): Result<Selector, Error> {
    var r := Read(selector);
    if r.error.Some? then Err(r.error.value) else Ok(r.fields)
  }

  // ----- writing --------------------------------------------------------------------------------------

  function Number(v: int32): string {
    if v < 0 then "-" + ToDecimal(0 - v) else ToDecimal(v)
  }

  datatype Tag = Tag(key: char, value: int32)

  function TagText(tag: Tag): string {
    [tag.key, '='] + Number(tag.value)
  }

  function TagIf(key: char, value: int32): seq<Tag> {
    if value == WILDCARD then [] else [Tag(key, value)]
  }

  function Tags(q: Selector): seq<Tag> {
    TagIf('C', q.cid) + TagIf('S', q.sid) + TagIf('P', q.pid) + TagIf('T', q.gid)
  }

  function Join(tags: seq<Tag>): string {
    if tags == [] then ""
    else if |tags| == 1 then TagText(tags[0])
    else TagText(tags[0]) + ":" + Join(tags[1..])
  }

  function ToString(q: Selector): string {
    if q == ALL then PREFIX + WILDCARD_TEXT else PREFIX + Join(Tags(q))
  }

  // ----- reading back -----------------------------------------------------------------------------------

  predicate Plain(c: char) {
    IsDigit(c) || c == '-'
  }

  lemma NumberIsPlain(v: int32)
    ensures Number(v) != "" && forall k | 0 <= k < |Number(v)| :: Plain(Number(v)[k])
    ensures FromChars(Number(v)) == Some(v)
  {
    var digits := ToDecimal(if v < 0 then 0 - v else v);
    forall k | 0 <= k < |digits| ensures IsDigit(digits[k]) {
      assert digits[k] in digits;
    }
    assert DigitCount(digits) == |digits| && digits[..|digits|] == digits;
    if v < 0 {
      assert Number(v)[1..] == digits;
    }
  }

  predicate Known(key: char) {
    key == 'C' || key == 'S' || key == 'P' || key == 'T'
  }

  lemma NoCharacter(s: string, c: char)
    requires forall k | 0 <= k < |s| :: s[k] != c
    ensures IndexOf(s, c) == |s|
  {
  }

  lemma ValueReads(v: int32)
    ensures ReadValue(Number(v)) == Ok(v)
  {
    NumberIsPlain(v);
    assert Plain(Number(v)[0]);
    assert Number(v)[0] != WILDCARD_TEXT[0];
  }

  lemma NumberHas(v: int32, c: char)
    requires !Plain(c)
    ensures IndexOf(Number(v), c) == |Number(v)|
    ensures forall k | 0 <= k < |Number(v)| :: Number(v)[k] != c
  {
    NumberIsPlain(v);
    NoCharacter(Number(v), c);
  }

  lemma TagHasNoColon(tag: Tag)
    requires Known(tag.key)
    ensures forall k | 0 <= k < |TagText(tag)| :: TagText(tag)[k] != ':'
  {
    NumberHas(tag.value, ':');
    forall k | 0 <= k < |TagText(tag)| ensures TagText(tag)[k] != ':' {
      assert k >= 2 ==> TagText(tag)[k] == Number(tag.value)[k - 2];
    }
  }

  /** A printed tag is read as what it says. */
  lemma TagReads(q: Selector, tag: Tag)
    requires Known(tag.key)
    ensures ReadTag(q, TagText(tag)) == Assign(q, tag.key, tag.value)
  {
    var text := TagText(tag);
    NumberHas(tag.value, '=');
    ValueReads(tag.value);
    assert text[2..] == Number(tag.value);
    assert |Number(tag.value)| > 0 by { NumberIsPlain(tag.value); }
    assert IndexOf(text, '=') == 1;
  }

  function Apply(q: Selector, tags: seq<Tag>): Selector
    decreases |tags|
  {
    if tags == [] then q
    else
      var first := Assign(q, tags[0].key, tags[0].value);
      Apply(if first.Ok? then first.value else q, tags[1..])
  }

  lemma FirstReads(q: Selector, first: string, q': Selector, rest: string)
    requires (forall k | 0 <= k < |first| :: first[k] != ':') && ReadTag(q, first) == Ok(q')
    ensures ReadTags(q, first) == Outcome(q', None)
    ensures ReadTags(q, first + ":" + rest) == ReadTags(q', rest)
  {
    NoCharacter(first, ':');
    assert first[..|first|] == first;
    var text := first + ":" + rest;
    assert text[|first|] == ':' && text[..|first|] == first && text[|first| + 1..] == rest;
    forall k | 0 <= k < |first| ensures text[k] != ':' {
      assert text[k] == first[k];
    }
    assert IndexOf(text, ':') == |first|;
  }

  lemma {:induction false} JoinReads(q: Selector, tags: seq<Tag>)
    requires tags != [] && forall i | 0 <= i < |tags| :: Known(tags[i].key)
    ensures ReadTags(q, Join(tags)) == Outcome(Apply(q, tags), None)
    decreases |tags|
  {
    var rest := tags[1..];
    var q' := Assign(q, tags[0].key, tags[0].value).value;
    TagReads(q, tags[0]);
    TagHasNoColon(tags[0]);
    FirstReads(q, TagText(tags[0]), q', Join(rest));
    if rest == [] {
      assert Apply(q', rest) == q';
    } else {
      JoinReads(q', rest);
    }
  }

  lemma ApplyIf(q: Selector, key: char, value: int32, rest: seq<Tag>)
    requires Known(key)
    ensures Apply(q, TagIf(key, value) + rest)
            == Apply(if value == WILDCARD then q else Assign(q, key, value).value, rest)
  {
    if value == WILDCARD {
      assert TagIf(key, value) + rest == rest;
    } else {
      assert (TagIf(key, value) + rest)[1..] == rest;
    }
  }

  lemma TagsApply(q: Selector)
    ensures Apply(ALL, Tags(q)) == q
  {
    var t := TagIf('T', q.gid);
    var pt := TagIf('P', q.pid) + t;
    var spt := TagIf('S', q.sid) + pt;
    assert Tags(q) == TagIf('C', q.cid) + spt;
    ApplyIf(ALL, 'C', q.cid, spt);
    ApplyIf(ALL.(cid := q.cid), 'S', q.sid, pt);
    ApplyIf(ALL.(cid := q.cid, sid := q.sid), 'P', q.pid, t);
    assert t == t + [];
    ApplyIf(q.(gid := WILDCARD), 'T', q.gid, []);
  }

  predicate NoLower(s: string) {
    forall k | 0 <= k < |s| :: !('a' <= s[k] <= 'z')
  }

  lemma UpperKeeps(s: string)
    requires NoLower(s)
    ensures ToUpper(s) == s
  {
  }

  lemma TagIsUpper(tag: Tag)
    requires Known(tag.key)
    ensures NoLower(TagText(tag)) && |TagText(tag)| > 2 && TagText(tag)[1] == '='
  {
    NumberIsPlain(tag.value);
    forall k | 0 <= k < |TagText(tag)| ensures !('a' <= TagText(tag)[k] <= 'z') {
      assert k >= 2 ==> Plain(Number(tag.value)[k - 2]);
    }
  }

  lemma JoinedIsUpper(a: string, b: string)
    requires NoLower(a) && NoLower(b)
    ensures NoLower(a + b) && NoLower(a + ":" + b)
  {
  }

  lemma {:induction false} JoinIsUpper(tags: seq<Tag>)
    requires forall i | 0 <= i < |tags| :: Known(tags[i].key)
    ensures NoLower(Join(tags))
    ensures tags != [] ==> |Join(tags)| > 2 && Join(tags)[1] == '='
  {
    if tags != [] {
      TagIsUpper(tags[0]);
      JoinIsUpper(tags[1..]);
      JoinedIsUpper(TagText(tags[0]), Join(tags[1..]));
    }
  }

  lemma PrefixIsUpper()
    ensures NoLower(PREFIX) && NoLower(PREFIX + WILDCARD_TEXT)
  {
  }

  lemma PrefixedReads(rest: string, outcome: Outcome)
    requires NoLower(PREFIX + rest) && rest != WILDCARD_TEXT && ReadTags(ALL, rest) == outcome
    ensures Read(PREFIX + rest) == outcome
  {
    var text := PREFIX + rest;
    UpperKeeps(text);
    assert text[|PREFIX|..] == rest;
    assert text[0] == PREFIX[0] != WILDCARD_TEXT[0];
  }

  /** Every selector can be printed and read back, wildcards and negative numbers included. */
  lemma RoundTrip(q: Selector)
    ensures Parse(ToString(q)) == Ok(q)
  {
    PrefixIsUpper();
    if q == ALL {
      UpperKeeps(ToString(q));
      assert ToString(q)[|PREFIX|..] == WILDCARD_TEXT;
    } else {
      var joined := Join(Tags(q));
      TagsApply(q);
      JoinIsUpper(Tags(q));
      JoinedIsUpper(PREFIX, joined);
      assert joined[1] != WILDCARD_TEXT[1];
      JoinReads(ALL, Tags(q));
      PrefixedReads(joined, Outcome(q, None));
    }
  }

  const CAPITALS: string := "ABCDEFGHIJKLMNOPQRSTUVWXYZ"
  const SMALL: string := "abcdefghijklmnopqrstuvwxyz"

  /** Two characters are the same letter. */
  ghost predicate SameLetter(a: char, b: char) {
    a == b || exists k | 0 <= k < 26 :: a in [CAPITALS[k], SMALL[k]] && b in [CAPITALS[k], SMALL[k]]
  }

  lemma LetterTables(k: nat)
    requires k < 26
    ensures CAPITALS[k] as int == 65 + k && SMALL[k] as int == 97 + k
  {
  }

  lemma SameLetterIff(a: char, b: char)
    ensures SameLetter(a, b) <==> Upper(a) == Upper(b)
  {
    if SameLetter(a, b) && a != b {
      var k :| 0 <= k < 26 && a in [CAPITALS[k], SMALL[k]] && b in [CAPITALS[k], SMALL[k]];
      LetterTables(k);
    }
    if Upper(a) == Upper(b) && a != b {
      var k := Upper(a) as int - 65;
      LetterTables(k);
      assert a in [CAPITALS[k], SMALL[k]] && b in [CAPITALS[k], SMALL[k]];
    }
  }

  /** The case of letters does not matter. */
  lemma CaseIsIgnored(a: string, b: string)
    requires |a| == |b| && forall i | 0 <= i < |a| :: SameLetter(a[i], b[i])
    ensures Read(a) == Read(b)
  {
    forall i | 0 <= i < |a| ensures Upper(a[i]) == Upper(b[i]) {
      SameLetterIff(a[i], b[i]);
    }
    assert ToUpper(a) == ToUpper(b);
  }

  // ----- what is accepted and what is printed -----------------------------------------------------------

  /** A key, an equal sign, and no other one. */
  predicate HasForm(tag: string) {
    |tag| >= 3 && tag[1] == '=' && forall i | 0 <= i < |tag| && i != 1 :: tag[i] != '='
  }

  /** A number with anything behind it, or the wildcard. */
  predicate HasValue(text: string) {
    || text == WILDCARD_TEXT
    || (text != "" && IsDigit(text[0]))
    || (|text| > 1 && text[0] == '-' && IsDigit(text[1]))
  }

  lemma HasValueIff(text: string)
    ensures ReadValue(text).Ok? <==> HasValue(text)
    ensures ReadValue(text).Err? ==> ReadValue(text) == Err(InvalidNumber)
  {
  }

  lemma HasFormIff(tag: string)
    requires |tag| >= 3
    ensures HasForm(tag) <==> IndexOf(tag, '=') == 1 && IndexOf(tag[2..], '=') == |tag[2..]|
  {
    assert forall i | 2 <= i < |tag| :: tag[i] == tag[2..][i - 2];
    if HasForm(tag) {
      NoCharacter(tag[2..], '=');
    }
  }

  /** Which tags are accepted, and why the others are not. */
  lemma TagAcceptedIff(q: Selector, tag: string)
    ensures ReadTag(q, tag).Ok? <==> HasForm(tag) && HasValue(tag[2..]) && tag[0] in "CSPT"
    ensures ReadTag(q, tag) == Err(ShortTag) <==> |tag| < 3
    ensures ReadTag(q, tag) == Err(InvalidFormat) <==> |tag| >= 3 && !HasForm(tag)
    ensures ReadTag(q, tag) == Err(InvalidNumber) <==> HasForm(tag) && !HasValue(tag[2..])
  {
    if |tag| >= 3 {
      HasFormIff(tag);
      HasValueIff(tag[2..]);
    }
  }

  /** Reading stops at the first tag that is not accepted, with its error and the fields read so far. */
  lemma ReadsUpToBadTag(q: Selector, tag: string, rest: string)
    requires (forall k | 0 <= k < |tag| :: tag[k] != ':') && ReadTag(q, tag).Err?
    ensures ReadTags(q, tag) == ReadTags(q, tag + ":" + rest) == Outcome(q, Some(ReadTag(q, tag).error))
  {
    NoCharacter(tag, ':');
    var text := tag + ":" + rest;
    assert text[|tag|] == ':' && forall k | 0 <= k < |tag| :: text[k] == tag[k];
    assert IndexOf(text, ':') == |tag|;
    assert text[..|tag|] == tag && tag[..|tag|] == tag;
  }

  /** A text is readable exactly if all its tags are. */
  ghost predicate AllAccepted(text: string)
    decreases |text|
  {
    var colon := IndexOf(text, ':');
    var tag := text[..colon];
    && HasForm(tag) && HasValue(tag[2..]) && tag[0] in "CSPT"
    && (colon < |text| ==> AllAccepted(text[colon + 1..]))
  }

  lemma {:induction false} TagsAcceptedIff(q: Selector, text: string)
    ensures ReadTags(q, text).error.None? <==> AllAccepted(text)
    decreases |text|
  {
    var colon := IndexOf(text, ':');
    var tag := text[..colon];
    TagAcceptedIff(q, tag);
    if ReadTag(q, tag).Ok? && colon < |text| {
      TagsAcceptedIff(ReadTag(q, tag).value, text[colon + 1..]);
    }
  }

  /** Which texts are accepted at all. */
  lemma TextAcceptedIff(text: string)
    ensures var upper := ToUpper(text);
            Parse(text).Ok? <==>
              || upper == "" || upper == WILDCARD_TEXT
              || (PREFIX <= upper && (upper[|PREFIX|..] == WILDCARD_TEXT || AllAccepted(upper[|PREFIX|..])))
  {
    var upper := ToUpper(text);
    if PREFIX <= upper {
      TagsAcceptedIff(ALL, upper[|PREFIX|..]);
    }
  }

  /** Numbers are printed without a plus sign and without leading zeros. */
  lemma NumberIsCanonical(v: int32)
    ensures v >= 0 ==> Number(v) == ToDecimal(v) && AllDigits(Number(v))
    ensures v < 0 ==> Number(v)[0] == '-' && Number(v)[1..] == ToDecimal(0 - v)
    ensures v != 0 ==> ToDecimal(if v < 0 then 0 - v else v)[0] != '0'
    ensures Number(0) == "0"
  {
    NoLeadingZero(if v < 0 then 0 - v else v);
  }

  lemma {:induction false} NoLeadingZero(n: nat)
    ensures n != 0 ==> ToDecimal(n)[0] != '0'
    ensures ToDecimal(0) == "0"
  {
    if n >= 10 {
      NoLeadingZero(n / 10);
    }
  }

  /** The letters stand for these fields. */
  lemma LettersOfFields(a: int32, b: int32, c: int32, d: int32)
    requires a != WILDCARD && b != WILDCARD && c != WILDCARD && d != WILDCARD
    ensures ToString(Selector(a, b, c, d))
            == PREFIX + ("C=" + Number(a) + ":" + ("S=" + Number(b) + ":" + ("P=" + Number(c) + ":" + ("T=" + Number(d)))))
  {
    var s, p, t := [Tag('S', b)], [Tag('P', c)], [Tag('T', d)];
    assert Tags(Selector(a, b, c, d)) == [Tag('C', a)] + (s + (p + t));
    JoinCons(Tag('C', a), s + (p + t));
    JoinCons(Tag('S', b), p + t);
    JoinCons(Tag('P', c), t);
    assert Join(t) == TagText(Tag('T', d));
    assert ['C', '='] == "C=" && ['S', '='] == "S=" && ['P', '='] == "P=" && ['T', '='] == "T=";
  }

  lemma JoinCons(tag: Tag, rest: seq<Tag>)
    requires rest != []
    ensures Join([tag] + rest) == TagText(tag) + ":" + Join(rest)
  {
    assert ([tag] + rest)[1..] == rest;
  }

  /** Whatever was read is printed in a form that reads the same. */
  lemma Normalises(text: string)
    requires Parse(text).Ok?
    ensures Parse(ToString(Parse(text).value)) == Parse(text)
  {
    RoundTrip(Parse(text).value);
  }

  /** Different selectors print differently. */
  lemma ToStringInjective(a: Selector, b: Selector)
    requires ToString(a) == ToString(b)
    ensures a == b
  {
    RoundTrip(a);
    RoundTrip(b);
  }

  // ----- matching -----------------------------------------------------------------------------------------

  predicate WildcardMatch(value: int32, pattern: int32) {
    pattern == WILDCARD || value == pattern
  }

  predicate Matches(q: Selector, pattern: Selector) {
    && WildcardMatch(q.cid, pattern.cid)
    && WildcardMatch(q.sid, pattern.sid)
    && WildcardMatch(q.pid, pattern.pid)
    && WildcardMatch(q.gid, pattern.gid)
  }

  // ----- the cached fields -----------------------------------------------------------------------------------

  /**
   A context keeps its selector text and the fields read from the text it has read last; `parsed` is
   that text, in place of its hash, and is missing while the hash is zero.
   */
  datatype Cached = Cached(selector: string, parsed: Option<string>, fields: Selector)

  const DEFAULT: string := "FAIR.SELECTOR.ALL"

  function Refresh(c: Cached): (Cached, Option<Error>) {
    if c.parsed == Some(c.selector) then (c, None)
    else
      var Outcome(fields, error) := Read(c.selector);
      var keeps := error.None? || error == Some(InvalidPrefix);
      (Cached(c.selector, if keeps then Some(c.selector) else None, fields), error)
  }

  /** The fields belong to the text that was read last, unless that text had no valid prefix. */
  ghost predicate Coherent(c: Cached) {
    c.parsed.Some? ==>
      var r := Read(c.parsed.value);
      c.fields == r.fields && (r.error.None? || r.error == Some(InvalidPrefix))
  }

  lemma RefreshKeepsCoherent(c: Cached)
    requires Coherent(c)
    ensures Coherent(Refresh(c).0)
  {
  }

  /** Without an error the fields are those of the selector, or all wildcards for a bad prefix. */
  lemma RefreshReads(c: Cached)
    requires Coherent(c) && Refresh(c).1.None?
    ensures Refresh(c).0.fields == if Parse(c.selector).Ok? then Parse(c.selector).value else ALL
    ensures Parse(c.selector).Err? ==> Parse(c.selector) == Err(InvalidPrefix)
  {
  }

  /** Only a text without the prefix, and neither empty nor a bare wildcard, lacks the prefix. */
  lemma PrefixErrorIff(selector: string)
    ensures Read(selector).error == Some(InvalidPrefix)
            <==> !(PREFIX <= ToUpper(selector)) && ToUpper(selector) != "" && ToUpper(selector) != WILDCARD_TEXT
  {
  }

  /** A selector that cannot be read is reported again and again, exactly if it has the prefix. */
  lemma ErrorRepeatsIff(c: Cached)
    requires Refresh(c).1.Some?
    ensures Refresh(Refresh(c).0).1 == Refresh(c).1 <==> PREFIX <= ToUpper(c.selector)
  {
    PrefixErrorIff(c.selector);
  }

  /** A text without the prefix is reported once; from then on it is accepted as all wildcards. */
  lemma MissingPrefixIsForgotten()
    ensures var c := Cached("X", None, ALL);
            && Refresh(c).1 == Some(InvalidPrefix)
            && Refresh(Refresh(c).0) == (Cached("X", Some("X"), ALL), None)
  {
    PrefixErrorIff("X");
    assert ToUpper("X") == "X";
  }

  /** A context built from numbers, with the hash of the default selector, reads its own text. */
  lemma BuiltReads(q: Selector)
    ensures Refresh(Cached(ToString(q), Some(DEFAULT), q)) == (Cached(ToString(q), Some(ToString(q)), q), None)
    ensures Coherent(Cached(ToString(q), Some(ToString(q)), q))
  {
    RoundTrip(q);
    assert ToString(ALL) == DEFAULT;
  }

  class TimingContext {
    var selector: string
    var bpcts: int
    var parsed: Option<string>
    var fields: Selector

    ghost function View(): Cached
      reads this
    {
      Cached(selector, parsed, fields)
    }

    /** From four numbers: printed first and then read back, which gives the same numbers. */
    constructor (q: Selector, bpcts: int)
      ensures fields == q && selector == ToString(q) && parsed == Some(selector) && Coherent(View())
      ensures this.bpcts == bpcts
    {
      fields, parsed, selector, this.bpcts := q, Some(DEFAULT), ToString(q), bpcts;
      new;
      BuiltReads(q);
      var _ := ParseSelector();
    }

    method ParseSelector() returns (error: Option<Error>)
      modifies this`parsed, this`fields
      ensures (View(), error) == Refresh(old(View()))
      ensures old(Coherent(View())) ==> Coherent(View())
    {
      ghost var was := View();
      error := Reparse();
      if Coherent(was) {
        RefreshKeepsCoherent(was);
      }
    }

    method Reparse() returns (error: Option<Error>)
      modifies this`parsed, this`fields
      ensures (View(), error) == Refresh(old(View()))
    {
      if parsed == Some(selector) {
        return None;
      }
      fields, parsed := ALL, Some(selector);
      var text := ToUpper(selector);
      if text == "" || text == WILDCARD_TEXT {
        return None;
      }
      if !(PREFIX <= text) {
        return Some(InvalidPrefix);
      }
      var view := text[|PREFIX|..];
      if view == WILDCARD_TEXT {
        return None;
      }
      error := ParseTags(view);
      if error.Some? {
        parsed := None;
      }
    }

    method ParseTags(text: string) returns (error: Option<Error>)
      modifies this`fields
      ensures Outcome(fields, error) == ReadTags(old(fields), text)
    {
      var view := text;
      while true
        invariant ReadTags(fields, view) == ReadTags(old(fields), text)
        decreases |view|
      {
        var colon := IndexOf(view, ':');
        var r := ReadTag(fields, view[..colon]);
        if r.Err? {
          return Some(r.error);
        }
        fields := r.value;
        if colon == |view| {
          return None;
        }
        view := view[colon + 1..];
      }
    }
  }
}
