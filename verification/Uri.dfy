/**
 Percent-encoding (sections 2.1 to 2.3 of RFC 3986), the query map, and the splitting of a URI
 into its components. `strict` stands for the STRICT instance of the template, otherwise RELAXED.
 */
module Uri {
  import opened Wrappers

  datatype UriError =
    | BadPercent
    | IllegalQuery
    | IllegalCharacter
    | IllegalScheme
    | IllegalAuthority
    | IllegalPath
    | OutOfRange

  /** Strings are sequences of bytes. */
  predicate IsBytes(s: string) {
    forall i | 0 <= i < |s| :: s[i] as int < 256
  }

  predicate IsAlnum(c: char) {
    '0' <= c <= '9' || 'a' <= c <= 'z' || 'A' <= c <= 'Z'
  }

  predicate IsUnreserved(c: char) {
    IsAlnum(c) || c == '-' || c == '_' || c == '.' || c == '~'
  }

  predicate IsHex(c: char) {
    '0' <= c <= '9' || 'a' <= c <= 'f' || 'A' <= c <= 'F'
  }

  predicate IsSpace(c: char) {
    c == ' ' || 9 <= c as int <= 13
  }

  function HexValue(c: char): (v: nat)
    requires IsHex(c)
    ensures v < 16
  {
    if c <= '9' then c as int - '0' as int
    else if c <= 'F' then c as int - 'A' as int + 10
    else c as int - 'a' as int + 10
  }

  function HexDigit(v: nat): (c: char)
    requires v < 16
    ensures IsHex(c) && HexValue(c) == v && IsUnreserved(c)
  {
    if v < 10 then ('0' as int + v) as char else ('A' as int + v - 10) as char
  }

  predicate All(s: string, p: char -> bool) {
    forall i | 0 <= i < |s| :: p(s[i])
  }

  /** `find_first_of`: where the first character satisfying `p` stands, or the length. */
  function FirstWhere(s: string, p: char -> bool): (at: nat)
    ensures at <= |s|
    ensures forall i | 0 <= i < at :: !p(s[i])
    ensures at < |s| ==> p(s[at])
  {
    if s == "" || p(s[0]) then 0 else FirstWhere(s[1..], p) + 1
  }

  lemma FirstWhereIs(front: string, back: string, p: char -> bool)
    requires forall i | 0 <= i < |front| :: !p(front[i])
    requires back == "" || p(back[0])
    ensures FirstWhere(front + back, p) == |front|
  {
    var s := front + back;
    var at := FirstWhere(s, p);
    assert forall i | 0 <= i < |front| :: s[i] == front[i];
    assert back != "" ==> s[|front|] == back[0];
    assert at >= |front|;
  }

  // ----- percent-encoding ------------------------------------------------------------------

  function EncodeByte(c: char): string
    requires c as int < 256
  {
    if IsUnreserved(c) then [c] else ['%', HexDigit(c as int / 16), HexDigit(c as int % 16)]
  }

  function Encode(s: string): string
    requires IsBytes(s)
  {
    if s == "" then "" else EncodeByte(s[0]) + Encode(s[1..])
  }

  lemma {:induction false} EncodeLast(s: string, c: char)
    requires IsBytes(s) && c as int < 256
    ensures Encode(s + [c]) == Encode(s) + EncodeByte(c)
  {
    if s == "" {
      assert s + [c] == [c];
      assert [c][1..] == "";
    } else {
      assert (s + [c])[1..] == s[1..] + [c];
      EncodeLast(s[1..], c);
    }
  }

  method EncodeText(source: string) returns (encoded: string)
    requires IsBytes(source)
    ensures encoded == Encode(source)
  {
    encoded := "";
    for i := 0 to |source|
      invariant encoded == Encode(source[..i])
    {
      EncodeLast(source[..i], source[i]);
      assert source[..i + 1] == source[..i] + [source[i]];
      if IsUnreserved(source[i]) {
        encoded := encoded + [source[i]];
      } else {
        encoded := encoded + ['%', HexDigit(source[i] as int / 16), HexDigit(source[i] as int % 16)];
      }
    }
    assert source[..|source|] == source;
  }

  /** `istringstream >> std::hex >> d` on at most two characters, cut down to a byte. */
  function ReadHex(t: string): (c: char)
    requires |t| <= 2
    ensures c as int < 256
  {
    if t == "" then '\0'
    else if IsHex(t[0]) then
      if |t| == 2 && IsHex(t[1]) then (16 * HexValue(t[0]) + HexValue(t[1])) as char
      else HexValue(t[0]) as char
    else if |t| == 2 && IsHex(t[1]) && (IsSpace(t[0]) || t[0] == '+') then HexValue(t[1]) as char
    else if |t| == 2 && IsHex(t[1]) && t[0] == '-' then ((256 - HexValue(t[1])) % 256) as char
    else '\0'
  }

  function TripleLength(s: string): nat
  {
    if |s| < 3 then |s| else 3
  }

  function Decode(s: string, strict: bool): Result<string, UriError> {
    if s == "" then Ok("")
    else if s[0] != '%' then
      var rest :- Decode(s[1..], strict);
      Ok([s[0]] + rest)
    else if strict && (|s| == 1 || !IsHex(s[1])) then Err(BadPercent)
    else
      var n := TripleLength(s);
      var rest :- Decode(s[n..], strict);
      Ok([ReadHex(s[1..n])] + rest)
  }

  function Prepend(front: string, r: Result<string, UriError>): Result<string, UriError> {
    if r.Ok? then Ok(front + r.value) else r
  }

  lemma PrependTwice(a: string, b: string, r: Result<string, UriError>)
    ensures Prepend("", r) == r
    ensures Prepend(a + b, r) == Prepend(a, Prepend(b, r))
  {
    if r.Ok? {
      assert "" + r.value == r.value;
      assert a + b + r.value == a + (b + r.value);
    }
  }

  method DecodeText(s: string, strict: bool) returns (r: Result<string, UriError>)
    ensures r == Decode(s, strict)
  {
    var decoded := "";
    var i := 0;
    assert s[0..] == s;
    PrependTwice("", "", Decode(s, strict));
    while i < |s|
      invariant 0 <= i <= |s|
      invariant Decode(s, strict) == Prepend(decoded, Decode(s[i..], strict))
    {
      var c := s[i];
      if c == '%' {
        if strict && (i + 1 == |s| || !IsHex(s[i + 1])) {
          return Err(BadPercent);
        }
        var end := if i + 3 <= |s| then i + 3 else |s|;
        assert s[i..][1..TripleLength(s[i..])] == s[i + 1..end];
        assert s[i..][TripleLength(s[i..])..] == s[end..];
        PrependTwice(decoded, [ReadHex(s[i + 1..end])], Decode(s[end..], strict));
        decoded := decoded + [ReadHex(s[i + 1..end])];
        i := end;
      } else {
        assert s[i..][1..] == s[i + 1..];
        PrependTwice(decoded, [c], Decode(s[i + 1..], strict));
        decoded := decoded + [c];
        i := i + 1;
      }
    }
    assert s[i..] == "" && decoded + "" == decoded;
    r := Ok(decoded);
  }

  predicate IsEncodedChar(c: char) {
    IsUnreserved(c) || c == '%'
  }

  lemma {:induction false} EncodeAlphabet(s: string)
    requires IsBytes(s)
    ensures All(Encode(s), IsEncodedChar)
  {
    if s != "" {
      EncodeAlphabet(s[1..]);
    }
  }

  // ----- spellings of a text (section 2.1 of RFC 3986) ---------------------------------------

  const UPPER_DIGITS: string := "0123456789ABCDEF"
  const LOWER_DIGITS: string := "0123456789abcdef"

  /** Both cases of a hexadecimal digit stand for the same number. */
  predicate Stands(c: char, v: nat) {
    v < 16 && (c == UPPER_DIGITS[v] || c == LOWER_DIGITS[v])
  }

  lemma StandsIff(c: char, v: nat)
    ensures Stands(c, v) <==> IsHex(c) && HexValue(c) == v
  {
    DigitTables(v);
    if IsHex(c) {
      DigitTables(HexValue(c));
    }
  }

  lemma DigitTables(v: nat)
    ensures v < 16 ==> UPPER_DIGITS[v] as int == (if v < 10 then 48 + v else 55 + v)
    ensures v < 16 ==> LOWER_DIGITS[v] as int == (if v < 10 then 48 + v else 87 + v)
  {
  }

  /** A spelling writes each byte as itself or as a percent sign and its two hexadecimal digits. */
  predicate Spells(t: string, s: string)
    decreases |s|
  {
    if s == "" then t == ""
    else
      || (t != "" && t[0] == s[0] != '%' && Spells(t[1..], s[1..]))
      || (IsTriple(t, s[0]) && Spells(t[3..], s[1..]))
  }

  predicate IsTriple(t: string, c: char) {
    |t| >= 3 && t[0] == '%' && c as int < 256 && Stands(t[1], c as int / 16) && Stands(t[2], c as int % 16)
  }

  lemma TripleDecodes(t: string, c: char, strict: bool)
    requires IsTriple(t, c)
    ensures Decode(t, strict) == Prepend([c], Decode(t[3..], strict))
  {
    StandsIff(t[1], c as int / 16);
    StandsIff(t[2], c as int % 16);
    assert t[1..3][0] == t[1] && t[1..3][1] == t[2];
    assert ReadHex(t[1..3]) == c;
  }

  /** Every spelling decodes to the text it spells, strict or not. */
  lemma {:induction false} DecodeSpelled(t: string, s: string, strict: bool)
    requires Spells(t, s)
    ensures Decode(t, strict) == Ok(s)
    decreases |s|
  {
    if s != "" {
      assert s == [s[0]] + s[1..];
      if IsTriple(t, s[0]) && Spells(t[3..], s[1..]) {
        TripleDecodes(t, s[0], strict);
        DecodeSpelled(t[3..], s[1..], strict);
      } else {
        DecodeSpelled(t[1..], s[1..], strict);
      }
    }
  }

  /** Each percent sign is followed by two hexadecimal digits. */
  predicate WellFormed(t: string) {
    if t == "" then true
    else if t[0] != '%' then WellFormed(t[1..])
    else |t| >= 3 && IsHex(t[1]) && IsHex(t[2]) && WellFormed(t[3..])
  }

  lemma {:induction false} WellFormedSpells(t: string) returns (s: string)
    requires WellFormed(t)
    ensures Spells(t, s)
    decreases |t|
  {
    s := "";
    if t != "" {
      if t[0] != '%' {
        var rest := WellFormedSpells(t[1..]);
        s := [t[0]] + rest;
        assert s[1..] == rest;
      } else {
        var rest := WellFormedSpells(t[3..]);
        var hi, lo := HexValue(t[1]), HexValue(t[2]);
        var c := (16 * hi + lo) as char;
        assert c as int / 16 == hi && c as int % 16 == lo;
        StandsIff(t[1], hi);
        StandsIff(t[2], lo);
        s := [c] + rest;
        assert s[1..] == rest;
      }
    }
  }

  /** A well-formed text decodes to exactly the text that it spells. */
  lemma DecodeIff(t: string, s: string, strict: bool)
    requires WellFormed(t)
    ensures Decode(t, strict) == Ok(s) <==> Spells(t, s)
  {
    var spelled := WellFormedSpells(t);
    DecodeSpelled(t, spelled, strict);
    if Spells(t, s) {
      DecodeSpelled(t, s, strict);
    }
  }

  /** A percent sign that starts a triple of upper-case digits. */
  predicate TripleAt(t: string, i: nat) {
    i + 2 < |t| && t[i] == '%' && t[i + 1] in UPPER_DIGITS && t[i + 2] in UPPER_DIGITS
  }

  lemma UpperDigit(v: nat)
    requires v < 16
    ensures HexDigit(v) == UPPER_DIGITS[v] && HexDigit(v) in UPPER_DIGITS
  {
    DigitTables(v);
  }

  /** Only unreserved characters and upper-case triples come out, and they spell the text. */
  lemma {:induction false} EncodeSpells(s: string)
    requires IsBytes(s)
    ensures Spells(Encode(s), s)
    ensures forall i | 0 <= i < |Encode(s)| :: IsUnreserved(Encode(s)[i]) || TripleAt(Encode(s), i)
  {
    if s != "" {
      EncodeSpells(s[1..]);
      var head, rest := EncodeByte(s[0]), Encode(s[1..]);
      HeadSpells(s[0], rest);
      assert Encode(s) == head + rest && (head + rest)[|head|..] == rest;
      forall i | 0 <= i < |head + rest| ensures IsUnreserved((head + rest)[i]) || TripleAt(head + rest, i) {
        if i >= |head| {
          assert (head + rest)[i] == rest[i - |head|];
          assert TripleAt(rest, i - |head|) ==> TripleAt(head + rest, i);
        }
      }
    }
  }

  lemma HeadSpells(c: char, rest: string)
    requires c as int < 256
    ensures var head := EncodeByte(c);
            var text := head + rest;
            && (if |head| == 1 then text[0] == c != '%' else |head| == 3 && IsTriple(text, c))
            && (forall i | 0 <= i < |head| :: IsUnreserved(text[i]) || TripleAt(text, i))
  {
    UpperDigit(c as int / 16);
    UpperDigit(c as int % 16);
  }

  /** The same text, except that the digits of its triples may be in the other case. */
  ghost predicate SameButCase(t: string, text: string) {
    && |t| == |text|
    && forall i | 0 <= i < |t| ::
         || t[i] == text[i]
         || (InTriple(text, i) && exists v: nat :: Stands(t[i], v) && Stands(text[i], v))
  }

  predicate InTriple(text: string, i: nat)
    requires i < |text|
  {
    (i >= 1 && text[i - 1] == '%') || (i >= 2 && text[i - 2] == '%')
  }

  lemma SameDigit(t: string, text: string, i: nat, v: nat)
    requires SameButCase(t, text) && i < |t| && Stands(text[i], v)
    ensures Stands(t[i], v)
  {
    if t[i] != text[i] {
      var w: nat :| Stands(t[i], w) && Stands(text[i], w);
      StandsIff(text[i], v);
      StandsIff(text[i], w);
    }
  }

  lemma RestIsSame(t: string, text: string, n: nat)
    requires SameButCase(t, text) && 0 < n <= |t|
    requires n == 1 ==> text[0] != '%'
    requires n == 3 ==> text[1] != '%' && text[2] != '%'
    requires n == 1 || n == 3
    ensures SameButCase(t[n..], text[n..])
  {
    forall i | 0 <= i < |t[n..]|
      ensures || t[n..][i] == text[n..][i]
              || (InTriple(text[n..], i) && exists v: nat :: Stands(t[n..][i], v) && Stands(text[n..][i], v))
    {
      assert t[n..][i] == t[n + i] && text[n..][i] == text[n + i];
      if t[n + i] != text[n + i] {
        assert InTriple(text, n + i);
      }
    }
  }

  lemma {:induction false} CaseSpells(t: string, s: string)
    requires IsBytes(s) && SameButCase(t, Encode(s))
    ensures Spells(t, s)
  {
    if s != "" {
      var head, rest := EncodeByte(s[0]), Encode(s[1..]);
      var text := Encode(s);
      assert text == head + rest && text[|head|..] == rest;
      if |head| == 1 {
        assert t[0] == text[0] by { assert !InTriple(text, 0); }
      } else {
        assert t[0] == text[0] by { assert !InTriple(text, 0); }
        UpperDigit(s[0] as int / 16);
        UpperDigit(s[0] as int % 16);
        SameDigit(t, text, 1, s[0] as int / 16);
        SameDigit(t, text, 2, s[0] as int % 16);
      }
      RestIsSame(t, text, |head|);
      CaseSpells(t[|head|..], s[1..]);
    }
  }

  /** Texts whose triples use either case decode like the one that is printed. */
  lemma DecodeIgnoresCase(t: string, s: string, strict: bool)
    requires IsBytes(s) && SameButCase(t, Encode(s))
    ensures Decode(t, strict) == Ok(s)
  {
    CaseSpells(t, s);
    DecodeSpelled(t, s, strict);
  }

  /**
   What the stream makes of other triples: one digit counts alone, a sign or a space in front of a
   digit is accepted if the parser is relaxed, anything else is the null byte.
   */
  lemma OddTriples(c: char, v: nat, other: char)
    requires Stands(c, v) && !IsHex(other)
    ensures Decode(['%', c], true) == Decode(['%', c, other], true) == Ok([v as char])
    ensures Decode(['%', ' ', c], false) == Decode(['%', '+', c], false) == Ok([v as char])
    ensures Decode(['%', '-', c], false) == Ok([((256 - v) % 256) as char])
    ensures Decode(['%', other], false) == Decode(['%', other, other], false) == Decode("%", false) == Ok("\0")
    ensures Decode(['%', other, c], true) == Err(BadPercent)
  {
    StandsIff(c, v);
    SingleTriple(['%', c], false);
    SingleTriple(['%', c], true);
    SingleTriple(['%', c, other], true);
    SingleTriple(['%', ' ', c], false);
    SingleTriple(['%', '+', c], false);
    SingleTriple(['%', '-', c], false);
    SingleTriple(['%', other], false);
    SingleTriple(['%', other, other], false);
    SingleTriple("%", false);
  }

  lemma SingleTriple(t: string, strict: bool)
    requires 1 <= |t| <= 3 && t[0] == '%' && (strict ==> |t| > 1 && IsHex(t[1]))
    ensures Decode(t, strict) == Ok([ReadHex(t[1..])])
  {
    assert TripleLength(t) == |t| && t[|t|..] == "" && t[1..|t|] == t[1..];
    assert Decode(t[|t|..], strict) == Ok("");
    assert [ReadHex(t[1..])] + "" == [ReadHex(t[1..])];
  }

  /** Only a strict parser fails, and exactly if a percent sign that it meets has no digit behind it. */
  lemma {:induction false} DecodeFailsIff(t: string, strict: bool)
    ensures Decode(t, strict).Err? <==> strict && MeetsBadPercent(t)
    decreases |t|
  {
    if t != "" {
      if t[0] != '%' {
        DecodeFailsIff(t[1..], strict);
      } else {
        DecodeFailsIff(t[TripleLength(t)..], strict);
      }
    }
  }

  predicate MeetsBadPercent(t: string) {
    t != "" && (if t[0] != '%' then MeetsBadPercent(t[1..])
                else |t| == 1 || !IsHex(t[1]) || (|t| > 3 && MeetsBadPercent(t[3..])))
  }

  /** Decoding undoes encoding on every byte string, strict or not. */
  lemma DecodeEncode(s: string, strict: bool)
    requires IsBytes(s)
    ensures Decode(Encode(s), strict) == Ok(s)
  {
    EncodeSpells(s);
    DecodeSpelled(Encode(s), s, strict);
  }

  lemma {:induction false} UnreservedIsFixed(s: string)
    requires IsBytes(s)
    ensures Encode(s) == s <==> All(s, IsUnreserved)
  {
    if s != "" {
      UnreservedIsFixed(s[1..]);
      assert s == [s[0]] + s[1..];
      assert Encode(s)[0] == EncodeByte(s[0])[0];
      if IsUnreserved(s[0]) {
        assert Encode(s)[1..] == Encode(s[1..]);
      } else {
        EncodeAlphabet(s);
        EncodeLonger(s[1..]);
      }
    }
  }

  lemma {:induction false} EncodeLonger(s: string)
    requires IsBytes(s)
    ensures |Encode(s)| >= |s|
  {
    if s != "" {
      EncodeLonger(s[1..]);
    }
  }

  /** What needs encoding still does when it has been encoded. */
  lemma {:induction false} EncodedUnreservedIff(s: string)
    requires IsBytes(s)
    ensures All(Encode(s), IsUnreserved) <==> All(s, IsUnreserved)
  {
    if s != "" {
      EncodedUnreservedIff(s[1..]);
      var head, rest := EncodeByte(s[0]), Encode(s[1..]);
      var text := Encode(s);
      assert text == head + rest && text[0] == head[0];
      if IsUnreserved(s[0]) {
        assert forall i | 0 <= i < |rest| :: text[i + 1] == rest[i];
        assert forall i | 0 <= i < |s| - 1 :: s[i + 1] == s[1..][i];
      } else {
        assert !IsUnreserved(text[0]);
      }
    }
  }

  lemma {:induction false} EncodeGrows(s: string)
    requires IsBytes(s) && !All(s, IsUnreserved)
    ensures |Encode(s)| > |s|
  {
    if IsUnreserved(s[0]) {
      EncodeGrows(s[1..]);
    } else {
      EncodeLonger(s[1..]);
    }
  }

  // ----- splitting a URI into its components ------------------------------------------------

  datatype Components = Components(scheme: string, authority: string, path: string, query: string, fragment: string)

  const NO_COMPONENTS := Components("", "", "", "", "")

  predicate IsUriChar(c: char) {
    || IsUnreserved(c)
    || c == ':' || c == '/' || c == '?' || c == '#' || c == '[' || c == ']' || c == '@'
    || c == '!' || c == '$' || c == '&' || c == '\'' || c == '(' || c == ')' || c == '*'
    || c == '+' || c == ',' || c == ';' || c == '=' || c == '%'
  }

  predicate IsColon(c: char) { c == ':' }
  predicate IsHash(c: char) { c == '#' }
  predicate EndsPath(c: char) { c == '?' || c == '#' }
  predicate EndsAuthority(c: char) { c == '/' || EndsPath(c) }
  predicate IsAuthorityChar(c: char) {
    || IsAlnum(c) || c == '@' || c == ':' || c == '.' || c == '-' || c == '_' || c == '*'
    || c == '[' || c == ']'
  }
  predicate IsPathChar(c: char) {
    IsAlnum(c) || c == '/' || c == '.' || c == '-' || c == '_'
  }

  const DIGITS: string := "0123456789"
  const SMALL_LETTERS: string := "abcdefghijklmnopqrstuvwxyz"
  const CAPITAL_LETTERS: string := "ABCDEFGHIJKLMNOPQRSTUVWXYZ"

  predicate InTables(c: char) {
    c in DIGITS || c in SMALL_LETTERS || c in CAPITAL_LETTERS
  }

  lemma Tables(k: nat)
    ensures k < 10 ==> DIGITS[k] as int == 48 + k
    ensures k < 26 ==> SMALL_LETTERS[k] as int == 97 + k && CAPITAL_LETTERS[k] as int == 65 + k
  {
  }

  lemma AlnumIff(c: char)
    ensures IsAlnum(c) <==> InTables(c)
  {
    if '0' <= c <= '9' {
      Tables(c as int - 48);
      assert DIGITS[c as int - 48] == c;
    } else if 'a' <= c <= 'z' {
      Tables(c as int - 97);
      assert SMALL_LETTERS[c as int - 97] == c;
    } else if 'A' <= c <= 'Z' {
      Tables(c as int - 65);
      assert CAPITAL_LETTERS[c as int - 65] == c;
    } else {
      forall k: nat ensures (k < 10 ==> DIGITS[k] != c) && (k < 26 ==> SMALL_LETTERS[k] != c && CAPITAL_LETTERS[k] != c) {
        Tables(k);
      }
    }
  }

  /** The alphabets of the components, written out. */
  lemma Alphabets(c: char)
    ensures IsUnreserved(c) <==> InTables(c) || c in "-_.~"
    ensures IsUriChar(c) <==> InTables(c) || c in "-_.~:/?#[]@!$&'()*+,;=%"
    ensures IsAuthorityChar(c) <==> InTables(c) || c in "@:.-_*[]"
    ensures IsPathChar(c) <==> InTables(c) || c in "/.-_"
    ensures EndsPath(c) <==> c in "?#"
    ensures EndsAuthority(c) <==> c in "/?#"
  {
    AlnumIff(c);
  }

  /** Everything behind the authority: path, query and fragment. */
  function ParseTail(c: Components, tail: string, strict: bool): Result<Components, UriError> {
    var pathEnd := FirstWhere(tail, EndsPath);
    var path := tail[..pathEnd];
    if strict && !All(path, IsPathChar) then Err(IllegalPath)
    else if pathEnd == |tail| then Ok(c.(path := path))
    else
      var hash := FirstWhere(tail[pathEnd..], IsHash) + pathEnd;
      var query := if tail[pathEnd] == '?' then tail[pathEnd + 1..hash] else "";
      var fragment := if hash == |tail| then "" else tail[hash + 1..];
      Ok(c.(path := path, query := query, fragment := fragment))
  }

  /** Everything behind the scheme; without a colon in front two characters are dropped unread. */
  function ParseHierarchy(c: Components, source: string, schemed: bool, strict: bool): Result<Components, UriError> {
    if source == "" then Ok(c)
    else if "//" <= source || (!schemed && !EndsAuthority(source[0])) then
      if |source| < 2 then Err(OutOfRange)
      else
        var rest := source[2..];
        var authEnd := FirstWhere(rest, EndsAuthority);
        if strict && !All(rest[..authEnd], IsAuthorityChar) then Err(IllegalAuthority)
        else ParseTail(c.(authority := rest[..authEnd]), rest[authEnd..], strict)
    else
      ParseTail(c, source, strict)
  }

  function ParseUri(source: string, strict: bool): Result<Components, UriError> {
    if strict && !All(source, IsUriChar) then Err(IllegalCharacter)
    else if source == "" then Ok(NO_COMPONENTS)
    else if source[0] == '/' then ParseTail(NO_COMPONENTS, source, strict)
    else
      var colon := FirstWhere(source, IsColon);
      if colon < FirstWhere(source, EndsAuthority) then
        if strict && !All(source[..colon], IsAlnum) then Err(IllegalScheme)
        else ParseHierarchy(NO_COMPONENTS.(scheme := source[..colon]), source[colon + 1..], true, strict)
      else
        ParseHierarchy(NO_COMPONENTS, source, false, strict)
  }

  // ----- nothing is lost and nothing is made up ------------------------------------------------

  function Part(present: bool, text: string): string {
    if present then text else ""
  }

  predicate Free(s: string, p: char -> bool) {
    forall i | 0 <= i < |s| :: !p(s[i])
  }

  function TailText(path: string, query: string, fragment: string, q: bool, f: bool): string {
    path + (Part(q, "?" + query) + Part(f, "#" + fragment))
  }

  /** A tail is its path, and its query and fragment if they are there. */
  predicate Whole(tail: string, r: Components, q: bool, f: bool) {
    tail == TailText(r.path, r.query, r.fragment, q, f) && (q || r.query == "") && (f || r.fragment == "")
  }

  lemma BareTail(c: Components, tail: string, strict: bool)
    requires ParseTail(c, tail, strict).Ok? && FirstWhere(tail, EndsPath) == |tail|
    ensures ParseTail(c, tail, strict).value == c.(path := tail)
  {
    assert tail[..|tail|] == tail;
  }

  /** Where the path and the query of a tail end. */
  predicate Cut(tail: string, pathEnd: nat, hash: nat) {
    && pathEnd <= hash <= |tail| && pathEnd < |tail|
    && (if tail[pathEnd] == '?' then pathEnd < hash else hash == pathEnd)
    && (hash < |tail| ==> tail[hash] == '#')
  }

  predicate CutInto(tail: string, pathEnd: nat, hash: nat, r: Components)
    requires Cut(tail, pathEnd, hash)
  {
    && r.path == tail[..pathEnd]
    && r.query == (if tail[pathEnd] == '?' then tail[pathEnd + 1..hash] else "")
    && r.fragment == (if hash == |tail| then "" else tail[hash + 1..])
  }

  lemma TailPieces(tail: string, pathEnd: nat, hash: nat)
    requires Cut(tail, pathEnd, hash)
    ensures var query := if tail[pathEnd] == '?' then tail[pathEnd + 1..hash] else "";
            var fragment := if hash == |tail| then "" else tail[hash + 1..];
            tail == TailText(tail[..pathEnd], query, fragment, tail[pathEnd] == '?', hash < |tail|)
  {
    if tail[pathEnd] == '?' {
      assert tail[pathEnd..hash] == "?" + tail[pathEnd + 1..hash];
    }
    if hash < |tail| {
      assert tail[hash..] == "#" + tail[hash + 1..];
    }
  }

  lemma CutIsWhole(tail: string, pathEnd: nat, hash: nat, r: Components)
    requires Cut(tail, pathEnd, hash) && CutInto(tail, pathEnd, hash, r)
    ensures Whole(tail, r, tail[pathEnd] == '?', hash < |tail|)
  {
    TailPieces(tail, pathEnd, hash);
  }

  lemma LongTail(c: Components, tail: string, strict: bool) returns (pathEnd: nat, hash: nat)
    requires ParseTail(c, tail, strict).Ok? && FirstWhere(tail, EndsPath) < |tail|
    ensures Cut(tail, pathEnd, hash) && CutInto(tail, pathEnd, hash, ParseTail(c, tail, strict).value)
  {
    pathEnd := FirstWhere(tail, EndsPath);
    var back := tail[pathEnd..];
    assert back[0] == tail[pathEnd];
    hash := FirstWhere(back, IsHash) + pathEnd;
    assert hash < |tail| ==> back[hash - pathEnd] == tail[hash];
  }

  lemma TailIsLossless(c: Components, tail: string, strict: bool) returns (q: bool, f: bool)
    requires ParseTail(c, tail, strict).Ok? && c.query == "" == c.fragment
    ensures Whole(tail, ParseTail(c, tail, strict).value, q, f)
  {
    if FirstWhere(tail, EndsPath) < |tail| {
      var pathEnd, hash := LongTail(c, tail, strict);
      q, f := tail[pathEnd] == '?', hash < |tail|;
      CutIsWhole(tail, pathEnd, hash, ParseTail(c, tail, strict).value);
    } else {
      q, f := false, false;
      BareTail(c, tail, strict);
    }
  }

  lemma Sliced(tail: string, pathEnd: nat, hash: nat)
    requires pathEnd < |tail| && hash <= |tail| - pathEnd && (hash < |tail| - pathEnd ==> IsHash(tail[pathEnd..][hash]))
    requires tail[pathEnd] == '?' && forall i | 0 <= i < hash :: !IsHash(tail[pathEnd..][i])
    ensures 0 < hash && Free(tail[pathEnd + 1..hash + pathEnd], IsHash)
  {
    assert tail[pathEnd..][0] == '?';
    forall i | pathEnd + 1 <= i < hash + pathEnd
      ensures !IsHash(tail[i])
    {
      assert tail[i] == tail[pathEnd..][i - pathEnd];
    }
  }

  lemma TailSeparators(c: Components, tail: string, strict: bool)
    requires ParseTail(c, tail, strict).Ok? && c.query == ""
    ensures var r := ParseTail(c, tail, strict).value;
            r.scheme == c.scheme && r.authority == c.authority && Free(r.path, EndsPath) && Free(r.query, IsHash)
  {
    var pathEnd := FirstWhere(tail, EndsPath);
    if pathEnd < |tail| && tail[pathEnd] == '?' {
      var hash := FirstWhere(tail[pathEnd..], IsHash);
      Sliced(tail, pathEnd, hash);
    }
  }

  lemma Rejoined(source: string, at: nat)
    requires 2 <= |source| && at <= |source| - 2
    ensures source == source[..2] + (source[2..][..at] + source[2..][at..])
  {
    assert source[2..] == source[2..][..at] + source[2..][at..];
  }

  /** The text behind the scheme: an authority with two characters in front of it, or none, and a tail. */
  lemma HierarchyCut(c: Components, source: string, schemed: bool, strict: bool) returns (mark: string, tail: string)
    requires ParseHierarchy(c, source, schemed, strict).Ok? && c == NO_COMPONENTS.(scheme := c.scheme) && source != ""
    ensures var r := ParseHierarchy(c, source, schemed, strict).value;
            && source == mark + (r.authority + tail)
            && ParseTail(c.(authority := r.authority), tail, strict) == Ok(r)
            && (mark == "" ==> r.authority == "") && (mark == "" || |mark| == 2) && (schemed ==> mark == "" || mark == "//")
  {
    if "//" <= source || (!schemed && !EndsAuthority(source[0])) {
      var rest := source[2..];
      var authEnd := FirstWhere(rest, EndsAuthority);
      mark, tail := source[..2], rest[authEnd..];
      TailSeparators(c.(authority := rest[..authEnd]), tail, strict);
      Rejoined(source, authEnd);
    } else {
      mark, tail := "", source;
      TailSeparators(c, source, strict);
      assert source == "" + ("" + source);
    }
  }

  lemma HierarchyIsLossless(c: Components, source: string, schemed: bool, strict: bool)
    returns (mark: string, tail: string, q: bool, f: bool)
    requires ParseHierarchy(c, source, schemed, strict).Ok? && c == NO_COMPONENTS.(scheme := c.scheme)
    ensures var r := ParseHierarchy(c, source, schemed, strict).value;
            && source == mark + (r.authority + tail) && Whole(tail, r, q, f)
            && (mark == "" ==> r.authority == "") && (mark == "" || |mark| == 2) && (schemed ==> mark == "" || mark == "//")
  {
    if source == "" {
      mark, tail, q, f := "", "", false, false;
      assert TailText("", "", "", false, false) == "";
    } else {
      mark, tail := HierarchyCut(c, source, schemed, strict);
      q, f := TailIsLossless(c.(authority := ParseHierarchy(c, source, schemed, strict).value.authority), tail, strict);
    }
  }

  lemma HierarchySeparators(c: Components, source: string, schemed: bool, strict: bool)
    requires ParseHierarchy(c, source, schemed, strict).Ok? && c == NO_COMPONENTS.(scheme := c.scheme)
    ensures var r := ParseHierarchy(c, source, schemed, strict).value;
            && r.scheme == c.scheme && Free(r.authority, EndsAuthority)
            && Free(r.path, EndsPath) && Free(r.query, IsHash)
  {
    if source != "" {
      if "//" <= source || (!schemed && !EndsAuthority(source[0])) {
        var rest := source[2..];
        var authEnd := FirstWhere(rest, EndsAuthority);
        TailSeparators(c.(authority := rest[..authEnd]), rest[authEnd..], strict);
      } else {
        TailSeparators(c, source, strict);
      }
    }
  }

  lemma AtColon(source: string, colon: nat)
    requires colon < |source| && source[colon] == ':'
    ensures source == (source[..colon] + ":") + source[colon + 1..]
  {
  }

  lemma SchemeIsLossless(source: string, strict: bool, colon: nat)
    returns (mark: string, tail: string, q: bool, f: bool)
    requires colon < |source| && source[colon] == ':'
    requires ParseHierarchy(NO_COMPONENTS.(scheme := source[..colon]), source[colon + 1..], true, strict).Ok?
    ensures var r := ParseHierarchy(NO_COMPONENTS.(scheme := source[..colon]), source[colon + 1..], true, strict).value;
            && r.scheme == source[..colon] && Whole(tail, r, q, f)
            && source == (r.scheme + ":") + (mark + (r.authority + tail))
            && (mark == "" ==> r.authority == "") && (mark == "" || mark == "//")
  {
    var c := NO_COMPONENTS.(scheme := source[..colon]);
    HierarchySeparators(c, source[colon + 1..], true, strict);
    mark, tail, q, f := HierarchyIsLossless(c, source[colon + 1..], true, strict);
    AtColon(source, colon);
  }

  /**
   Every text that is accepted is its components with their separators, none of which can be found
   earlier; only the two characters in front of an authority without a scheme are not looked at.
   */
  lemma ParseIsLossless(source: string, strict: bool)
    returns (s: bool, mark: string, tail: string, q: bool, f: bool)
    requires ParseUri(source, strict).Ok?
    ensures var r := ParseUri(source, strict).value;
            && source == Part(s, r.scheme + ":") + (mark + (r.authority + tail)) && Whole(tail, r, q, f)
            && (s || r.scheme == "") && (mark == "" ==> r.authority == "") && (mark == "" || |mark| == 2)
            && (s ==> mark == "" || mark == "//")
  {
    s, mark, tail, q, f := false, "", source, false, false;
    if source == "" {
      assert source == "" + ("" + ("" + source)) && TailText("", "", "", false, false) == "";
    } else if source[0] == '/' {
      TailSeparators(NO_COMPONENTS, source, strict);
      q, f := TailIsLossless(NO_COMPONENTS, source, strict);
      assert source == "" + ("" + ("" + source));
    } else {
      var colon := FirstWhere(source, IsColon);
      if colon < FirstWhere(source, EndsAuthority) {
        s := true;
        mark, tail, q, f := SchemeIsLossless(source, strict, colon);
      } else {
        HierarchySeparators(NO_COMPONENTS, source, false, strict);
        mark, tail, q, f := HierarchyIsLossless(NO_COMPONENTS, source, false, strict);
        assert source == "" + source;
      }
    }
  }

  lemma FreeBefore(s: string, p: char -> bool, at: nat)
    requires at <= FirstWhere(s, p)
    ensures Free(s[..at], p)
  {
  }

  lemma SchemeSeparators(source: string, strict: bool, colon: nat)
    requires colon < |source| && colon <= FirstWhere(source, IsColon) && colon <= FirstWhere(source, EndsAuthority)
    requires ParseHierarchy(NO_COMPONENTS.(scheme := source[..colon]), source[colon + 1..], true, strict).Ok?
    ensures Separated(ParseHierarchy(NO_COMPONENTS.(scheme := source[..colon]), source[colon + 1..], true, strict).value)
  {
    FreeBefore(source, IsColon, colon);
    FreeBefore(source, EndsAuthority, colon);
    HierarchySeparators(NO_COMPONENTS.(scheme := source[..colon]), source[colon + 1..], true, strict);
  }

  /** No component contains what ends it. */
  predicate Separated(r: Components) {
    && Free(r.scheme, IsColon) && Free(r.scheme, EndsAuthority) && Free(r.authority, EndsAuthority)
    && Free(r.path, EndsPath) && Free(r.query, IsHash)
  }

  lemma SeparatorsEnd(source: string, strict: bool)
    requires ParseUri(source, strict).Ok?
    ensures Separated(ParseUri(source, strict).value)
  {
    if source != "" {
      if source[0] == '/' {
        TailSeparators(NO_COMPONENTS, source, strict);
      } else {
        var colon := FirstWhere(source, IsColon);
        if colon < FirstWhere(source, EndsAuthority) {
          SchemeSeparators(source, strict, colon);
        } else {
          HierarchySeparators(NO_COMPONENTS, source, false, strict);
        }
      }
    }
  }

  /** The strict result is the relaxed one exactly if the alphabets are kept. */
  ghost predicate Stricter(strict: Result<Components, UriError>, relaxed: Result<Components, UriError>, kept: bool) {
    (strict.Ok? <==> relaxed.Ok? && kept) && (strict.Ok? ==> strict == relaxed)
  }

  lemma TailStrictIff(c: Components, tail: string)
    ensures var relaxed := ParseTail(c, tail, false);
            && relaxed.Ok? && relaxed.value.scheme == c.scheme && relaxed.value.authority == c.authority
            && Stricter(ParseTail(c, tail, true), relaxed, All(relaxed.value.path, IsPathChar))
  {
  }

  lemma HierarchyStrictIff(c: Components, source: string, schemed: bool)
    requires c == NO_COMPONENTS.(scheme := c.scheme)
    ensures var relaxed := ParseHierarchy(c, source, schemed, false);
            && (relaxed.Ok? ==> relaxed.value.scheme == c.scheme)
            && Stricter(ParseHierarchy(c, source, schemed, true), relaxed,
                        relaxed.Ok? && All(relaxed.value.authority, IsAuthorityChar) && All(relaxed.value.path, IsPathChar))
  {
    if source != "" {
      if "//" <= source || (!schemed && !EndsAuthority(source[0])) {
        if |source| >= 2 {
          var rest := source[2..];
          var authEnd := FirstWhere(rest, EndsAuthority);
          TailStrictIff(c.(authority := rest[..authEnd]), rest[authEnd..]);
        }
      } else {
        TailStrictIff(c, source);
      }
    }
  }

  /** The strict parser accepts what the relaxed one does, with the same result, if the alphabets are kept. */
  lemma StrictIff(source: string)
    ensures var strict, relaxed := ParseUri(source, true), ParseUri(source, false);
            && (strict.Ok? <==> && relaxed.Ok? && All(source, IsUriChar) && All(relaxed.value.scheme, IsAlnum)
                                && All(relaxed.value.authority, IsAuthorityChar) && All(relaxed.value.path, IsPathChar))
            && (strict.Ok? ==> strict == relaxed)
  {
    if source != "" {
      if source[0] == '/' {
        TailStrictIff(NO_COMPONENTS, source);
      } else {
        var colon := FirstWhere(source, IsColon);
        if colon < FirstWhere(source, EndsAuthority) {
          HierarchyStrictIff(NO_COMPONENTS.(scheme := source[..colon]), source[colon + 1..], true);
        } else {
          HierarchyStrictIff(NO_COMPONENTS, source, false);
        }
      }
    }
  }

  /** The relaxed parser refuses only what is too short for the two characters that it drops. */
  lemma RelaxedFailsIff(source: string)
    ensures ParseUri(source, false).Err? <==> |source| == 1 && source[0] !in "/?#:"
  {
    if source != "" && source[0] == ':' {
      assert FirstWhere(source, IsColon) == 0;
    }
  }

  /** `UriFactory::toString` for components without a fragment. */
  function UriText(scheme: string, authority: string, path: string, query: string): string {
    scheme + (if scheme == "" then "" else ":")
    + (if authority == "" || "//" <= authority then "" else "//") + authority
    + (if path == "" || path[0] == '/' || authority == "" then "" else "/") + path
    + (if query == "" || query[0] == '?' then "" else "?") + query
  }

  /** The characters each component may have; the strict parser checks its alphabet as well. */
  predicate WellSpelt(scheme: string, authority: string, path: string, strict: bool) {
    && (forall i | 0 <= i < |scheme| :: !IsColon(scheme[i]) && !EndsAuthority(scheme[i]))
    && (forall i | 0 <= i < |authority| :: !EndsAuthority(authority[i]))
    && (forall i | 0 <= i < |path| :: !EndsPath(path[i]))
    && (strict ==> All(scheme, IsAlnum) && All(authority, IsAuthorityChar) && All(path, IsPathChar))
  }

  /** An authority needs a scheme in front and an absolute path behind it. */
  predicate WellShaped(scheme: string, authority: string, path: string) {
    if authority != "" then scheme != "" && (path == "" || path[0] == '/')
    else if scheme != "" then !("//" <= path)
    else path == "" || path[0] == '/'
  }

  predicate Addressable(scheme: string, authority: string, path: string, strict: bool) {
    WellSpelt(scheme, authority, path, strict) && WellShaped(scheme, authority, path)
  }

  predicate Queryable(query: string, strict: bool) {
    && (forall i | 0 <= i < |query| :: !IsHash(query[i]))
    && (query != "" ==> query[0] != '?')
    && (strict ==> All(query, IsUriChar))
  }

  function QueryText(query: string): string {
    if query == "" then "" else "?" + query
  }

  lemma TailSplits(c: Components, path: string, query: string, strict: bool)
    requires (forall i | 0 <= i < |path| :: !EndsPath(path[i])) && (strict ==> All(path, IsPathChar))
    requires (forall i | 0 <= i < |query| :: !IsHash(query[i])) && c.query == "" == c.fragment
    ensures ParseTail(c, path + QueryText(query), strict) == Ok(c.(path := path, query := query))
  {
    var back := QueryText(query);
    FirstWhereIs(path, back, EndsPath);
    TailSlices(path, back);
    if query != "" {
      HashIsLast(query);
      assert back[1..] == query;
    }
  }

  lemma TailSlices(path: string, back: string)
    ensures var tail := path + back;
            && tail[..|path|] == path && tail[|path|..] == back
            && (back != "" ==> tail[|path| + 1..|tail|] == back[1..])
  {
  }

  lemma HashIsLast(query: string)
    requires forall i | 0 <= i < |query| :: !IsHash(query[i])
    ensures FirstWhere("?" + query, IsHash) == |query| + 1
  {
    var back := "?" + query;
    assert forall i | 0 <= i < |back| :: !IsHash(back[i]);
    FirstWhereIs(back, "", IsHash);
    assert back + "" == back;
  }

  /** What a strict parser wants of the whole text. */
  lemma TextIsUri(a: string, b: string)
    requires All(a, IsUriChar) && All(b, IsUriChar)
    ensures All(a + b, IsUriChar)
  {
  }

  lemma ComponentsAreUri(scheme: string, authority: string, path: string)
    requires WellSpelt(scheme, authority, path, true)
    ensures All(scheme, IsUriChar) && All(authority, IsUriChar) && All(path, IsUriChar)
  {
    forall i | 0 <= i < |scheme| ensures IsUriChar(scheme[i]) { assert IsAlnum(scheme[i]); }
    forall i | 0 <= i < |authority| ensures IsUriChar(authority[i]) { assert IsAuthorityChar(authority[i]); }
    forall i | 0 <= i < |path| ensures IsUriChar(path[i]) { assert IsPathChar(path[i]); }
  }

  lemma TailIsUri(path: string, query: string)
    requires All(path, IsUriChar) && All(query, IsUriChar)
    ensures All(path + QueryText(query), IsUriChar)
  {
    if query != "" {
      TextIsUri("?", query);
    }
    TextIsUri(path, QueryText(query));
  }

  /** Without a scheme: a path, or only a query. */
  lemma PathOnlySplits(path: string, query: string, strict: bool)
    requires Addressable("", "", path, strict) && Queryable(query, strict)
    ensures ParseUri(path + QueryText(query), strict) == Ok(Components("", "", path, query, ""))
  {
    var source := path + QueryText(query);
    if strict {
      ComponentsAreUri("", "", path);
      TailIsUri(path, query);
    }
    TailSplits(NO_COMPONENTS, path, query, strict);
    if path == "" && query != "" {
      assert source == "?" + query;
      assert FirstWhere(source, EndsAuthority) == 0;
      assert !("//" <= source);
    }
  }

  lemma SchemeSplits(scheme: string, behind: string, strict: bool)
    requires scheme != "" && (forall i | 0 <= i < |scheme| :: !IsColon(scheme[i]) && !EndsAuthority(scheme[i]))
    requires strict ==> All(scheme, IsAlnum) && All(scheme, IsUriChar) && All(behind, IsUriChar)
    ensures ParseUri(scheme + (":" + behind), strict)
            == ParseHierarchy(NO_COMPONENTS.(scheme := scheme), behind, true, strict)
  {
    var source := scheme + (":" + behind);
    if strict {
      TextIsUri(":", behind);
      TextIsUri(scheme, ":" + behind);
    }
    FirstWhereIs(scheme, ":" + behind, IsColon);
    SeparatorFollows(scheme, behind);
    TailSlices(scheme, ":" + behind);
    assert (":" + behind)[1..] == behind;
    assert source[0] == scheme[0];
  }

  lemma FirstWhereBeyond(front: string, c: char, back: string, p: char -> bool)
    requires (forall i | 0 <= i < |front| :: !p(front[i])) && !p(c)
    ensures FirstWhere(front + ([c] + back), p) > |front|
  {
    var s := front + ([c] + back);
    assert forall i | 0 <= i < |front| :: s[i] == front[i];
    assert s[|front|] == c;
  }

  lemma SeparatorFollows(scheme: string, behind: string)
    requires forall i | 0 <= i < |scheme| :: !EndsAuthority(scheme[i])
    ensures FirstWhere(scheme + (":" + behind), EndsAuthority) > |scheme|
  {
    FirstWhereBeyond(scheme, ':', behind, EndsAuthority);
  }

  lemma AuthoritySplits(c: Components, authority: string, tail: string, strict: bool)
    requires (forall i | 0 <= i < |authority| :: !EndsAuthority(authority[i]))
    requires strict ==> All(authority, IsAuthorityChar)
    requires tail == "" || EndsAuthority(tail[0])
    ensures ParseHierarchy(c, "//" + (authority + tail), true, strict)
            == ParseTail(c.(authority := authority), tail, strict)
  {
    var rest := authority + tail;
    assert ("//" + rest)[2..] == rest;
    FirstWhereIs(authority, tail, EndsAuthority);
    assert rest[..|authority|] == authority;
    assert rest[|authority|..] == tail;
  }

  lemma AbsoluteSplits(scheme: string, authority: string, path: string, query: string, strict: bool)
    requires Addressable(scheme, authority, path, strict) && authority != "" && Queryable(query, strict)
    ensures ParseUri(scheme + (":" + ("//" + (authority + (path + QueryText(query))))), strict)
            == Ok(Components(scheme, authority, path, query, ""))
  {
    var tail := path + QueryText(query);
    var behind := "//" + (authority + tail);
    if strict {
      ComponentsAreUri(scheme, authority, path);
      TailIsUri(path, query);
      TextIsUri(authority, tail);
      TextIsUri("//", authority + tail);
    }
    SchemeSplits(scheme, behind, strict);
    AuthoritySplits(NO_COMPONENTS.(scheme := scheme), authority, tail, strict);
    TailSplits(NO_COMPONENTS.(scheme := scheme, authority := authority), path, query, strict);
  }

  /** A scheme directly in front of a path. */
  lemma OpaqueSplits(scheme: string, path: string, query: string, strict: bool)
    requires Addressable(scheme, "", path, strict) && scheme != "" && Queryable(query, strict)
    ensures ParseUri(scheme + (":" + (path + QueryText(query))), strict)
            == Ok(Components(scheme, "", path, query, ""))
  {
    var tail := path + QueryText(query);
    if strict {
      ComponentsAreUri(scheme, "", path);
      TailIsUri(path, query);
    }
    SchemeSplits(scheme, tail, strict);
    TailSplits(NO_COMPONENTS.(scheme := scheme), path, query, strict);
  }

  lemma BuiltAbsolute(scheme: string, authority: string, path: string, query: string)
    requires scheme != "" && authority != "" && !("//" <= authority) && (path == "" || path[0] == '/')
    requires query == "" || query[0] != '?'
    ensures UriText(scheme, authority, path, query)
            == scheme + (":" + ("//" + (authority + (path + QueryText(query)))))
  {
    assert query != "" ==> path + "?" + query == path + QueryText(query);
    Nested(scheme, ":", "//", authority, path, if query == "" then "" else "?", query);
  }

  lemma Nested(a: string, b: string, c: string, d: string, e: string, f: string, g: string)
    ensures a + b + c + d + "" + e + f + g == a + (b + (c + (d + (e + (f + g)))))
  {
    assert a + b + c == a + (b + c);
    assert a + (b + c) + d == a + (b + (c + d));
    assert d + "" == d;
    assert d + e + f + g == d + (e + (f + g));
  }

  /** Separators that are already there are not doubled. */
  lemma NotDoubled(scheme: string, authority: string, path: string, query: string)
    requires authority != "" && !("//" <= authority) && query != "" && query[0] != '?'
    ensures UriText(scheme, "//" + authority, path, "?" + query) == UriText(scheme, authority, path, query)
    ensures path != "" && path[0] != '/' ==> UriText(scheme, authority, path, query) == UriText(scheme, authority, "/" + path, query)
  {
  }

  lemma BuiltOpaque(scheme: string, path: string, query: string)
    requires query == "" || query[0] != '?'
    ensures UriText(scheme, "", path, query)
            == if scheme == "" then path + QueryText(query) else scheme + (":" + (path + QueryText(query)))
  {
  }

  /** Building a URI and parsing it gives back the scheme, the authority, the path and the query. */
  lemma BuildParses(scheme: string, authority: string, path: string, query: string, strict: bool)
    requires Addressable(scheme, authority, path, strict) && Queryable(query, strict)
    ensures ParseUri(UriText(scheme, authority, path, query), strict)
            == Ok(Components(scheme, authority, path, query, ""))
  {
    assert authority != "" ==> !EndsAuthority(authority[0]);
    if authority != "" {
      BuiltAbsolute(scheme, authority, path, query);
      AbsoluteSplits(scheme, authority, path, query, strict);
    } else {
      BuiltOpaque(scheme, path, query);
      if scheme != "" {
        OpaqueSplits(scheme, path, query, strict);
      } else {
        PathOnlySplits(path, query, strict);
      }
    }
  }
}
