/** The string searches and decimal conversions the parsers rely on. */
module Text {
  import opened Wrappers

  const U64_LIMIT: int := 0x1_0000_0000_0000_0000

  type u64 = x: int | 0 <= x < 0x1_0000_0000_0000_0000

  const CRLF: string := "\r\n"

  predicate OccursAt(s: string, pattern: string, at: int) {
    0 <= at && at + |pattern| <= |s| && s[at..at + |pattern|] == pattern
  }

  /** `std::string_view::find` of a non-empty pattern. */
  function Find(s: string, pattern: string): (r: Option<nat>)
    requires pattern != ""
    ensures r.Some? ==> r.value + |pattern| <= |s|
  {
    if pattern <= s then Some(0)
    else if s == "" then None
    else
      var later := Find(s[1..], pattern);
      if later.Some? then Some(later.value + 1) else None
  }

  /** It is the first occurrence, and there is none when it finds none. */
  lemma {:induction false} FindIsFirst(s: string, pattern: string)
    requires pattern != ""
    ensures Find(s, pattern).Some? ==> OccursAt(s, pattern, Find(s, pattern).value)
    ensures forall i | 0 <= i < (if Find(s, pattern).Some? then Find(s, pattern).value else |s|) ::
              !OccursAt(s, pattern, i)
  {
    if !(pattern <= s) && s != "" {
      FindIsFirst(s[1..], pattern);
      forall i | 0 < i <= |s| ensures OccursAt(s, pattern, i) == OccursAt(s[1..], pattern, i - 1) {
        if i + |pattern| <= |s| {
          assert s[1..][i - 1..i - 1 + |pattern|] == s[i..i + |pattern|];
        }
      }
    }
  }

  lemma FindIs(s: string, pattern: string, at: nat)
    requires pattern != "" && OccursAt(s, pattern, at)
    requires forall i | 0 <= i < at :: !OccursAt(s, pattern, i)
    ensures Find(s, pattern) == Some(at)
  {
    FindIsFirst(s, pattern);
  }

  /** What follows the first occurrence does not move it. */
  lemma FindAppend(s: string, pattern: string, tail: string)
    requires pattern != "" && Find(s, pattern).Some?
    ensures Find(s + tail, pattern) == Find(s, pattern)
  {
    FindIsFirst(s, pattern);
    var at := Find(s, pattern).value;
    forall i | 0 <= i < at ensures !OccursAt(s + tail, pattern, i) {
      assert !OccursAt(s, pattern, i);
      assert (s + tail)[i..i + |pattern|] == s[i..i + |pattern|];
    }
    assert (s + tail)[at..at + |pattern|] == s[at..at + |pattern|];
    FindIs(s + tail, pattern, at);
  }

  /** A prefix without the pattern's first character only shifts the first occurrence. */
  lemma {:induction false} FindShift(prefix: string, s: string, pattern: string)
    requires pattern != "" && pattern[0] !in prefix
    ensures Find(prefix + s, pattern) ==
            if Find(s, pattern).Some? then Some(|prefix| + Find(s, pattern).value) else None
  {
    if prefix == "" {
      assert prefix + s == s;
    } else {
      FindShift(prefix[1..], s, pattern);
      assert (prefix + s)[0] == prefix[0];
      assert (prefix + s)[1..] == prefix[1..] + s;
    }
  }

  /** The first occurrence splits a text, and is still the first one in what precedes it. */
  lemma {:induction false} FindSplits(text: string, pattern: string)
    requires pattern != "" && Find(text, pattern).Some?
    ensures var end := Find(text, pattern).value;
            && text == text[..end] + pattern + text[end + |pattern|..]
            && Find(text[..end] + pattern, pattern) == Some(end)
  {
    var end := Find(text, pattern).value;
    FindIsFirst(text, pattern);
    assert text == text[..end] + text[end..end + |pattern|] + text[end + |pattern|..];
    var front := text[..end] + pattern;
    assert front[end..end + |pattern|] == pattern;
    forall i | 0 <= i < end ensures !OccursAt(front, pattern, i) {
      assert !OccursAt(text, pattern, i);
      assert front == text[..end + |pattern|];
      assert front[i..i + |pattern|] == text[i..i + |pattern|];
    }
    FindIs(front, pattern, end);
  }

  lemma FindOccurs(s: string, pattern: string)
    requires pattern != "" && Find(s, pattern).Some?
    ensures OccursAt(s, pattern, Find(s, pattern).value)
  {
    FindIsFirst(s, pattern);
  }

  lemma Drop(s: string, a: nat, b: nat)
    requires a <= b <= |s|
    ensures s[a..][b - a..] == s[b..]
  {
  }

  // ----- decimal numbers ----------------------------------------------------------------

  predicate IsDigit(c: char) {
    '0' <= c <= '9'
  }

  predicate AllDigits(s: string) {
    forall c | c in s :: IsDigit(c)
  }

  function DigitChar(d: int): (c: char)
    requires 0 <= d < 10
    ensures IsDigit(c) && c as int - '0' as int == d
  {
    ('0' as int + d) as char
  }

  function DecimalValue(s: string): nat
    requires AllDigits(s)
  {
    if s == "" then 0
    else
      assert IsDigit(s[|s| - 1]);
      10 * DecimalValue(s[..|s| - 1]) + (s[|s| - 1] as int - '0' as int)
  }

  /** `std::to_string` of an unsigned number. */
  function ToDecimal(n: nat): (s: string)
    ensures s != "" && AllDigits(s)
    ensures DecimalValue(s) == n
  {
    if n < 10 then
      var s := [DigitChar(n)];
      assert s[..0] == "";
      s
    else
      var front := ToDecimal(n / 10);
      var s := front + [DigitChar(n % 10)];
      assert s[..|s| - 1] == front;
      s
  }

  /** `std::from_chars` for an unsigned 64-bit number that must use up the whole text. */
  function ParseU64(s: string): Option<u64> {
    if s != "" && AllDigits(s) && DecimalValue(s) < U64_LIMIT then Some(DecimalValue(s)) else None
  }

  lemma DecimalSnoc(s: string, c: char)
    requires AllDigits(s) && IsDigit(c)
    ensures AllDigits(s + [c]) && DecimalValue(s + [c]) == 10 * DecimalValue(s) + (c as int - '0' as int)
  {
    assert (s + [c])[..|s|] == s;
  }

  lemma {:induction false} DecimalGrows(s: string, i: nat)
    requires AllDigits(s) && i <= |s|
    ensures AllDigits(s[..i]) && DecimalValue(s[..i]) <= DecimalValue(s)
    decreases |s| - i
  {
    if i == |s| {
      assert s[..i] == s;
    } else {
      DecimalGrows(s, i + 1);
      assert s[..i + 1] == s[..i] + [s[i]];
      DecimalSnoc(s[..i], s[i]);
    }
  }

  /** Reads the digits one by one into 64 bits and refuses the first one that does not fit. */
  method ReadU64(s: string) returns (r: Option<u64>)
    ensures r.Some? <==> s != "" && AllDigits(s) && DecimalValue(s) < U64_LIMIT
    ensures r.Some? ==> r.value == DecimalValue(s)
  {
    if s == "" {
      return None;
    }
    var value: u64 := 0;
    for i := 0 to |s|
      invariant AllDigits(s[..i]) && value == DecimalValue(s[..i])
    {
      if !IsDigit(s[i]) {
        assert s[i] in s;
        return None;
      }
      var digit := s[i] as int - '0' as int;
      assert s[..i + 1] == s[..i] + [s[i]];
      DecimalSnoc(s[..i], s[i]);
      if value > (U64_LIMIT - 1 - digit) / 10 {
        assert !AllDigits(s) || DecimalValue(s) >= U64_LIMIT by {
          if AllDigits(s) {
            DecimalGrows(s, i + 1);
          }
        }
        return None;
      }
      value := 10 * value + digit;
    }
    assert s[..|s|] == s;
    r := Some(value);
  }

  lemma ParseToDecimal(n: u64)
    ensures ParseU64(ToDecimal(n)) == Some(n)
  {
    assert DecimalValue(ToDecimal(n)) == n;
  }
}
