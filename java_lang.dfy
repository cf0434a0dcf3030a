/**
 * The pieces of java.lang (and of Spring's StringUtils) that the services rely on,
 * written out over Dafny strings: String.trim, trim().isEmpty(), StringUtils.hasText,
 * toLowerCase (ASCII part), String.contains, String.endsWith, String.length (UTF-16 code
 * units), Long.valueOf(String) / Long.toString and 32-bit int arithmetic.
 */
module JavaLang {
  import opened Wrappers

  // ---------------------------------------------------------------------------
  // String.trim(): drops leading and trailing characters whose code is <= U+0020.
  // ---------------------------------------------------------------------------

  predicate IsTrimmable(c: char) { c <= ' ' }

  /** The first loop of trim: advance `st` over trimmable characters. */
  function TrimFront(s: string, st: nat): (r: nat)
    requires st <= |s|
    ensures st <= r <= |s|
    ensures r < |s| ==> !IsTrimmable(s[r])
    decreases |s| - st
  {
    if st < |s| && IsTrimmable(s[st]) then TrimFront(s, st + 1) else st
  }

  /** The second loop of trim: pull `len` back over trimmable characters, never past `st`. */
  function TrimBack(s: string, st: nat, len: nat): (r: nat)
    requires st <= len <= |s|
    ensures st <= r <= len
    ensures st < r ==> !IsTrimmable(s[r - 1])
    decreases len
  {
    if st < len && IsTrimmable(s[len - 1]) then TrimBack(s, st, len - 1) else len
  }

  /** Index of the first character trim keeps. */
  function Lead(s: string): nat
  {
    TrimFront(s, 0)
  }

  /** Index just past the last character trim keeps. */
  function End(s: string): (r: nat)
    ensures Lead(s) <= r <= |s|
  {
    TrimBack(s, Lead(s), |s|)
  }

  /** Java's String.trim(): `substring(st, len)` after the two loops. */
  function Trim(s: string): string
  {
    s[Lead(s)..End(s)]
  }

  /** Only trimmable characters are skipped by the first loop. */
  lemma {:induction false} FrontDrops(s: string, st: nat)
    requires st <= |s|
    ensures forall i :: st <= i < TrimFront(s, st) ==> IsTrimmable(s[i])
    decreases |s| - st
  {
    if st < |s| && IsTrimmable(s[st]) {
      FrontDrops(s, st + 1);
    }
  }

  /** Only trimmable characters are dropped by the second loop. */
  lemma {:induction false} BackDrops(s: string, st: nat, len: nat)
    requires st <= len <= |s|
    ensures forall i :: TrimBack(s, st, len) <= i < len ==> IsTrimmable(s[i])
    decreases len
  {
    if st < len && IsTrimmable(s[len - 1]) {
      BackDrops(s, st, len - 1);
    }
  }

  /** The trimmed string is the middle piece of the original: what precedes and what
      follows it are trimmable characters, and it neither starts nor ends with one. */
  lemma TrimSpec(s: string)
    ensures Trim(s) == s[Lead(s)..End(s)]
    ensures forall i :: 0 <= i < Lead(s) ==> IsTrimmable(s[i])
    ensures forall i :: End(s) <= i < |s| ==> IsTrimmable(s[i])
    ensures Trim(s) == [] || (!IsTrimmable(Trim(s)[0]) && !IsTrimmable(Trim(s)[|Trim(s)| - 1]))
  {
    FrontDrops(s, 0);
    BackDrops(s, Lead(s), |s|);
    if Lead(s) < End(s) {
      assert Trim(s)[0] == s[Lead(s)];
      assert Trim(s)[|Trim(s)| - 1] == s[End(s) - 1];
    }
  }

  /** A string whose two ends are not trimmable is its own trim. */
  lemma TrimOfTrimmed(s: string)
    requires s == [] || (!IsTrimmable(s[0]) && !IsTrimmable(s[|s| - 1]))
    ensures Trim(s) == s
  {
    assert Lead(s) == 0;
    assert End(s) == |s|;
    assert s[0..|s|] == s;
  }

  /** Trimming twice is trimming once. */
  lemma TrimIdempotent(s: string)
    ensures Trim(Trim(s)) == Trim(s)
  {
    TrimSpec(s);
    TrimOfTrimmed(Trim(s));
  }

  /** Java's `s.trim().isEmpty()`. */
  predicate IsBlank(s: string)
  {
    Trim(s) == []
  }

  /** A string is blank exactly when every one of its characters is trimmable. */
  lemma BlankIff(s: string)
    ensures IsBlank(s) <==> forall i :: 0 <= i < |s| ==> IsTrimmable(s[i])
  {
    FrontDrops(s, 0);
    BackDrops(s, Lead(s), |s|);
    if Lead(s) < |s| {
      assert !IsTrimmable(s[Lead(s)]);
      assert Lead(s) < End(s);
    }
  }

  /** The trim of a non-blank string is itself non-blank. */
  lemma TrimNotBlank(s: string)
    requires !IsBlank(s)
    ensures !IsBlank(Trim(s)) && Trim(s) != []
  {
    TrimIdempotent(s);
  }

  // ---------------------------------------------------------------------------
  // Spring's StringUtils.hasText: not null, and some character that is not
  // Character.isWhitespace.
  // ---------------------------------------------------------------------------

  /** Character.isWhitespace: the Unicode space, line and paragraph separators other than
      the three no-break spaces, plus TAB, LF, VT, FF, CR and U+001C..U+001F. */
  predicate IsJavaWhitespace(c: char)
  {
    || ('\t' <= c <= '\r')
    || ('\U{001C}' <= c <= ' ')
    || c == '\U{1680}'
    || ('\U{2000}' <= c <= '\U{200A}' && c != '\U{2007}')
    || c == '\U{2028}' || c == '\U{2029}' || c == '\U{205F}' || c == '\U{3000}'
  }

  predicate HasText(s: Option<string>)
  {
    s.Some? && exists i :: 0 <= i < |s.value| && !IsJavaWhitespace(s.value[i])
  }

  // ---------------------------------------------------------------------------
  // toLowerCase, restricted to the ASCII letters.
  // ---------------------------------------------------------------------------

  function LowerChar(c: char): (r: char)
  {
    if 'A' <= c <= 'Z' then (c as int + 32) as char else c
  }

  function ToLowerAscii(s: string): (r: string)
    ensures |r| == |s|
    ensures forall i :: 0 <= i < |s| ==> r[i] == LowerChar(s[i])
  {
    seq(|s|, i requires 0 <= i < |s| => LowerChar(s[i]))
  }

  // ---------------------------------------------------------------------------
  // String.contains and String.endsWith.
  // ---------------------------------------------------------------------------

  /** `w` occurs in `s` starting at some index (the declarative reading of contains). */
  ghost predicate OccursIn(w: string, s: string)
  {
    exists i :: 0 <= i <= |s| - |w| && w <= s[i..]
  }

  /** String.contains, computed by trying each start position in turn. */
  function Contains(s: string, w: string): bool
    decreases |s|
  {
    if w <= s then true
    else if |s| <= |w| then false
    else Contains(s[1..], w)
  }

  /** Contains finds an occurrence exactly when there is one. */
  lemma {:induction false} ContainsIff(s: string, w: string)
    ensures Contains(s, w) <==> OccursIn(w, s)
    decreases |s|
  {
    if w <= s {
      assert s[0..] == s;
    } else if |s| <= |w| {
      if |s| == |w| {
        assert s[0..] == s;
      }
    } else {
      ContainsIff(s[1..], w);
      if OccursIn(w, s) {
        var i :| 0 <= i <= |s| - |w| && w <= s[i..];
        assert i != 0 by { assert s[0..] == s; }
        assert s[1..][i - 1..] == s[i..];
      }
      if OccursIn(w, s[1..]) {
        var i :| 0 <= i <= |s[1..]| - |w| && w <= s[1..][i..];
        assert s[1..][i..] == s[i + 1..];
      }
    }
  }

  /** Witness form: an occurrence at a known index is found. */
  lemma ContainsAt(s: string, w: string, i: nat)
    requires i + |w| <= |s| && s[i..i + |w|] == w
    ensures Contains(s, w)
  {
    assert w <= s[i..];
    ContainsIff(s, w);
  }

  /** Every character of a contained word is a character of the string. */
  lemma ContainsChars(s: string, w: string)
    requires Contains(s, w)
    ensures forall k :: 0 <= k < |w| ==> w[k] in s
  {
    ContainsIff(s, w);
    var i :| 0 <= i <= |s| - |w| && w <= s[i..];
    forall k | 0 <= k < |w|
      ensures w[k] in s
    {
      assert w[k] == s[i + k];
    }
  }

  /** A word that lowercasing and trimming cannot touch: not empty, no ASCII capital, no
      character at or below U+0020. */
  predicate PlainWord(w: string)
  {
    w != [] && forall j :: 0 <= j < |w| ==> !IsTrimmable(w[j]) && LowerChar(w[j]) == w[j]
  }

  /** A plain word in the question is still there after `toLowerCase().trim()`. */
  lemma PlainWordSurvives(question: string, w: string)
    requires PlainWord(w) && Contains(question, w)
    ensures Contains(Trim(ToLowerAscii(question)), w)
  {
    ContainsIff(question, w);
    var i :| 0 <= i <= |question| - |w| && w <= question[i..];
    var lower := ToLowerAscii(question);
    forall j | 0 <= j < |w|
      ensures lower[i + j] == w[j]
    {
      assert question[i + j] == w[j];
    }
    assert lower[i..i + |w|] == w;
    SurvivesTrim(lower, w, i);
  }

  /** An occurrence of a word with non-trimmable ends survives trim. */
  lemma SurvivesTrim(s: string, w: string, i: nat)
    requires w != [] && !IsTrimmable(w[0]) && !IsTrimmable(w[|w| - 1])
    requires i + |w| <= |s| && s[i..i + |w|] == w
    ensures Contains(Trim(s), w)
  {
    assert s[i] == w[0] && s[i + |w| - 1] == w[|w| - 1];
    TrimKeepsInner(s, i, i + |w| - 1);
    ContainsWithin(s, Trim(s), w, i, Lead(s));
  }

  /** An occurrence inside a slice is an occurrence in the slice. */
  lemma ContainsWithin(s: string, t: string, w: string, i: nat, lead: nat)
    requires i + |w| <= |s| && s[i..i + |w|] == w
    requires lead <= i && i + |w| <= lead + |t| && lead + |t| <= |s| && t == s[lead..lead + |t|]
    ensures Contains(t, w)
  {
    var k := i - lead;
    forall j | 0 <= j < |w|
      ensures t[k + j] == w[j]
    {
      assert t[k + j] == s[i + j];
    }
    assert t[k..k + |w|] == w;
    ContainsAt(t, w, k);
  }

  /** Trimming keeps everything from the first to the last non-trimmable character. */
  lemma TrimKeepsInner(s: string, i: nat, j: nat)
    requires i <= j < |s| && !IsTrimmable(s[i]) && !IsTrimmable(s[j])
    ensures Lead(s) <= i && j < End(s)
  {
    FrontDrops(s, 0);
    BackDrops(s, Lead(s), |s|);
  }

  predicate EndsWith(s: string, suffix: string)
  {
    |suffix| <= |s| && s[|s| - |suffix|..] == suffix
  }

  // ---------------------------------------------------------------------------
  // String.length(): UTF-16 code units, two for a character outside the BMP.
  // ---------------------------------------------------------------------------

  function Utf16Length(s: string): (n: nat)
    ensures |s| <= n <= 2 * |s|
  {
    if s == [] then 0
    else Utf16Length(s[..|s| - 1]) + (if s[|s| - 1] as int > 0xFFFF then 2 else 1)
  }

  /** For text inside the Basic Multilingual Plane, Java's length is the character count. */
  lemma {:induction false} Utf16LengthBmp(s: string)
    requires forall i :: 0 <= i < |s| ==> s[i] as int <= 0xFFFF
    ensures Utf16Length(s) == |s|
  {
    if s != [] {
      Utf16LengthBmp(s[..|s| - 1]);
    }
  }

  // ---------------------------------------------------------------------------
  // Long.valueOf(String) and Long.toString(long), ASCII digits only.
  // ---------------------------------------------------------------------------

  const LONG_MIN: int := -0x8000_0000_0000_0000
  const LONG_MAX: int := 0x7FFF_FFFF_FFFF_FFFF

  predicate InLongRange(n: int) { LONG_MIN <= n <= LONG_MAX }

  predicate IsDigit(c: char) { '0' <= c <= '9' }

  predicate AllDigits(s: string) { forall i :: 0 <= i < |s| ==> IsDigit(s[i]) }

  function DigitsValue(s: string): (n: nat)
    requires AllDigits(s)
  {
    if s == [] then 0 else DigitsValue(s[..|s| - 1]) * 10 + (s[|s| - 1] as int - '0' as int)
  }

  /** Long.parseLong with radix 10: an optional sign, at least one digit, and a value
      that fits in 64 bits; anything else is a NumberFormatException (None). Only the
      ASCII digits are read as digits here; Java also reads the other Unicode decimal
      digits. */
  function ParseLong(s: string): (r: Option<int>)
    ensures r.Some? ==> InLongRange(r.value)
  {
    if s == [] then None
    else
      var negative := s[0] == '-';
      var body := if s[0] == '-' || s[0] == '+' then s[1..] else s;
      if body == [] || !AllDigits(body) then None
      else
        var v: int := DigitsValue(body);
        var n := if negative then -v else v;
        if InLongRange(n) then Some(n) else None
  }

  function DigitChar(d: nat): char
    requires d < 10
  {
    ('0' as int + d) as char
  }

  /** Decimal digits of a natural number, without leading zeros. */
  function Digits(n: nat): (s: string)
    ensures s != [] && AllDigits(s)
  {
    if n < 10 then [DigitChar(n)] else Digits(n / 10) + [DigitChar(n % 10)]
  }

  /** Long.toString: a minus sign for negative numbers, then the digits. */
  function DecimalText(n: int): string
  {
    if n < 0 then "-" + Digits(-n) else Digits(n)
  }

  lemma {:induction false} DigitsRoundTrip(n: nat)
    ensures DigitsValue(Digits(n)) == n
  {
    if n >= 10 {
      DigitsRoundTrip(n / 10);
      assert Digits(n)[..|Digits(n)| - 1] == Digits(n / 10);
    }
  }

  /** Parsing the decimal text of a number gives the number back when it fits in 64 bits,
      and fails otherwise. */
  lemma ParseLongRoundTrip(n: int)
    ensures ParseLong(DecimalText(n)) == if InLongRange(n) then Some(n) else None
  {
    var s := DecimalText(n);
    if n < 0 {
      DigitsRoundTrip(-n);
      assert s[1..] == Digits(-n);
    } else {
      DigitsRoundTrip(n);
      assert s == Digits(n);
      assert IsDigit(s[0]);
    }
  }

  // ---------------------------------------------------------------------------
  // 32-bit int arithmetic.
  // ---------------------------------------------------------------------------

  type Int32 = x: int | -0x8000_0000 <= x < 0x8000_0000

  /** Two's-complement wrap-around of an int result. */
  function Wrap32(x: int): (r: Int32)
    ensures (r - x) % 0x1_0000_0000 == 0
    ensures -0x8000_0000 <= x < 0x8000_0000 ==> r == x
  {
    (x + 0x8000_0000) % 0x1_0000_0000 - 0x8000_0000
  }
}
