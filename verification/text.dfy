/** String operations of Rust's `str` that the client relies on, over Dafny
    strings (sequences of Unicode scalar values). Byte lengths are the UTF-8
    lengths that Rust's `len()` reports. */
module Text {
  import opened Wrappers
  import opened Numbers

  // ---------------------------------------------------------------------------
  // Prefixes and substrings
  // ---------------------------------------------------------------------------

  /** `str::starts_with` */
  predicate StartsWith(s: string, prefix: string) {
    |prefix| <= |s| && s[..|prefix|] == prefix
  }

  /** `part` occurs in `s` starting at index `i`. */
  predicate OccursAt(s: string, part: string, i: int) {
    0 <= i && i + |part| <= |s| && s[i..i + |part|] == part
  }

  /** `str::contains` */
  predicate Contains(s: string, part: string) {
    exists i :: 0 <= i <= |s| && OccursAt(s, part, i)
  }

  lemma ContainsMiddle(a: string, part: string, b: string)
    ensures Contains(a + part + b, part)
  {
    var s := a + part + b;
    assert s[|a|..|a| + |part|] == part;
    assert OccursAt(s, part, |a|);
  }

  lemma ContainsWithin(a: string, s: string, b: string, part: string)
    requires Contains(s, part)
    ensures Contains(a + s + b, part)
  {
    var i :| 0 <= i <= |s| && OccursAt(s, part, i);
    var t := a + s + b;
    assert t[|a| + i..|a| + i + |part|] == s[i..i + |part|];
    assert OccursAt(t, part, |a| + i);
  }

  lemma StartsWithContains(s: string, prefix: string)
    requires StartsWith(s, prefix)
    ensures Contains(s, prefix)
  {
    assert OccursAt(s, prefix, 0);
  }

  /** Some member of `parts` occurs in `s`. */
  predicate ContainsAny(s: string, parts: seq<string>) {
    exists i :: 0 <= i < |parts| && Contains(s, parts[i])
  }

  /** `s.split(sep).next()`: the text before the first occurrence of `sep`,
      or all of `s` when `sep` does not occur. */
  function BeforeFirst(s: string, sep: string): (r: string)
    requires sep != []
    ensures StartsWith(s, r)
    ensures forall i :: 0 <= i < |r| ==> !StartsWith(s[i..], sep)
    ensures |r| < |s| ==> StartsWith(s[|r|..], sep)
    decreases |s|
  {
    if s == [] || StartsWith(s, sep) then []
    else
      var rest := BeforeFirst(s[1..], sep);
      assert forall i :: 1 <= i <= |s| ==> s[i..] == s[1..][i - 1..];
      [s[0]] + rest
  }

  lemma {:induction false} BeforeFirstAbsent(s: string, sep: string)
    requires sep != [] && !Contains(s, sep)
    ensures BeforeFirst(s, sep) == s
  {
    var r := BeforeFirst(s, sep);
    if |r| < |s| {
      assert OccursAt(s, sep, |r|) by {
        assert s[|r|..][..|sep|] == s[|r|..|r| + |sep|];
      }
      assert false;
    }
  }

  // ---------------------------------------------------------------------------
  // Whitespace, trimming, joining, case
  // ---------------------------------------------------------------------------

  /** `char::is_whitespace`: the Unicode White_Space property. */
  predicate IsWhitespace(c: char) {
    ('\t' <= c <= '\r') || c == ' ' || c == '\U{85}' || c == '\U{A0}' || c == '\U{1680}'
    || ('\U{2000}' <= c <= '\U{200A}') || c == '\U{2028}' || c == '\U{2029}'
    || c == '\U{202F}' || c == '\U{205F}' || c == '\U{3000}'
  }

  /** `str::trim_start` */
  function TrimStart(s: string): string {
    if s != [] && IsWhitespace(s[0]) then TrimStart(s[1..]) else s
  }

  /** `str::trim_end` */
  function TrimEnd(s: string): string {
    if s != [] && IsWhitespace(s[|s| - 1]) then TrimEnd(s[..|s| - 1]) else s
  }

  /** `str::trim`: drops leading and trailing white space. */
  function Trim(s: string): string {
    TrimEnd(TrimStart(s))
  }

  /** Trimming the start keeps a suffix, drops only white space and stops at
      the first other character. */
  lemma {:induction false} TrimStartSpec(s: string)
    ensures var r := TrimStart(s);
            |r| <= |s| && r == s[|s| - |r|..]
            && (r == [] || !IsWhitespace(r[0]))
            && forall i :: 0 <= i < |s| - |r| ==> IsWhitespace(s[i])
  {
    if s != [] && IsWhitespace(s[0]) {
      var r := TrimStart(s[1..]);
      TrimStartSpec(s[1..]);
      assert s[1..][|s| - 1 - |r|..] == s[|s| - |r|..];
      assert forall i :: 1 <= i < |s| - |r| ==> s[i] == s[1..][i - 1];
    }
  }

  /** Trimming the end keeps a prefix, drops only white space and stops at
      the last other character. */
  lemma {:induction false} TrimEndSpec(s: string)
    ensures var r := TrimEnd(s);
            |r| <= |s| && r == s[..|r|]
            && (r == [] || !IsWhitespace(r[|r| - 1]))
            && forall i :: |r| <= i < |s| ==> IsWhitespace(s[i])
  {
    if s != [] && IsWhitespace(s[|s| - 1]) {
      var r := TrimEnd(s[..|s| - 1]);
      TrimEndSpec(s[..|s| - 1]);
      assert s[..|s| - 1][..|r|] == s[..|r|];
    }
  }

  /** The trimmed text is a slice `s[a..b]` with only white space outside it
      and no white space at either of its ends. */
  lemma TrimSpec(s: string)
    ensures exists a, b ::
              0 <= a <= b <= |s| && Trim(s) == s[a..b]
              && (forall i :: 0 <= i < a ==> IsWhitespace(s[i]))
              && (forall i :: b <= i < |s| ==> IsWhitespace(s[i]))
    ensures Trim(s) == [] || (!IsWhitespace(Trim(s)[0]) && !IsWhitespace(Trim(s)[|Trim(s)| - 1]))
  {
    var t := TrimStart(s);
    TrimStartSpec(s);
    TrimEndSpec(t);
    var a := |s| - |t|;
    var b := a + |Trim(s)|;
    assert Trim(s) == s[a..b];
    assert forall i :: b <= i < |s| ==> s[i] == t[i - a];
  }

  /** `parts.join(sep)` */
  function Join(parts: seq<string>, sep: string): string {
    if |parts| == 0 then ""
    else if |parts| == 1 then parts[0]
    else parts[0] + sep + Join(parts[1..], sep)
  }

  function LowerChar(c: char): char {
    if 'A' <= c <= 'Z' then (c as int + 32) as char else c
  }

  /** Lower-casing, restricted to ASCII letters. */
  function AsciiLower(s: string): (r: string)
    ensures |r| == |s|
    ensures forall i :: 0 <= i < |s| ==> r[i] == LowerChar(s[i])
  {
    seq(|s|, i requires 0 <= i < |s| => LowerChar(s[i]))
  }

  // ---------------------------------------------------------------------------
  // Decimal rendering (`format!("{}", n)` for unsigned integers)
  // ---------------------------------------------------------------------------

  predicate IsDigit(c: char) {
    '0' <= c <= '9'
  }

  function DigitChar(d: int): (c: char)
    requires 0 <= d < 10
    ensures IsDigit(c) && c as int - '0' as int == d
  {
    ('0' as int + d) as char
  }

  function DigitValue(c: char): (d: nat)
    requires IsDigit(c)
    ensures d < 10
  {
    c as int - '0' as int
  }

  predicate AllDigits(s: string) {
    forall i :: 0 <= i < |s| ==> IsDigit(s[i])
  }

  /** The value of a string of decimal digits, most significant first. */
  function DigitsValue(s: string): nat
    requires AllDigits(s)
  {
    if s == [] then 0 else 10 * DigitsValue(s[..|s| - 1]) + DigitValue(s[|s| - 1])
  }

  function Decimal(n: nat): (r: string)
    ensures r != [] && AllDigits(r)
  {
    if n < 10 then [DigitChar(n)] else Decimal(n / 10) + [DigitChar(n % 10)]
  }

  /** Reading back the rendered digits gives the number: the rendering is
      injective, so names built from distinct indices differ. */
  lemma {:induction false} DecimalValue(n: nat)
    ensures DigitsValue(Decimal(n)) == n
  {
    if n >= 10 {
      var d := Decimal(n);
      assert d[..|d| - 1] == Decimal(n / 10);
      DecimalValue(n / 10);
    }
  }

  /** A three-digit number renders as its three digits. */
  lemma DecimalThreeDigits(n: nat)
    requires 100 <= n <= 999
    ensures Decimal(n) == [DigitChar(n / 100), DigitChar(n / 10 % 10), DigitChar(n % 10)]
  {
    assert n / 10 / 10 == n / 100 && n / 100 < 10 && n / 10 >= 10;
    assert Decimal(n / 10) == Decimal(n / 100) + [DigitChar(n / 10 % 10)];
  }

  lemma DecimalInjective(a: nat, b: nat)
    requires Decimal(a) == Decimal(b)
    ensures a == b
  {
    DecimalValue(a);
    DecimalValue(b);
  }

  // ---------------------------------------------------------------------------
  // UTF-8 byte lengths and byte-index truncation
  // ---------------------------------------------------------------------------

  function Utf8Width(c: char): nat {
    if c as int < 0x80 then 1 else if c as int < 0x800 then 2 else if c as int < 0x1_0000 then 3 else 4
  }

  /** `str::len`: the number of bytes of the UTF-8 encoding. */
  function Utf8Len(s: string): nat {
    if s == [] then 0 else Utf8Width(s[0]) + Utf8Len(s[1..])
  }

  lemma {:induction false} Utf8LenAppend(a: string, b: string)
    ensures Utf8Len(a + b) == Utf8Len(a) + Utf8Len(b)
  {
    if a != [] {
      assert (a + b)[0] == a[0];
      assert (a + b)[1..] == a[1..] + b;
      Utf8LenAppend(a[1..], b);
    } else {
      assert a + b == b;
    }
  }

  lemma Utf8LenPrefix(s: string, k: nat)
    requires k <= |s|
    ensures Utf8Len(s[..k]) <= Utf8Len(s)
  {
    assert s == s[..k] + s[k..];
    Utf8LenAppend(s[..k], s[k..]);
  }

  /** The UTF-8 encoding of one scalar value: one to four bytes, the lead
      byte carrying the length and each continuation byte six bits. */
  function EncodeChar(c: char): (r: seq<byte>)
    ensures |r| == Utf8Width(c)
    ensures |r| == 1 <==> r[0] < 0x80
  {
    var n := c as int;
    if n < 0x80 then [n]
    else if n < 0x800 then [0xC0 + n / 0x40, 0x80 + n % 0x40]
    else if n < 0x1_0000 then [0xE0 + n / 0x1000, 0x80 + n / 0x40 % 0x40, 0x80 + n % 0x40]
    else [0xF0 + n / 0x4_0000, 0x80 + n / 0x1000 % 0x40, 0x80 + n / 0x40 % 0x40, 0x80 + n % 0x40]
  }

  /** The bytes of a `String`, as `fs::write` stores them: as many as
      `str::len` counts. */
  function Utf8Encode(s: string): (r: seq<byte>)
    ensures |r| == Utf8Len(s)
  {
    if s == [] then [] else EncodeChar(s[0]) + Utf8Encode(s[1..])
  }

  /** Encoding respects concatenation, so the bytes of a text made of parts
      are the parts' bytes in order. */
  lemma {:induction false} Utf8EncodeAppend(a: string, b: string)
    ensures Utf8Encode(a + b) == Utf8Encode(a) + Utf8Encode(b)
  {
    if a == [] {
      assert a + b == b;
    } else {
      assert (a + b)[0] == a[0] && (a + b)[1..] == a[1..] + b;
      Utf8EncodeAppend(a[1..], b);
    }
  }

  /** The number of leading characters whose encoding fits in `n` bytes. */
  function CharsWithin(s: string, n: nat): (k: nat)
    ensures k <= |s|
    ensures Utf8Len(s[..k]) <= n
    ensures k < |s| ==> Utf8Len(s[..k + 1]) > n
  {
    if s == [] || Utf8Width(s[0]) > n then
      assert s != [] ==> s[..1][1..] == [];
      0
    else
      var k := CharsWithin(s[1..], n - Utf8Width(s[0]));
      assert s[..k + 1][1..] == s[1..][..k];
      assert k + 1 < |s| ==> s[..k + 2][1..] == s[1..][..k + 1];
      k + 1
  }

  /** The longest prefix of `s` whose encoding is at most `n` bytes: a cut at
      the last character boundary not after byte `n`. */
  function TruncateBytes(s: string, n: nat): (r: string)
    ensures StartsWith(s, r)
    ensures Utf8Len(r) <= n
    ensures |r| < |s| ==> Utf8Len(s[..|r| + 1]) > n
  {
    s[..CharsWithin(s, n)]
  }

  /** Rust's byte-index cut `&s[..min(n, s.len())]`, or `String::truncate(n)`
      applied when `s.len() > n`: both panic (`None` here) when byte `n` falls
      inside a multi-byte character. */
  function ByteCutAsWritten(s: string, n: nat): (r: Option<string>)
    ensures r.Some? ==> r.value == TruncateBytes(s, n)
  {
    if Utf8Len(s) <= n then
      var k := CharsWithin(s, n);
      assert k == |s| by {
        if k < |s| {
          Utf8LenPrefix(s, k + 1);
        }
      }
      assert s[..|s|] == s;
      Some(s)
    else
      var k := CharsWithin(s, n);
      if Utf8Len(s[..k]) == n then Some(s[..k]) else None
  }

  lemma {:induction false} Utf8LenAscii(s: string)
    requires forall i :: 0 <= i < |s| ==> s[i] as int < 0x80
    ensures Utf8Len(s) == |s|
  {
    if s != [] {
      Utf8LenAscii(s[1..]);
    }
  }

  /** The cut panics as soon as a two-byte character straddles byte `n`:
      `n - 1` ASCII letters followed by `é`. */
  lemma {:induction false} ByteCutPanicsInsideCharacter(n: nat)
    requires n >= 1
    ensures ByteCutAsWritten(seq(n - 1, _ => 'a') + ['é'], n) == None
  {
    var a: string := seq(n - 1, _ => 'a');
    var s := a + ['é'];
    Utf8LenAscii(a);
    Utf8LenAppend(a, ['é']);
    assert Utf8Len(['é']) == 2;
    var k := CharsWithin(s, n);
    assert s[..|s|] == s;
    assert k < |s|;
    assert s[..k] == a[..k];
    Utf8LenAscii(a[..k]);
    if k < n - 1 {
      assert s[..k + 1] == a[..k + 1];
      Utf8LenAscii(a[..k + 1]);
      assert false;
    }
  }

  // ---------------------------------------------------------------------------
  // Byte-wise lexicographic order (`Ord for String`)
  // ---------------------------------------------------------------------------

  /** Strict lexicographic order by code point, which is the order of the
      UTF-8 bytes that Rust compares. */
  predicate Below(a: string, b: string)
    decreases |a|
  {
    |b| > 0 && (|a| == 0 || a[0] < b[0] || (a[0] == b[0] && Below(a[1..], b[1..])))
  }

  lemma {:induction false} BelowIrreflexive(a: string)
    ensures !Below(a, a)
  {
    if |a| > 0 {
      BelowIrreflexive(a[1..]);
    }
  }

  lemma {:induction false} BelowTransitive(a: string, b: string, c: string)
    requires Below(a, b) && Below(b, c)
    ensures Below(a, c)
  {
    if |a| > 0 && a[0] == b[0] && b[0] == c[0] {
      BelowTransitive(a[1..], b[1..], c[1..]);
    }
  }

  lemma {:induction false} BelowTotal(a: string, b: string)
    requires a != b
    ensures Below(a, b) || Below(b, a)
  {
    if |a| > 0 && |b| > 0 && a[0] == b[0] {
      assert a == [a[0]] + a[1..] && b == [b[0]] + b[1..];
      BelowTotal(a[1..], b[1..]);
    }
  }
}
