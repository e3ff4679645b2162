/** Turning free text (a post title, a school name) into a safe file or
    directory name: trim, spaces to underscores, drop the characters file
    systems reserve, and cap the length in bytes. The directory form caps at
    30 bytes, the file form at 50. */
module Sanitize {
  import opened Wrappers
  import opened Text

  /** The characters removed from a name. */
  const RESERVED: seq<char> := ['/', '\\', ':', '*', '?', '"', '<', '>', '|', '\'']

  const DIRNAME_BYTES: nat := 30
  const FILENAME_BYTES: nat := 50

  /** `s.replace(' ', "_")` */
  function UnderscoreSpaces(s: string): (r: string)
    ensures |r| == |s|
    ensures forall i :: 0 <= i < |s| ==> r[i] == (if s[i] == ' ' then '_' else s[i])
  {
    if s == [] then [] else [if s[0] == ' ' then '_' else s[0]] + UnderscoreSpaces(s[1..])
  }

  /** `s.replace(&RESERVED[..], "")`: every reserved character dropped, the
      others kept in order. */
  function DropReserved(s: string): (r: string)
    ensures |r| <= |s|
    ensures forall i :: 0 <= i < |r| ==> r[i] !in RESERVED
    ensures forall c :: c in r <==> c in s && c !in RESERVED
  {
    if s == [] then []
    else
      var rest := DropReserved(s[1..]);
      assert forall c :: c in s <==> c == s[0] || c in s[1..];
      if s[0] in RESERVED then rest else [s[0]] + rest
  }

  /** The name before its length is capped. */
  function Cleaned(input: string): string {
    DropReserved(UnderscoreSpaces(Trim(input)))
  }

  /** The cleaned name cut at the last character boundary within `limit`
      bytes. */
  function SanitizeName(input: string, limit: nat): (r: string)
    ensures StartsWith(Cleaned(input), r)
    ensures Utf8Len(r) <= limit
  {
    TruncateBytes(Cleaned(input), limit)
  }

  /** `sanitize_dirname` */
  function SanitizeDirname(input: string): string {
    SanitizeName(input, DIRNAME_BYTES)
  }

  /** `sanitize_filename` */
  function SanitizeFilename(input: string): string {
    SanitizeName(input, FILENAME_BYTES)
  }

  /** A sanitized name holds no space and no reserved character, and fits
      its byte budget. */
  lemma SanitizedNameIsSafe(input: string, limit: nat)
    ensures var r := SanitizeName(input, limit);
            Utf8Len(r) <= limit && ' ' !in r && forall c :: c in RESERVED ==> c !in r
  {
    var cleaned := Cleaned(input);
    var spaced := UnderscoreSpaces(Trim(input));
    var r := SanitizeName(input, limit);
    assert r == cleaned[..|r|];
    forall c | c in r
      ensures c != ' ' && c !in RESERVED
    {
      var i :| 0 <= i < |r| && r[i] == c;
      assert c == cleaned[i] && c in cleaned;
      assert c in spaced;
      var j :| 0 <= j < |spaced| && spaced[j] == c;
    }
  }

  /** A name that already fits is not cut. */
  lemma ShortNameKept(input: string, limit: nat)
    requires Utf8Len(Cleaned(input)) <= limit
    ensures SanitizeName(input, limit) == Cleaned(input)
  {
    var cleaned := Cleaned(input);
    var r := SanitizeName(input, limit);
    if |r| < |cleaned| {
      Utf8LenPrefix(cleaned, |r| + 1);
      assert false;
    }
    assert r == cleaned[..|r|];
  }

  /** The code as written: `String::truncate(limit)` when the name is longer
      than `limit` bytes, which panics (`None`) when byte `limit` falls inside
      a character. */
  function SanitizeNameAsWritten(input: string, limit: nat): (r: Option<string>)
    ensures r.Some? ==> r.value == SanitizeName(input, limit)
  {
    ByteCutAsWritten(Cleaned(input), limit)
  }

  lemma {:induction false} PlainTextIsClean(s: string)
    requires forall i :: 0 <= i < |s| ==> s[i] == 'a' || s[i] == 'é'
    ensures UnderscoreSpaces(s) == s && DropReserved(s) == s
  {
    if s != [] {
      assert s[0] != ' ' && s[0] !in RESERVED;
      PlainTextIsClean(s[1..]);
      assert s == [s[0]] + s[1..];
    }
  }

  /** A directory name of 29 ASCII letters followed by `é` (two bytes, the
      30th and 31st) makes `sanitize_dirname` panic. */
  lemma SanitizeDirnamePanics()
    ensures SanitizeNameAsWritten(seq(29, _ => 'a') + ['é'], DIRNAME_BYTES) == None
  {
    var s: string := seq(29, _ => 'a') + ['é'];
    assert !IsWhitespace(s[0]) && !IsWhitespace(s[|s| - 1]);
    assert TrimStart(s) == s;
    assert Trim(s) == s;
    PlainTextIsClean(s);
    ByteCutPanicsInsideCharacter(DIRNAME_BYTES);
  }
}
