/**
 * The string helpers the pages rely on: `toLowerCase`, `includes`, `substring`
 * truncation, `join`, `trim`, `String(n)` and `parseInt`.
 */
module Text {
  import opened Optional

  /** `toLowerCase` on one character, restricted to the ASCII letters. */
  function LowerChar(c: char): char {
    if 'A' <= c <= 'Z' then (c as int + 32) as char else c
  }

  /** `toLowerCase`, restricted to the ASCII letters: every other character is kept. */
  function Lower(s: string): (r: string)
    ensures |r| == |s|
    ensures forall i :: 0 <= i < |r| ==> !('A' <= r[i] <= 'Z')
    ensures forall i :: 0 <= i < |s| && !('A' <= s[i] <= 'Z') ==> r[i] == s[i]
  {
    seq(|s|, i requires 0 <= i < |s| => LowerChar(s[i]))
  }

  /** Lowering twice is lowering once. */
  lemma LowerIdempotent(s: string)
    ensures Lower(Lower(s)) == Lower(s)
  {
  }

  /** `s.includes(part)`: `part` occurs in `s` as a contiguous block. */
  predicate Contains(s: string, part: string) {
    exists i :: 0 <= i <= |s| - |part| && OccursAt(s, part, i)
  }

  /** `part` is the block of `s` that starts at index `i`. */
  predicate OccursAt(s: string, part: string, i: int) {
    0 <= i && i + |part| <= |s| && s[i..i + |part|] == part
  }

  /** The empty string is contained in every string, so an empty search term keeps everything. */
  lemma ContainsEmpty(s: string)
    ensures Contains(s, "")
  {
    assert OccursAt(s, "", 0);
  }

  /** A string that is a block of `s` is contained in `s` (the witness form of `Contains`). */
  lemma ContainsAt(s: string, part: string, i: nat)
    requires i + |part| <= |s| && s[i..i + |part|] == part
    ensures Contains(s, part)
  {
    assert OccursAt(s, part, i);
  }

  const Ellipsis: string := "..."

  /**
   * `s.length > limit ? s.substring(0, limit) + '...' : s`: a string longer than `limit`
   * keeps its first `limit` characters followed by an ellipsis.
   */
  function Truncate(s: string, limit: nat): (r: string)
    ensures |r| <= limit + |Ellipsis|
    ensures |s| <= limit ==> r == s
    ensures |s| > limit ==> |r| == limit + |Ellipsis| && r[..limit] == s[..limit] && r[limit..] == Ellipsis
  {
    if |s| > limit then s[..limit] + Ellipsis else s
  }

  /** Truncating an already truncated string changes nothing. */
  lemma TruncateIdempotent(s: string, limit: nat)
    ensures Truncate(Truncate(s, limit), limit) == Truncate(s, limit)
  {
    if |s| > limit {
      var r := Truncate(s, limit);
      assert r[..limit] == s[..limit];
    }
  }

  /** A name that may be missing (`null`, `undefined` or empty) shown truncated; a missing one shows as ''. */
  function TruncateName(name: Option<string>, limit: nat): (r: string)
    ensures name.None? ==> r == ""
    ensures name.Some? ==> r == Truncate(name.value, limit)
  {
    match name
    case None => ""
    case Some(n) => if n == "" then "" else Truncate(n, limit)
  }

  /** `parts.join(sep)`. */
  function Join(parts: seq<string>, sep: string): (r: string)
    ensures |parts| == 0 ==> r == ""
    ensures |parts| > 0 ==> |parts[0]| <= |r| && r[..|parts[0]|] == parts[0]
    ensures |parts| > 0 ==> |parts[|parts| - 1]| <= |r| && r[|r| - |parts[|parts| - 1]|..] == parts[|parts| - 1]
    ensures |parts| == 1 ==> r == parts[0]
  {
    if |parts| == 0 then ""
    else if |parts| == 1 then parts[0]
    else parts[0] + sep + Join(parts[1..], sep)
  }

  /** The characters JavaScript's `trim` removes, restricted to ASCII. */
  predicate IsSpace(c: char) {
    c == ' ' || c == '\t' || c == '\n' || c == '\r' || c as int == 11 || c as int == 12
  }

  /** `trimStart`: the suffix of `s` left after its leading spaces. */
  function TrimStart(s: string): (r: string)
    ensures |r| <= |s| && r == s[|s| - |r|..]
    ensures forall i :: 0 <= i < |s| - |r| ==> IsSpace(s[i])
    ensures r == [] || !IsSpace(r[0])
  {
    if s != [] && IsSpace(s[0]) then TrimStart(s[1..]) else s
  }

  /** `trimEnd`: the prefix of `s` left before its trailing spaces. */
  function TrimEnd(s: string): (r: string)
    ensures |r| <= |s| && r == s[..|r|]
    ensures forall i :: |r| <= i < |s| ==> IsSpace(s[i])
    ensures r == [] || !IsSpace(r[|r| - 1])
  {
    if s != [] && IsSpace(s[|s| - 1]) then TrimEnd(s[..|s| - 1]) else s
  }

  /** `trim`: `s` without its leading and trailing spaces. */
  function Trim(s: string): (r: string)
    ensures |r| <= |s|
    ensures r == [] || (!IsSpace(r[0]) && !IsSpace(r[|r| - 1]))
    ensures (s == [] || (!IsSpace(s[0]) && !IsSpace(s[|s| - 1]))) ==> r == s
  {
    TrimEnd(TrimStart(s))
  }

  /** Trimming only removes white space: every other character of `s` survives it. */
  lemma TrimKeeps(s: string, i: nat)
    requires i < |s| && !IsSpace(s[i])
    ensures s[i] in Trim(s)
  {
    var t := TrimStart(s);
    var k := |s| - |t|;
    assert i >= k;
    assert t[i - k] == s[i];
    var r := TrimEnd(t);
    assert i - k < |r|;
    assert r[i - k] == s[i];
  }

  /** A one-character part is contained exactly when that character occurs. */
  lemma ContainsChar(s: string, c: char)
    ensures Contains(s, [c]) <==> c in s
  {
    if c in s {
      var i :| 0 <= i < |s| && s[i] == c;
      ContainsAt(s, [c], i);
    }
    if Contains(s, [c]) {
      var i :| 0 <= i <= |s| - 1 && OccursAt(s, [c], i);
      assert s[i] == s[i..i + 1][0] == c;
    }
  }

  /** A character that is not white space and occurs in `s` still occurs once `s` is trimmed. */
  lemma TrimKeepsContained(s: string, c: char)
    requires !IsSpace(c) && Contains(s, [c])
    ensures Contains(Trim(s), [c])
  {
    ContainsChar(s, c);
    var i :| 0 <= i < |s| && s[i] == c;
    TrimKeeps(s, i);
    ContainsChar(Trim(s), c);
  }

  /** Trimming twice is trimming once. */
  lemma TrimIdempotent(s: string)
    ensures Trim(Trim(s)) == Trim(s)
  {
  }

  predicate IsDigit(c: char) {
    '0' <= c <= '9'
  }

  predicate AllDigits(s: string) {
    forall i :: 0 <= i < |s| ==> IsDigit(s[i])
  }

  function DigitChar(d: nat): (c: char)
    requires d < 10
    ensures IsDigit(c)
  {
    ('0' as int + d) as char
  }

  function DigitValue(c: char): (d: nat)
    requires IsDigit(c)
    ensures d < 10 && DigitChar(d) == c
  {
    c as int - '0' as int
  }

  /** The decimal digits of `n`, most significant first, without leading zeros. */
  function ShowNat(n: nat): (r: string)
    ensures |r| >= 1 && AllDigits(r)
    ensures r[0] == '0' ==> n == 0
  {
    if n < 10 then [DigitChar(n)] else ShowNat(n / 10) + [DigitChar(n % 10)]
  }

  /** `String(n)` for an integer `n`. */
  function Show(n: int): (r: string)
    ensures |r| >= 1
    ensures n >= 0 <==> AllDigits(r)
  {
    if n < 0 then
      var r := "-" + ShowNat(-n);
      assert !IsDigit(r[0]);
      r
    else ShowNat(n)
  }

  /** The value of a non-empty run of decimal digits. */
  function ParseNat(s: string): nat
    requires AllDigits(s)
  {
    if s == [] then 0 else 10 * ParseNat(s[..|s| - 1]) + DigitValue(s[|s| - 1])
  }

  /**
   * `parseInt(s)` on a string that is exactly an optional minus sign followed by digits;
   * any other string, the empty one included, gives `None` (JavaScript's `NaN`).
   */
  function ParseInt(s: string): (r: Option<int>)
    ensures s == "" ==> r == None
    ensures r.Some? <==> (|s| > 0 && AllDigits(s)) || (|s| > 1 && s[0] == '-' && AllDigits(s[1..]))
    ensures r.Some? && AllDigits(s) ==> r.value >= 0
  {
    if |s| > 0 && AllDigits(s) then Some(ParseNat(s))
    else if |s| > 1 && s[0] == '-' && AllDigits(s[1..]) then
      var magnitude: int := ParseNat(s[1..]);
      Some(-magnitude)
    else None
  }

  lemma {:induction false} ParseShowNat(n: nat)
    ensures ParseNat(ShowNat(n)) == n
  {
    if n >= 10 {
      var s := ShowNat(n);
      assert s[..|s| - 1] == ShowNat(n / 10);
      ParseShowNat(n / 10);
    }
  }

  /** Round trip: `parseInt(String(n)) === n` for every integer. */
  lemma ParseShow(n: int)
    ensures ParseInt(Show(n)) == Some(n)
  {
    if n < 0 {
      var s := Show(n);
      assert s[1..] == ShowNat(-n);
      ParseShowNat(-n);
    } else {
      ParseShowNat(n);
    }
  }
}
