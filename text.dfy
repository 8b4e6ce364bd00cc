/**
 * String operations shared by the JavaScript and PHP parts of the site,
 * written out char by char so that their edge cases are explicit:
 * ASCII case folding, substring search, the two languages' trim
 * functions, splitting on a one-character separator (JavaScript
 * `split(' ')` and PHP `explode(' ', …)` agree for such separators),
 * joining, PHP's `empty()` on strings, PHP's byte-counting `strlen`,
 * and decimal numerals.
 */
module Text {

  /** A value that may be absent (JavaScript `undefined`/`null`, an unset PHP key). */
  datatype Option<T> = None | Some(value: T)

  /** Concatenation regroups freely. */
  lemma AppendAssoc<T>(a: seq<T>, b: seq<T>, c: seq<T>)
    ensures a + b + c == a + (b + c)
  {
  }

  // ---------------------------------------------------------------
  // Case folding
  // ---------------------------------------------------------------

  /** ASCII lower-casing of one character; others are unchanged. */
  function LowerChar(c: char): char {
    if 'A' <= c <= 'Z' then (c as int + 32) as char else c
  }

  predicate IsLowerChar(c: char) {
    !('A' <= c <= 'Z')
  }

  /** `toLowerCase()` / `strtolower()` restricted to ASCII letters. */
  function Lower(s: string): (r: string)
    ensures |r| == |s|
    ensures forall i :: 0 <= i < |s| ==> r[i] == LowerChar(s[i])
    ensures forall i :: 0 <= i < |r| ==> IsLowerChar(r[i])
  {
    if s == [] then [] else [LowerChar(s[0])] + Lower(s[1..])
  }

  predicate IsLower(s: string) {
    forall i :: 0 <= i < |s| ==> IsLowerChar(s[i])
  }

  lemma LowerOfLower(s: string)
    requires IsLower(s)
    ensures Lower(s) == s
  {
    assert forall i :: 0 <= i < |s| ==> Lower(s)[i] == s[i];
  }

  // ---------------------------------------------------------------
  // Substring search (`includes`, `strpos(...) !== false`)
  // ---------------------------------------------------------------

  predicate IsPrefix(p: string, s: string) {
    |p| <= |s| && s[..|p|] == p
  }

  /** True iff `sub` occurs in `s` at some position; "" occurs everywhere. */
  predicate Contains(s: string, sub: string)
    decreases |s|
  {
    IsPrefix(sub, s) || (|s| > 0 && Contains(s[1..], sub))
  }

  /** `sub` occurs in `s` starting at index `i`. */
  predicate OccursAt(s: string, sub: string, i: int) {
    0 <= i <= |s| - |sub| && s[i..i + |sub|] == sub
  }

  /** `Contains` means: there is a position where `sub` starts. */
  lemma {:induction false} ContainsIffOccurs(s: string, sub: string)
    ensures Contains(s, sub) <==> exists i :: OccursAt(s, sub, i)
    decreases |s|
  {
    if IsPrefix(sub, s) {
      assert OccursAt(s, sub, 0);
    } else if |s| > 0 {
      ContainsIffOccurs(s[1..], sub);
      if exists i :: OccursAt(s, sub, i) {
        var i :| OccursAt(s, sub, i);
        assert i != 0;
        assert s[1..][i - 1..i - 1 + |sub|] == s[i..i + |sub|];
        assert OccursAt(s[1..], sub, i - 1);
      }
      if exists j :: OccursAt(s[1..], sub, j) {
        var j :| OccursAt(s[1..], sub, j);
        assert s[j + 1..j + 1 + |sub|] == s[1..][j..j + |sub|];
        assert OccursAt(s, sub, j + 1);
      }
    }
  }

  lemma EmptyIsContained(s: string)
    ensures Contains(s, "")
  {
    assert IsPrefix("", s);
  }

  // ---------------------------------------------------------------
  // Trimming
  // ---------------------------------------------------------------

  /** The characters JavaScript's `String.prototype.trim` removes
      (WhiteSpace and LineTerminator of ECMA-262). */
  predicate IsJsSpace(c: char) {
    c == ' ' || c == '\t' || c == '\n' || c == '\r' || c == '\U{000B}' || c == '\U{000C}'
    || c == '\U{00A0}' || c == '\U{1680}' || ('\U{2000}' <= c <= '\U{200A}')
    || c == '\U{2028}' || c == '\U{2029}' || c == '\U{202F}' || c == '\U{205F}'
    || c == '\U{3000}' || c == '\U{FEFF}'
  }

  /** The characters PHP's `trim` removes by default: " \t\n\r\0\x0B". */
  predicate IsPhpSpace(c: char) {
    c == ' ' || c == '\t' || c == '\n' || c == '\r' || c == '\0' || c == '\U{000B}'
  }

  function TrimStart(s: string, space: char -> bool): (r: string)
    ensures r == [] || !space(r[0])
  {
    if s != [] && space(s[0]) then TrimStart(s[1..], space) else s
  }

  function TrimEnd(s: string, space: char -> bool): (r: string)
    ensures r == [] || !space(r[|r| - 1])
  {
    if s != [] && space(s[|s| - 1]) then TrimEnd(s[..|s| - 1], space) else s
  }

  /** Trimming the end keeps a prefix of the string. */
  lemma {:induction false} TrimEndIsPrefix(s: string, space: char -> bool)
    ensures |TrimEnd(s, space)| <= |s| && TrimEnd(s, space) == s[..|TrimEnd(s, space)|]
    decreases |s|
  {
    if s != [] && space(s[|s| - 1]) {
      var t := s[..|s| - 1];
      TrimEndIsPrefix(t, space);
      assert t[..|TrimEnd(t, space)|] == s[..|TrimEnd(t, space)|];
    }
  }

  function Trim(s: string, space: char -> bool): (r: string)
    ensures r == [] || (!space(r[0]) && !space(r[|r| - 1]))
  {
    var t := TrimStart(s, space);
    var r := TrimEnd(t, space);
    TrimEndIsPrefix(t, space);
    assert r != [] ==> r[0] == t[0];
    r
  }

  /** Trimming the start keeps a suffix of the string and drops only
      blanks. */
  lemma {:induction false} TrimStartIsSuffix(s: string, space: char -> bool)
    ensures |TrimStart(s, space)| <= |s| && TrimStart(s, space) == s[|s| - |TrimStart(s, space)|..]
    ensures forall k :: 0 <= k < |s| - |TrimStart(s, space)| ==> space(s[k])
    decreases |s|
  {
    if s != [] && space(s[0]) {
      var t := s[1..];
      TrimStartIsSuffix(t, space);
      assert forall k :: 1 <= k < |s| ==> s[k] == t[k - 1];
      assert t[|t| - |TrimStart(t, space)|..] == s[|s| - |TrimStart(t, space)|..];
    }
  }

  /** Trimming the end drops only blanks. */
  lemma {:induction false} TrimEndDropsSpace(s: string, space: char -> bool)
    ensures forall k :: |TrimEnd(s, space)| <= k < |s| ==> space(s[k])
    decreases |s|
  {
    TrimEndIsPrefix(s, space);
    if s != [] && space(s[|s| - 1]) {
      var t := s[..|s| - 1];
      TrimEndDropsSpace(t, space);
      assert forall k :: 0 <= k < |t| ==> s[k] == t[k];
    }
  }

  /** `r` is `s` with some blanks removed at each end and nothing else. */
  predicate TrimmedFrom(r: string, s: string, space: char -> bool) {
    exists i, j :: 0 <= i <= j <= |s| && r == s[i..j]
                   && (forall k :: 0 <= k < i ==> space(s[k]))
                   && (forall k :: j <= k < |s| ==> space(s[k]))
  }

  /** Trimming removes the blanks at both ends and nothing else: the
      result is the part of `s` between its leading and trailing blanks. */
  lemma TrimMeaning(s: string, space: char -> bool)
    ensures TrimmedFrom(Trim(s, space), s, space)
    ensures HasNoSpaceAtEnds(Trim(s, space), space)
  {
    var t := TrimStart(s, space);
    var r := Trim(s, space);
    TrimStartIsSuffix(s, space);
    TrimEndIsPrefix(t, space);
    TrimEndDropsSpace(t, space);
    var i := |s| - |t|;
    var j := i + |r|;
    assert r == t[..|r|];
    assert forall k :: i <= k < |s| ==> s[k] == t[k - i];
    assert r == s[i..j];
    assert forall k :: j <= k < |s| ==> space(s[k]) by {
      forall k | j <= k < |s| ensures space(s[k]) {
        assert s[k] == t[k - i];
      }
    }
  }

  /** JavaScript `s.trim()`. */
  function JsTrim(s: string): string { Trim(s, IsJsSpace) }

  /** PHP `trim($s)` with the default character list. */
  function PhpTrim(s: string): string { Trim(s, IsPhpSpace) }

  predicate HasNoSpaceAtEnds(s: string, space: char -> bool) {
    s == [] || (!space(s[0]) && !space(s[|s| - 1]))
  }

  /** A string with no space at either end trims to itself. */
  lemma TrimUntouched(s: string, space: char -> bool)
    requires HasNoSpaceAtEnds(s, space)
    ensures Trim(s, space) == s
  {
    assert TrimStart(s, space) == s;
    assert TrimEnd(s, space) == s;
  }

  /** A whitespace-only string trims to "". */
  lemma {:induction false} TrimAllSpace(s: string, space: char -> bool)
    requires forall i :: 0 <= i < |s| ==> space(s[i])
    ensures Trim(s, space) == ""
    decreases |s|
  {
    if s != [] {
      assert space(s[0]);
      TrimAllSpace(s[1..], space);
      assert TrimStart(s, space) == TrimStart(s[1..], space);
    }
  }

  /** PHP `ltrim($s, $c)` for one character: drops every leading `c`. */
  function LTrimChar(s: string, c: char): (r: string)
    ensures |r| <= |s| && r == s[|s| - |r|..]
    ensures forall k :: 0 <= k < |s| - |r| ==> s[k] == c
    ensures r == [] || r[0] != c
  {
    if s != [] && s[0] == c then LTrimChar(s[1..], c) else s
  }

  // ---------------------------------------------------------------
  // Splitting and joining on a one-character separator
  // ---------------------------------------------------------------

  predicate Free(s: string, sep: char) {
    forall i :: 0 <= i < |s| ==> s[i] != sep
  }

  /** Number of occurrences of `c` in `s`. */
  function Count(s: string, c: char): nat {
    if s == [] then 0 else (if s[0] == c then 1 else 0) + Count(s[1..], c)
  }

  /** `s.split(sep)` in JavaScript and `explode(sep, s)` in PHP for a
      one-character separator: always at least one part, "" gives [""]. */
  function Split(s: string, sep: char): (r: seq<string>)
    ensures |r| == Count(s, sep) + 1
    ensures forall k :: 0 <= k < |r| ==> Free(r[k], sep)
  {
    if s == [] then [""]
    else
      var rest := Split(s[1..], sep);
      if s[0] == sep then [""] + rest
      else [[s[0]] + rest[0]] + rest[1..]
  }

  /** `parts.join(sep)` / `implode(sep, parts)`. */
  function Join(parts: seq<string>, sep: char): string {
    if |parts| == 0 then ""
    else if |parts| == 1 then parts[0]
    else parts[0] + [sep] + Join(parts[1..], sep)
  }

  /** The last part ends the joined string. */
  lemma {:induction false} JoinEndsWithLast(parts: seq<string>, sep: char)
    requires |parts| > 0
    ensures |parts[|parts| - 1]| <= |Join(parts, sep)|
    ensures Join(parts, sep)[|Join(parts, sep)| - |parts[|parts| - 1]|..] == parts[|parts| - 1]
  {
    if |parts| > 1 {
      var rest := parts[1..];
      JoinEndsWithLast(rest, sep);
      var j := Join(parts, sep);
      var last := parts[|parts| - 1];
      assert rest[|rest| - 1] == last;
      assert j == parts[0] + [sep] + Join(rest, sep);
      assert j[|j| - |last|..] == Join(rest, sep)[|Join(rest, sep)| - |last|..];
    }
  }

  /** Joining the parts of a split gives back the input. */
  lemma {:induction false} JoinSplit(s: string, sep: char)
    ensures Join(Split(s, sep), sep) == s
  {
    if s != [] {
      var rest := Split(s[1..], sep);
      JoinSplit(s[1..], sep);
      if s[0] == sep {
        assert Split(s, sep) == [""] + rest;
        assert Join([""] + rest, sep) == "" + [sep] + Join(rest, sep);
      } else {
        var r := Split(s, sep);
        assert r == [[s[0]] + rest[0]] + rest[1..];
        if |rest| == 1 {
          assert r == [[s[0]] + rest[0]];
        } else {
          assert r[1..] == rest[1..];
          assert Join(rest, sep) == rest[0] + [sep] + Join(rest[1..], sep);
        }
      }
    }
  }

  lemma {:induction false} SplitFree(x: string, sep: char)
    requires Free(x, sep)
    ensures Split(x, sep) == [x]
  {
    if x != [] {
      SplitFree(x[1..], sep);
      assert [x[0]] + x[1..] == x;
    }
  }

  lemma {:induction false} SplitFreeThenSep(x: string, sep: char, y: string)
    requires Free(x, sep)
    ensures Split(x + [sep] + y, sep) == [x] + Split(y, sep)
  {
    if x == [] {
      assert x + [sep] + y == [sep] + y;
      assert ([sep] + y)[1..] == y;
    } else {
      var s := x + [sep] + y;
      assert s[1..] == x[1..] + [sep] + y;
      SplitFreeThenSep(x[1..], sep, y);
      assert [x[0]] + x[1..] == x;
    }
  }

  /** Splitting a join of separator-free parts gives back the parts. */
  lemma {:induction false} SplitJoin(parts: seq<string>, sep: char)
    requires |parts| > 0
    requires forall k :: 0 <= k < |parts| ==> Free(parts[k], sep)
    ensures Split(Join(parts, sep), sep) == parts
  {
    if |parts| == 1 {
      SplitFree(parts[0], sep);
    } else {
      SplitJoin(parts[1..], sep);
      SplitFreeThenSep(parts[0], sep, Join(parts[1..], sep));
      assert [parts[0]] + parts[1..] == parts;
    }
  }

  /** `.filter(t => t)`: drops the empty strings, keeps the order. */
  function NonEmpty(parts: seq<string>): (r: seq<string>)
    ensures forall k :: 0 <= k < |r| ==> r[k] != ""
    ensures forall x :: x in r <==> x in parts && x != ""
  {
    if parts == [] then []
    else (if parts[0] == "" then [] else [parts[0]]) + NonEmpty(parts[1..])
  }

  lemma {:induction false} NonEmptyOfNonEmpty(parts: seq<string>)
    requires forall k :: 0 <= k < |parts| ==> parts[k] != ""
    ensures NonEmpty(parts) == parts
  {
    if parts != [] {
      NonEmptyOfNonEmpty(parts[1..]);
      assert [parts[0]] + parts[1..] == parts;
    }
  }

  /** Whether `s` has exactly one occurrence of `c`. */
  lemma {:induction false} SplitTwoParts(s: string, c: char)
    ensures |Split(s, c)| == 2 <==> Count(s, c) == 1
  {
  }

  // ---------------------------------------------------------------
  // PHP string semantics
  // ---------------------------------------------------------------

  /** PHP `empty($s)` for a string: true for "" and for "0". */
  predicate PhpEmpty(s: string) {
    s == "" || s == "0"
  }

  /** Bytes of one character in UTF-8. */
  function Utf8Width(c: char): nat {
    if c as int < 0x80 then 1
    else if c as int < 0x800 then 2
    else if c as int < 0x10000 then 3
    else 4
  }

  /** PHP `strlen`: the number of bytes of the UTF-8 encoding. */
  function Utf8Length(s: string): (n: nat)
    ensures |s| <= n <= 4 * |s|
  {
    if s == [] then 0 else Utf8Width(s[0]) + Utf8Length(s[1..])
  }

  // ---------------------------------------------------------------
  // Decimal numerals (PHP string concatenation of an int)
  // ---------------------------------------------------------------

  function Digit(d: nat): (c: char)
    requires d < 10
  {
    "0123456789"[d]
  }

  /** The decimal numeral of `n`, without leading zeros. */
  function NatToString(n: nat): (r: string)
    ensures |r| > 0
    decreases n
  {
    if n < 10 then [Digit(n)] else NatToString(n / 10) + [Digit(n % 10)]
  }

  /** The unit of a count: `one` for exactly one, `many` otherwise. */
  function CountNoun(n: int, one: string, many: string): (r: string)
    ensures n == 1 ==> r == one
    ensures n != 1 ==> r == many
  {
    if n == 1 then one else many
  }

  /** A count as the pages print it: the number, a space, then the unit. */
  function CountLabel(n: nat, one: string, many: string): string {
    NatToString(n) + " " + CountNoun(n, one, many)
  }

  /** With a shorter singular, different counts never read the same: the
      numerals have the same length, or one of the counts is 1 and the
      other numeral would have to be empty. */
  lemma CountLabelInjective(a: nat, b: nat, one: string, many: string)
    requires |one| < |many|
    requires CountLabel(a, one, many) == CountLabel(b, one, many)
    ensures a == b
  {
    var la, lb := NatToString(a), NatToString(b);
    if |la| == |lb| {
      assert la == CountLabel(a, one, many)[..|la|];
      assert lb == CountLabel(b, one, many)[..|lb|];
      NatToStringInjective(a, b);
    }
  }

  lemma DigitInjective(a: nat, b: nat)
    requires a < 10 && b < 10 && Digit(a) == Digit(b)
    ensures a == b
  {
  }

  lemma {:induction false} NatToStringFirstNotZero(n: nat)
    requires n >= 10
    ensures NatToString(n)[0] != '0'
    decreases n
  {
    if n / 10 >= 10 {
      NatToStringFirstNotZero(n / 10);
    }
  }

  /** Different numbers have different numerals. */
  lemma {:induction false} NatToStringInjective(a: nat, b: nat)
    requires NatToString(a) == NatToString(b)
    ensures a == b
    decreases a
  {
    var sa, sb := NatToString(a), NatToString(b);
    if a < 10 && b < 10 {
      DigitInjective(a, b);
    } else if a < 10 || b < 10 {
      // a one-digit numeral never equals a longer one
    } else {
      var pa, pb := NatToString(a / 10), NatToString(b / 10);
      assert sa == pa + [Digit(a % 10)];
      assert sb == pb + [Digit(b % 10)];
      assert pa == sa[..|sa| - 1] && pb == sb[..|sb| - 1];
      NatToStringInjective(a / 10, b / 10);
      assert sa[|sa| - 1] == Digit(a % 10) && sb[|sb| - 1] == Digit(b % 10);
      DigitInjective(a % 10, b % 10);
    }
  }
}
