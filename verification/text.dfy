/** String helpers with the semantics of the JavaScript string methods the
    dashboard uses: `trim`, `toLowerCase`, `includes`, `startsWith`,
    `split('-')[0]`, `replace` with a string pattern, ordinal comparison,
    and the e-mail pattern `/^[^\s@]+@[^\s@]+\.[^\s@]+$/`. */
module Text {

  /** JavaScript's WhiteSpace and LineTerminator code points: what `trim`
      removes and what `\s` matches. */
  predicate IsSpace(c: char) {
    var n := c as int;
    (9 <= n <= 13) || n == 0x20 || n == 0xA0 || n == 0x1680 ||
    (0x2000 <= n <= 0x200A) || n == 0x2028 || n == 0x2029 ||
    n == 0x202F || n == 0x205F || n == 0x3000 || n == 0xFEFF
  }

  /** The string is blank: `!s.trim()` holds of it (see `TrimBlank`). The
      forms test this predicate where the code writes `!s.trim()`. */
  predicate AllSpace(s: string) {
    forall k :: 0 <= k < |s| ==> IsSpace(s[k])
  }

  /** Drops leading white space (`trimStart`). */
  function TrimStart(s: string): (r: string)
    ensures |r| <= |s|
  {
    if |s| > 0 && IsSpace(s[0]) then TrimStart(s[1..]) else s
  }

  /** Drops trailing white space (`trimEnd`). */
  function TrimEnd(s: string): (r: string)
    ensures |r| <= |s|
  {
    if |s| > 0 && IsSpace(s[|s| - 1]) then TrimEnd(s[..|s| - 1]) else s
  }

  /** `TrimStart` keeps a suffix of `s` that does not start with white space,
      and everything it dropped was white space. */
  lemma {:induction false} TrimStartDrops(s: string)
    ensures TrimStart(s) == s[|s| - |TrimStart(s)|..]
    ensures forall k :: 0 <= k < |s| - |TrimStart(s)| ==> IsSpace(s[k])
    ensures |TrimStart(s)| > 0 ==> !IsSpace(TrimStart(s)[0])
  {
    if |s| > 0 && IsSpace(s[0]) {
      TrimStartDrops(s[1..]);
      assert s[1..][|s| - 1 - |TrimStart(s)|..] == s[|s| - |TrimStart(s)|..];
    }
  }

  /** `TrimEnd` keeps a prefix of `s` that does not end with white space,
      and everything it dropped was white space. */
  lemma {:induction false} TrimEndDrops(s: string)
    ensures TrimEnd(s) == s[..|TrimEnd(s)|]
    ensures forall k :: |TrimEnd(s)| <= k < |s| ==> IsSpace(s[k])
    ensures |TrimEnd(s)| > 0 ==> !IsSpace(TrimEnd(s)[|TrimEnd(s)| - 1])
  {
    if |s| > 0 && IsSpace(s[|s| - 1]) {
      TrimEndDrops(s[..|s| - 1]);
      assert s[..|s| - 1][..|TrimEnd(s)|] == s[..|TrimEnd(s)|];
    }
  }

  /** `String.prototype.trim`. */
  function Trim(s: string): string {
    TrimEnd(TrimStart(s))
  }

  /** A string is falsy after trimming exactly when it consists of white
      space only; this is what every `!x.trim()` check in the forms tests. */
  lemma TrimBlank(s: string)
    ensures Trim(s) == "" <==> AllSpace(s)
  {
    var t := TrimStart(s);
    TrimStartDrops(s);
    TrimEndDrops(t);
    if Trim(s) != "" {
      var r := Trim(s);
      assert r[0] == t[0] == s[|s| - |t|];
    }
  }

  /** Trimming is idempotent. */
  lemma TrimIdempotent(s: string)
    ensures Trim(Trim(s)) == Trim(s)
  {
    var r := Trim(s);
    TrimBlank(s);
    if r != "" {
      TrimStartDrops(s);
      TrimEndDrops(TrimStart(s));
      assert r[0] == TrimStart(s)[0];
      assert TrimStart(r) == r;
      assert TrimEnd(r) == r;
    }
  }

  /** ASCII case folding, the part of `toLowerCase` the model covers. */
  function LowerChar(c: char): char {
    if 'A' <= c <= 'Z' then (c as int + 32) as char else c
  }

  function ToLower(s: string): (r: string)
    ensures |r| == |s|
  {
    seq(|s|, k requires 0 <= k < |s| => LowerChar(s[k]))
  }

  /** Case folding and trimming commute: no white space character has a
      case, and no letter is white space. */
  lemma TrimLower(s: string)
    ensures Trim(ToLower(s)) == ToLower(Trim(s))
  {
    TrimStartLower(s);
    TrimEndLower(TrimStart(s));
  }

  lemma {:induction false} TrimStartLower(s: string)
    ensures TrimStart(ToLower(s)) == ToLower(TrimStart(s))
  {
    if |s| > 0 && IsSpace(s[0]) {
      assert ToLower(s)[1..] == ToLower(s[1..]);
      TrimStartLower(s[1..]);
    }
  }

  lemma {:induction false} TrimEndLower(s: string)
    ensures TrimEnd(ToLower(s)) == ToLower(TrimEnd(s))
  {
    if |s| > 0 && IsSpace(s[|s| - 1]) {
      assert ToLower(s)[..|s| - 1] == ToLower(s[..|s| - 1]);
      TrimEndLower(s[..|s| - 1]);
    }
  }

  /** `hay.includes(needle)`. */
  predicate Contains(hay: string, needle: string) {
    exists k :: 0 <= k <= |hay| - |needle| && OccursAt(hay, needle, k)
  }

  predicate OccursAt(hay: string, needle: string, k: int)
    requires 0 <= k <= |hay| - |needle|
  {
    hay[k..k + |needle|] == needle
  }

  /** Every string contains the empty string. */
  lemma ContainsEmpty(hay: string)
    ensures Contains(hay, "")
  {
    assert OccursAt(hay, "", 0);
  }

  /** `s.startsWith(prefix)`. */
  predicate StartsWith(s: string, prefix: string) {
    |prefix| <= |s| && s[..|prefix|] == prefix
  }

  /** `s.split(c)[0]`: the text before the first `c`, or all of `s`. */
  function BeforeFirst(s: string, c: char): (r: string)
    ensures |r| <= |s| && r == s[..|r|]
    ensures c !in r
    ensures |r| < |s| ==> s[|r|] == c
  {
    if |s| == 0 || s[0] == c then "" else [s[0]] + BeforeFirst(s[1..], c)
  }

  /** The year of a `YYYY-MM-DD` date string: `date.split('-')[0]`. */
  function YearOf(date: string): string {
    BeforeFirst(date, '-')
  }

  /** `s.replace(pattern, replacement)` with a non-empty string pattern:
      only the first occurrence is replaced. */
  function ReplaceFirst(s: string, pattern: string, replacement: string): string
    requires |pattern| > 0
  {
    if StartsWith(s, pattern) then replacement + s[|pattern|..]
    else if |s| == 0 then s
    else [s[0]] + ReplaceFirst(s[1..], pattern, replacement)
  }

  /** A string that starts with a pattern contains it. */
  lemma PrefixOccurs(s: string, pattern: string)
    ensures StartsWith(s, pattern) ==> Contains(s, pattern)
  {
    if StartsWith(s, pattern) {
      assert OccursAt(s, pattern, 0);
    }
  }

  /** A string that does not contain the pattern is left as it is. */
  lemma {:induction false} ReplaceFirstAbsent(s: string, pattern: string, replacement: string)
    requires |pattern| > 0 && !Contains(s, pattern)
    ensures ReplaceFirst(s, pattern, replacement) == s
  {
    PrefixOccurs(s, pattern);
    if |s| > 0 {
      forall k | 0 <= k <= |s[1..]| - |pattern| ensures !OccursAt(s[1..], pattern, k) {
        assert s[1..][k..k + |pattern|] == s[k + 1..k + 1 + |pattern|];
        assert !OccursAt(s, pattern, k + 1);
      }
      ReplaceFirstAbsent(s[1..], pattern, replacement);
    }
  }

  /** Ordinal (code unit by code unit) comparison, the model of both
      `localeCompare` and the default `sort` order. */
  predicate Less(a: string, b: string) {
    if |b| == 0 then false
    else if |a| == 0 then true
    else if a[0] != b[0] then a[0] < b[0]
    else Less(a[1..], b[1..])
  }

  lemma {:induction false} LessIrreflexive(a: string)
    ensures !Less(a, a)
  {
    if |a| > 0 {
      LessIrreflexive(a[1..]);
    }
  }

  lemma {:induction false} LessTransitive(a: string, b: string, c: string)
    requires Less(a, b) && Less(b, c)
    ensures Less(a, c)
  {
    if |a| > 0 && a[0] == b[0] && b[0] == c[0] {
      LessTransitive(a[1..], b[1..], c[1..]);
    }
  }

  lemma {:induction false} LessTotal(a: string, b: string)
    requires a != b
    ensures Less(a, b) || Less(b, a)
  {
    if |a| > 0 && |b| > 0 && a[0] == b[0] {
      assert a == [a[0]] + a[1..] && b == [b[0]] + b[1..];
      LessTotal(a[1..], b[1..]);
    }
  }

  lemma LessAsymmetric(a: string, b: string)
    requires Less(a, b)
    ensures !Less(b, a)
  {
    if Less(b, a) {
      LessTransitive(a, b, a);
      LessIrreflexive(a);
    }
  }

  /** A character that `[^\s@]` accepts. */
  predicate EmailChar(c: char) {
    c != '@' && !IsSpace(c)
  }

  /** The language of `/^[^\s@]+@[^\s@]+\.[^\s@]+$/`: a non-empty local
      part, one '@', and a domain made of two non-empty runs around a '.';
      every character other than the '@' is accepted by `[^\s@]`. */
  ghost predicate EmailLanguage(s: string) {
    exists at, dot ::
      0 < at && at + 1 < dot < |s| - 1 && s[at] == '@' && s[dot] == '.' &&
      forall k :: 0 <= k < |s| && k != at ==> EmailChar(s[k])
  }

  /** Index of the first `c` in `s`, or `|s|` when there is none. */
  function IndexOf(s: string, c: char): (r: nat)
    ensures r <= |s| && c !in s[..r]
    ensures r < |s| ==> s[r] == c
  {
    if |s| == 0 then 0 else if s[0] == c then 0 else 1 + IndexOf(s[1..], c)
  }

  /** The pattern test as a scan: no white space, exactly one '@' that is
      not first, and a '.' in the domain that is neither its first nor its
      last character. */
  predicate EmailPatternTest(s: string) {
    var at := IndexOf(s, '@');
    0 < at < |s| &&
    (forall k :: 0 <= k < |s| ==> !IsSpace(s[k])) &&
    (forall k :: at < k < |s| ==> s[k] != '@') &&
    exists dot :: at + 1 < dot < |s| - 1 && s[dot] == '.'
  }

  /** The scan accepts exactly the strings the regular expression matches. */
  lemma EmailPatternTestCorrect(s: string)
    ensures EmailPatternTest(s) <==> EmailLanguage(s)
  {
    var at := IndexOf(s, '@');
    if EmailPatternTest(s) {
      var dot :| at + 1 < dot < |s| - 1 && s[dot] == '.';
      forall k | 0 <= k < |s| && k != at ensures EmailChar(s[k]) {
        if k < at {
          assert s[k] == s[..at][k];
        }
      }
    }
    if EmailLanguage(s) {
      var a, dot :| 0 < a && a + 1 < dot < |s| - 1 && s[a] == '@' && s[dot] == '.' &&
        forall k :: 0 <= k < |s| && k != a ==> EmailChar(s[k]);
      assert at == a;
    }
  }
}
