/**
 * The JavaScript string built-ins the front end relies on, stated on `seq<char>`:
 * `trim`, `startsWith`/`endsWith`, `includes`/`indexOf`, `split`/`join` on one
 * character, a global `replace` of a literal pattern, radix-less `parseInt`
 * (decimal digits only) and `Number.prototype.toString` on naturals.
 */
module JsStrings {
  import opened Wrappers

  /** ECMAScript WhiteSpace and LineTerminator code points: what `trim` and `parseInt` skip. */
  predicate IsJsWhitespace(c: char) {
    || c == '\t' || c == '\n' || c == '\U{000B}' || c == '\U{000C}' || c == '\r'
    || c == ' ' || c == '\U{00A0}' || c == '\U{1680}'
    || ('\U{2000}' <= c <= '\U{200A}')
    || c == '\U{2028}' || c == '\U{2029}' || c == '\U{202F}' || c == '\U{205F}'
    || c == '\U{3000}' || c == '\U{FEFF}'
  }

  /** ECMAScript LineTerminator: the characters a regular-expression `.` does not match. */
  predicate IsLineTerminator(c: char) {
    c == '\n' || c == '\r' || c == '\U{2028}' || c == '\U{2029}'
  }

  /** `s.trimStart()`: the suffix left after dropping leading whitespace. */
  function TrimStart(s: string): (r: string)
    ensures |r| <= |s| && r == s[|s| - |r|..]
    ensures forall i :: 0 <= i < |s| - |r| ==> IsJsWhitespace(s[i])
    ensures r != [] ==> !IsJsWhitespace(r[0])
    decreases |s|
  {
    if s != [] && IsJsWhitespace(s[0]) then TrimStart(s[1..]) else s
  }

  /** `s.trimEnd()`: the prefix left after dropping trailing whitespace. */
  function TrimEnd(s: string): (r: string)
    ensures |r| <= |s| && r == s[..|r|]
    ensures forall i :: |r| <= i < |s| ==> IsJsWhitespace(s[i])
    ensures r != [] ==> !IsJsWhitespace(r[|r| - 1])
    decreases |s|
  {
    if s != [] && IsJsWhitespace(s[|s| - 1]) then TrimEnd(s[..|s| - 1]) else s
  }

  /**
   * `s.trim()`: the result is the slice of `s` that starts at some `k`; everything before
   * and after that slice is whitespace, and neither end of the slice is.
   */
  function Trim(s: string): (r: string)
    ensures |r| <= |s|
    ensures exists k :: TrimmedAt(s, r, k)
    ensures r != [] ==> !IsJsWhitespace(r[0]) && !IsJsWhitespace(r[|r| - 1])
    ensures s != [] && !IsJsWhitespace(s[0]) && !IsJsWhitespace(s[|s| - 1]) ==> r == s
  {
    TrimWitness(s);
    TrimEnd(TrimStart(s))
  }

  /** Helper of Trim: the slice starts where the leading whitespace ends. */
  lemma TrimWitness(s: string)
    ensures TrimmedAt(s, TrimEnd(TrimStart(s)), |s| - |TrimStart(s)|)
  {
    var t := TrimStart(s);
    var r := TrimEnd(t);
    var k := |s| - |t|;
    assert t == s[k..];
    assert r == t[..|r|];
    forall i | k + |r| <= i < |s| ensures IsJsWhitespace(s[i]) {
      assert s[i] == t[i - k];
    }
  }

  /** `r` is `s[k..k + |r|]`, and only whitespace lies outside that slice. */
  predicate TrimmedAt(s: string, r: string, k: nat) {
    && k + |r| <= |s| && r == s[k..k + |r|]
    && (forall i :: 0 <= i < k ==> IsJsWhitespace(s[i]))
    && (forall i :: k + |r| <= i < |s| ==> IsJsWhitespace(s[i]))
  }

  predicate StartsWith(s: string, prefix: string) {
    |prefix| <= |s| && s[..|prefix|] == prefix
  }

  predicate EndsWith(s: string, suffix: string) {
    |suffix| <= |s| && s[|s| - |suffix|..] == suffix
  }

  /** `s.includes(q)`, equivalently `s.indexOf(q) !== -1`. */
  predicate Occurs(s: string, q: string)
    decreases |s|
  {
    |q| <= |s| && (s[..|q|] == q || Occurs(s[1..], q))
  }

  /** Number of occurrences of the character `c` in `s`. */
  function Count(s: string, c: char): nat
    decreases |s|
  {
    if s == [] then 0 else (if s[0] == c then 1 else 0) + Count(s[1..], c)
  }

  /** `s.split(sep)` for a one-character separator: `"".split(sep)` is `[""]`. */
  function Split(s: string, sep: char): (parts: seq<string>)
    ensures |parts| >= 1
    decreases |s|
  {
    if s == [] then [""]
    else
      var rest := Split(s[1..], sep);
      if s[0] == sep then [""] + rest else [[s[0]] + rest[0]] + rest[1..]
  }

  /** Appending to a non-empty text is appending to its tail. */
  lemma ConsAppend(x: string, y: string)
    requires x != []
    ensures x + y == [x[0]] + (x[1..] + y)
  {
  }

  /** Concatenation regroups freely. */
  lemma AppendAssoc(a: string, b: string, c: string)
    ensures a + (b + c) == a + b + c
  {
  }

  /** A prefix cut in two: the part before `i`, then the next `j - i` characters. */
  lemma PrefixThen(s: string, i: nat, j: nat)
    requires i <= j <= |s|
    ensures s[..j] == s[..i] + s[i..][..j - i]
  {
  }

  /** Dropping `i` characters, then `j` more, drops `i + j`. */
  lemma DropThen(s: string, i: nat, j: nat)
    requires i + j <= |s|
    ensures s[i..][j..] == s[i + j..]
  {
  }

  /** Four pieces grouped from the right are the same four pieces grouped from the left. */
  lemma RegroupFour(a: string, b: string, c: string, d: string)
    ensures a + (b + (c + d)) == a + b + c + d
  {
  }

  /** Five pieces grouped from the right are the same five pieces grouped from the left. */
  lemma RegroupFive(a: string, b: string, c: string, d: string, e: string)
    ensures a + (b + (c + (d + e))) == a + b + c + d + e
  {
  }

  /** Text without the separator splits into itself alone. */
  lemma {:induction false} SplitWithoutSeparator(s: string, sep: char)
    requires sep !in s
    ensures Split(s, sep) == [s]
    decreases |s|
  {
    if s != [] {
      SplitWithoutSeparator(s[1..], sep);
      assert [s[0]] + s[1..] == s;
    }
  }

  /** The first piece of a split is the text before the first separator. */
  lemma {:induction false} SplitAtFirst(x: string, y: string, sep: char)
    requires sep !in x
    ensures Split(x + [sep] + y, sep) == [x] + Split(y, sep)
    decreases |x|
  {
    if x == [] {
      assert x + [sep] + y == [sep] + y;
      assert ([sep] + y)[1..] == y;
    } else {
      assert (x + [sep] + y)[1..] == x[1..] + [sep] + y;
      SplitAtFirst(x[1..], y, sep);
      assert [x[0]] + x[1..] == x;
    }
  }

  /** `s.indexOf(c)` for one character, with `|s|` standing for `-1` (not found). */
  function IndexOf(s: string, c: char): (i: nat)
    ensures i <= |s|
    ensures i < |s| ==> s[i] == c
    ensures forall j :: 0 <= j < i ==> s[j] != c
    ensures i == |s| <==> c !in s
    decreases |s|
  {
    if s == [] || s[0] == c then 0 else 1 + IndexOf(s[1..], c)
  }

  /** A split is the text before the first separator, then the split of what follows it. */
  lemma SplitHead(s: string, sep: char)
    ensures Split(s, sep)[0] == s[..IndexOf(s, sep)]
    ensures sep in s ==> Split(s, sep)[1..] == Split(s[IndexOf(s, sep) + 1..], sep)
    ensures sep !in s ==> Split(s, sep) == [s]
  {
    var i := IndexOf(s, sep);
    if i < |s| {
      var x, y := s[..i], s[i + 1..];
      assert sep !in x by {
        forall j | 0 <= j < |x| ensures x[j] != sep {
          assert x[j] == s[j];
        }
      }
      assert s == x + [sep] + y;
      SplitAtFirst(x, y, sep);
    } else {
      SplitWithoutSeparator(s, sep);
      assert s[..i] == s;
    }
  }

  /** `parts.join(sep)` for a one-character separator. */
  function Join(parts: seq<string>, sep: char): string
    decreases |parts|
  {
    if |parts| == 0 then ""
    else if |parts| == 1 then parts[0]
    else parts[0] + [sep] + Join(parts[1..], sep)
  }

  /** Splitting on `sep` yields one more piece than there are separators. */
  lemma {:induction false} SplitLength(s: string, sep: char)
    ensures |Split(s, sep)| == Count(s, sep) + 1
    decreases |s|
  {
    if s != [] {
      SplitLength(s[1..], sep);
    }
  }

  /** No piece of a split contains the separator. */
  lemma {:induction false} SplitPiecesFree(s: string, sep: char)
    ensures forall i :: 0 <= i < |Split(s, sep)| ==> sep !in Split(s, sep)[i]
    decreases |s|
  {
    if s != [] {
      SplitPiecesFree(s[1..], sep);
    }
  }

  /** Joining the pieces of a split with the same separator gives the text back. */
  lemma {:induction false} SplitJoin(s: string, sep: char)
    ensures Join(Split(s, sep), sep) == s
    decreases |s|
  {
    if s != [] {
      var rest := Split(s[1..], sep);
      SplitJoin(s[1..], sep);
      if s[0] == sep {
        assert Split(s, sep) == [""] + rest;
        assert ([""] + rest)[1..] == rest;
      } else if |rest| == 1 {
        assert Split(s, sep) == [[s[0]] + rest[0]];
      } else {
        var parts := [[s[0]] + rest[0]] + rest[1..];
        assert parts[1..] == rest[1..];
        calc {
          Join(parts, sep);
          ([s[0]] + rest[0]) + [sep] + Join(rest[1..], sep);
          [s[0]] + (rest[0] + [sep] + Join(rest[1..], sep));
          [s[0]] + Join(rest, sep);
        }
      }
    }
  }

  /**
   * `s.replace(/p/g, r)` for a pattern `p` that is a non-empty literal: matches are
   * found left to right and do not overlap; each is replaced by `r`.
   */
  function ReplaceAll(s: string, p: string, r: string): string
    requires p != []
    decreases |s|
  {
    if |s| < |p| then s
    else if s[..|p|] == p then r + ReplaceAll(s[|p|..], p, r)
    else [s[0]] + ReplaceAll(s[1..], p, r)
  }

  /** No character of `r` occurs in `q`. */
  predicate SharesNoChar(r: string, q: string) {
    forall i :: 0 <= i < |r| ==> r[i] !in q
  }

  /** A text that lacks the first character of `q` has no occurrence of `q`. */
  lemma {:induction false} OccursNeedsFirstChar(s: string, q: string)
    requires q != [] && q[0] !in s
    ensures !Occurs(s, q)
    decreases |s|
  {
    if |q| <= |s| {
      assert s[..|q|][0] == s[0];
      OccursNeedsFirstChar(s[1..], q);
    }
  }

  /** Text that lacks the first character of `p` is copied in front of the replaced rest. */
  lemma {:induction false} ReplaceAllSkipsPrefix(x: string, y: string, p: string, r: string)
    requires p != [] && p[0] !in x
    ensures ReplaceAll(x + y, p, r) == x + ReplaceAll(y, p, r)
    decreases |x|
  {
    if x == [] {
      assert x + y == y;
    } else if |x + y| < |p| {
      assert ReplaceAll(y, p, r) == y;
    } else {
      assert (x + y)[..|p|][0] == x[0];
      assert (x + y)[1..] == x[1..] + y;
      ReplaceAllSkipsPrefix(x[1..], y, p, r);
      assert x == [x[0]] + x[1..];
    }
  }

  /** A text that opens with `p` has that occurrence replaced, then the rest. */
  lemma ReplaceAllAtMatch(p: string, y: string, r: string)
    requires p != []
    ensures ReplaceAll(p + y, p, r) == r + ReplaceAll(y, p, r)
  {
    assert (p + y)[..|p|] == p && (p + y)[|p|..] == y;
  }

  /** An occurrence in `x + y` where `x` lacks the first character of `q` lies in `y`. */
  lemma {:induction false} OccursSkipsPrefix(x: string, y: string, q: string)
    requires q != [] && q[0] !in x && Occurs(x + y, q)
    ensures Occurs(y, q)
    decreases |x|
  {
    if x == [] {
      assert x + y == y;
    } else {
      assert (x + y)[..|q|][0] == x[0];
      assert (x + y)[1..] == x[1..] + y;
      OccursSkipsPrefix(x[1..], y, q);
    }
  }

  /** A text without `p` is left as it is by a global replacement of `p`. */
  lemma {:induction false} ReplaceAllAbsent(s: string, p: string, r: string)
    requires p != [] && !Occurs(s, p)
    ensures ReplaceAll(s, p, r) == s
    decreases |s|
  {
    if |s| >= |p| {
      ReplaceAllAbsent(s[1..], p, r);
    }
  }

  /** An occurrence in a suffix is an occurrence in the whole text. */
  lemma {:induction false} OccursInSuffix(s: string, q: string, k: nat)
    requires k <= |s| && Occurs(s[k..], q)
    ensures Occurs(s, q)
    decreases k
  {
    if k > 0 {
      assert s[1..][k - 1..] == s[k..];
      OccursInSuffix(s[1..], q, k - 1);
    }
  }

  /** An occurrence of `q + w` contains an occurrence of `q`. */
  lemma {:induction false} OccursOfPrefix(s: string, q: string, w: string)
    requires Occurs(s, q + w)
    ensures Occurs(s, q)
    decreases |s|
  {
    if s[..|q + w|] == q + w {
      assert s[..|q|] == (q + w)[..|q|];
    } else {
      OccursOfPrefix(s[1..], q, w);
    }
  }

  /** In front of text `t`, a block `r` whose characters all differ from `q[0]` adds no occurrence of `q`. */
  lemma {:induction false} OccursPastBlock(r: string, t: string, q: string)
    requires q != [] && forall i :: 0 <= i < |r| ==> r[i] != q[0]
    requires Occurs(r + t, q)
    ensures Occurs(t, q)
    decreases |r|
  {
    if r != [] {
      assert (r + t)[0] == r[0];
      assert (r + t)[1..] == r[1..] + t;
      OccursPastBlock(r[1..], t, q);
    } else {
      assert r + t == t;
    }
  }

  /**
   * A prefix of a replacement's output that contains no character of `r` was copied
   * unchanged from the input.
   */
  lemma {:induction false} ReplaceAllKeepsPrefix(s: string, p: string, r: string, k: nat)
    requires p != [] && r != []
    requires k <= |ReplaceAll(s, p, r)|
    requires forall i :: 0 <= i < k ==> ReplaceAll(s, p, r)[i] !in r
    ensures k <= |s| && ReplaceAll(s, p, r)[..k] == s[..k]
    decreases |s|
  {
    if |s| < |p| {
    } else if s[..|p|] == p {
      var t := ReplaceAll(s, p, r);
      assert t == r + ReplaceAll(s[|p|..], p, r) && t[0] == r[0];
      assert k == 0;
    } else if k > 0 {
      var t := ReplaceAll(s[1..], p, r);
      assert ReplaceAll(s, p, r) == [s[0]] + t;
      forall i | 0 <= i < k - 1 ensures t[i] !in r {
        assert t[i] == ReplaceAll(s, p, r)[i + 1];
      }
      ReplaceAllKeepsPrefix(s[1..], p, r, k - 1);
      assert ([s[0]] + t)[..k] == [s[0]] + t[..k - 1];
      assert s[..k] == [s[0]] + s[1..][..k - 1];
    }
  }

  /**
   * A global replacement whose (non-empty) replacement text shares no character with
   * `q` creates no new occurrence of `q`.
   */
  lemma {:induction false} ReplaceAllAddsNoOccurrence(s: string, p: string, r: string, q: string)
    requires p != [] && r != [] && q != []
    requires SharesNoChar(r, q)
    requires !Occurs(s, q)
    ensures !Occurs(ReplaceAll(s, p, r), q)
    decreases |s|
  {
    if |s| < |p| {
    } else if s[..|p|] == p {
      var t := ReplaceAll(s[|p|..], p, r);
      if Occurs(s[|p|..], q) {
        OccursInSuffix(s, q, |p|);
      }
      ReplaceAllAddsNoOccurrence(s[|p|..], p, r, q);
      if Occurs(r + t, q) {
        forall i | 0 <= i < |r| ensures r[i] != q[0] {
          assert r[i] !in q;
        }
        OccursPastBlock(r, t, q);
      }
    } else {
      var t := ReplaceAll(s[1..], p, r);
      assert ReplaceAll(s, p, r) == [s[0]] + t;
      ReplaceAllAddsNoOccurrence(s[1..], p, r, q);
      if Occurs([s[0]] + t, q) {
        assert ([s[0]] + t)[1..] == t;
        assert ([s[0]] + t)[..|q|] == q;
        NoForeignCharsInPrefix(s, p, r, q, t);
      }
    }
  }

  /** Helper of ReplaceAllAddsNoOccurrence: an occurrence at the front of `[s[0]] + t` is one in `s`. */
  lemma {:induction false} NoForeignCharsInPrefix(s: string, p: string, r: string, q: string, t: string)
    requires p != [] && r != [] && q != [] && SharesNoChar(r, q)
    requires |s| >= 1 && t == ReplaceAll(s[1..], p, r)
    requires |q| <= 1 + |t| && ([s[0]] + t)[..|q|] == q
    ensures |q| <= |s| && s[..|q|] == q
  {
    forall i | 0 <= i < |q| - 1 ensures t[i] !in r {
      assert t[i] == q[i + 1];
    }
    ReplaceAllKeepsPrefix(s[1..], p, r, |q| - 1);
    assert s[..|q|] == [s[0]] + s[1..][..|q| - 1];
    assert q == [s[0]] + t[..|q| - 1];
  }

  /** After a global replacement by text sharing no character with `p`, no `p` is left. */
  lemma {:induction false} ReplaceAllRemovesPattern(s: string, p: string, r: string)
    requires p != [] && r != [] && SharesNoChar(r, p)
    ensures !Occurs(ReplaceAll(s, p, r), p)
    decreases |s|
  {
    if |s| < |p| {
      assert ReplaceAll(s, p, r) == s;
    } else if s[..|p|] == p {
      var t := ReplaceAll(s[|p|..], p, r);
      ReplaceAllRemovesPattern(s[|p|..], p, r);
      if Occurs(r + t, p) {
        forall i | 0 <= i < |r| ensures r[i] != p[0] {
          assert r[i] !in p;
        }
        OccursPastBlock(r, t, p);
      }
    } else {
      var t := ReplaceAll(s[1..], p, r);
      assert ReplaceAll(s, p, r) == [s[0]] + t;
      ReplaceAllRemovesPattern(s[1..], p, r);
      if Occurs([s[0]] + t, p) {
        assert ([s[0]] + t)[1..] == t;
        assert ([s[0]] + t)[..|p|] == p;
        NoForeignCharsInPrefix(s, p, r, p, t);
      }
    }
  }

  // ---- Numbers -------------------------------------------------------------

  predicate IsDigit(c: char) {
    '0' <= c <= '9'
  }

  function DigitValue(c: char): nat
    requires IsDigit(c)
  {
    c as int - '0' as int
  }

  function DigitChar(d: nat): (c: char)
    requires d < 10
    ensures IsDigit(c) && DigitValue(c) == d
  {
    ('0' as int + d) as char
  }

  /** The longest prefix of `s` made of decimal digits. */
  function DigitPrefix(s: string): (d: string)
    ensures |d| <= |s| && d == s[..|d|]
    ensures forall i :: 0 <= i < |d| ==> IsDigit(d[i])
    ensures |d| < |s| ==> !IsDigit(s[|d|])
    decreases |s|
  {
    if s != [] && IsDigit(s[0]) then [s[0]] + DigitPrefix(s[1..]) else ""
  }

  /** The value of a string of decimal digits, most significant first. */
  function DigitsValue(d: string): nat
    requires forall i :: 0 <= i < |d| ==> IsDigit(d[i])
    decreases |d|
  {
    if d == [] then 0 else DigitsValue(d[..|d| - 1]) * 10 + DigitValue(d[|d| - 1])
  }

  /**
   * Radix-less `parseInt(s)` on decimal text: skip leading whitespace, read an optional
   * sign, then the longest run of digits; `None` stands for `NaN` (no digits at all).
   */
  function ParseInt(s: string): (r: Option<int>)
    ensures r.None? <==> DigitPrefix(UnsignedPart(TrimStart(s))) == ""
  {
    var t := TrimStart(s);
    var digits := DigitPrefix(UnsignedPart(t));
    if digits == [] then None
    else if t[0] == '-' then Some(-(DigitsValue(digits) as int))
    else Some(DigitsValue(digits))
  }

  /** The text after an optional leading `+` or `-`. */
  function UnsignedPart(t: string): (u: string)
    ensures u == t || (t != [] && (t[0] == '+' || t[0] == '-') && u == t[1..])
  {
    if t != [] && (t[0] == '+' || t[0] == '-') then t[1..] else t
  }

  /** `n.toString()` for a natural number: decimal digits, no leading zero. */
  function DecimalString(n: nat): (s: string)
    ensures s != [] && forall i :: 0 <= i < |s| ==> IsDigit(s[i])
    ensures n > 0 ==> s[0] != '0'
    decreases n
  {
    if n < 10 then [DigitChar(n)] else DecimalString(n / 10) + [DigitChar(n % 10)]
  }

  /** A two-digit number has the decimal text of its two digits. */
  lemma TwoDigitDecimalString(a: nat, b: nat)
    requires 1 <= a < 10 && b < 10
    ensures DecimalString(10 * a + b) == [DigitChar(a), DigitChar(b)]
  {
    var n := 10 * a + b;
    assert n / 10 == a && n % 10 == b;
  }

  /** Reading back the decimal text of `n` gives `n`. */
  lemma {:induction false} DecimalStringValue(n: nat)
    ensures DigitsValue(DecimalString(n)) == n
    decreases n
  {
    var s := DecimalString(n);
    if n >= 10 {
      DecimalStringValue(n / 10);
      assert s[..|s| - 1] == DecimalString(n / 10);
    }
  }

  /** A string of digits is its own digit prefix. */
  lemma {:induction false} DigitPrefixOfDigits(s: string)
    requires forall i :: 0 <= i < |s| ==> IsDigit(s[i])
    ensures DigitPrefix(s) == s
    decreases |s|
  {
    if s != [] {
      DigitPrefixOfDigits(s[1..]);
    }
  }

  /** `parseInt(String(n)) === n` for every natural `n`. */
  lemma ParseIntOfDecimalString(n: nat)
    ensures ParseInt(DecimalString(n)) == Some(n)
  {
    var s := DecimalString(n);
    assert !IsJsWhitespace(s[0]) && s[0] != '+' && s[0] != '-';
    assert TrimStart(s) == s;
    DigitPrefixOfDigits(s);
    DecimalStringValue(n);
  }
}
