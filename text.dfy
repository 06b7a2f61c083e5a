/**
 * The parts of Go's `strings` and `strconv` packages that the backup agent relies on:
 * byte-wise string ordering, substring search, splitting on a separator, splitting into
 * whitespace-separated fields, trimming, lower-casing, decimal formatting and `Atoi`.
 *
 * Strings are sequences of Unicode scalar values. Go compares strings byte by byte in
 * their UTF-8 encoding; UTF-8 preserves the order of scalar values, so comparing the
 * scalar values one by one (`Less` below) gives the same answer.
 */
module Text {
  import opened Wrappers

  // ---------------------------------------------------------------------------
  // Ordering: Go's `a < b` on strings

  /** Lexicographic strict order on strings, as Go's `<` on `string`. */
  predicate Less(a: string, b: string)
  {
    if |a| == 0 then |b| > 0
    else if |b| == 0 then false
    else a[0] < b[0] || (a[0] == b[0] && Less(a[1..], b[1..]))
  }

  lemma {:induction false} LessIrreflexive(a: string)
    ensures !Less(a, a)
  {
    if |a| > 0 {
      LessIrreflexive(a[1..]);
    }
  }

  lemma {:induction false} LessAsymmetric(a: string, b: string)
    ensures Less(a, b) ==> !Less(b, a)
  {
    if |a| > 0 && |b| > 0 {
      LessAsymmetric(a[1..], b[1..]);
    }
  }

  lemma {:induction false} LessTransitive(a: string, b: string, c: string)
    requires Less(a, b) && Less(b, c)
    ensures Less(a, c)
  {
    if |a| > 0 && a[0] == b[0] && b[0] == c[0] {
      LessTransitive(a[1..], b[1..], c[1..]);
    }
  }

  /** Any two different strings are ordered one way or the other. */
  lemma {:induction false} LessTotal(a: string, b: string)
    ensures a == b || Less(a, b) || Less(b, a)
  {
    if |a| > 0 && |b| > 0 && a[0] == b[0] {
      LessTotal(a[1..], b[1..]);
      if a[1..] == b[1..] {
        assert a == [a[0]] + a[1..] && b == [b[0]] + b[1..];
      }
    }
  }

  /** A common prefix does not change the order of two strings. */
  lemma {:induction false} LessCommonPrefix(p: string, a: string, b: string)
    ensures Less(p + a, p + b) <==> Less(a, b)
  {
    if |p| == 0 {
      assert p + a == a && p + b == b;
    } else {
      assert (p + a)[0] == p[0] == (p + b)[0];
      assert (p + a)[1..] == p[1..] + a;
      assert (p + b)[1..] == p[1..] + b;
      LessCommonPrefix(p[1..], a, b);
    }
  }

  /**
   * Two strings built from blocks of equal length compare block by block: the first
   * blocks decide unless they are equal.
   */
  lemma {:induction false} LessBlocks(a1: string, b1: string, a2: string, b2: string)
    requires |a1| == |a2|
    ensures Less(a1 + b1, a2 + b2) <==> Less(a1, a2) || (a1 == a2 && Less(b1, b2))
  {
    if |a1| == 0 {
      assert a1 + b1 == b1 && a2 + b2 == b2;
    } else {
      assert (a1 + b1)[0] == a1[0] && (a2 + b2)[0] == a2[0];
      assert (a1 + b1)[1..] == a1[1..] + b1;
      assert (a2 + b2)[1..] == a2[1..] + b2;
      LessBlocks(a1[1..], b1, a2[1..], b2);
      if a1[0] == a2[0] && a1[1..] == a2[1..] {
        assert a1 == [a1[0]] + a1[1..] && a2 == [a2[0]] + a2[1..];
      }
    }
  }

  // ---------------------------------------------------------------------------
  // Substrings, splitting and fields

  /** Go's `strings.Contains(s, sub)`. */
  predicate Contains(s: string, sub: string)
    decreases |s|
  {
    sub <= s || (s != [] && Contains(s[1..], sub))
  }

  /** `sub` occurs in `s` starting at index `i`. */
  predicate OccursAt(s: string, sub: string, i: int)
  {
    0 <= i <= |s| - |sub| && s[i..i + |sub|] == sub
  }

  /** When `s` contains `sub`, it occurs at some index, which the lemma returns. */
  lemma {:induction false} ContainsWitness(s: string, sub: string) returns (i: nat)
    requires Contains(s, sub)
    ensures OccursAt(s, sub, i)
    decreases |s|
  {
    if sub <= s {
      assert s[0..|sub|] == sub;
      i := 0;
    } else {
      var j := ContainsWitness(s[1..], sub);
      assert s[1..][j..j + |sub|] == s[j + 1..j + 1 + |sub|];
      i := j + 1;
    }
  }

  /** An occurrence at any index means `s` contains `sub`. */
  lemma {:induction false} OccursContains(s: string, sub: string, i: int)
    requires OccursAt(s, sub, i)
    ensures Contains(s, sub)
    decreases |s|
  {
    if i == 0 {
      assert sub <= s;
    } else {
      assert s[1..][i - 1..i - 1 + |sub|] == s[i..i + |sub|];
      OccursContains(s[1..], sub, i - 1);
    }
  }

  /** `Contains` holds exactly when the substring occurs at some index. */
  lemma ContainsAt(s: string, sub: string)
    ensures Contains(s, sub) <==> exists i :: OccursAt(s, sub, i)
  {
    if Contains(s, sub) {
      var i := ContainsWitness(s, sub);
    }
    if exists i :: OccursAt(s, sub, i) {
      var i :| OccursAt(s, sub, i);
      OccursContains(s, sub, i);
    }
  }

  /**
   * Go's `strings.Split(s, sep)` for a one-character separator: the pieces between
   * separators, so `n` separators give `n + 1` pieces and the empty string gives `[""]`.
   */
  function Split(s: string, sep: char): (parts: seq<string>)
    ensures |parts| >= 1
    ensures forall i :: 0 <= i < |parts| ==> sep !in parts[i]
  {
    if s == [] then [[]]
    else
      var rest := Split(s[1..], sep);
      if s[0] == sep then [[]] + rest
      else [[s[0]] + rest[0]] + rest[1..]
  }

  /** Go's `strings.Join(parts, sep)` for a one-character separator. */
  function JoinWith(parts: seq<string>, sep: char): string
    requires |parts| >= 1
  {
    if |parts| == 1 then parts[0] else parts[0] + [sep] + JoinWith(parts[1..], sep)
  }

  /** Splitting loses nothing: joining the pieces with the separator gives back the input. */
  lemma {:induction false} SplitJoin(s: string, sep: char)
    ensures JoinWith(Split(s, sep), sep) == s
  {
    if s != [] {
      var rest := Split(s[1..], sep);
      SplitJoin(s[1..], sep);
      if s[0] == sep {
        assert Split(s, sep)[1..] == rest;
      } else {
        var parts := Split(s, sep);
        assert parts[1..] == rest[1..];
        if |rest| == 1 {
          assert parts == [[s[0]] + rest[0]];
        } else {
          assert JoinWith(rest, sep) == rest[0] + [sep] + JoinWith(rest[1..], sep);
        }
      }
    }
  }

  /** Splitting text that starts with a piece free of the separator keeps that piece in front. */
  lemma {:induction false} SplitPrefix(a: string, t: string, sep: char)
    requires sep !in a
    ensures Split(a + t, sep) == [a + Split(t, sep)[0]] + Split(t, sep)[1..]
  {
    var parts := Split(t, sep);
    if a == [] {
      assert a + t == t && a + parts[0] == parts[0];
      assert parts == [parts[0]] + parts[1..];
    } else {
      SplitPrefix(a[1..], t, sep);
      assert (a + t)[1..] == a[1..] + t;
      var rest := Split(a[1..] + t, sep);
      assert rest[0] == a[1..] + parts[0] && rest[1..] == parts[1..];
      assert [a[0]] + (a[1..] + parts[0]) == a + parts[0];
    }
  }

  /**
   * Joining loses nothing either: splitting pieces joined with a separator none of them
   * contains gives back the pieces.
   */
  lemma {:induction false} JoinSplit(parts: seq<string>, sep: char)
    requires |parts| >= 1
    requires forall i :: 0 <= i < |parts| ==> sep !in parts[i]
    ensures Split(JoinWith(parts, sep), sep) == parts
  {
    if |parts| == 1 {
      SplitPrefix(parts[0], [], sep);
      assert parts[0] + [] == parts[0];
    } else {
      JoinSplit(parts[1..], sep);
      var rest := JoinWith(parts[1..], sep);
      assert JoinWith(parts, sep) == parts[0] + ([sep] + rest);
      SplitPrefix(parts[0], [sep] + rest, sep);
      assert ([sep] + rest)[1..] == rest;
      var after := Split([sep] + rest, sep);
      assert after == [[]] + Split(rest, sep);
      assert after[0] == [] && after[1..] == parts[1..];
      assert parts[0] + after[0] == parts[0];
      assert parts == [parts[0]] + parts[1..];
    }
  }

  /** Joined non-empty pieces start with the first piece's first character and end with the last piece's last. */
  lemma {:induction false} JoinWithEnds(parts: seq<string>, sep: char)
    requires |parts| >= 1
    requires forall i :: 0 <= i < |parts| ==> parts[i] != []
    ensures var j := JoinWith(parts, sep);
            j != [] && j[0] == parts[0][0] && j[|j| - 1] == parts[|parts| - 1][|parts[|parts| - 1]| - 1]
  {
    if |parts| > 1 {
      JoinWithEnds(parts[1..], sep);
      var rest := JoinWith(parts[1..], sep);
      assert JoinWith(parts, sep) == parts[0] + [sep] + rest;
      assert parts[1..][|parts| - 2] == parts[|parts| - 1];
    }
  }

  /** Go's `unicode.IsSpace`, the separator class of `strings.Fields` and `strings.TrimSpace`. */
  predicate IsSpace(c: char)
  {
    var k := c as int;
    (9 <= k <= 13) || k == 0x20 || k == 0x85 || k == 0xA0 || k == 0x1680
    || (0x2000 <= k <= 0x200A) || k == 0x2028 || k == 0x2029 || k == 0x202F
    || k == 0x205F || k == 0x3000
  }

  predicate NoSpace(s: string)
  {
    forall i :: 0 <= i < |s| ==> !IsSpace(s[i])
  }

  predicate AllSpace(s: string)
  {
    forall i :: 0 <= i < |s| ==> IsSpace(s[i])
  }

  /** The longest prefix of `s` holding no white space. */
  function Word(s: string): (w: string)
    ensures w <= s && NoSpace(w)
    ensures |w| < |s| ==> IsSpace(s[|w|])
  {
    if s == [] || IsSpace(s[0]) then [] else [s[0]] + Word(s[1..])
  }

  /** The number of white-space characters `s` starts with. */
  function LeadingSpace(s: string): (n: nat)
    ensures n <= |s| && AllSpace(s[..n])
    ensures n < |s| ==> !IsSpace(s[n])
  {
    if s != [] && IsSpace(s[0]) then
      var m := LeadingSpace(s[1..]);
      assert s[..1 + m] == [s[0]] + s[1..][..m];
      1 + m
    else 0
  }

  /** The number of white-space characters `s` ends with. */
  function TrailingSpace(s: string): (n: nat)
    ensures n <= |s| && AllSpace(s[|s| - n..])
    ensures n < |s| ==> !IsSpace(s[|s| - n - 1])
  {
    if s != [] && IsSpace(s[|s| - 1]) then
      var init := s[..|s| - 1];
      var m := TrailingSpace(init);
      assert s[|s| - (1 + m)..] == init[|init| - m..] + [s[|s| - 1]];
      1 + m
    else 0
  }

  /** Drops leading white space. */
  function TrimLeftSpace(s: string): (r: string)
    ensures r != [] ==> !IsSpace(r[0])
  {
    s[LeadingSpace(s)..]
  }

  /** Go's `strings.TrimSpace`: drops the leading and the trailing white space. */
  function TrimSpace(s: string): (r: string)
  {
    var t := s[LeadingSpace(s)..];
    t[..|t| - TrailingSpace(t)]
  }

  /** `TrimSpace` keeps the middle slice of its input that starts after the leading white space. */
  lemma TrimSpaceSlice(s: string)
    ensures var r, i := TrimSpace(s), LeadingSpace(s);
            i + |r| <= |s| && r == s[i..i + |r|]
  {
  }

  /** What `TrimSpace` drops at the end is white space. */
  lemma TrimSpaceDropsTrailing(s: string)
    ensures var r, i := TrimSpace(s), LeadingSpace(s);
            i + |r| <= |s| && AllSpace(s[i + |r|..])
  {
    var i := LeadingSpace(s);
    var t := s[i..];
    var n := TrailingSpace(t);
    assert |TrimSpace(s)| == |t| - n;
    SuffixOfSuffix(s, i, |t| - n);
    AllSpaceSame(t[|t| - n..], s[LeadingSpace(s) + |TrimSpace(s)|..]);
  }

  /** White space only, whatever the sequence is called. */
  lemma AllSpaceSame(a: string, b: string)
    requires a == b && AllSpace(a)
    ensures AllSpace(b)
  {
  }

  /** A suffix of a suffix is a suffix. */
  lemma SuffixOfSuffix(s: string, i: nat, k: nat)
    requires i <= |s| && k <= |s| - i
    ensures s[i + k..] == s[i..][k..]
  {
  }

  /** `TrimSpace` drops only white space around what it keeps. */
  lemma TrimSpaceDropsSpace(s: string)
    ensures var r, i := TrimSpace(s), LeadingSpace(s);
            i + |r| <= |s| && AllSpace(s[..i]) && AllSpace(s[i + |r|..])
  {
    TrimSpaceDropsTrailing(s);
  }

  /** What `TrimSpace` keeps neither starts nor ends with white space. */
  lemma TrimSpaceEnds(s: string)
    ensures var r := TrimSpace(s); r != [] ==> !IsSpace(r[0]) && !IsSpace(r[|r| - 1])
  {
    var i := LeadingSpace(s);
    var t := s[i..];
    var n := TrailingSpace(t);
    var r := t[..|t| - n];
    if r != [] {
      assert r[0] == s[i];
      assert r[|r| - 1] == t[|t| - n - 1];
    }
  }

  /**
   * Go's `strings.Fields`: the maximal runs of non-white-space characters, in order.
   */
  function Fields(s: string): (fs: seq<string>)
    ensures forall i :: 0 <= i < |fs| ==> fs[i] != [] && NoSpace(fs[i])
    decreases |s|
  {
    var t := TrimLeftSpace(s);
    if t == [] then []
    else
      var w := Word(t);
      [w] + Fields(t[|w|..])
  }

  /** The first word of a run of non-white-space followed by white space (or nothing) is that run. */
  lemma WordOf(w: string, rest: string)
    requires NoSpace(w)
    requires rest == [] || IsSpace(rest[0])
    ensures Word(w + rest) == w
  {
    var x := w + rest;
    var v := Word(x);
    if |v| < |w| {
      assert x[|v|] == w[|v|];
    } else if |v| > |w| {
      assert v[|w|] == x[|w|] == rest[0];
    }
    assert v == x[..|v|] == w;
  }

  /** Leading white space does not change the fields. */
  lemma FieldsSkipSpace(c: char, s: string)
    requires IsSpace(c)
    ensures Fields([c] + s) == Fields(s)
  {
    var x := [c] + s;
    assert x[1..] == s;
    assert LeadingSpace(x) == 1 + LeadingSpace(s);
    assert TrimLeftSpace(x) == TrimLeftSpace(s);
  }

  /**
   * A non-empty run of non-white-space at the start, ended by white space or by the end of
   * the string, is the first field; the rest of the fields are those of what follows.
   */
  lemma FieldsWordThen(w: string, rest: string)
    requires w != [] && NoSpace(w)
    requires rest == [] || IsSpace(rest[0])
    ensures Fields(w + rest) == [w] + Fields(rest)
  {
    var x := w + rest;
    assert x[0] == w[0];
    assert LeadingSpace(x) == 0;
    assert TrimLeftSpace(x) == x;
    WordOf(w, rest);
    assert x[|w|..] == rest;
  }

  /** A word, one white-space character and the rest: the word, then the fields of the rest. */
  lemma FieldsWordSpace(w: string, c: char, rest: string)
    requires w != [] && NoSpace(w) && IsSpace(c)
    ensures Fields(w + [c] + rest) == [w] + Fields(rest)
  {
    assert w + [c] + rest == w + ([c] + rest);
    FieldsWordThen(w, [c] + rest);
    FieldsSkipSpace(c, rest);
  }

  /** A string that is all white space has no fields. */
  lemma FieldsAllSpace(s: string)
    requires AllSpace(s)
    ensures Fields(s) == []
  {
    assert LeadingSpace(s) == |s|;
  }

  /** Go's `strings.ToLower`, for the ASCII letters. */
  function ToLowerAscii(s: string): (r: string)
    ensures |r| == |s|
    ensures forall i :: 0 <= i < |s| ==>
              r[i] == (if 'A' <= s[i] <= 'Z' then (s[i] as int + 32) as char else s[i])
  {
    if s == [] then []
    else [if 'A' <= s[0] <= 'Z' then (s[0] as int + 32) as char else s[0]] + ToLowerAscii(s[1..])
  }

  // ---------------------------------------------------------------------------
  // Decimal digits

  function Pow10(n: nat): (p: nat)
    ensures p >= 1
  {
    if n == 0 then 1 else 10 * Pow10(n - 1)
  }

  function DigitChar(d: nat): (c: char)
    requires d < 10
    ensures '0' <= c <= '9'
  {
    (d + '0' as int) as char
  }

  predicate IsDigit(c: char)
  {
    '0' <= c <= '9'
  }

  predicate AllDigits(s: string)
  {
    forall i :: 0 <= i < |s| ==> IsDigit(s[i])
  }

  /** The value of a string of decimal digits. */
  function DecValue(s: string): nat
    requires AllDigits(s)
  {
    if s == [] then 0 else 10 * DecValue(s[..|s| - 1]) + (s[|s| - 1] as int - '0' as int)
  }

  /** The last `w` decimal digits of `n`, zero-padded on the left. */
  function Fixed(n: nat, w: nat): (s: string)
    ensures |s| == w && AllDigits(s)
  {
    if w == 0 then [] else Fixed(n / 10, w - 1) + [DigitChar(n % 10)]
  }

  /** Number of digits in Go's decimal rendering of `n`. */
  function NumDigits(n: nat): (k: nat)
    ensures k >= 1 && n < Pow10(k)
  {
    if n < 10 then 1 else 1 + NumDigits(n / 10)
  }

  /** A number below `10^w` has at most `w` digits. */
  lemma {:induction false} NumDigitsBound(n: nat, w: nat)
    requires n < Pow10(w) && w >= 1
    ensures NumDigits(n) <= w
  {
    if n >= 10 {
      NumDigitsBound(n / 10, w - 1);
    }
  }

  /** Go's decimal rendering of a non-negative integer, padded with zeros to at least `w` digits. */
  function Pad(n: nat, w: nat): string
  {
    Fixed(n, if w < NumDigits(n) then NumDigits(n) else w)
  }

  /** Go's `strconv.Itoa`: a minus sign for negative numbers, then the decimal digits. */
  function Itoa(n: int): (s: string)
    ensures n >= 0 ==> s != [] && AllDigits(s)
  {
    if n < 0 then "-" + Pad(-n, 1) else Pad(n, 1)
  }

  /** A fixed-width field reads back as the number it renders, when the number fits. */
  lemma {:induction false} FixedValue(n: nat, w: nat)
    requires n < Pow10(w)
    ensures DecValue(Fixed(n, w)) == n
  {
    if w > 0 {
      var s := Fixed(n, w);
      assert s[..|s| - 1] == Fixed(n / 10, w - 1);
      FixedValue(n / 10, w - 1);
    }
  }

  /**
   * Over numbers that fit the width, fixed-width fields compare as strings exactly
   * as the numbers compare: most significant digit first.
   */
  lemma {:induction false} FixedOrder(n: nat, m: nat, w: nat)
    requires n < Pow10(w) && m < Pow10(w)
    ensures Less(Fixed(n, w), Fixed(m, w)) <==> n < m
    decreases w
  {
    if w == 0 {
    } else {
      var hn, hm := Fixed(n / 10, w - 1), Fixed(m / 10, w - 1);
      FixedOrder(n / 10, m / 10, w - 1);
      FixedOrder(m / 10, n / 10, w - 1);
      LessTotal(hn, hm);
      LessIrreflexive(hn);
      LessBlocks(hn, [DigitChar(n % 10)], hm, [DigitChar(m % 10)]);
      if hn == hm {
        assert n / 10 == m / 10;
      }
    }
  }

  lemma FixedInjective(n: nat, m: nat, w: nat)
    requires n < Pow10(w) && m < Pow10(w)
    requires Fixed(n, w) == Fixed(m, w)
    ensures n == m
  {
    FixedValue(n, w);
    FixedValue(m, w);
  }

  // ---------------------------------------------------------------------------
  // strconv.Atoi

  const MinInt64: int := -0x8000_0000_0000_0000
  const MaxInt64: int := 0x7FFF_FFFF_FFFF_FFFF

  /** The digits of a numeral: what follows an optional leading `+` or `-`. */
  function Unsigned(s: string): (d: string)
    ensures |d| <= |s| && d == s[|s| - |d|..]
  {
    if s != [] && (s[0] == '-' || s[0] == '+') then s[1..] else s
  }

  /** An optional sign followed by at least one decimal digit, and nothing else. */
  predicate Numeral(s: string)
  {
    Unsigned(s) != [] && AllDigits(Unsigned(s))
  }

  /** The value a numeral denotes: its digits' value, negated after a `-`. */
  function NumeralValue(s: string): int
    requires Numeral(s)
  {
    if s[0] == '-' then -(DecValue(Unsigned(s)) as int) else DecValue(Unsigned(s))
  }

  /**
   * Go's `strconv.Atoi` on a 64-bit platform: an optional `+` or `-`, then at least one
   * decimal digit and nothing else, with a value that fits in 64 bits; `None` is the error.
   */
  function Atoi(s: string): (r: Option<int>)
    ensures r.Some? ==> MinInt64 <= r.value <= MaxInt64
    ensures r.Some? ==> s != [] && AllDigits(s[1..])
  {
    if s == [] then None
    else
      var signed := s[0] == '-' || s[0] == '+';
      var body := if signed then s[1..] else s;
      if body == [] || !AllDigits(body) then None
      else
        var d: int := DecValue(body);
        var v := if s[0] == '-' then -d else d;
        if MinInt64 <= v <= MaxInt64 then Some(v) else None
  }

  /**
   * `Atoi` accepts exactly the numerals whose value fits in 64 bits, and returns that
   * value.
   */
  lemma AtoiNumeral(s: string)
    ensures Atoi(s).Some? <==> Numeral(s) && MinInt64 <= NumeralValue(s) <= MaxInt64
    ensures Atoi(s).Some? ==> Atoi(s).value == NumeralValue(s)
  {
  }

  /** A `+` sign is accepted and changes nothing: `+digits` reads as the digits' value. */
  lemma AtoiPlus(digits: string)
    requires digits != [] && AllDigits(digits) && DecValue(digits) <= MaxInt64
    ensures Atoi("+" + digits) == Some(DecValue(digits))
    ensures Atoi("+" + digits) == Atoi(digits)
  {
    var s := "+" + digits;
    assert s[0] == '+';
    assert s[1..] == digits;
    AtoiDigits(digits);
  }

  /** An unsigned run of digits reads as its value, when that fits in 64 bits. */
  lemma AtoiDigits(digits: string)
    requires digits != [] && AllDigits(digits) && DecValue(digits) <= MaxInt64
    ensures Atoi(digits) == Some(DecValue(digits))
  {
    assert IsDigit(digits[0]);
  }

  /** A minus sign and a run of digits read as the negated value, when that fits in 64 bits. */
  lemma AtoiNegated(digits: string)
    requires digits != [] && AllDigits(digits) && MinInt64 <= -(DecValue(digits) as int)
    ensures Atoi("-" + digits) == Some(-(DecValue(digits) as int))
  {
    var s := "-" + digits;
    assert s[0] == '-';
    assert s[1..] == digits;
  }

  /** `Atoi` reads back every 64-bit integer that `Itoa` writes. */
  lemma AtoiItoa(n: int)
    requires MinInt64 <= n <= MaxInt64
    ensures Atoi(Itoa(n)) == Some(n)
  {
    var m: nat := if n < 0 then -n else n;
    var k := NumDigits(m);
    var digits := Fixed(m, k);
    assert Pad(m, 1) == digits;
    FixedValue(m, k);
    if n < 0 {
      assert Itoa(n) == "-" + digits;
      AtoiNegated(digits);
    } else {
      assert Itoa(n) == digits;
      AtoiDigits(digits);
    }
  }
}
