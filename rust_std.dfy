/** The pieces of Rust's standard library whose exact behaviour the disk
    manager depends on: `u64`, `str::parse::<u64>`, `str::contains`,
    `str::strip_prefix`, `str::lines`, `str::split_ascii_whitespace`,
    `Iterator::find_map`, the ordering of `String` keys in `BTreeMap` and
    `BTreeSet`, and sorted insertion into such a key sequence. */
module RustStd {
  import opened Wrappers

  const U64_LIMIT: int := 0x1_0000_0000_0000_0000

  /** Rust's `u64`. */
  type u64 = x: int | 0 <= x < U64_LIMIT

  // ---------------------------------------------------------------------
  // Prefixes and substrings

  predicate IsPrefix(p: string, s: string) {
    |p| <= |s| && s[..|p|] == p
  }

  /** `s.strip_prefix(p)` */
  function StripPrefix(s: string, p: string): (r: Option<string>)
    ensures r.Some? <==> IsPrefix(p, s)
    ensures r.Some? ==> s == p + r.value
  {
    if IsPrefix(p, s) then Some(s[|p|..]) else None
  }

  /** `s.contains(pat)` for a string pattern. */
  predicate Contains(s: string, pat: string)
    decreases |s|
  {
    IsPrefix(pat, s) || (|s| > 0 && Contains(s[1..], pat))
  }

  lemma {:induction false} ContainsAt(s: string, pat: string, i: nat)
    requires i + |pat| <= |s| && s[i..i + |pat|] == pat
    ensures Contains(s, pat)
    decreases i
  {
    if i > 0 {
      assert s[1..][i - 1..i - 1 + |pat|] == s[i..i + |pat|];
      ContainsAt(s[1..], pat, i - 1);
    }
  }

  /** `pat` occurs in `s` at offset `i`. */
  predicate OccursAt(s: string, pat: string, i: nat) {
    i + |pat| <= |s| && s[i..i + |pat|] == pat
  }

  /** Conversely, a string that contains the pattern has it at some
      offset. */
  lemma {:induction false} ContainsOccurs(s: string, pat: string)
    requires Contains(s, pat)
    ensures exists i: nat :: OccursAt(s, pat, i)
    decreases |s|
  {
    if IsPrefix(pat, s) {
      assert OccursAt(s, pat, 0);
    } else {
      ContainsOccurs(s[1..], pat);
      var i: nat :| OccursAt(s[1..], pat, i);
      assert s[i + 1..i + 1 + |pat|] == s[1..][i..i + |pat|];
      assert OccursAt(s, pat, i + 1);
    }
  }

  // ---------------------------------------------------------------------
  // `Iterator::find_map(|x| x.strip_prefix(p))` over a sequence of strings

  /** `xs[i]` is the first element of `xs` that starts with `p`. */
  predicate FirstPrefixed(xs: seq<string>, p: string, i: nat) {
    i < |xs| && IsPrefix(p, xs[i]) && forall k :: 0 <= k < i ==> !IsPrefix(p, xs[k])
  }

  /** The remainder of the first element that starts with `p`. */
  function FindStripped(xs: seq<string>, p: string): (r: Option<string>)
    ensures r.Some? ==> exists i :: 0 <= i < |xs| && xs[i] == p + r.value &&
                          forall j :: 0 <= j < i ==> !IsPrefix(p, xs[j])
    ensures r.None? <==> forall i :: 0 <= i < |xs| ==> !IsPrefix(p, xs[i])
  {
    if xs == [] then None
    else if IsPrefix(p, xs[0]) then Some(xs[0][|p|..])
    else
      var r := FindStripped(xs[1..], p);
      assert forall i :: 1 <= i < |xs| ==> xs[i] == xs[1..][i - 1];
      r
  }

  /** `find_map` yields the remainder of exactly the first element with
      the prefix. */
  lemma FindStrippedFirst(xs: seq<string>, p: string, v: string)
    ensures FindStripped(xs, p) == Some(v) <==> exists i: nat :: FirstPrefixed(xs, p, i) && xs[i] == p + v
  {
    if exists i: nat :: FirstPrefixed(xs, p, i) && xs[i] == p + v {
      var i: nat :| FirstPrefixed(xs, p, i) && xs[i] == p + v;
      assert !FindStripped(xs, p).None?;
      var r := FindStripped(xs, p);
      var i' :| 0 <= i' < |xs| && xs[i'] == p + r.value && forall j :: 0 <= j < i' ==> !IsPrefix(p, xs[j]);
      assert xs[i'][..|p|] == p;
      assert i' == i;
      assert xs[i][|p|..] == v && xs[i][|p|..] == r.value;
    }
    if FindStripped(xs, p) == Some(v) {
      var i :| 0 <= i < |xs| && xs[i] == p + v && forall j :: 0 <= j < i ==> !IsPrefix(p, xs[j]);
      assert xs[i][..|p|] == p;
      assert FirstPrefixed(xs, p, i);
    }
  }

  // ---------------------------------------------------------------------
  // `str::parse::<u64>` and its inverse, decimal formatting

  predicate IsDigit(c: char) {
    '0' <= c <= '9'
  }

  predicate AllDigits(s: string) {
    forall i :: 0 <= i < |s| ==> IsDigit(s[i])
  }

  function DigitValue(c: char): nat
    requires IsDigit(c)
  {
    c as int - '0' as int
  }

  /** The value of a string of decimal digits, most significant first. */
  function DigitsValue(ds: string): nat
    requires AllDigits(ds)
  {
    if ds == [] then 0
    else DigitsValue(ds[..|ds| - 1]) * 10 + DigitValue(ds[|ds| - 1])
  }

  /** `s.parse::<u64>().ok()`: an optional leading `+`, then at least one
      decimal digit and nothing else; values of 2^64 and above overflow. */
  function ParseU64(s: string): (r: Option<u64>)
    ensures r.Some? <==> (|s| > 0 && AllDigits(s) && DigitsValue(s) < U64_LIMIT) ||
                         (|s| > 1 && s[0] == '+' && AllDigits(s[1..]) && DigitsValue(s[1..]) < U64_LIMIT)
    ensures r.Some? ==> r.value == if s[0] == '+' then DigitsValue(s[1..]) else DigitsValue(s)
  {
    var digits := if |s| > 0 && s[0] == '+' then s[1..] else s;
    if |digits| == 0 || !AllDigits(digits) then None
    else if DigitsValue(digits) < U64_LIMIT then Some(DigitsValue(digits))
    else None
  }

  function DigitChar(d: nat): (c: char)
    requires d < 10
    ensures IsDigit(c) && DigitValue(c) == d
  {
    ('0' as int + d) as char
  }

  /** `n.to_string()` */
  function ToDecimal(n: nat): (r: string)
    ensures |r| > 0 && AllDigits(r)
  {
    if n < 10 then [DigitChar(n)] else ToDecimal(n / 10) + [DigitChar(n % 10)]
  }

  lemma {:induction false} ToDecimalValue(n: nat)
    ensures DigitsValue(ToDecimal(n)) == n
  {
    if n >= 10 {
      var r := ToDecimal(n);
      assert r[..|r| - 1] == ToDecimal(n / 10);
      ToDecimalValue(n / 10);
    }
  }

  /** Parsing inverts formatting on every `u64`. */
  lemma ParseToDecimal(n: u64)
    ensures ParseU64(ToDecimal(n)) == Some(n)
  {
    ToDecimalValue(n);
    assert ToDecimal(n)[0] != '+';
  }

  // ---------------------------------------------------------------------
  // `str::lines` and `str::split_ascii_whitespace`

  /** Index of the first `c` in `s`, or `|s|` when there is none. */
  function IndexOf(s: string, c: char): (r: nat)
    ensures r <= |s| && (r < |s| ==> s[r] == c)
    ensures forall i :: 0 <= i < r ==> s[i] != c
  {
    if s == [] then 0
    else if s[0] == c then 0
    else 1 + IndexOf(s[1..], c)
  }

  function StripCr(line: string): string {
    if |line| > 0 && line[|line| - 1] == '\r' then line[..|line| - 1] else line
  }

  /** `s.lines()`: split after every `\n`, drop the `\n` and a `\r` right
      before it; a final line without `\n` is kept as it is, and a trailing
      `\n` does not start an empty line. */
  function Lines(s: string): (r: seq<string>)
    ensures forall i :: 0 <= i < |r| ==> '\n' !in r[i]
    decreases |s|
  {
    if s == [] then []
    else
      var i := IndexOf(s, '\n');
      if i == |s| then [s]
      else [StripCr(s[..i])] + Lines(s[i + 1..])
  }

  /** A line ended by a line feed is the first line, with a `\r` right
      before the line feed dropped; the lines after it follow. */
  lemma LinesCons(a: string, b: string)
    requires '\n' !in a
    ensures Lines(a + "\n" + b) == [StripCr(a)] + Lines(b)
  {
    var s := a + "\n" + b;
    assert s[|a|] == '\n';
    assert forall j :: 0 <= j < |a| ==> s[j] == a[j];
    assert IndexOf(s, '\n') == |a|;
    assert s[..|a|] == a;
    assert s[|a| + 1..] == b;
  }

  /** Text without a line feed is one line, kept as it is (a final `\r`
      without a line feed is not a line ending), or no line when empty. */
  lemma LinesLast(s: string)
    requires '\n' !in s
    ensures Lines(s) == if s == [] then [] else [s]
  {
    if s != [] {
      assert IndexOf(s, '\n') == |s|;
    }
  }

  /** `u8::is_ascii_whitespace`: space, tab, line feed, form feed and
      carriage return (not the vertical tab). */
  predicate IsAsciiWhitespace(c: char) {
    c == ' ' || c == '\t' || c == '\n' || c as int == 12 || c == '\r'
  }

  predicate NoWhitespace(s: string) {
    forall i :: 0 <= i < |s| ==> !IsAsciiWhitespace(s[i])
  }

  /** Length of the leading run of non-whitespace characters. */
  function WordLength(s: string): (n: nat)
    ensures n <= |s| && NoWhitespace(s[..n])
    ensures n < |s| ==> IsAsciiWhitespace(s[n])
  {
    if s == [] || IsAsciiWhitespace(s[0]) then 0 else 1 + WordLength(s[1..])
  }

  /** `s.split_ascii_whitespace()`: the maximal non-empty runs without
      ASCII whitespace, in order. */
  function Tokens(s: string): (r: seq<string>)
    ensures forall i :: 0 <= i < |r| ==> |r[i]| > 0 && NoWhitespace(r[i])
    decreases |s|
  {
    if s == [] then []
    else if IsAsciiWhitespace(s[0]) then Tokens(s[1..])
    else
      var n := WordLength(s);
      [s[..n]] + Tokens(s[n..])
  }

  /** A word followed by whitespace or by nothing is one word long. */
  lemma {:induction false} WordLengthOf(w: string, t: string)
    requires NoWhitespace(w) && (t == [] || IsAsciiWhitespace(t[0]))
    ensures WordLength(w + t) == |w|
  {
    if w == [] {
      assert w + t == t;
    } else {
      assert (w + t)[0] == w[0];
      assert (w + t)[1..] == w[1..] + t;
      WordLengthOf(w[1..], t);
    }
  }

  /** A single word is one token. */
  lemma TokensWord(w: string)
    requires |w| > 0 && NoWhitespace(w)
    ensures Tokens(w) == [w]
  {
    WordLengthOf(w, []);
    assert w + [] == w;
    assert w[..|w|] == w && w[|w|..] == [];
  }

  /** A word, one whitespace character and the rest: the word is the first
      token, and the tokens of the rest follow. */
  lemma TokensCons(w: string, sep: char, rest: string)
    requires |w| > 0 && NoWhitespace(w) && IsAsciiWhitespace(sep)
    ensures Tokens(w + [sep] + rest) == [w] + Tokens(rest)
  {
    var s := w + [sep] + rest;
    assert s == w + ([sep] + rest);
    WordLengthOf(w, [sep] + rest);
    assert s[..|w|] == w;
    assert s[|w|..] == [sep] + rest;
    assert ([sep] + rest)[1..] == rest;
  }

  // ---------------------------------------------------------------------
  // The order of `String` keys: byte-wise lexicographic, which for valid
  // UTF-8 coincides with lexicographic order on code points.

  predicate Less(a: string, b: string)
    decreases |a|
  {
    if |a| == 0 then |b| > 0
    else |b| > 0 && (a[0] < b[0] || (a[0] == b[0] && Less(a[1..], b[1..])))
  }

  lemma {:induction false} LessIrreflexive(a: string)
    ensures !Less(a, a)
    decreases |a|
  {
    if |a| > 0 {
      LessIrreflexive(a[1..]);
    }
  }

  lemma {:induction false} LessTransitive(a: string, b: string, c: string)
    requires Less(a, b) && Less(b, c)
    ensures Less(a, c)
    decreases |a|
  {
    if |a| > 0 && a[0] == b[0] && b[0] == c[0] {
      LessTransitive(a[1..], b[1..], c[1..]);
    }
  }

  lemma LessAsymmetric(a: string, b: string)
    requires Less(a, b)
    ensures !Less(b, a)
  {
    if Less(b, a) {
      LessTransitive(a, b, a);
      LessIrreflexive(a);
    }
  }

  lemma {:induction false} LessTotal(a: string, b: string)
    requires a != b
    ensures Less(a, b) || Less(b, a)
    decreases |a|
  {
    if |a| > 0 && |b| > 0 && a[0] == b[0] {
      assert a == [a[0]] + a[1..] && b == [b[0]] + b[1..];
      LessTotal(a[1..], b[1..]);
    }
  }

  // ---------------------------------------------------------------------
  // Strictly sorted key sequences: the iteration order of BTreeMap/BTreeSet

  ghost predicate SortedStrict(xs: seq<string>) {
    forall i, j :: 0 <= i < j < |xs| ==> Less(xs[i], xs[j])
  }

  /** Insertion of a key into a sorted key sequence, as `BTreeSet::insert`
      and `BTreeMap::insert` do to their key order. */
  function InsertSorted(xs: seq<string>, x: string): (r: seq<string>)
    requires SortedStrict(xs)
    ensures SortedStrict(r)
    ensures forall y :: y in r <==> y in xs || y == x
  {
    if xs == [] then [x]
    else if x == xs[0] then xs
    else if Less(x, xs[0]) then
      assert forall j :: 0 <= j < |xs| ==> Less(x, xs[j]) by {
        forall j | 0 < j < |xs| { LessTransitive(x, xs[0], xs[j]); }
      }
      [x] + xs
    else
      LessTotal(x, xs[0]);
      var rest := InsertSorted(xs[1..], x);
      assert forall y :: y in rest ==> Less(xs[0], y) by {
        forall y | y in rest ensures Less(xs[0], y) {
          if y != x {
            var j :| 1 <= j < |xs| && xs[j] == y;
          }
        }
      }
      [xs[0]] + rest
  }

  /** In a sorted key sequence, a key that orders before `xs[i]` sits at an
      index before `i`. */
  lemma SortedBefore(xs: seq<string>, i: nat, k: string)
    requires SortedStrict(xs) && i < |xs| && k in xs && Less(k, xs[i])
    ensures exists j :: 0 <= j < i && xs[j] == k
  {
    var j :| 0 <= j < |xs| && xs[j] == k;
    if j == i {
      LessIrreflexive(k);
    } else if j > i {
      LessAsymmetric(xs[i], xs[j]);
    }
  }
}
