/**
 * The JavaScript string built-ins the dashboard relies on, stated over
 * `string` (a sequence of Unicode scalar values): `trim`, `toLowerCase`,
 * `toUpperCase`, `includes`, `split` with a one-character separator,
 * `replace(/c/g, '')`, `substring`, `parseInt` without a radix, and the
 * decimal rendering of a natural number used in template literals.
 */
module Text {
  import opened Wrappers

  // ---------------------------------------------------------------------
  // Whitespace and trimming
  // ---------------------------------------------------------------------

  /** ECMAScript WhiteSpace and LineTerminator code points: what `trim` removes. */
  predicate IsSpace(c: char) {
    var n := c as int;
    || 9 <= n <= 13 || n == 0x20 || n == 0xA0 || n == 0x1680 || 0x2000 <= n <= 0x200A
    || n == 0x2028 || n == 0x2029 || n == 0x202F || n == 0x205F || n == 0x3000 || n == 0xFEFF
  }

  /** The first index at or after `i` whose character is not whitespace, or `|s|` when there is none. */
  function SkipSpaces(s: string, i: nat): (j: nat)
    requires i <= |s|
    ensures i <= j <= |s|
    ensures forall k :: i <= k < j ==> IsSpace(s[k])
    ensures j < |s| ==> !IsSpace(s[j])
    decreases |s| - i
  {
    if i < |s| && IsSpace(s[i]) then SkipSpaces(s, i + 1) else i
  }

  /** Where `s[lo..hi]` ends once its trailing whitespace is cut. */
  function BackSpaces(s: string, lo: nat, hi: nat): (j: nat)
    requires lo <= hi <= |s|
    ensures lo <= j <= hi
    ensures forall k :: j <= k < hi ==> IsSpace(s[k])
    ensures lo < j ==> !IsSpace(s[j - 1])
    decreases hi
  {
    if lo < hi && IsSpace(s[hi - 1]) then BackSpaces(s, lo, hi - 1) else hi
  }

  /** The first non-space position is the only one with whitespace before it and none at it. */
  lemma SkipSpacesAt(s: string, i: nat, j: nat)
    requires i <= j <= |s|
    requires forall k :: i <= k < j ==> IsSpace(s[k])
    requires j < |s| ==> !IsSpace(s[j])
    ensures SkipSpaces(s, i) == j
  {
  }

  /** The end after cutting is the only position with whitespace after it and none just before it. */
  lemma BackSpacesAt(s: string, lo: nat, hi: nat, j: nat)
    requires lo <= j <= hi <= |s|
    requires forall k :: j <= k < hi ==> IsSpace(s[k])
    requires lo < j ==> !IsSpace(s[j - 1])
    ensures BackSpaces(s, lo, hi) == j
  {
  }

  /**
   * `s.trim()`: the result is a contiguous slice of `s`, everything cut away
   * on either side is whitespace, and the result neither starts nor ends
   * with whitespace.
   */
  function Trim(s: string): (r: string)
    ensures var i := SkipSpaces(s, 0);
            i + |r| <= |s| && r == s[i..i + |r|]
            && (forall k :: 0 <= k < i ==> IsSpace(s[k]))
            && (forall k :: i + |r| <= k < |s| ==> IsSpace(s[k]))
    ensures r == [] || (!IsSpace(r[0]) && !IsSpace(r[|r| - 1]))
  {
    var i := SkipSpaces(s, 0);
    s[i..BackSpaces(s, i, |s|)]
  }

  /** A string without surrounding whitespace is its own trim. */
  lemma TrimOfTrimmed(s: string)
    requires s == [] || (!IsSpace(s[0]) && !IsSpace(s[|s| - 1]))
    ensures Trim(s) == s
  {
    SkipSpacesAt(s, 0, 0);
    BackSpacesAt(s, 0, |s|, |s|);
  }

  /** Every character of `s` is whitespace. */
  predicate AllSpace(s: string) {
    forall k :: 0 <= k < |s| ==> IsSpace(s[k])
  }

  /** `s.trim() === ''` holds exactly when `s` is all whitespace. */
  lemma TrimEmptyIffAllSpace(s: string)
    ensures Trim(s) == "" <==> AllSpace(s)
  {
  }

  /** Whitespace around a string that neither starts nor ends with whitespace is exactly what `trim` removes. */
  lemma TrimPadded(before: string, s: string, after: string)
    requires AllSpace(before) && AllSpace(after)
    requires s != [] && !IsSpace(s[0]) && !IsSpace(s[|s| - 1])
    ensures Trim(before + s + after) == s
  {
    var x := before + s + after;
    var i := |before|;
    var j := |before| + |s|;
    assert forall k :: 0 <= k < i ==> x[k] == before[k];
    assert forall k :: j <= k < |x| ==> x[k] == after[k - j];
    assert x[i] == s[0] && x[j - 1] == s[|s| - 1];
    SkipSpacesAt(x, 0, i);
    BackSpacesAt(x, i, |x|, j);
    assert x[i..j] == s;
  }

  /** Leading whitespace before a string that starts with no whitespace is exactly what is skipped. */
  lemma SkipPadding(before: string, s: string)
    requires AllSpace(before) && s != [] && !IsSpace(s[0])
    ensures SkipSpaces(before + s, 0) == |before|
    ensures (before + s)[|before|..] == s
  {
    var x := before + s;
    assert forall k :: 0 <= k < |before| ==> x[k] == before[k];
    assert x[|before|] == s[0];
    SkipSpacesAt(x, 0, |before|);
  }

  /** Trimming twice is trimming once. */
  lemma TrimIdempotent(s: string)
    ensures Trim(Trim(s)) == Trim(s)
  {
    TrimOfTrimmed(Trim(s));
  }

  // ---------------------------------------------------------------------
  // Case mapping (ASCII letters)
  // ---------------------------------------------------------------------

  function LowerChar(c: char): char {
    if 'A' <= c <= 'Z' then (c as int + 32) as char else c
  }

  function UpperChar(c: char): char {
    if 'a' <= c <= 'z' then (c as int - 32) as char else c
  }

  /** `s.toLowerCase()` on ASCII letters: same length, letter by letter. */
  function ToLower(s: string): (r: string)
    ensures |r| == |s|
    ensures forall k :: 0 <= k < |s| ==> r[k] == LowerChar(s[k])
  {
    seq(|s|, k requires 0 <= k < |s| => LowerChar(s[k]))
  }

  /** `s.toUpperCase()` on ASCII letters: same length, letter by letter. */
  function ToUpper(s: string): (r: string)
    ensures |r| == |s|
    ensures forall k :: 0 <= k < |s| ==> r[k] == UpperChar(s[k])
    ensures forall k :: 0 <= k < |r| ==> !('a' <= r[k] <= 'z')
  {
    seq(|s|, k requires 0 <= k < |s| => UpperChar(s[k]))
  }

  /** A string with no lower-case letter comes back from lower-casing by upper-casing. */
  lemma UpperOfLower(s: string)
    requires ToUpper(s) == s
    ensures ToUpper(ToLower(s)) == s
  {
    assert forall k :: 0 <= k < |s| ==> !('a' <= s[k] <= 'z') by {
      forall k | 0 <= k < |s| ensures !('a' <= s[k] <= 'z') {
        assert s[k] == ToUpper(s)[k];
      }
    }
  }

  /** A string with no lower-case letter is its own upper case. */
  lemma UpperFixed(s: string)
    requires forall k :: 0 <= k < |s| ==> !('a' <= s[k] <= 'z')
    ensures ToUpper(s) == s
  {
  }

  /** Upper-casing never introduces or removes whitespace, so it commutes with trimming. */
  lemma TrimToUpper(s: string)
    ensures Trim(ToUpper(s)) == ToUpper(Trim(s))
  {
    var u := ToUpper(s);
    assert forall k :: 0 <= k < |s| ==> (IsSpace(u[k]) <==> IsSpace(s[k]));
    var i := SkipSpaces(s, 0);
    var j := BackSpaces(s, i, |s|);
    SkipSpacesAt(u, 0, i);
    BackSpacesAt(u, i, |s|, j);
    assert u[i..j] == ToUpper(s[i..j]);
  }

  // ---------------------------------------------------------------------
  // Searching
  // ---------------------------------------------------------------------

  /** `p` is a prefix of `s`. */
  predicate HasPrefix(s: string, p: string) {
    |p| <= |s| && s[..|p|] == p
  }

  /** `p` occurs in `s` starting at index `i`. */
  predicate OccursAt(s: string, p: string, i: int) {
    0 <= i <= |s| - |p| && s[i..i + |p|] == p
  }

  /** `s.includes(p)`: `p` occurs at some position of `s`. */
  predicate Contains(s: string, p: string) {
    exists i | 0 <= i <= |s| - |p| :: OccursAt(s, p, i)
  }

  /** The index of the first `c` in `s`, or `|s|` when `s` has none. */
  function IndexOf(s: string, c: char): (i: nat)
    ensures i <= |s|
    ensures i < |s| ==> s[i] == c
    ensures forall k :: 0 <= k < i ==> s[k] != c
  {
    if |s| == 0 then 0
    else if s[0] == c then 0
    else 1 + IndexOf(s[1..], c)
  }

  // ---------------------------------------------------------------------
  // Splitting and joining
  // ---------------------------------------------------------------------

  /** `parts.join(c)`. */
  function Join(parts: seq<string>, c: char): string
    requires |parts| >= 1
  {
    if |parts| == 1 then parts[0] else parts[0] + [c] + Join(parts[1..], c)
  }

  /**
   * `s.split(c)` for a one-character separator: at least one part, no part
   * contains the separator, there are two or more parts exactly when `s`
   * contains `c`, and joining the parts back with `c` gives `s`.
   */
  function Split(s: string, c: char): (parts: seq<string>)
    ensures |parts| >= 1
    ensures forall k :: 0 <= k < |parts| ==> c !in parts[k]
    ensures (c in s) <==> |parts| >= 2
    ensures Join(parts, c) == s
    decreases |s|
  {
    var i := IndexOf(s, c);
    if i == |s| then [s]
    else
      var rest := Split(s[i + 1..], c);
      var parts := [s[..i]] + rest;
      assert parts[1..] == rest;
      assert s == s[..i] + [c] + s[i + 1..];
      parts
  }

  /** The first part of a split is everything before the first separator. */
  lemma SplitFirst(s: string, c: char)
    ensures Split(s, c)[0] == s[..IndexOf(s, c)]
  {
  }

  /** After the first separator, the split goes on with the split of the rest. */
  lemma SplitRest(s: string, c: char)
    requires c in s
    ensures var i := IndexOf(s, c);
            Split(s, c)[1..] == Split(s[i + 1..], c)
  {
  }

  /** Splitting a join of separator-free parts gives the parts back. */
  lemma {:induction false} SplitJoin(parts: seq<string>, c: char)
    requires |parts| >= 1
    requires forall k :: 0 <= k < |parts| ==> c !in parts[k]
    ensures Split(Join(parts, c), c) == parts
    decreases |parts|
  {
    var s := Join(parts, c);
    if |parts| == 1 {
      assert c !in s;
      assert IndexOf(s, c) == |s|;
    } else {
      var tail := Join(parts[1..], c);
      assert s == parts[0] + [c] + tail;
      assert s[|parts[0]|] == c;
      assert forall k :: 0 <= k < |parts[0]| ==> s[k] == parts[0][k] && s[k] != c;
      assert IndexOf(s, c) == |parts[0]|;
      assert s[..|parts[0]|] == parts[0];
      assert s[|parts[0]| + 1..] == tail;
      SplitJoin(parts[1..], c);
    }
  }

  /** `s.replace(/c/g, '')`: `s` with every `c` removed, other characters kept in order. */
  function RemoveChar(s: string, c: char): (r: string)
    ensures |r| <= |s|
    ensures c !in r
    ensures forall x :: x != c ==> (x in r <==> x in s)
    ensures c !in s ==> r == s
  {
    if |s| == 0 then []
    else if s[0] == c then RemoveChar(s[1..], c)
    else
      var rest := RemoveChar(s[1..], c);
      assert s == [s[0]] + s[1..];
      [s[0]] + rest
  }

  /**
   * Removing `c` from a concatenation removes it from each part: together with
   * the one-character cases, the kept characters stay in order and keep
   * their multiplicity.
   */
  lemma {:induction false} RemoveCharAppend(a: string, b: string, c: char)
    ensures RemoveChar(a + b, c) == RemoveChar(a, c) + RemoveChar(b, c)
    ensures RemoveChar([c], c) == []
    ensures forall x :: x != c ==> RemoveChar([x], c) == [x]
    decreases |a|
  {
    if |a| > 0 {
      assert (a + b)[1..] == a[1..] + b;
      RemoveCharAppend(a[1..], b, c);
    } else {
      assert a + b == b;
    }
    forall x | x != c ensures RemoveChar([x], c) == [x] {
      assert [x][1..] == [];
    }
  }

  /**
   * `s.substring(a, b)`: both bounds are clamped to `[0, |s|]` and
   * swapped when the first exceeds the second.
   */
  function Substring(s: string, a: nat, b: nat): (r: string)
    ensures var lo := if a <= b then a else b;
            var hi := if a <= b then b else a;
            var from := if lo <= |s| then lo else |s|;
            var to := if hi <= |s| then hi else |s|;
            r == s[from..to]
  {
    var lo := if a <= b then a else b;
    var hi := if a <= b then b else a;
    s[(if lo <= |s| then lo else |s|)..(if hi <= |s| then hi else |s|)]
  }

  // ---------------------------------------------------------------------
  // Numbers
  // ---------------------------------------------------------------------

  /** The value of `c` as a digit in bases up to 36, or 36 when it is no digit. */
  function DigitValue(c: char): (v: nat)
    ensures v <= 36
  {
    if '0' <= c <= '9' then c as int - '0' as int
    else if 'a' <= c <= 'z' then c as int - 'a' as int + 10
    else if 'A' <= c <= 'Z' then c as int - 'A' as int + 10
    else 36
  }

  predicate IsDigitIn(c: char, radix: nat) {
    DigitValue(c) < radix
  }

  predicate AllDigitsIn(s: string, radix: nat) {
    forall k :: 0 <= k < |s| ==> IsDigitIn(s[k], radix)
  }

  /** The longest prefix of `s` made of digits of `radix`. */
  function LeadingDigits(s: string, radix: nat): (r: string)
    ensures HasPrefix(s, r)
    ensures AllDigitsIn(r, radix)
    ensures |r| < |s| ==> !IsDigitIn(s[|r|], radix)
  {
    if |s| > 0 && IsDigitIn(s[0], radix) then [s[0]] + LeadingDigits(s[1..], radix) else []
  }

  /** The value of a digit string, most significant digit first. */
  function DigitsValue(ds: string, radix: nat): (v: nat)
    requires AllDigitsIn(ds, radix)
  {
    if |ds| == 0 then 0
    else DigitsValue(ds[..|ds| - 1], radix) * radix + DigitValue(ds[|ds| - 1])
  }

  /** `u` starts with `0x` or `0X`. */
  predicate HexPrefixed(u: string) {
    |u| >= 2 && u[0] == '0' && (u[1] == 'x' || u[1] == 'X')
  }

  /**
   * `parseInt` after the whitespace and the sign: a `0x`/`0X` prefix selects
   * base 16 (base 10 otherwise), and the longest run of digits that follows
   * is the value. `None` stands for `NaN`: no digit at all.
   */
  function ParseUnsigned(u: string): (r: Option<nat>)
    ensures r.Some? ==> exists k :: 0 <= k < |u| && IsDigitIn(u[k], 16)
  {
    var radix := if HexPrefixed(u) then 16 else 10;
    var body := if HexPrefixed(u) then u[2..] else u;
    var ds := LeadingDigits(body, radix);
    if |ds| == 0 then None
    else
      assert IsDigitIn(u[|u| - |body|], 16);
      Some(DigitsValue(ds, radix))
  }

  /** The optional sign `parseInt` reads after the leading whitespace. */
  predicate IsSign(sign: string) {
    sign == "" || sign == "+" || sign == "-"
  }

  /** An unsigned result under a sign: negated exactly for `-`, `NaN` stays `NaN`. */
  function ApplySign(sign: string, r: Option<nat>): Option<int> {
    match r
    case None => None
    case Some(v) => var n: int := v; Some(if sign == "-" then -n else n)
  }

  /**
   * `parseInt(s)` with no radix argument: leading whitespace is skipped, one
   * `+` or `-` sign is read, and the rest is read by `ParseUnsigned`.
   */
  function ParseInt(s: string): (r: Option<int>)
    ensures r.Some? ==> exists k :: 0 <= k < |s| && IsDigitIn(s[k], 16)
  {
    var t := s[SkipSpaces(s, 0)..];
    var signed := |t| > 0 && (t[0] == '-' || t[0] == '+');
    var u := if signed then t[1..] else t;
    var r := ApplySign(if signed && t[0] == '-' then "-" else "", ParseUnsigned(u));
    if r.Some? then
      var k :| 0 <= k < |u| && IsDigitIn(u[k], 16);
      assert s[|s| - |u| + k] == u[k];
      r
    else r
  }

  function DigitChar(d: nat): (c: char)
    requires d < 10
    ensures DigitValue(c) == d
  {
    ('0' as int + d) as char
  }

  /** `${n}` for a natural number: its decimal digits, without leading zeros. */
  function Decimal(n: nat): (r: string)
    ensures |r| >= 1
    ensures AllDigitsIn(r, 10)
    ensures r[0] == '0' ==> n == 0
  {
    if n < 10 then [DigitChar(n)] else Decimal(n / 10) + [DigitChar(n % 10)]
  }

  /** Reading the decimal rendering of `n` gives `n` back. */
  lemma {:induction false} DecimalValue(n: nat)
    ensures DigitsValue(Decimal(n), 10) == n
  {
    if n >= 10 {
      var d := Decimal(n);
      assert d[..|d| - 1] == Decimal(n / 10);
      DecimalValue(n / 10);
    }
  }

  /** Distinct numbers have distinct decimal renderings. */
  lemma DecimalInjective(a: nat, b: nat)
    requires Decimal(a) == Decimal(b)
    ensures a == b
  {
    DecimalValue(a);
    DecimalValue(b);
  }

  /** `parseInt(`${n}`)` is `n`: a count written out in decimal is read back unchanged. */
  lemma ParseIntDecimal(n: nat)
    ensures ParseInt(Decimal(n)) == Some(n)
  {
    var s := Decimal(n);
    assert "" + "" + s + "" == s;
    ParseIntDecimalText("", "", s, "");
    DecimalValue(n);
  }

  lemma {:induction false} LeadingDigitsOfDigits(s: string, radix: nat)
    requires AllDigitsIn(s, radix)
    ensures LeadingDigits(s, radix) == s
  {
    if |s| > 0 {
      LeadingDigitsOfDigits(s[1..], radix);
      assert s == [s[0]] + s[1..];
    }
  }

  /** With no further digit after it, the longest digit prefix of `d + t` is `d`. */
  lemma {:induction false} LeadingDigitsOfPrefix(d: string, t: string, radix: nat)
    requires AllDigitsIn(d, radix)
    requires t == [] || !IsDigitIn(t[0], radix)
    ensures LeadingDigits(d + t, radix) == d
    decreases |d|
  {
    if |d| > 0 {
      assert (d + t)[1..] == d[1..] + t;
      LeadingDigitsOfPrefix(d[1..], t, radix);
      assert d == [d[0]] + d[1..];
    } else {
      assert d + t == t;
    }
  }

  /**
   * Whitespace, then an optional sign, then text that cannot be taken for
   * more whitespace or a second sign: `parseInt` reads the sign and leaves
   * the text to `ParseUnsigned`.
   */
  lemma ParseIntParts(w: string, sign: string, v: string)
    requires AllSpace(w) && IsSign(sign)
    requires sign != "" || v == [] || (!IsSpace(v[0]) && v[0] != '+' && v[0] != '-')
    ensures ParseInt(w + sign + v) == ApplySign(sign, ParseUnsigned(v))
  {
    var x := sign + v;
    assert w + sign + v == w + x;
    if x == [] {
      assert w + x == w;
    } else {
      SkipPadding(w, x);
      if sign == "" {
        assert x == v;
      } else {
        assert x[0] == sign[0] && x[1..] == v;
      }
    }
  }

  /**
   * `parseInt` of whitespace, an optional sign, decimal digits, and a tail
   * that does not continue the number, is the signed value of those digits.
   * A lone `0` followed by `x` or `X` is the hexadecimal prefix instead.
   */
  lemma ParseIntDecimalText(w: string, sign: string, d: string, t: string)
    requires AllSpace(w) && IsSign(sign)
    requires d != [] && AllDigitsIn(d, 10)
    requires t == [] || (!IsDigitIn(t[0], 10) && !(d == "0" && (t[0] == 'x' || t[0] == 'X')))
    ensures ParseInt(w + sign + d + t) == ApplySign(sign, Some(DigitsValue(d, 10)))
  {
    assert w + sign + d + t == w + sign + (d + t);
    assert (d + t)[0] == d[0];
    ParseIntParts(w, sign, d + t);
    assert !HexPrefixed(d + t) by {
      if |d| >= 2 { assert (d + t)[1] == d[1]; }
    }
    LeadingDigitsOfPrefix(d, t, 10);
  }

  /**
   * `parseInt` of whitespace, an optional sign, `0x` or `0X`, hexadecimal
   * digits, and a tail that does not continue them, is their signed value.
   */
  lemma ParseIntHexText(w: string, sign: string, x: char, d: string, t: string)
    requires AllSpace(w) && IsSign(sign) && (x == 'x' || x == 'X')
    requires d != [] && AllDigitsIn(d, 16)
    requires t == [] || !IsDigitIn(t[0], 16)
    ensures ParseInt(w + sign + ['0', x] + d + t) == ApplySign(sign, Some(DigitsValue(d, 16)))
  {
    var v := ['0', x] + d + t;
    assert w + sign + ['0', x] + d + t == w + sign + v;
    ParseIntParts(w, sign, v);
    ParseUnsignedHex(x, d, t);
  }

  lemma ParseUnsignedHex(x: char, d: string, t: string)
    requires (x == 'x' || x == 'X') && AllDigitsIn(d, 16)
    requires t == [] || !IsDigitIn(t[0], 16)
    ensures d != [] ==> ParseUnsigned(['0', x] + d + t) == Some(DigitsValue(d, 16))
  {
    var v := ['0', x] + d + t;
    assert HexPrefixed(v);
    assert v[2..] == d + t;
    LeadingDigitsOfPrefix(d, t, 16);
  }

  /**
   * `parseInt` is `NaN` when the whitespace and the optional sign are followed
   * by anything but a decimal digit (a second sign, a space after the sign,
   * a letter, or nothing).
   */
  lemma ParseIntNaN(w: string, sign: string, t: string)
    requires AllSpace(w) && IsSign(sign)
    requires t == [] || !IsDigitIn(t[0], 10)
    requires sign != "" || t == [] || (!IsSpace(t[0]) && t[0] != '+' && t[0] != '-')
    ensures ParseInt(w + sign + t) == None
  {
    ParseIntParts(w, sign, t);
  }

  /** `parseInt` is `NaN` when a `0x` prefix is followed by no hexadecimal digit. */
  lemma ParseIntHexNaN(w: string, sign: string, x: char, t: string)
    requires AllSpace(w) && IsSign(sign) && (x == 'x' || x == 'X')
    requires t == [] || !IsDigitIn(t[0], 16)
    ensures ParseInt(w + sign + ['0', x] + t) == None
  {
    var v := ['0', x] + t;
    assert w + sign + ['0', x] + t == w + sign + v;
    ParseIntParts(w, sign, v);
    assert HexPrefixed(v) && v[2..] == t;
  }
}
