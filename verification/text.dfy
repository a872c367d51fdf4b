/**
 * The handful of JavaScript string operations the pages rely on, written out
 * over `seq<char>`: `toLowerCase` (ASCII letters only), `includes`, `trim`,
 * `split(sep)[k]` and `Number.parseInt`.
 */
module Text {
  import opened Wrappers

  // ---------------------------------------------------------------------------
  // Lower-casing
  // ---------------------------------------------------------------------------

  function LowerChar(c: char): char {
    if 'A' <= c <= 'Z' then (c as int + 32) as char else c
  }

  /** `toLowerCase`, restricted to the ASCII letters. */
  function Lower(s: string): (r: string)
    ensures |r| == |s|
    ensures forall i :: 0 <= i < |s| ==> r[i] == LowerChar(s[i])
    ensures forall i :: 0 <= i < |s| && 'A' <= s[i] <= 'Z' ==> 'a' <= r[i] <= 'z' && r[i] as int == s[i] as int + 32
    ensures forall i :: 0 <= i < |s| && !('A' <= s[i] <= 'Z') ==> r[i] == s[i]
  {
    seq(|s|, i requires 0 <= i < |s| => LowerChar(s[i]))
  }

  /** Lowering twice is lowering once, and lower-case text is left alone. */
  lemma LowerIdempotent(s: string)
    ensures Lower(Lower(s)) == Lower(s)
    ensures forall i :: 0 <= i < |s| ==> !('A' <= Lower(s)[i] <= 'Z')
  {
  }

  // ---------------------------------------------------------------------------
  // Substring search
  // ---------------------------------------------------------------------------

  /** `t` occurs in `s` starting at position `i`. */
  predicate IsInfixAt(s: string, t: string, i: nat) {
    i + |t| <= |s| && s[i..i + |t|] == t
  }

  /** `s.includes(t)`. */
  predicate Contains(s: string, t: string) {
    exists i :: 0 <= i <= |s| - |t| && IsInfixAt(s, t, i)
  }

  /** The first position at or after `from` where `t` occurs in `s`. */
  function FindFrom(s: string, t: string, from: nat): (r: Option<nat>)
    decreases |s| - from
    ensures r.Some? ==> from <= r.value && IsInfixAt(s, t, r.value)
    ensures r.Some? ==> forall k :: from <= k < r.value ==> !IsInfixAt(s, t, k)
    ensures r.None? ==> forall k :: from <= k ==> !IsInfixAt(s, t, k)
  {
    if from + |t| > |s| then None
    else if IsInfixAt(s, t, from) then Some(from)
    else FindFrom(s, t, from + 1)
  }

  /** Searching from the start finds something exactly when `t` occurs. */
  lemma FindFromStartIffContains(s: string, t: string)
    ensures FindFrom(s, t, 0).Some? <==> Contains(s, t)
  {
    if FindFrom(s, t, 0).Some? {
      var k := FindFrom(s, t, 0).value;
      assert 0 <= k <= |s| - |t| && IsInfixAt(s, t, k);
    }
  }

  /** Every string contains the empty string and itself. */
  lemma ContainsTrivial(s: string)
    ensures Contains(s, "")
    ensures Contains(s, s)
  {
    assert IsInfixAt(s, "", 0);
    assert IsInfixAt(s, s, 0);
  }

  // ---------------------------------------------------------------------------
  // Splitting
  // ---------------------------------------------------------------------------

  /** `s.split(String.fromCharCode(c))[0]`: the text before the first `c`. */
  function Before(s: string, c: char): (r: string)
    ensures |r| <= |s| && r == s[..|r|]
    ensures c !in r
    ensures |r| < |s| ==> s[|r|] == c
  {
    if |s| == 0 then ""
    else if s[0] == c then ""
    else [s[0]] + Before(s[1..], c)
  }

  /** Text without `c` is kept whole. */
  lemma BeforeAbsent(s: string, c: char)
    requires c !in s
    ensures Before(s, c) == s
  {
  }

  /** A slice of a slice is a slice of the whole. */
  lemma SliceOfSlice(s: string, a: nat, b: nat, c: nat, d: nat)
    requires a <= b <= |s| && c <= d <= b - a
    ensures s[a..b][c..d] == s[a + c..a + d]
  {
    assert forall j :: 0 <= j < d - c ==> s[a..b][c..d][j] == s[a + c + j];
  }

  /**
   * `sep` occurs first at `i`, and `part` runs from the end of that
   * occurrence up to the next occurrence of `sep` or to the end of `s`.
   */
  predicate SplitsAt(s: string, sep: string, i: nat, part: string) {
    && IsInfixAt(s, sep, i)
    && (forall k: nat :: k < i ==> !IsInfixAt(s, sep, k))
    && IsInfixAt(s, part, i + |sep|)
    && (forall k: nat :: i + |sep| <= k < i + |sep| + |part| ==> !IsInfixAt(s, sep, k))
    && (i + |sep| + |part| == |s| || IsInfixAt(s, sep, i + |sep| + |part|))
  }

  /**
   * `s.split(sep)[1]` for a non-empty separator: the text between the first
   * occurrence of `sep` and the next one (or the end), and `None` when the
   * split yields a single part.
   */
  function SecondPart(s: string, sep: string): (r: Option<string>)
    requires |sep| > 0
    ensures r.None? <==> !Contains(s, sep)
    ensures r.Some? ==> !Contains(r.value, sep)
    ensures r.Some? ==> exists i: nat :: IsInfixAt(s, sep, i) && IsInfixAt(s, r.value, i + |sep|)
    ensures r.Some? ==> exists i: nat :: SplitsAt(s, sep, i, r.value)
  {
    FindFromStartIffContains(s, sep);
    match FindFrom(s, sep, 0)
    case None => None
    case Some(i) =>
      var start: nat := i + |sep|;
      var end := match FindFrom(s, sep, start)
        case None => |s|
        case Some(j) => j;
      SplitFacts(s, sep, i, end);
      Some(s[start..end])
  }

  /** The text between the first `sep`, at `i`, and the next one, at `end`, splits `s`. */
  lemma SplitFacts(s: string, sep: string, i: nat, end: nat)
    requires |sep| > 0 && IsInfixAt(s, sep, i)
    requires forall k: nat :: k < i ==> !IsInfixAt(s, sep, k)
    requires i + |sep| <= end <= |s|
    requires forall k: nat :: i + |sep| <= k < end ==> !IsInfixAt(s, sep, k)
    requires end == |s| || IsInfixAt(s, sep, end)
    ensures SplitsAt(s, sep, i, s[i + |sep|..end])
    ensures IsInfixAt(s, s[i + |sep|..end], i + |sep|)
    ensures !Contains(s[i + |sep|..end], sep)
  {
    var start := i + |sep|;
    var part := s[start..end];
    assert IsInfixAt(s, part, start);
    forall k | 0 <= k <= |part| - |sep|
      ensures !IsInfixAt(part, sep, k)
    {
      SliceOfSlice(s, start, end, k, k + |sep|);
      assert !IsInfixAt(s, sep, start + k);
    }
  }

  /**
   * When `sep` occurs first at `i` and never again after that occurrence,
   * the second part is the whole rest of the text.
   */
  lemma SecondPartOfSingle(s: string, sep: string, i: nat)
    requires |sep| > 0 && IsInfixAt(s, sep, i)
    requires forall k: nat :: k < i ==> !IsInfixAt(s, sep, k)
    requires forall k: nat :: i + |sep| <= k ==> !IsInfixAt(s, sep, k)
    ensures SecondPart(s, sep) == Some(s[i + |sep|..])
  {
    FindFromStartIffContains(s, sep);
    var first := FindFrom(s, sep, 0);
    assert first.Some?;
    assert first.value >= i;
    assert first.value == i;
    assert FindFrom(s, sep, i + |sep|).None?;
    assert s[i + |sep|..|s|] == s[i + |sep|..];
  }

  // ---------------------------------------------------------------------------
  // Trimming
  // ---------------------------------------------------------------------------

  /** The WhiteSpace and LineTerminator code points `trim` and `parseInt` skip. */
  predicate IsSpace(c: char) {
    || c == '\t' || c == '\n' || c == '\U{000B}' || c == '\U{000C}' || c == '\r'
    || c == ' ' || c == '\U{00A0}' || c == '\U{1680}'
    || ('\U{2000}' <= c <= '\U{200A}')
    || c == '\U{2028}' || c == '\U{2029}' || c == '\U{202F}' || c == '\U{205F}'
    || c == '\U{3000}' || c == '\U{FEFF}'
  }

  predicate AllSpace(s: string) {
    forall i :: 0 <= i < |s| ==> IsSpace(s[i])
  }

  /** `trimStart`: drops the leading white space. */
  function TrimStart(s: string): (r: string)
    ensures |r| <= |s| && r == s[|s| - |r|..]
    ensures AllSpace(s[..|s| - |r|])
    ensures |r| > 0 ==> !IsSpace(r[0])
  {
    if |s| > 0 && IsSpace(s[0]) then TrimStart(s[1..]) else s
  }

  /** `trimEnd`: drops the trailing white space. */
  function TrimEnd(s: string): (r: string)
    ensures |r| <= |s| && r == s[..|r|]
    ensures AllSpace(s[|r|..])
    ensures |r| > 0 ==> !IsSpace(r[|r| - 1])
  {
    if |s| > 0 && IsSpace(s[|s| - 1]) then TrimEnd(s[..|s| - 1]) else s
  }

  /** `r` sits at `i` in `s` with only white space around it. */
  predicate TrimmedAt(s: string, r: string, i: nat) {
    IsInfixAt(s, r, i) && AllSpace(s[..i]) && AllSpace(s[i + |r|..])
  }

  /** Text that is white space up to `i` and from `i` on is white space. */
  lemma AllSpaceJoin(s: string, i: nat)
    requires i <= |s| && AllSpace(s[..i]) && AllSpace(s[i..])
    ensures AllSpace(s)
  {
    forall j | 0 <= j < |s| ensures IsSpace(s[j]) {
      if j < i {
        assert s[..i][j] == s[j];
      } else {
        assert s[i..][j - i] == s[j];
      }
    }
  }

  lemma TrimPieces(s: string)
    ensures TrimmedAt(s, TrimEnd(TrimStart(s)), |s| - |TrimStart(s)|)
  {
    var t := TrimStart(s);
    var r := TrimEnd(t);
    SuffixPieces(s, t, r);
  }

  /** A prefix `r` of a suffix `t` of `s` sits in `s`, followed by the rest of `t`. */
  lemma SuffixPieces(s: string, t: string, r: string)
    requires |t| <= |s| && t == s[|s| - |t|..]
    requires |r| <= |t| && r == t[..|r|]
    requires AllSpace(s[..|s| - |t|]) && AllSpace(t[|r|..])
    ensures TrimmedAt(s, r, |s| - |t|)
  {
    var i := |s| - |t|;
    forall j | 0 <= j < |r| ensures s[i..i + |r|][j] == r[j] {
      assert s[i + j] == t[j];
    }
    var tail := s[i + |r|..];
    forall j | 0 <= j < |tail| ensures IsSpace(tail[j]) {
      assert tail[j] == t[|r|..][j];
    }
  }

  /** `trim`: nothing is left exactly when the input is all white space. */
  function Trim(s: string): (r: string)
    ensures r == [] <==> AllSpace(s)
    ensures |r| > 0 ==> !IsSpace(r[0]) && !IsSpace(r[|r| - 1])
    ensures exists i: nat :: TrimmedAt(s, r, i)
  {
    TrimPieces(s);
    TrimEmptyIff(s);
    TrimEnds(s);
    TrimEnd(TrimStart(s))
  }

  /** Trimming from both ends leaves nothing exactly when the text is all white space. */
  lemma TrimEmptyIff(s: string)
    ensures TrimEnd(TrimStart(s)) == [] <==> AllSpace(s)
  {
    var t := TrimStart(s);
    var r := TrimEnd(t);
    var i := |s| - |t|;
    if r == [] {
      assert s[i..] == t == t[|r|..];
      AllSpaceJoin(s, i);
    } else {
      assert r[0] == t[0] == s[i];
      assert !IsSpace(s[i]);
    }
  }

  /** What is left after trimming from both ends starts and ends with a non-space. */
  lemma TrimEnds(s: string)
    ensures var r := TrimEnd(TrimStart(s));
      |r| > 0 ==> !IsSpace(r[0]) && !IsSpace(r[|r| - 1])
  {
    var t := TrimStart(s);
    var r := TrimEnd(t);
    if |r| > 0 {
      assert r[0] == t[0];
    }
  }

  /** Trimming twice is trimming once. */
  lemma TrimIdempotent(s: string)
    ensures Trim(Trim(s)) == Trim(s)
  {
    var r := Trim(s);
    if |r| > 0 {
      assert TrimStart(r) == r;
      assert TrimEnd(r) == r;
    }
  }

  // ---------------------------------------------------------------------------
  // Number.parseInt
  // ---------------------------------------------------------------------------

  /** The digit value of `c` in any radix up to 36; 36 for a non-digit. */
  function DigitOf(c: char): (d: nat)
    ensures d <= 36
  {
    if '0' <= c <= '9' then c as int - '0' as int
    else if 'a' <= c <= 'z' then c as int - 'a' as int + 10
    else if 'A' <= c <= 'Z' then c as int - 'A' as int + 10
    else 36
  }

  predicate IsDigitIn(c: char, radix: nat) {
    DigitOf(c) < radix
  }

  /** The length of the longest prefix of `s` made of digits of `radix`. */
  function DigitRun(s: string, radix: nat): (n: nat)
    ensures n <= |s|
    ensures forall i :: 0 <= i < n ==> IsDigitIn(s[i], radix)
    ensures n < |s| ==> !IsDigitIn(s[n], radix)
  {
    if |s| > 0 && IsDigitIn(s[0], radix) then 1 + DigitRun(s[1..], radix) else 0
  }

  lemma MulNonNegative(a: nat, b: nat)
    ensures a * b >= 0
  {
  }

  /** The value of a run of digits, most significant first. */
  function DigitsValue(s: string, radix: nat): nat
    requires forall i :: 0 <= i < |s| ==> IsDigitIn(s[i], radix)
  {
    if |s| == 0 then 0
    else
      var init := s[..|s| - 1];
      assert forall i :: 0 <= i < |init| ==> init[i] == s[i];
      var high := DigitsValue(init, radix);
      MulNonNegative(high, radix);
      high * radix + DigitOf(s[|s| - 1])
  }

  /** A `0x` or `0X` prefix, which switches `parseInt` to radix 16. */
  predicate HexPrefixed(u: string) {
    |u| >= 2 && u[0] == '0' && (u[1] == 'x' || u[1] == 'X')
  }

  /**
   * No digit where the magnitude must start: after a hexadecimal prefix no
   * hexadecimal digit follows it, and otherwise the text does not start with
   * a decimal digit.
   */
  predicate NoLeadingDigit(u: string) {
    if HexPrefixed(u) then |u| == 2 || !IsDigitIn(u[2], 16)
    else |u| == 0 || !IsDigitIn(u[0], 10)
  }

  predicate HasSign(t: string) {
    |t| > 0 && (t[0] == '-' || t[0] == '+')
  }

  /** The text after one leading sign, if there is one. */
  function Unsigned(t: string): (u: string)
    ensures HasSign(t) ==> u == t[1..]
    ensures !HasSign(t) ==> u == t
  {
    if HasSign(t) then t[1..] else t
  }

  /**
   * The digits after the sign: a `0x`/`0X` prefix selects radix 16, and the
   * longest run of digits that follows is the value; no digit at all is NaN,
   * written `None`.
   */
  function ParseMagnitude(u: string): (r: Option<nat>)
    ensures r.None? <==> NoLeadingDigit(u)
  {
    var hex := HexPrefixed(u);
    var radix := if hex then 16 else 10;
    var body := if hex then u[2..] else u;
    var n := DigitRun(body, radix);
    if n == 0 then None else Some(DigitsValue(body[..n], radix))
  }

  /** The magnitude `m`, negated when `t` starts with a minus sign. */
  function Signed(t: string, m: nat): int {
    if HasSign(t) && t[0] == '-' then 0 - m else m
  }

  /**
   * `Number.parseInt(s)` without a radix argument: leading white space is
   * skipped and one sign is read before the magnitude.
   * (Digits beyond double precision are not rounded here.)
   */
  function ParseInt(s: string): (r: Option<int>)
    ensures r.None? <==> NoLeadingDigit(Unsigned(TrimStart(s)))
    ensures r.Some? && r.value < 0 ==> TrimStart(s)[0] == '-'
    ensures r.Some? && |TrimStart(s)| > 0 && TrimStart(s)[0] == '-' ==> r.value <= 0
  {
    var t := TrimStart(s);
    match ParseMagnitude(Unsigned(t))
    case None => None
    case Some(m) => Some(Signed(t, m))
  }

  /** Blank text parses to NaN. */
  lemma ParseIntBlank(s: string)
    requires AllSpace(s)
    ensures ParseInt(s) == None
  {
  }

  /** The decimal rendering of a natural number, as `String(n)` writes it. */
  function Decimal(n: nat): (r: string)
    ensures |r| > 0
    ensures forall i :: 0 <= i < |r| ==> IsDigitIn(r[i], 10)
  {
    var last := ['0' + (n % 10) as char];
    if n < 10 then last else Decimal(n / 10) + last
  }

  lemma {:induction false} DecimalValue(n: nat)
    ensures DigitsValue(Decimal(n), 10) == n
  {
    var d := Decimal(n);
    if n >= 10 {
      DecimalValue(n / 10);
      assert d[..|d| - 1] == Decimal(n / 10);
    }
  }

  /** Only a lone `0` rendering starts with `0`. */
  lemma DecimalLeadingZero(n: nat)
    ensures |Decimal(n)| >= 2 ==> Decimal(n)[0] != '0' || IsDigitIn(Decimal(n)[1], 10)
  {
  }

  lemma DigitRunOfDecimal(n: nat, rest: string)
    requires |rest| == 0 || !IsDigitIn(rest[0], 10)
    ensures DigitRun(Decimal(n) + rest, 10) == |Decimal(n)|
    ensures (Decimal(n) + rest)[..|Decimal(n)|] == Decimal(n)
  {
  }

  /** The magnitude read from a decimal rendering is the number rendered. */
  lemma MagnitudeOfDecimal(n: nat, rest: string)
    requires |rest| == 0 || !IsDigitIn(rest[0], 10)
    requires n == 0 && |rest| > 0 ==> rest[0] != 'x' && rest[0] != 'X'
    ensures ParseMagnitude(Decimal(n) + rest) == Some(n)
  {
    var d := Decimal(n);
    var u := d + rest;
    assert u[0] == d[0];
    assert !HexPrefixed(u) by {
      if |u| >= 2 && u[0] == '0' {
        if |d| >= 2 {
          DecimalLeadingZero(n);
          assert u[1] == d[1];
        } else {
          assert u[1] == rest[0];
        }
      }
    }
    DigitRunOfDecimal(n, rest);
    DecimalValue(n);
  }

  /** `trimStart` skips a white-space prefix and stops at the first non-space. */
  lemma {:induction false} TrimStartSkips(ws: string, t: string)
    requires AllSpace(ws)
    requires |t| > 0 && !IsSpace(t[0])
    ensures TrimStart(ws + t) == t
    decreases |ws|
  {
    if |ws| > 0 {
      assert (ws + t)[0] == ws[0];
      assert (ws + t)[1..] == ws[1..] + t;
      TrimStartSkips(ws[1..], t);
    } else {
      assert ws + t == t;
    }
  }

  /** `parseInt` negates the magnitude exactly when the sign read is `-`. */
  lemma ParseIntOfMagnitude(s: string, m: nat)
    requires ParseMagnitude(Unsigned(TrimStart(s))) == Some(m)
    ensures ParseInt(s) == Some(Signed(TrimStart(s), m))
  {
  }

  /** The sign in front of a digit is the only one read. */
  lemma UnsignedOfSigned(sign: string, u: string)
    requires sign == "" || sign == "+" || sign == "-"
    requires |u| > 0 && IsDigitIn(u[0], 10)
    ensures Unsigned(sign + u) == u
    ensures HasSign(sign + u) && (sign + u)[0] == '-' <==> sign == "-"
  {
    if sign == "" {
      assert sign + u == u;
    } else {
      assert (sign + u)[1..] == u;
    }
  }

  /**
   * Reading back a decimal rendering, after any white space and an optional
   * sign, yields the signed number, whatever follows it, as long as the next
   * character is not a digit, and (after a lone `0`) not the `x` that would
   * turn the text into a hexadecimal literal.
   */
  lemma ParseIntDecimal(ws: string, sign: string, n: nat, rest: string)
    requires AllSpace(ws)
    requires sign == "" || sign == "+" || sign == "-"
    requires |rest| == 0 || !IsDigitIn(rest[0], 10)
    requires n == 0 && |rest| > 0 ==> rest[0] != 'x' && rest[0] != 'X'
    ensures var value: int := if sign == "-" then 0 - n else n;
      ParseInt(ws + sign + Decimal(n) + rest) == Some(value)
  {
    var s := ws + sign + Decimal(n) + rest;
    var u := Decimal(n) + rest;
    var t := sign + u;
    assert IsDigitIn(u[0], 10) by {
      assert u[0] == Decimal(n)[0];
    }
    assert TrimStart(s) == t by {
      assert s == ws + t;
      assert !IsSpace(t[0]) by {
        if sign == "" {
          assert t[0] == u[0];
        }
      }
      TrimStartSkips(ws, t);
    }
    assert Unsigned(t) == u && (HasSign(t) && t[0] == '-' <==> sign == "-") by {
      UnsignedOfSigned(sign, u);
    }
    assert ParseMagnitude(u) == Some(n) by {
      MagnitudeOfDecimal(n, rest);
    }
    ParseIntOfMagnitude(s, n);
  }
}
