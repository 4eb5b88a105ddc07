/** String operations that nh_claim.py gets from Python's `str`, `int` and `re`:
    decimal rendering and parsing, the first run of digits (`\d+`),
    substring tests (`in`, `endswith`), `ljust` and `"\n".join`. */
module Text {
  import opened Wrappers

  predicate IsDigit(c: char) {
    '0' <= c <= '9'
  }

  predicate AllDigits(s: string) {
    forall i :: 0 <= i < |s| ==> IsDigit(s[i])
  }

  predicate NoDigits(s: string) {
    forall i :: 0 <= i < |s| ==> !IsDigit(s[i])
  }

  function DigitChar(d: nat): (c: char)
    requires d < 10
    ensures IsDigit(c) && c as int - '0' as int == d
  {
    ('0' as int + d) as char
  }

  function DigitValue(c: char): nat
    requires IsDigit(c)
  {
    c as int - '0' as int
  }

  /** Python's `str(n)` for a non-negative integer. */
  function NatToString(n: nat): (s: string)
    ensures |s| > 0 && AllDigits(s)
    decreases n
  {
    if n < 10 then [DigitChar(n)] else NatToString(n / 10) + [DigitChar(n % 10)]
  }

  /** Python's `int(s)` for a string of ASCII digits. */
  function DecimalValue(s: string): nat
    requires AllDigits(s)
  {
    if s == [] then 0 else DecimalValue(s[..|s| - 1]) * 10 + DigitValue(s[|s| - 1])
  }

  /** `int(str(n)) == n`. */
  lemma {:induction false} DecimalRoundTrip(n: nat)
    ensures DecimalValue(NatToString(n)) == n
    decreases n
  {
    if n >= 10 {
      var s := NatToString(n / 10);
      var t := s + [DigitChar(n % 10)];
      assert t[..|t| - 1] == s;
      DecimalRoundTrip(n / 10);
    }
  }

  function Pow10(k: nat): (r: nat)
    ensures r >= 1
  {
    if k == 0 then 1 else 10 * Pow10(k - 1)
  }

  /** `str(n)` has at most `k` digits exactly when `n < 10^k`. */
  lemma {:induction false} DigitCount(n: nat, k: nat)
    requires k >= 1
    ensures |NatToString(n)| <= k <==> n < Pow10(k)
    decreases n
  {
    if n >= 10 {
      assert |NatToString(n)| == |NatToString(n / 10)| + 1;
      if k == 1 {
        assert Pow10(1) == 10;
      } else {
        DigitCount(n / 10, k - 1);
        assert n / 10 < Pow10(k - 1) <==> n < 10 * Pow10(k - 1);
      }
    } else {
      assert Pow10(k) == 10 * Pow10(k - 1);
    }
  }

  /** The cap CPython (3.11 on) puts by default on the decimal digits that
      `int(s)` reads and `str(n)` writes; past it both raise ValueError. */
  const MAX_STR_DIGITS := 4300
  const FORMAT_LIMIT := "Exceeds the limit (4300 digits) for integer string conversion; use sys.set_int_max_str_digits() to increase the limit"

  function ParseLimit(digits: nat): string {
    "Exceeds the limit (4300 digits) for integer string conversion: value has " + NatToString(digits)
      + " digits; use sys.set_int_max_str_digits() to increase the limit"
  }

  /** Python's `int(s)` on a string of ASCII digits, with the digit cap. */
  function ParseInt(s: string): Result<nat>
    requires AllDigits(s)
  {
    if |s| > MAX_STR_DIGITS then Err(ParseLimit(|s|)) else Ok(DecimalValue(s))
  }

  /** Python's `str(n)` (or an f-string field) with the digit cap. */
  function FormatInt(n: nat): Result<string> {
    if |NatToString(n)| > MAX_STR_DIGITS then Err(FORMAT_LIMIT) else Ok(NatToString(n))
  }

  /** `str(n)` succeeds exactly below 10^4300, and whatever it writes `int`
      reads back. */
  lemma FormatParse(n: nat)
    ensures FormatInt(n).Ok? <==> n < Pow10(MAX_STR_DIGITS)
    ensures FormatInt(n).Ok? ==> ParseInt(FormatInt(n).value) == Ok(n)
  {
    DigitCount(n, MAX_STR_DIGITS);
    DecimalRoundTrip(n);
  }

  /** The longest prefix of `s` made of digits. */
  function DigitRun(s: string): (r: string)
    ensures r <= s && AllDigits(r)
    ensures |r| == |s| || !IsDigit(s[|r|])
  {
    if s != [] && IsDigit(s[0]) then [s[0]] + DigitRun(s[1..]) else []
  }

  /** What `re.search(r'\d+', s).group()` finds: the first maximal run of digits,
      or None when `s` holds no digit (the search returns None). */
  function FirstDigitRun(s: string): (r: Option<string>)
    ensures r.None? <==> NoDigits(s)
    ensures r.Some? ==> |r.value| > 0 && AllDigits(r.value)
  {
    if s == [] then None
    else if IsDigit(s[0]) then Some(DigitRun(s))
    else FirstDigitRun(s[1..])
  }

  /** `int(re.search(r'\d+', s).group())`, None where the search finds nothing. */
  function FirstNumber(s: string): Option<nat> {
    match FirstDigitRun(s)
    case None => None
    case Some(d) => Some(DecimalValue(d))
  }

  /** A maximal digit prefix is unique. */
  lemma DigitRunOf(d: string, q: string)
    requires |d| > 0 && AllDigits(d)
    requires q == [] || !IsDigit(q[0])
    ensures DigitRun(d + q) == d
  {
    var s := d + q;
    assert d == s[..|d|];
  }

  /** The digit run found in `p + d + q` is `d` when `p` has no digits and
      `q` does not continue the run. */
  lemma {:induction false} FirstDigitRunOf(p: string, d: string, q: string)
    requires NoDigits(p)
    requires |d| > 0 && AllDigits(d)
    requires q == [] || !IsDigit(q[0])
    ensures FirstDigitRun(p + d + q) == Some(d)
  {
    if p == [] {
      assert p + d + q == d + q;
      DigitRunOf(d, q);
    } else {
      assert (p + d + q)[1..] == p[1..] + d + q;
      FirstDigitRunOf(p[1..], d, q);
    }
  }

  /** A number written by `str` between digit-free text is read back by `\d+`. */
  lemma ReadBack(p: string, n: nat, q: string)
    requires NoDigits(p)
    requires q == [] || !IsDigit(q[0])
    ensures FirstNumber(p + NatToString(n) + q) == Some(n)
  {
    FirstDigitRunOf(p, NatToString(n), q);
    DecimalRoundTrip(n);
  }

  /** Python's `sub in s`. */
  predicate Contains(s: string, sub: string)
    decreases |s|
  {
    if sub <= s then true else if s == [] then false else Contains(s[1..], sub)
  }

  /** `sub` occurs in `s` starting at index `i`. */
  predicate OccursAt(s: string, sub: string, i: int) {
    0 <= i <= |s| - |sub| && s[i..i + |sub|] == sub
  }

  /** `Contains` agrees with "`sub` occurs at some index of `s`". */
  lemma {:induction false} ContainsIff(s: string, sub: string)
    ensures Contains(s, sub) <==> exists i :: OccursAt(s, sub, i)
    decreases |s|
  {
    if sub <= s {
      assert OccursAt(s, sub, 0);
    } else if s == [] {
    } else {
      ContainsIff(s[1..], sub);
      if exists i :: OccursAt(s, sub, i) {
        var i :| OccursAt(s, sub, i);
        assert i != 0;
        assert OccursAt(s[1..], sub, i - 1);
      }
      if exists j :: OccursAt(s[1..], sub, j) {
        var j :| OccursAt(s[1..], sub, j);
        assert s[1..][j..j + |sub|] == s[j + 1..j + 1 + |sub|];
        assert OccursAt(s, sub, j + 1);
      }
    }
  }

  /** Python's `s.endswith(suffix)`. */
  predicate EndsWith(s: string, suffix: string) {
    |suffix| <= |s| && s[|s| - |suffix|..] == suffix
  }

  lemma EndsWithIff(s: string, suffix: string)
    ensures EndsWith(s, suffix) <==> exists p :: s == p + suffix
  {
    if EndsWith(s, suffix) {
      assert s == s[..|s| - |suffix|] + suffix;
    }
    if exists p :: s == p + suffix {
      var p :| s == p + suffix;
      assert s[|s| - |suffix|..] == suffix;
    }
  }

  lemma EndsWithAppend(p: string, t: string, suffix: string)
    requires |suffix| <= |t|
    ensures EndsWith(p + t, suffix) <==> EndsWith(t, suffix)
  {
  }

  function Spaces(n: nat): (r: string)
    ensures |r| == n && forall i :: 0 <= i < n ==> r[i] == ' '
  {
    if n == 0 then "" else " " + Spaces(n - 1)
  }

  /** Python's `s.ljust(width)`: pad with spaces, never truncate. */
  function LJust(s: string, width: nat): (r: string)
    ensures s <= r
    ensures |r| == if |s| < width then width else |s|
    ensures forall i :: |s| <= i < |r| ==> r[i] == ' '
  {
    if |s| < width then s + Spaces(width - |s|) else s
  }

  /** Python's `"\n".join(lines)`. */
  function JoinLines(lines: seq<string>): string {
    if lines == [] then ""
    else if |lines| == 1 then lines[0]
    else JoinLines(lines[..|lines| - 1]) + "\n" + lines[|lines| - 1]
  }

  /** Python's `s.split("\n")`: the text between consecutive newlines, so
      one more piece than `s` has newlines. */
  function SplitLines(s: string): (r: seq<string>)
    ensures |r| > 0
    decreases |s|
  {
    if s == [] then [""]
    else
      var rest := SplitLines(s[1..]);
      if s[0] == '\n' then [""] + rest else [[s[0]] + rest[0]] + rest[1..]
  }

  /** Splitting on newlines undoes `"\n".join` when no line holds a newline. */
  lemma {:induction false} SplitJoin(lines: seq<string>)
    requires |lines| > 0
    requires forall i :: 0 <= i < |lines| ==> '\n' !in lines[i]
    ensures SplitLines(JoinLines(lines)) == lines
    decreases |lines|
  {
    if |lines| == 1 {
      SplitLine(lines[0], "");
      assert lines[0] + "" == lines[0];
    } else {
      var init := lines[..|lines| - 1];
      SplitJoin(init);
      SplitAppend(JoinLines(init), lines[|lines| - 1]);
      assert init + [lines[|lines| - 1]] == lines;
    }
  }

  lemma JoinAppend(lines: seq<string>, last: string)
    requires |lines| > 0
    ensures JoinLines(lines + [last]) == JoinLines(lines) + "\n" + last
  {
  }

  /** Joining one more newline-free line keeps the split exact. */
  lemma SplitJoinLast(lines: seq<string>, last: string)
    requires |lines| > 0
    requires forall i :: 0 <= i < |lines| ==> '\n' !in lines[i]
    requires '\n' !in last
    ensures SplitLines(JoinLines(lines) + "\n" + last) == lines + [last]
  {
    var all := lines + [last];
    JoinAppend(lines, last);
    assert forall i :: 0 <= i < |lines| ==> all[i] == lines[i];
    SplitJoin(all);
  }

  /** The same, for a last line given with its leading newline. */
  lemma SplitJoinNewline(lines: seq<string>, tail: string)
    requires |lines| > 0
    requires forall i :: 0 <= i < |lines| ==> '\n' !in lines[i]
    requires |tail| > 0 && tail[0] == '\n' && '\n' !in tail[1..]
    ensures SplitLines(JoinLines(lines) + tail) == lines + [tail[1..]]
  {
    SplitJoinLast(lines, tail[1..]);
    assert tail == "\n" + tail[1..];
    assert JoinLines(lines) + tail == JoinLines(lines) + "\n" + tail[1..];
  }

  lemma {:induction false} SplitLine(line: string, tail: string)
    requires '\n' !in line
    ensures SplitLines(line + tail) == [line + SplitLines(tail)[0]] + SplitLines(tail)[1..]
    decreases |line|
  {
    if line != [] {
      assert (line + tail)[1..] == line[1..] + tail;
      SplitLine(line[1..], tail);
      var r := SplitLines(tail);
      var rest := SplitLines((line + tail)[1..]);
      assert line[0] in line && (line + tail)[0] == line[0];
      assert rest == [line[1..] + r[0]] + r[1..];
      assert [line[0]] + (line[1..] + r[0]) == line + r[0];
    } else {
      var rest := SplitLines(tail);
      assert line + tail == tail;
      assert line + rest[0] == rest[0];
      assert [rest[0]] + rest[1..] == rest;
    }
  }

  lemma {:induction false} SplitAppend(s: string, last: string)
    requires '\n' !in last
    ensures SplitLines(s + "\n" + last) == SplitLines(s) + [last]
    decreases |s|
  {
    if s == [] {
      assert s + "\n" + last == "\n" + last;
      assert ("\n" + last)[1..] == last + "";
      SplitLine(last, "");
      assert last + "" == last;
    } else {
      assert (s + "\n" + last)[1..] == s[1..] + "\n" + last;
      SplitAppend(s[1..], last);
    }
  }
}
