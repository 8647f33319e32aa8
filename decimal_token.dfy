/**
 * The throughput token of the benchmark logs.  Both log formats are read
 * with a regular expression of the shape
 *
 *     (<label>[ ]*)(?P<throughput>[0-9]+\.?[0-9]+)
 *
 * passed to `re.search`, whose `throughput` group is then converted with
 * `float`.  The label is `CPU(s):` for CPU logs and `images/sec:` for GPU
 * logs.  This module encodes that one pattern directly: the digit runs,
 * the greedy-with-backtracking choice of the token at a position, and the
 * leftmost position at which the whole pattern matches.  The token is read
 * as an exact decimal number.
 */
module DecimalToken {
  import opened Common

  predicate IsDigit(ch: char) {
    '0' <= ch <= '9'
  }

  predicate AllDigits(x: string) {
    forall k :: 0 <= k < |x| ==> IsDigit(x[k])
  }

  /** `t` is matched in full by `[0-9]+\.?[0-9]+`: two or more digits, or two
      non-empty digit runs around a single dot. */
  predicate IsToken(t: string) {
    (|t| >= 2 && AllDigits(t)) || exists i | 0 < i < |t| - 1 :: DotAt(t, i)
  }

  /** `t` is two non-empty digit runs joined by the dot at `i`. */
  predicate DotAt(t: string, i: int) {
    0 < i < |t| - 1 && t[i] == '.' && AllDigits(t[..i]) && AllDigits(t[i + 1..])
  }

  lemma AllDigitsSlice(x: string, i: nat, j: nat)
    requires i <= j <= |x| && AllDigits(x)
    ensures AllDigits(x[i..j])
  {
    forall k | 0 <= k < j - i ensures IsDigit(x[i..j][k]) {
      assert x[i..j][k] == x[i + k];
    }
  }

  /** The length of the run of digits in `s` that starts at `p`. */
  function DigitRun(s: string, p: nat): (n: nat)
    requires p <= |s|
    ensures p + n <= |s|
    ensures p + n == |s| || !IsDigit(s[p + n])
    decreases |s| - p
  {
    if p < |s| && IsDigit(s[p]) then 1 + DigitRun(s, p + 1) else 0
  }

  /** Every character of the run is a digit. */
  lemma {:induction false} DigitRunDigits(s: string, p: nat)
    requires p <= |s|
    ensures forall k :: p <= k < p + DigitRun(s, p) ==> IsDigit(s[k])
    decreases |s| - p
  {
    if p < |s| && IsDigit(s[p]) {
      DigitRunDigits(s, p + 1);
    }
  }

  /** Where `[ ]*` stops when it starts at `p`: past every space, at the first other character. */
  function SkipSpaces(s: string, p: nat): (q: nat)
    requires p <= |s|
    ensures p <= q <= |s|
    ensures q == |s| || s[q] != ' '
    decreases |s| - p
  {
    if p < |s| && s[p] == ' ' then SkipSpaces(s, p + 1) else p
  }

  /** The length of the text `[0-9]+\.?[0-9]+` matches when it starts at `p`, or
      0 when it cannot match there.  The first `[0-9]+` takes the whole digit
      run; the dot and a second run are taken when present; otherwise the
      engine backs off one digit so that the second `[0-9]+` has one, which
      needs a run of two. */
  function TokenLen(s: string, p: nat): (n: nat)
    requires p <= |s|
    ensures p + n <= |s|
  {
    var d := DigitRun(s, p);
    var q := p + d;
    if d >= 1 && q < |s| && s[q] == '.' && DigitRun(s, q + 1) >= 1 then d + 1 + DigitRun(s, q + 1)
    else if d >= 2 then d
    else 0
  }

  /** The token that `[0-9]+\.?[0-9]+` matches at `p`, or None. */
  function TokenAt(s: string, p: nat): (r: Option<string>)
    requires p <= |s|
    ensures r.Some? ==> IsToken(r.value) && p + |r.value| <= |s| && s[p..p + |r.value|] == r.value
  {
    var n := TokenLen(s, p);
    if n == 0 then None
    else
      TokenLenIsToken(s, p);
      Some(s[p..p + n])
  }

  lemma TokenLenIsToken(s: string, p: nat)
    requires p <= |s| && TokenLen(s, p) > 0
    ensures IsToken(s[p..p + TokenLen(s, p)])
  {
    var d := DigitRun(s, p);
    if TokenLen(s, p) > d {
      RunIsDigits(s, p);
      RunIsDigits(s, p + d + 1);
      DotTokenAt(s, p, d, DigitRun(s, p + d + 1));
    } else {
      AllDigitsPrefix(s, p, TokenLen(s, p));
    }
  }

  /** The text at `p` when a digit run, a dot and a second digit run follow it. */
  lemma DotTokenAt(s: string, p: nat, d: nat, e: nat)
    requires p + d + 1 + e <= |s| && d >= 1 && e >= 1 && s[p + d] == '.'
    requires AllDigits(s[p..p + d]) && AllDigits(s[p + d + 1..p + d + 1 + e])
    ensures DotAt(s[p..p + d + 1 + e], d)
  {
    DotAtJoin(s[p..p + d], s[p + d + 1..p + d + 1 + e]);
    SliceAround(s, p, p + d, p + d + 1 + e);
  }

  /** The digit run at `p`, as text, is all digits. */
  lemma RunIsDigits(s: string, p: nat)
    requires p <= |s|
    ensures AllDigits(s[p..p + DigitRun(s, p)])
  {
    var u := s[p..p + DigitRun(s, p)];
    DigitRunDigits(s, p);
    assert forall k :: 0 <= k < |u| ==> u[k] == s[p + k];
  }

  /** A slice is the part before `j`, the character at `j` and the part after it. */
  lemma SliceAround(s: string, i: nat, j: nat, k: nat)
    requires i <= j < k <= |s|
    ensures s[i..k] == s[i..j] + [s[j]] + s[j + 1..k]
  {
  }

  /** Two non-empty digit runs joined by a dot. */
  lemma DotAtJoin(a: string, b: string)
    requires a != [] && b != [] && AllDigits(a) && AllDigits(b)
    ensures DotAt(a + "." + b, |a|)
  {
    var t := a + "." + b;
    assert t[..|a|] == a;
    assert t[|a| + 1..] == b;
  }

  /** `s[p..p + n]` is all digits exactly when `n` stays within the digit run at `p`. */
  lemma AllDigitsPrefix(s: string, p: nat, n: nat)
    requires p + n <= |s|
    ensures AllDigits(s[p..p + n]) <==> n <= DigitRun(s, p)
  {
    var d := DigitRun(s, p);
    if n > d {
      assert s[p..p + n][d] == s[p + d];
    } else {
      var u := s[p..p + n];
      DigitRunDigits(s, p);
      forall k | 0 <= k < n ensures IsDigit(u[k]) {
        assert u[k] == s[p + k];
      }
    }
  }

  /** A run of `i` digits followed by a non-digit is the whole digit run. */
  lemma DigitRunEnds(s: string, p: nat, i: nat)
    requires p + i < |s| && AllDigits(s[p..p + i]) && !IsDigit(s[p + i])
    ensures DigitRun(s, p) == i
  {
    AllDigitsPrefix(s, p, i);
    AllDigitsPrefix(s, p, i + 1);
    assert s[p..p + i + 1][i] == s[p + i];
  }

  /** The prefix of length `n` of the text at `p` is a token. */
  predicate TokenOfLength(s: string, p: nat, n: nat) {
    p + n <= |s| && IsToken(s[p..p + n])
  }

  /** The lengths for which TokenOfLength holds, as digit-run arithmetic. */
  predicate TokenLength(s: string, p: nat, n: nat)
    requires p + n <= |s|
  {
    var d := DigitRun(s, p);
    var q := p + d;
    || 2 <= n <= d
    || (d >= 1 && q < |s| && s[q] == '.' && d + 2 <= n <= d + 1 + DigitRun(s, q + 1))
  }

  lemma TokenPrefixIsLength(s: string, p: nat, n: nat)
    requires TokenOfLength(s, p, n)
    ensures TokenLength(s, p, n)
  {
    var u := s[p..p + n];
    if |u| >= 2 && AllDigits(u) {
      AllDigitsPrefix(s, p, n);
    } else {
      var i: int :| DotAt(u, i);
      DotPrefixLength(s, p, n, i);
    }
  }

  /** A prefix of length `n` with its dot at `i`: the dot ends the first digit
      run, and the rest of the prefix lies within the run after the dot. */
  lemma DotPrefixLength(s: string, p: nat, n: nat, i: int)
    requires p + n <= |s| && DotAt(s[p..p + n], i)
    ensures 0 < i == DigitRun(s, p) && p + i < |s| && s[p + i] == '.'
    ensures n - i - 1 <= DigitRun(s, p + i + 1)
  {
    var u := s[p..p + n];
    assert u[..i] == s[p..p + i];
    assert s[p + i] == u[i];
    DigitRunEnds(s, p, i);
    assert u[i + 1..] == s[p + i + 1..p + n];
    AllDigitsPrefix(s, p + i + 1, n - i - 1);
  }

  lemma TokenLengthIsPrefix(s: string, p: nat, n: nat)
    requires p + n <= |s| && TokenLength(s, p, n)
    ensures TokenOfLength(s, p, n)
  {
    var d := DigitRun(s, p);
    var q := p + d;
    var u := s[p..p + n];
    if n <= d {
      AllDigitsPrefix(s, p, n);
    } else {
      var e := n - d - 1;
      RunIsDigits(s, p);
      AllDigitsPrefix(s, q + 1, e);
      DotTokenAt(s, p, d, e);
      assert DotAt(u, d);
    }
  }

  /** TokenAt agrees with the pattern read as a set of strings: it finds nothing
      exactly when no prefix of the text at `p` is a token, and otherwise it
      returns the longest such prefix. */
  lemma TokenAtIsLongestMatch(s: string, p: nat)
    requires p <= |s|
    ensures TokenAt(s, p).None? <==> forall n :: !TokenOfLength(s, p, n)
    ensures TokenAt(s, p).Some? ==>
      forall n :: |TokenAt(s, p).value| < n ==> !TokenOfLength(s, p, n)
  {
    var r := TokenAt(s, p);
    forall n: nat | TokenOfLength(s, p, n)
      ensures r.Some? && n <= |r.value|
    {
      TokenPrefixIsLength(s, p, n);
    }
    if r.Some? {
      assert s[p..p + |r.value|] == r.value;
      assert TokenOfLength(s, p, |r.value|);
    }
  }

  /** The label `sub` starts at `k` and the token pattern matches after its spaces:
      a position where `re.search` succeeds. */
  predicate MatchAt(s: string, sub: string, k: int) {
    OccursAt(s, sub, k) && TokenAt(s, SkipSpaces(s, k + |sub|)).Some?
  }

  /** The token after the label and spaces at `k`. */
  function TokenAfter(s: string, sub: string, k: int): Option<string>
    requires OccursAt(s, sub, k)
  {
    TokenAt(s, SkipSpaces(s, k + |sub|))
  }

  /** `re.search` started at `f`: the first `k >= f` where the pattern matches. */
  function SearchFrom(s: string, sub: string, f: nat): (r: Option<string>)
    ensures r.Some? ==> IsToken(r.value)
    decreases |s| - f
  {
    if |s| < f + |sub| then None
    else if MatchAt(s, sub, f) then TokenAfter(s, sub, f)
    else if f < |s| then SearchFrom(s, sub, f + 1)
    else None
  }

  /** The `throughput` group of `re.search(label + "[ ]*" + token, line)`,
      or None where `re.search` returns None. */
  function ThroughputToken(line: string, sub: string): (r: Option<string>)
    ensures r.Some? ==> IsToken(r.value)
  {
    SearchFrom(line, sub, 0)
  }

  /** The search is leftmost: it fails exactly when the pattern matches
      nowhere from `f` on, and otherwise returns the token of the first match. */
  lemma SearchIsLeftmostMatch(s: string, sub: string, f: nat)
    ensures SearchFrom(s, sub, f).None? <==> forall k :: f <= k ==> !MatchAt(s, sub, k)
    ensures SearchFrom(s, sub, f).Some? ==>
      exists k :: f <= k && MatchAt(s, sub, k) && TokenAfter(s, sub, k) == SearchFrom(s, sub, f)
        && forall j :: f <= j < k ==> !MatchAt(s, sub, j)
  {
    SearchFailsWithoutMatch(s, sub, f);
    if SearchFrom(s, sub, f).Some? {
      SearchFindsFirstMatch(s, sub, f);
    }
  }

  lemma {:induction false} SearchFailsWithoutMatch(s: string, sub: string, f: nat)
    ensures SearchFrom(s, sub, f).None? <==> forall k :: f <= k ==> !MatchAt(s, sub, k)
    decreases |s| - f
  {
    if |s| < f + |sub| {
      assert forall k :: f <= k ==> !OccursAt(s, sub, k);
    } else if MatchAt(s, sub, f) {
    } else if f < |s| {
      SearchFailsWithoutMatch(s, sub, f + 1);
    } else {
      assert forall k :: f < k ==> !OccursAt(s, sub, k);
    }
  }

  lemma {:induction false} SearchFindsFirstMatch(s: string, sub: string, f: nat)
    requires SearchFrom(s, sub, f).Some?
    ensures exists k :: f <= k && MatchAt(s, sub, k) && TokenAfter(s, sub, k) == SearchFrom(s, sub, f)
                        && forall j :: f <= j < k ==> !MatchAt(s, sub, j)
    decreases |s| - f
  {
    if MatchAt(s, sub, f) {
      assert TokenAfter(s, sub, f) == SearchFrom(s, sub, f);
    } else {
      assert SearchFrom(s, sub, f + 1) == SearchFrom(s, sub, f);
      SearchFindsFirstMatch(s, sub, f + 1);
      var k :| f + 1 <= k && MatchAt(s, sub, k) && TokenAfter(s, sub, k) == SearchFrom(s, sub, f + 1)
        && forall j :: f + 1 <= j < k ==> !MatchAt(s, sub, j);
      assert forall j :: f <= j < k ==> !MatchAt(s, sub, j);
    }
  }

  // ------------------------------------------------------------------
  // Appending a terminator

  /** A character that ends every part of the pattern: no digit, space or dot. */
  predicate IsTerminator(c: char) {
    !IsDigit(c) && c != ' ' && c != '.'
  }

  lemma DigitRunAppend(s: string, c: char, p: nat)
    requires p <= |s| && !IsDigit(c)
    ensures DigitRun(s + [c], p) == DigitRun(s, p)
    decreases |s| - p
  {
    if p < |s| && IsDigit(s[p]) {
      DigitRunAppend(s, c, p + 1);
    }
  }

  lemma SkipSpacesAppend(s: string, c: char, p: nat)
    requires p <= |s| && c != ' '
    ensures SkipSpaces(s + [c], p) == SkipSpaces(s, p)
    decreases |s| - p
  {
    if p < |s| && s[p] == ' ' {
      SkipSpacesAppend(s, c, p + 1);
    }
  }

  lemma TokenLenAppend(s: string, c: char, p: nat)
    requires p <= |s| && IsTerminator(c)
    ensures TokenLen(s + [c], p) == TokenLen(s, p)
  {
    var t := s + [c];
    DigitRunAppend(s, c, p);
    var d := DigitRun(s, p);
    var q := p + d;
    if q < |s| {
      DigitRunAppend(s, c, q + 1);
      assert t[q] == s[q];
    } else {
      assert t[q] == c;
    }
  }

  lemma TokenAtAppend(s: string, c: char, p: nat)
    requires p <= |s| && IsTerminator(c)
    ensures TokenAt(s + [c], p) == TokenAt(s, p)
  {
    var t := s + [c];
    TokenLenAppend(s, c, p);
    var n := TokenLen(s, p);
    if n > 0 {
      assert t[p..p + n] == s[p..p + n];
      assert TokenAt(t, p) == Some(t[p..p + n]);
    }
  }

  lemma OccursAtAppend(s: string, sub: string, c: char, k: int)
    requires sub != [] && c !in sub
    ensures OccursAt(s + [c], sub, k) == OccursAt(s, sub, k)
  {
    var t := s + [c];
    if OccursAt(t, sub, k) {
      assert t[k + |sub| - 1] == sub[|sub| - 1];
      assert k + |sub| <= |s|;
      assert t[k..k + |sub|] == s[k..k + |sub|];
    }
    if OccursAt(s, sub, k) {
      assert t[k..k + |sub|] == s[k..k + |sub|];
    }
  }

  lemma MatchAtAppend(s: string, sub: string, c: char, k: int)
    requires sub != [] && c !in sub && IsTerminator(c)
    ensures MatchAt(s + [c], sub, k) == MatchAt(s, sub, k)
    ensures OccursAt(s, sub, k) ==> TokenAfter(s + [c], sub, k) == TokenAfter(s, sub, k)
  {
    var t := s + [c];
    OccursAtAppend(s, sub, c, k);
    if OccursAt(s, sub, k) {
      var q := SkipSpaces(s, k + |sub|);
      assert SkipSpaces(t, k + |sub|) == q by { SkipSpacesAppend(s, c, k + |sub|); }
      assert TokenAt(t, q) == TokenAt(s, q) by { TokenAtAppend(s, c, q); }
      assert TokenAfter(t, sub, k) == TokenAt(t, q);
      assert TokenAfter(s, sub, k) == TokenAt(s, q);
    } else {
      assert !OccursAt(t, sub, k);
    }
  }

  /** A trailing terminator that does not occur in the label (the newline that
      `readlines` leaves on a line) does not change what the search finds. */
  lemma {:induction false} SearchAppend(s: string, sub: string, c: char, f: nat)
    requires sub != [] && c !in sub && IsTerminator(c)
    ensures SearchFrom(s + [c], sub, f) == SearchFrom(s, sub, f)
    decreases |s| + 1 - f
  {
    var t := s + [c];
    MatchAtAppend(s, sub, c, f);
    if |t| < f + |sub| {
    } else if |s| < f + |sub| {
      assert !MatchAt(t, sub, f);
      if f < |t| {
        MatchAtAppend(s, sub, c, f + 1);
        assert SearchFrom(t, sub, f + 1) == None;
      }
    } else if MatchAt(s, sub, f) {
    } else {
      SearchAppend(s, sub, c, f + 1);
    }
  }

  // ------------------------------------------------------------------
  // The number a token denotes

  /** The value of a string of decimal digits. */
  function DigitsValue(x: string): nat
    requires AllDigits(x)
  {
    if x == [] then 0
    else
      AllDigitsSlice(x, 0, |x| - 1);
      10 * DigitsValue(x[..|x| - 1]) + (x[|x| - 1] as int - '0' as int)
  }

  function Pow10(n: nat): (r: nat)
    ensures r >= 1
  {
    if n == 0 then 1 else 10 * Pow10(n - 1)
  }

  lemma {:induction false} DigitsValueBound(x: string)
    requires AllDigits(x)
    ensures DigitsValue(x) < Pow10(|x|)
  {
    if x != [] {
      var init := x[..|x| - 1];
      AllDigitsSlice(x, 0, |x| - 1);
      DigitsValueBound(init);
    }
  }

  /** The two digit runs of a token with a dot. */
  lemma TokenParts(t: string)
    requires IsToken(t)
    ensures '.' in t ==> DotAt(t, FirstIndex(t, '.'))
    ensures '.' !in t ==> AllDigits(t)
  {
    if '.' in t {
      var i := FirstIndex(t, '.');
      assert !IsDigit(t[i]);
      var j: int :| DotAt(t, j);
      assert DotAt(t, j);
      assert forall k :: 0 <= k < i ==> t[k] != '.' by {
        forall k | 0 <= k < i ensures t[k] != '.' { assert t[..i][k] == t[k]; }
      }
      assert forall k :: 0 <= k < j ==> IsDigit(t[k]) by {
        forall k | 0 <= k < j ensures IsDigit(t[k]) { assert t[..j][k] == t[k]; }
      }
    } else {
      assert forall j :: !DotAt(t, j);
    }
  }

  lemma FractionBelowOne(a: nat, b: nat)
    requires a < b
    ensures (a as real) / (b as real) < 1.0
  {
  }

  /** The integer part of a token: the digits before its dot, or all of it. */
  function IntegerPart(t: string): (n: nat)
    requires IsToken(t)
  {
    TokenParts(t);
    if '.' in t then DigitsValue(t[..FirstIndex(t, '.')]) else DigitsValue(t)
  }

  /** `float(t)` read as an exact decimal. */
  function TokenValue(t: string): (v: real)
    requires IsToken(t)
    ensures v >= 0.0
  {
    TokenParts(t);
    if '.' in t then
      var i := FirstIndex(t, '.');
      var frac := t[i + 1..];
      (DigitsValue(t[..i]) as real) + (DigitsValue(frac) as real) / (Pow10(|frac|) as real)
    else
      DigitsValue(t) as real
  }

  /** The digits after the dot only ever add a fraction below one. */
  lemma TokenValueBetweenIntegers(t: string)
    requires IsToken(t)
    ensures IntegerPart(t) as real <= TokenValue(t) < IntegerPart(t) as real + 1.0
    ensures '.' !in t ==> TokenValue(t) == IntegerPart(t) as real
  {
    TokenParts(t);
    if '.' in t {
      var i := FirstIndex(t, '.');
      var frac := t[i + 1..];
      DigitsValueBound(frac);
      FractionBelowOne(DigitsValue(frac), Pow10(|frac|));
    }
  }

  /** Digits joined to digits are digits. */
  lemma AllDigitsAppend(a: string, b: string)
    requires AllDigits(a) && AllDigits(b)
    ensures AllDigits(a + b)
  {
    forall k | 0 <= k < |a + b| ensures IsDigit((a + b)[k]) {
      if k < |a| { assert (a + b)[k] == a[k]; } else { assert (a + b)[k] == b[k - |a|]; }
    }
  }

  /** One more digit: the value is ten times the value before it plus the digit. */
  lemma DigitsValueSnoc(a: string, d: char)
    requires AllDigits(a) && IsDigit(d)
    ensures AllDigits(a + [d])
    ensures DigitsValue(a + [d]) == 10 * DigitsValue(a) + (d as int - '0' as int)
  {
    AllDigitsAppend(a, [d]);
    assert (a + [d])[..|a|] == a;
  }

  lemma ShiftStep(x: int, p: int, y: int, d: int)
    ensures 10 * (x * p + y) + d == x * (10 * p) + (10 * y + d)
  {
  }

  /** Digits are read most significant first: appending the digits `b`
      shifts the value of `a` left by |b| places and adds the value of `b`. */
  lemma {:induction false} DigitsValueAppend(a: string, b: string)
    requires AllDigits(a) && AllDigits(b)
    ensures AllDigits(a + b)
    ensures DigitsValue(a + b) == DigitsValue(a) * Pow10(|b|) + DigitsValue(b)
  {
    AllDigitsAppend(a, b);
    if b == [] {
      assert a + b == a;
    } else {
      var init, d := b[..|b| - 1], b[|b| - 1];
      assert b == init + [d];
      AllDigitsSlice(b, 0, |b| - 1);
      DigitsValueAppend(a, init);
      assert a + b == (a + init) + [d];
      DigitsValueSnoc(a + init, d);
      DigitsValueSnoc(init, d);
      ShiftStep(DigitsValue(a), Pow10(|init|), DigitsValue(init), d as int - '0' as int);
    }
  }

  /** The value of a one-digit string is that digit. */
  lemma DigitValue(d: char)
    requires IsDigit(d)
    ensures AllDigits([d]) && DigitsValue([d]) == d as int - '0' as int
  {
    DigitsValueSnoc([], d);
    assert [] + [d] == [d];
  }

  /** In `a + "." + b` with `a` all digits, the first dot is the one after `a`. */
  lemma FirstDotAfterDigits(a: string, b: string)
    requires AllDigits(a) && AllDigits(b) && a != [] && b != []
    ensures var t := a + "." + b;
      IsToken(t) && '.' in t && FirstIndex(t, '.') == |a| && t[..|a|] == a && t[|a| + 1..] == b
  {
    var t := a + "." + b;
    DotAtJoin(a, b);
    assert t[|a|] == '.';
    assert !IsDigit('.');
    assert forall k :: 0 <= k < |a| ==> t[k] == a[k];
  }

  /** Multiplying back a quotient. */
  lemma ScaleBack(x: real, y: real, p: real)
    requires p > 0.0
    ensures (x + y / p) * p == x * p + y
  {
  }

  /** Casting a natural sum of products to a real. */
  lemma CastShift(x: nat, p: nat, y: nat)
    ensures (x * p + y) as real == (x as real) * (p as real) + (y as real)
  {
  }

  /** `v` times the power of ten `p`; kept apart so that the product stays one term. */
  function Scaled(v: real, p: nat): real { v * (p as real) }

  /** A whole part plus `y / p`, scaled by `p`, is the natural `x * p + y`. */
  lemma ScaledValue(v: real, x: nat, y: nat, p: nat, n: nat)
    requires p > 0 && v == (x as real) + (y as real) / (p as real) && n == x * p + y
    ensures Scaled(v, p) == n as real
  {
    ScaleBack(x as real, y as real, p as real);
    CastShift(x, p, y);
  }

  /** A dotted token denotes its digits without the dot, scaled down by one
      power of ten per digit after the dot: "974.52" is 97452 / 100. */
  lemma TokenValueScaled(a: string, b: string)
    requires AllDigits(a) && AllDigits(b) && a != [] && b != []
    ensures IsToken(a + "." + b) && AllDigits(a + b)
    ensures Scaled(TokenValue(a + "." + b), Pow10(|b|)) == DigitsValue(a + b) as real
  {
    FirstDotAfterDigits(a, b);
    DigitsValueAppend(a, b);
    ScaledValue(TokenValue(a + "." + b), DigitsValue(a), DigitsValue(b), Pow10(|b|), DigitsValue(a + b));
  }

  /** The digit strings behind the examples below. */
  lemma DigitsValueExamples()
    ensures AllDigits("974") && AllDigits("52") && AllDigits("97452") && AllDigits("12")
    ensures DigitsValue("97452") == 97452 && DigitsValue("12") == 12
  {
    DigitValue('9');
    assert "9" + ['7'] == "97";
    DigitsValueSnoc("9", '7');
    assert "97" + ['4'] == "974";
    DigitsValueSnoc("97", '4');
    assert "974" + ['5'] == "9745";
    DigitsValueSnoc("974", '5');
    assert "9745" + ['2'] == "97452";
    DigitsValueSnoc("9745", '2');
    DigitValue('5');
    assert "5" + ['2'] == "52";
    DigitsValueSnoc("5", '2');
    DigitValue('1');
    assert "1" + ['2'] == "12";
    DigitsValueSnoc("1", '2');
  }

  /** A figure as the benchmark log prints it, and a two-digit integer. */
  lemma TokenValueExamples()
    ensures IsToken("974.52") && TokenValue("974.52") == 974.52
    ensures IsToken("12") && TokenValue("12") == 12.0
  {
    DigitsValueExamples();
    assert "974" + "." + "52" == "974.52" && "974" + "52" == "97452";
    assert Pow10(2) == 100;
    TokenValueScaled("974", "52");
    assert '.' !in "12";
  }
}
