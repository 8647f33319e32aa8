/**
 * Values shared by the benchmark extractor and the test-selection rules:
 * an optional value, a value-or-error, and the handful of Python string
 * operations the harness relies on (`in`, `startswith`, `split`, `join`
 * and `strip` with a one-character argument), each with Python's own
 * semantics.
 */
module Common {

  datatype Option<T> = None | Some(value: T)

  datatype Result<T, E> = Ok(value: T) | Err(error: E)

  /** `s.startswith(p)` */
  predicate StartsWith(s: string, p: string) {
    |p| <= |s| && s[..|p|] == p
  }

  /** `s.endswith(p)` */
  predicate EndsWith(s: string, p: string) {
    |p| <= |s| && s[|s| - |p|..] == p
  }

  /** `sub` occurs in `s` starting at index `i` */
  predicate OccursAt(s: string, sub: string, i: int) {
    0 <= i && i + |sub| <= |s| && s[i..i + |sub|] == sub
  }

  /** Python's `sub in s` for strings: `sub` is a substring of `s` */
  predicate Contains(s: string, sub: string) {
    exists i | 0 <= i <= |s| - |sub| :: OccursAt(s, sub, i)
  }

  lemma ContainsItself(s: string)
    ensures Contains(s, s)
  {
    assert OccursAt(s, s, 0);
  }

  /** Appending a character that `sub` does not contain creates no new occurrence of `sub`. */
  lemma ContainsAppend(s: string, sub: string, c: char)
    requires sub != [] && c !in sub
    ensures Contains(s + [c], sub) == Contains(s, sub)
  {
    var t := s + [c];
    if Contains(t, sub) {
      var i :| 0 <= i <= |t| - |sub| && OccursAt(t, sub, i);
      assert t[i + |sub| - 1] == sub[|sub| - 1] != c;
      assert t[i..i + |sub|] == s[i..i + |sub|];
      assert OccursAt(s, sub, i);
    }
    if Contains(s, sub) {
      var i :| 0 <= i <= |s| - |sub| && OccursAt(s, sub, i);
      assert t[i..i + |sub|] == s[i..i + |sub|];
      assert OccursAt(t, sub, i);
    }
  }

  /** A substring of a piece is a substring of any string built around it. */
  lemma ContainsInside(a: string, b: string, c: string, sub: string)
    requires Contains(b, sub)
    ensures Contains(a + b + c, sub)
  {
    var i :| 0 <= i <= |b| - |sub| && OccursAt(b, sub, i);
    var t := a + b + c;
    assert t[|a| + i..|a| + i + |sub|] == b[i..i + |sub|];
    assert OccursAt(t, sub, |a| + i);
  }

  /** The index of the first `c` in `s`. */
  function FirstIndex(s: string, c: char): (i: nat)
    requires c in s
    ensures i < |s| && s[i] == c
    ensures forall k :: 0 <= k < i ==> s[k] != c
  {
    if s[0] == c then 0
    else
      assert c in s[1..] by { var k :| 0 <= k < |s| && s[k] == c; assert s[1..][k - 1] == c; }
      var j := FirstIndex(s[1..], c);
      assert forall k :: 0 < k <= j ==> s[k] == s[1..][k - 1];
      j + 1
  }

  /** Python's `s.split(c)` for a one-character separator. */
  function Split(s: string, c: char): (parts: seq<string>)
    ensures |parts| >= 1
    ensures forall k :: 0 <= k < |parts| ==> c !in parts[k]
    decreases |s|
  {
    if c !in s then [s]
    else
      var i := FirstIndex(s, c);
      [s[..i]] + Split(s[i + 1..], c)
  }

  /** Python's `c.join(parts)` for a one-character separator. */
  function Join(parts: seq<string>, c: char): string
  {
    if |parts| == 0 then ""
    else if |parts| == 1 then parts[0]
    else parts[0] + [c] + Join(parts[1..], c)
  }

  /** Joining the pieces of a split gives back the string. */
  lemma {:induction false} JoinSplit(s: string, c: char)
    ensures Join(Split(s, c), c) == s
    decreases |s|
  {
    if c in s {
      var i := FirstIndex(s, c);
      var first, rest := s[..i], s[i + 1..];
      var parts := Split(rest, c);
      assert Split(s, c) == [first] + parts;
      assert ([first] + parts)[1..] == parts;
      assert Join([first] + parts, c) == first + [c] + Join(parts, c);
      JoinSplit(rest, c);
      assert s == first + [c] + rest;
    }
  }

  /** Splitting a join gives back the pieces, when no piece holds the separator. */
  lemma {:induction false} SplitJoin(parts: seq<string>, c: char)
    requires |parts| >= 1
    requires forall k :: 0 <= k < |parts| ==> c !in parts[k]
    ensures Split(Join(parts, c), c) == parts
  {
    if |parts| > 1 {
      SplitCons(parts[0], c, Join(parts[1..], c));
      SplitJoin(parts[1..], c);
    }
  }

  /** The first piece of a split is the text before the first separator. */
  lemma SplitFirst(s: string, c: char)
    ensures var first := Split(s, c)[0];
      c !in first && StartsWith(s, first) && (|first| == |s| || s[|first|] == c)
  {
    if c in s {
      var i := FirstIndex(s, c);
      assert Split(s, c)[0] == s[..i];
    }
  }

  /** Python's `s.split(c)[-1]`: the text after the last separator. */
  function LastPart(s: string, c: char): (r: string)
    ensures c !in r
    decreases |s|
  {
    if c !in s then s else LastPart(s[FirstIndex(s, c) + 1..], c)
  }

  /** `LastPart` is indeed the last piece of the split. */
  lemma {:induction false} LastPartIsLastPiece(s: string, c: char)
    ensures var parts := Split(s, c); LastPart(s, c) == parts[|parts| - 1]
    decreases |s|
  {
    if c in s {
      LastPartIsLastPiece(s[FirstIndex(s, c) + 1..], c);
    }
  }

  /** A first separator that lies in a prefix is the first separator of the whole. */
  lemma FirstIndexPrefix(prefix: string, rest: string, c: char)
    requires c in prefix
    ensures c in prefix + rest && FirstIndex(prefix + rest, c) == FirstIndex(prefix, c)
  {
    var s := prefix + rest;
    var i := FirstIndex(prefix, c);
    assert s[i] == c;
    var j := FirstIndex(s, c);
    assert forall k :: 0 <= k < i ==> s[k] == prefix[k];
  }

  /** Text after the last separator: `(prefix + c + rest).split(c)[-1] == rest` when `rest` has no `c`. */
  lemma {:induction false} LastPartAfter(prefix: string, c: char, rest: string)
    requires c !in rest
    ensures LastPart(prefix + [c] + rest, c) == rest
    decreases |prefix|
  {
    var s := prefix + [c] + rest;
    if c !in prefix {
      SplitCons(prefix, c, rest);
      assert s[|prefix|] == c;
      assert FirstIndex(s, c) == |prefix| by {
        assert forall j :: 0 <= j < |prefix| ==> s[j] == prefix[j];
      }
      assert s[|prefix| + 1..] == rest;
    } else {
      var i := FirstIndex(prefix, c);
      FirstIndexPrefix(prefix, [c] + rest, c);
      assert s == prefix + ([c] + rest);
      assert s[i + 1..] == prefix[i + 1..] + [c] + rest;
      LastPartAfter(prefix[i + 1..], c, rest);
    }
  }

  /** Splitting at a first piece without the separator peels that piece off. */
  lemma SplitCons(first: string, c: char, rest: string)
    requires c !in first
    ensures Split(first + [c] + rest, c) == [first] + Split(rest, c)
  {
    var s := first + [c] + rest;
    assert s[|first|] == c;
    var i := FirstIndex(s, c);
    assert i == |first| by {
      assert forall j :: 0 <= j < |first| ==> s[j] == first[j] != c;
    }
    assert s[..i] == first;
    assert s[i + 1..] == rest;
  }

  /** `s.lstrip(c)` */
  function TrimLeft(s: string, c: char): (r: string)
    ensures EndsWith(s, r) && (r == [] || r[0] != c)
    ensures forall k :: 0 <= k < |s| - |r| ==> s[k] == c
  {
    if |s| > 0 && s[0] == c then
      var r := TrimLeft(s[1..], c);
      assert s[|s| - |r|..] == s[1..][|s| - 1 - |r|..];
      r
    else s
  }

  /** `s.rstrip(c)` */
  function TrimRight(s: string, c: char): (r: string)
    ensures StartsWith(s, r) && (r == [] || r[|r| - 1] != c)
    ensures forall k :: |r| <= k < |s| ==> s[k] == c
  {
    if |s| > 0 && s[|s| - 1] == c then
      var r := TrimRight(s[..|s| - 1], c);
      assert s[..|r|] == s[..|s| - 1][..|r|];
      r
    else s
  }

  /** Python's `s.strip(c)` for a one-character argument: what is left after
      removing every leading and trailing `c`. */
  function Strip(s: string, c: char): (r: string)
    ensures r == [] || (r[0] != c && r[|r| - 1] != c)
  {
    TrimRight(TrimLeft(s, c), c)
  }

  /** A line as `readlines()` yields it: a newline can only be its last character. */
  predicate IsReadLine(line: string) {
    forall k :: 0 <= k < |line| - 1 ==> line[k] != '\n'
  }

  /** Stripping newlines from such a line removes at most the one at its end. */
  lemma StripReadLine(line: string)
    requires IsReadLine(line)
    ensures '\n' !in Strip(line, '\n')
    ensures line == Strip(line, '\n') || line == Strip(line, '\n') + "\n"
  {
    if |line| > 0 && line[|line| - 1] == '\n' {
      var body := line[..|line| - 1];
      assert '\n' !in body by {
        forall k | 0 <= k < |body| ensures body[k] != '\n' { assert body[k] == line[k]; }
      }
      if body == [] {
        assert line == "\n";
        assert TrimLeft(line, '\n') == TrimLeft("", '\n') == "";
      } else {
        assert line[0] == body[0] != '\n';
        assert TrimLeft(line, '\n') == line;
        assert TrimRight(line, '\n') == TrimRight(body, '\n');
        NoTrim(body, '\n');
      }
    } else {
      assert '\n' !in line by {
        forall k | 0 <= k < |line| ensures line[k] != '\n' {
          if k < |line| - 1 { assert line[k] != '\n'; }
        }
      }
      NoTrim(line, '\n');
    }
  }

  lemma NoTrim(s: string, c: char)
    requires c !in s
    ensures TrimLeft(s, c) == s && TrimRight(s, c) == s && Strip(s, c) == s
  {
    if |s| > 0 {
      assert s[0] != c && s[|s| - 1] != c;
    }
  }

  /** Python's `xs[-n:]` for n >= 1: the last `n` elements, or all when there
      are fewer.  At n = 0 this gives [], whereas Python's `xs[-0:]` is the
      whole list; the benchmark only uses n = 100. */
  function KeepLast<T>(xs: seq<T>, n: nat): (r: seq<T>)
    ensures |r| == if |xs| <= n then |xs| else n
    ensures xs == xs[..|xs| - |r|] + r
  {
    if |xs| <= n then xs else xs[|xs| - n..]
  }
}
