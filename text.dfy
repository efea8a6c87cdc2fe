/** The JavaScript string operations the core relies on, written out:
    `trim`, `split('\n')` with its inverse `join('\n')`, `includes`, and the
    decimal rendering of a count inside a template string. */
module Text {

  /** The code points JavaScript counts as WhiteSpace or LineTerminator:
      exactly what `String.prototype.trim` removes and what `\s` matches. */
  predicate IsWhitespace(c: char) {
    c == '\t' || c == '\n' || c == '\U{000B}' || c == '\U{000C}' || c == '\r' ||
    c == ' ' || c == '\U{00A0}' || c == '\U{1680}' ||
    ('\U{2000}' <= c <= '\U{200A}') ||
    c == '\U{2028}' || c == '\U{2029}' || c == '\U{202F}' || c == '\U{205F}' ||
    c == '\U{3000}' || c == '\U{FEFF}'
  }

  /** Neither the first nor the last character is whitespace. */
  predicate IsTrimmed(s: string) {
    |s| == 0 || (!IsWhitespace(s[0]) && !IsWhitespace(s[|s| - 1]))
  }

  // ---------------------------------------------------------------------
  // includes

  /** `s.includes(m)`: m occurs somewhere in s as a contiguous block. */
  predicate Contains(s: string, m: string)
    ensures Contains(s, m) ==> |m| <= |s|
    decreases |s|
  {
    m <= s || (|s| > 0 && Contains(s[1..], m))
  }

  /** Every character of a contained block occurs in the text, so a text
      that lacks one of the block's characters does not contain it. */
  lemma {:induction false} ContainsChars(s: string, m: string, c: char)
    requires Contains(s, m) && c in m
    ensures c in s
    decreases |s|
  {
    if m <= s {
      var k :| 0 <= k < |m| && m[k] == c;
      assert s[k] == c;
    } else {
      ContainsChars(s[1..], m, c);
      var k :| 0 <= k < |s[1..]| && s[1..][k] == c;
      assert s[k + 1] == c;
    }
  }

  /** What a suffix contains, the whole contains. */
  lemma {:induction false} ContainsInSuffix(s: string, k: nat, m: string)
    requires k <= |s| && Contains(s[k..], m)
    ensures Contains(s, m)
    decreases k
  {
    if k > 0 {
      assert s[1..][k - 1..] == s[k..];
      ContainsInSuffix(s[1..], k - 1, m);
    } else {
      assert s[k..] == s;
    }
  }

  /** What a prefix contains, the whole contains. */
  lemma {:induction false} ContainsInPrefix(s: string, k: nat, m: string)
    requires k <= |s| && Contains(s[..k], m)
    ensures Contains(s, m)
    decreases k
  {
    var p := s[..k];
    if m <= p {
      assert m <= s;
    } else {
      assert |p| > 0 && Contains(p[1..], m);
      assert p[1..] == s[1..][..k - 1];
      ContainsInPrefix(s[1..], k - 1, m);
    }
  }

  /** When m is a prefix of s, each position of s that m covers holds a
      character of m. */
  lemma PrefixChar(s: string, m: string, k: nat)
    requires k < |s|
    ensures m <= s && k < |m| ==> s[k] in m
  {
    if m <= s && k < |m| {
      assert m[k] == s[k];
    }
  }

  /** A block free of the character c that occurs in a + [c] + b lies
      entirely inside a or entirely inside b. */
  lemma {:induction false} ContainsAcross(a: string, c: char, b: string, m: string)
    requires c !in m && Contains(a + [c] + b, m)
    ensures Contains(a, m) || Contains(b, m)
    decreases |a|
  {
    var s := a + [c] + b;
    assert s[|a|] == c;
    PrefixChar(s, m, |a|);
    if m <= s {
      if |m| <= |a| {
        assert m <= a;
      }
    } else if a == [] {
      assert s[1..] == b;
    } else {
      assert s[1..] == a[1..] + [c] + b;
      ContainsAcross(a[1..], c, b, m);
      if Contains(a[1..], m) {
        assert Contains(a, m);
      }
    }
  }

  // ---------------------------------------------------------------------
  // trim

  /** Drops leading whitespace. */
  function TrimStart(s: string): (r: string)
    ensures |r| <= |s|
    ensures |r| == 0 || !IsWhitespace(r[0])
    decreases |s|
  {
    if |s| > 0 && IsWhitespace(s[0]) then TrimStart(s[1..]) else s
  }

  /** What TrimStart keeps is a suffix of s. */
  lemma {:induction false} TrimStartIsSuffix(s: string)
    ensures TrimStart(s) == s[|s| - |TrimStart(s)|..]
    decreases |s|
  {
    if |s| > 0 && IsWhitespace(s[0]) {
      TrimStartIsSuffix(s[1..]);
      assert s[1..][|s| - 1 - |TrimStart(s)|..] == s[|s| - |TrimStart(s)|..];
    }
  }

  /** Everything TrimStart drops is whitespace. */
  lemma {:induction false} TrimStartDropsWhitespace(s: string)
    ensures forall i :: 0 <= i < |s| - |TrimStart(s)| ==> IsWhitespace(s[i])
    decreases |s|
  {
    if |s| > 0 && IsWhitespace(s[0]) {
      TrimStartDropsWhitespace(s[1..]);
      assert forall i :: 1 <= i < |s| ==> s[i] == s[1..][i - 1];
    }
  }

  /** Drops trailing whitespace. */
  function TrimEnd(s: string): (r: string)
    ensures |r| <= |s|
    ensures |r| == 0 || !IsWhitespace(r[|r| - 1])
    decreases |s|
  {
    if |s| > 0 && IsWhitespace(s[|s| - 1]) then TrimEnd(s[..|s| - 1]) else s
  }

  /** What TrimEnd keeps is a prefix of s. */
  lemma {:induction false} TrimEndIsPrefix(s: string)
    ensures TrimEnd(s) == s[..|TrimEnd(s)|]
    decreases |s|
  {
    if |s| > 0 && IsWhitespace(s[|s| - 1]) {
      TrimEndIsPrefix(s[..|s| - 1]);
      assert s[..|s| - 1][..|TrimEnd(s)|] == s[..|TrimEnd(s)|];
    }
  }

  /** Everything TrimEnd drops is whitespace. */
  lemma {:induction false} TrimEndDropsWhitespace(s: string)
    ensures forall i :: |TrimEnd(s)| <= i < |s| ==> IsWhitespace(s[i])
    decreases |s|
  {
    if |s| > 0 && IsWhitespace(s[|s| - 1]) {
      TrimEndDropsWhitespace(s[..|s| - 1]);
    }
  }

  /** `s.trim()`: leading and trailing whitespace dropped. */
  function Trim(s: string): (r: string)
    ensures IsTrimmed(r) && |r| <= |s|
  {
    var t := TrimStart(s);
    var r := TrimEnd(t);
    TrimEndIsPrefix(t);
    assert |r| > 0 ==> r[0] == t[0];
    r
  }

  /** The trimmed text is the block of s that starts where TrimStart stops. */
  lemma TrimIsSlice(s: string)
    ensures |s| - |TrimStart(s)| + |Trim(s)| <= |s|
    ensures Trim(s) == s[|s| - |TrimStart(s)|..|s| - |TrimStart(s)| + |Trim(s)|]
  {
    var t := TrimStart(s);
    var a := |s| - |t|;
    var r := Trim(s);
    TrimStartIsSuffix(s);
    assert t == s[a..];
    TrimEndIsPrefix(t);
    assert r == TrimEnd(t) == t[..|r|];
    assert s[a..][..|r|] == s[a..a + |r|];
  }

  /** Everything trim cuts off, on either side, is whitespace. */
  lemma TrimDropsWhitespace(s: string)
    ensures forall i :: 0 <= i < |s| - |TrimStart(s)| ==> IsWhitespace(s[i])
    ensures forall i :: |s| - |TrimStart(s)| + |Trim(s)| <= i < |s| ==> IsWhitespace(s[i])
  {
    var t := TrimStart(s);
    var a := |s| - |t|;
    TrimStartDropsWhitespace(s);
    TrimEndDropsWhitespace(t);
    TrimStartIsSuffix(s);
    assert forall i :: a <= i < |s| ==> s[i] == t[i - a];
  }

  /** A trimmed text is left as it is. */
  lemma TrimOfTrimmed(s: string)
    requires IsTrimmed(s)
    ensures TrimStart(s) == s && TrimEnd(s) == s && Trim(s) == s
  {
  }

  /** Trimming twice is trimming once. */
  lemma TrimIdempotent(s: string)
    ensures Trim(Trim(s)) == Trim(s)
  {
    var r := Trim(s);
    assert TrimStart(r) == r;
    assert TrimEnd(r) == r;
  }

  /** Every character of the trimmed text is a character of the text. */
  lemma TrimChars(s: string, c: char)
    requires c in Trim(s)
    ensures c in s
  {
    TrimIsSlice(s);
    var r := Trim(s);
    var a := |s| - |TrimStart(s)|;
    var i :| 0 <= i < |r| && r[i] == c;
    assert s[a + i] == r[i];
  }

  /** A block the trimmed text contains, the text contains. */
  lemma TrimContains(s: string, m: string)
    requires Contains(Trim(s), m)
    ensures Contains(s, m)
  {
    TrimIsSlice(s);
    var t := TrimStart(s);
    TrimStartIsSuffix(s);
    TrimEndIsPrefix(t);
    ContainsInPrefix(t, |Trim(s)|, m);
    ContainsInSuffix(s, |s| - |t|, m);
  }

  /** An occurrence at position k is contained. */
  lemma ContainsAt(s: string, m: string, k: nat)
    requires k + |m| <= |s| && s[k..k + |m|] == m
    ensures Contains(s, m)
  {
    assert m <= s[k..];
    ContainsInSuffix(s, k, m);
  }

  /** A contained block occurs at some position. */
  lemma {:induction false} ContainsPosition(s: string, m: string) returns (k: nat)
    requires Contains(s, m)
    ensures k + |m| <= |s| && s[k..k + |m|] == m
    decreases |s|
  {
    if m <= s {
      k := 0;
    } else {
      var k' := ContainsPosition(s[1..], m);
      k := k' + 1;
      assert s[k..k + |m|] == s[1..][k'..k' + |m|];
    }
  }

  /** Trimming never cuts into a non-empty block whose ends are not
      whitespace, so the trimmed text contains every such block the text
      contains. */
  lemma TrimKeepsContains(s: string, m: string)
    requires |m| > 0 && IsTrimmed(m) && Contains(s, m)
    ensures Contains(Trim(s), m)
  {
    var k := ContainsPosition(s, m);
    OccurrenceInsideTrim(s, m, k);
    TrimIsSlice(s);
    ContainsInSlice(s, |s| - |TrimStart(s)|, |s| - |TrimStart(s)| + |Trim(s)|, m, k, Trim(s));
  }

  /** A slice r of s holding an occurrence of m contains m. */
  lemma ContainsInSlice(s: string, a: nat, b: nat, m: string, k: nat, r: string)
    requires a <= k && k + |m| <= b <= |s| && s[k..k + |m|] == m && r == s[a..b]
    ensures Contains(r, m)
  {
    SliceOfSlice(s, a, b, k - a, k - a + |m|);
    ContainsAt(r, m, k - a);
  }

  /** An occurrence of such a block lies inside the part trim keeps. */
  lemma OccurrenceInsideTrim(s: string, m: string, k: nat)
    requires |m| > 0 && IsTrimmed(m) && k + |m| <= |s| && s[k..k + |m|] == m
    ensures |s| - |TrimStart(s)| <= k
    ensures k + |m| <= |s| - |TrimStart(s)| + |Trim(s)|
  {
    var e := k + |m| - 1;
    var w := s[k..k + |m|];
    assert w[0] == s[k] && w[|m| - 1] == s[e];
    TrimDropsWhitespace(s);
  }

  /** A slice of a slice is a slice. */
  lemma SliceOfSlice(s: string, a: nat, b: nat, i: nat, j: nat)
    requires a <= b <= |s| && i <= j <= b - a
    ensures s[a..b][i..j] == s[a + i..a + j]
  {
    var u := s[a..b][i..j];
    var v := s[a + i..a + j];
    assert |u| == |v|;
    forall t | 0 <= t < |u|
      ensures u[t] == v[t]
    {
      assert u[t] == s[a..b][i + t] == s[a + i + t];
    }
  }

  // ---------------------------------------------------------------------
  // split('\n') and join('\n')

  /** `lines.join('\n')`. */
  function Join(lines: seq<string>): string
  {
    if |lines| == 0 then []
    else if |lines| == 1 then lines[0]
    else lines[0] + "\n" + Join(lines[1..])
  }

  /** `s.split('\n')`: never empty, no piece holds a newline, and joining the
      pieces gives s back. */
  function Split(s: string): (r: seq<string>)
    ensures |r| >= 1
    ensures forall i :: 0 <= i < |r| ==> '\n' !in r[i]
    ensures Join(r) == s
    decreases |s|
  {
    if s == [] then [[]]
    else
      var rest := Split(s[1..]);
      if s[0] == '\n' then
        assert s == "\n" + s[1..];
        [[]] + rest
      else
        var r := [[s[0]] + rest[0]] + rest[1..];
        assert r[1..] == rest[1..];
        assert s == [s[0]] + s[1..];
        r
  }

  /** Splitting at a newline splits each side independently. */
  lemma {:induction false} SplitConcat(a: string, b: string)
    ensures Split(a + "\n" + b) == Split(a) + Split(b)
    decreases |a|
  {
    var s := a + "\n" + b;
    if a == [] {
      assert s[1..] == b;
    } else {
      assert s[1..] == a[1..] + "\n" + b;
      SplitConcat(a[1..], b);
    }
  }

  /** A newline-free text is one line. */
  lemma {:induction false} SplitOneLine(s: string)
    requires '\n' !in s
    ensures Split(s) == [s]
    decreases |s|
  {
    if s != [] {
      SplitOneLine(s[1..]);
      assert s == [s[0]] + s[1..];
    }
  }

  /** Joining newline-free lines and splitting again recovers the lines. */
  lemma {:induction false} SplitJoin(lines: seq<string>)
    requires |lines| >= 1
    requires forall i :: 0 <= i < |lines| ==> '\n' !in lines[i]
    ensures Split(Join(lines)) == lines
    decreases |lines|
  {
    if |lines| == 1 {
      SplitOneLine(lines[0]);
    } else {
      SplitOneLine(lines[0]);
      SplitJoin(lines[1..]);
      SplitConcat(lines[0], Join(lines[1..]));
      assert lines == [lines[0]] + lines[1..];
    }
  }

  /** A block held by one line is held by the joined text. */
  lemma {:induction false} ContainsInJoin(lines: seq<string>, i: nat, m: string)
    requires i < |lines| && Contains(lines[i], m)
    ensures Contains(Join(lines), m)
    decreases |lines|
  {
    if |lines| > 1 {
      var s := Join(lines);
      var head := lines[0] + "\n";
      assert s == head + Join(lines[1..]);
      if i == 0 {
        assert s[..|lines[0]|] == lines[0];
        ContainsInPrefix(s, |lines[0]|, m);
      } else {
        ContainsInJoin(lines[1..], i - 1, m);
        assert s[|head|..] == Join(lines[1..]);
        ContainsInSuffix(s, |head|, m);
      }
    }
  }

  /** A newline-free block held by the joined text is held by one line. */
  lemma {:induction false} JoinContains(lines: seq<string>, m: string)
    requires |lines| >= 1
    requires '\n' !in m && Contains(Join(lines), m)
    ensures exists i :: 0 <= i < |lines| && Contains(lines[i], m)
    decreases |lines|
  {
    if |lines| == 1 {
      assert Contains(lines[0], m);
    } else {
      assert Join(lines) == lines[0] + ['\n'] + Join(lines[1..]);
      ContainsAcross(lines[0], '\n', Join(lines[1..]), m);
      if !Contains(lines[0], m) {
        JoinContains(lines[1..], m);
        var i :| 0 <= i < |lines[1..]| && Contains(lines[1..][i], m);
        assert Contains(lines[i + 1], m);
      }
    }
  }

  // ---------------------------------------------------------------------
  // decimal rendering of a count in a template string

  predicate IsDigit(c: char) { '0' <= c <= '9' }

  function DigitChar(d: nat): (c: char)
    requires d < 10
    ensures IsDigit(c) && c as int - '0' as int == d
  {
    ('0' as int + d) as char
  }

  /** The number a digit string denotes. */
  function DecimalValue(s: string): nat
    requires forall i :: 0 <= i < |s| ==> IsDigit(s[i])
  {
    if s == [] then 0
    else
      var d := s[|s| - 1];
      assert IsDigit(d);
      DecimalValue(s[..|s| - 1]) * 10 + (d as int - '0' as int)
  }

  /** `${n}` for a non-negative integer: a non-empty digit string without a
      leading zero that denotes n. */
  function NatToString(n: nat): (s: string)
    ensures |s| >= 1
    ensures forall i :: 0 <= i < |s| ==> IsDigit(s[i])
    ensures s[0] != '0' || s == "0"
    ensures DecimalValue(s) == n
  {
    if n < 10 then [DigitChar(n)]
    else
      var s := NatToString(n / 10) + [DigitChar(n % 10)];
      assert s[..|s| - 1] == NatToString(n / 10);
      s
  }

  /** Distinct counts render differently. */
  lemma NatToStringInjective(m: nat, n: nat)
    requires NatToString(m) == NatToString(n)
    ensures m == n
  {
  }
}
