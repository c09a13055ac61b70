/// Character classes and string operations that every revision of the
/// lineage engine relies on (Python's `str.split`, `str.strip`, `in`,
/// `str.upper` and the regex classes `\w`, `\d`, `\s`), restricted to ASCII.
module Text {

  datatype Option<T> = None | Some(value: T)

  /** Python's `\w` on ASCII text. */
  predicate IsWordChar(c: char) {
    ('a' <= c <= 'z') || ('A' <= c <= 'Z') || ('0' <= c <= '9') || c == '_'
  }

  /** Python's `\d` on ASCII text. */
  predicate IsDigit(c: char) {
    '0' <= c <= '9'
  }

  /** Python's `\s` on ASCII text. */
  predicate IsSpace(c: char) {
    c == ' ' || c == '\t' || c == '\n' || c == '\r' || c == '\U{0B}' || c == '\U{0C}'
  }

  function Upper(c: char): char {
    if 'a' <= c <= 'z' then (c as int - 32) as char else c
  }

  /** `s.upper()` */
  function UpperStr(s: string): (r: string)
    ensures |r| == |s|
  {
    seq(|s|, i requires 0 <= i < |s| => Upper(s[i]))
  }

  predicate IsWord(s: string) {
    |s| > 0 && forall k :: 0 <= k < |s| ==> IsWordChar(s[k])
  }

  predicate NoSpace(s: string) {
    forall k :: 0 <= k < |s| ==> !IsSpace(s[k])
  }

  predicate StartsWith(s: string, p: string) {
    |p| <= |s| && s[..|p|] == p
  }

  /** `p` occurs in `s` at position `i`. */
  predicate OccursAt(s: string, p: string, i: nat) {
    i + |p| <= |s| && s[i..i + |p|] == p
  }

  /** Python's `p in s` on strings. */
  predicate Contains(s: string, p: string) {
    exists i: nat | i <= |s| :: OccursAt(s, p, i)
  }

  /** `s.find(p, i)`: the first position at or after `i` where `p` occurs. */
  function FindFrom(s: string, p: string, i: nat): (r: Option<nat>)
    requires i <= |s|
    ensures r.Some? ==> i <= r.value && OccursAt(s, p, r.value)
    decreases |s| - i
  {
    if OccursAt(s, p, i) then Some(i) else if i == |s| then None else FindFrom(s, p, i + 1)
  }

  /** The search skips only positions where `p` does not occur. */
  lemma {:induction false} FindFromSpec(s: string, p: string, i: nat)
    requires i <= |s|
    ensures FindFrom(s, p, i).None? ==> forall k :: i <= k <= |s| ==> !OccursAt(s, p, k)
    ensures FindFrom(s, p, i).Some? ==> forall k :: i <= k < FindFrom(s, p, i).value ==> !OccursAt(s, p, k)
    decreases |s| - i
  {
    if !OccursAt(s, p, i) && i < |s| {
      FindFromSpec(s, p, i + 1);
    }
  }

  /** A pattern whose first character does not occur is never found. */
  lemma FindFromAbsent(s: string, p: string, i: nat)
    requires i <= |s| && p != []
    requires forall k :: i <= k < |s| ==> s[k] != p[0]
    ensures FindFrom(s, p, i).None?
  {
    forall k | i <= k <= |s|
      ensures !OccursAt(s, p, k)
    {
      if k + |p| <= |s| {
        assert s[k..k + |p|][0] == s[k];
      }
    }
  }

  /** `p in s` is `s.find(p) != -1`. */
  lemma FindContains(s: string, p: string)
    ensures FindFrom(s, p, 0).Some? <==> Contains(s, p)
  {
    FindFromSpec(s, p, 0);
  }

  /** Index of the first non-space character at or after `i`. */
  function SkipSpace(s: string, i: nat): (r: nat)
    requires i <= |s|
    ensures i <= r <= |s|
    decreases |s| - i
  {
    if i < |s| && IsSpace(s[i]) then SkipSpace(s, i + 1) else i
  }

  /** Everything skipped is white space, and the scan stops at a non-space character or the end. */
  lemma {:induction false} SkipSpaceSpec(s: string, i: nat)
    requires i <= |s|
    ensures var r := SkipSpace(s, i);
      && (forall k :: i <= k < r ==> IsSpace(s[k]))
      && (r == |s| || !IsSpace(s[r]))
    decreases |s| - i
  {
    if i < |s| && IsSpace(s[i]) {
      SkipSpaceSpec(s, i + 1);
    }
  }

  /** Index just past the last non-space character before `j`, not going below `lo`. */
  function SkipSpaceBack(s: string, lo: nat, j: nat): (r: nat)
    requires lo <= j <= |s|
    ensures lo <= r <= j
    decreases j
  {
    if lo < j && IsSpace(s[j - 1]) then SkipSpaceBack(s, lo, j - 1) else j
  }

  /** Everything skipped is white space, and the scan stops after a non-space character or at `lo`. */
  lemma {:induction false} SkipSpaceBackSpec(s: string, lo: nat, j: nat)
    requires lo <= j <= |s|
    ensures var r := SkipSpaceBack(s, lo, j);
      && (forall k :: r <= k < j ==> IsSpace(s[k]))
      && (r == lo || !IsSpace(s[r - 1]))
    decreases j
  {
    if lo < j && IsSpace(s[j - 1]) {
      SkipSpaceBackSpec(s, lo, j - 1);
    }
  }

  /** `s.strip()`: the text between the leading and the trailing white space. */
  function Strip(s: string): (r: string)
    ensures |r| <= |s|
  {
    var a := SkipSpace(s, 0);
    s[a..SkipSpaceBack(s, a, |s|)]
  }

  /** A text that neither starts nor ends with white space is its own strip. */
  lemma StripTrimmed(s: string)
    requires s != [] && !IsSpace(s[0]) && !IsSpace(s[|s| - 1])
    ensures Strip(s) == s
  {
    assert SkipSpace(s, 0) == 0;
    assert SkipSpaceBack(s, 0, |s|) == |s|;
  }

  /** What was stripped is white space, and what is left neither starts nor ends with it. */
  lemma StripSpec(s: string)
    ensures var a := SkipSpace(s, 0);
      var b := SkipSpaceBack(s, a, |s|);
      && Strip(s) == s[a..b]
      && (forall k :: 0 <= k < a ==> IsSpace(s[k]))
      && (forall k :: b <= k < |s| ==> IsSpace(s[k]))
      && (Strip(s) == [] || (!IsSpace(s[a]) && !IsSpace(s[b - 1])))
  {
    SkipSpaceSpec(s, 0);
    SkipSpaceBackSpec(s, SkipSpace(s, 0), |s|);
  }

  /** Length of the run of non-space characters that starts `s`. */
  function WordLen(s: string): (n: nat)
    ensures n <= |s|
    ensures forall k :: 0 <= k < n ==> !IsSpace(s[k])
    ensures n == |s| || IsSpace(s[n])
  {
    if s == [] || IsSpace(s[0]) then 0 else 1 + WordLen(s[1..])
  }

  /** `s.split()`: the maximal runs of non-space characters, in order. */
  function SplitWs(s: string): (r: seq<string>)
    ensures forall k :: 0 <= k < |r| ==> r[k] != [] && NoSpace(r[k])
    decreases |s|
  {
    if s == [] then []
    else if IsSpace(s[0]) then SplitWs(s[1..])
    else
      var n := WordLen(s);
      [s[..n]] + SplitWs(s[n..])
  }

  /** `' '.join(ts)` */
  function JoinSpace(ts: seq<string>): string {
    if |ts| == 0 then ""
    else if |ts| == 1 then ts[0]
    else ts[0] + " " + JoinSpace(ts[1..])
  }

  /** A pattern without spaces occurs across a single space only on one side of it. */
  lemma ContainsAroundSpace(a: string, b: string, p: string)
    requires p != [] && ' ' !in p
    ensures Contains(a + " " + b, p) <==> Contains(a, p) || Contains(b, p)
  {
    var s := a + " " + b;
    if Contains(s, p) {
      var i: nat :| i <= |s| && OccursAt(s, p, i);
      if i + |p| <= |a| {
        OccursLeft(a, b, p, i);
      } else if i > |a| {
        OccursRight(a, b, p, i - |a| - 1);
      } else {
        OccursAcross(a, b, p, i);
      }
    }
    if Contains(a, p) {
      var i: nat :| i <= |a| && OccursAt(a, p, i);
      OccursLeft(a, b, p, i);
    }
    if Contains(b, p) {
      var i: nat :| i <= |b| && OccursAt(b, p, i);
      OccursRight(a, b, p, i);
    }
  }

  lemma OccursLeft(a: string, b: string, p: string, i: nat)
    requires i + |p| <= |a|
    ensures OccursAt(a + " " + b, p, i) <==> OccursAt(a, p, i)
  {
    var u, v := (a + " " + b)[i..i + |p|], a[i..i + |p|];
    assert forall m :: 0 <= m < |p| ==> u[m] == v[m];
    assert u == v;
  }

  lemma OccursRight(a: string, b: string, p: string, i: nat)
    requires i + |p| <= |b|
    ensures OccursAt(a + " " + b, p, |a| + 1 + i) <==> OccursAt(b, p, i)
  {
    var u, v := (a + " " + b)[|a| + 1 + i..|a| + 1 + i + |p|], b[i..i + |p|];
    assert forall m :: 0 <= m < |p| ==> u[m] == v[m];
    assert u == v;
  }

  lemma OccursAcross(a: string, b: string, p: string, i: nat)
    requires ' ' !in p && i <= |a| < i + |p|
    ensures !OccursAt(a + " " + b, p, i)
  {
    var s := a + " " + b;
    if i + |p| <= |s| {
      assert s[i..i + |p|][|a| - i] == ' ';
    }
  }

  /** `p in ' '.join(ts)` for a pattern without spaces: `p` is in one of the tokens. */
  lemma {:induction false} ContainsJoin(ts: seq<string>, p: string)
    requires p != [] && ' ' !in p
    ensures Contains(JoinSpace(ts), p) <==> exists k :: 0 <= k < |ts| && Contains(ts[k], p)
  {
    if |ts| == 0 {
      assert !OccursAt("", p, 0);
    } else if |ts| > 1 {
      ContainsJoin(ts[1..], p);
      ContainsAroundSpace(ts[0], JoinSpace(ts[1..]), p);
      if exists k :: 0 <= k < |ts| && Contains(ts[k], p) {
        var k :| 0 <= k < |ts| && Contains(ts[k], p);
        if k > 0 {
          assert ts[1..][k - 1] == ts[k];
        }
      }
    }
  }

  /** `s.split(sep)` for a one-character separator. */
  function SplitOn(s: string, sep: char): (r: seq<string>)
    ensures |r| >= 1
    ensures forall k :: 0 <= k < |r| ==> sep !in r[k]
  {
    if |s| == 0 then [[]]
    else if s[0] == sep then [[]] + SplitOn(s[1..], sep)
    else
      var rest := SplitOn(s[1..], sep);
      [[s[0]] + rest[0]] + rest[1..]
  }

  /** The text splits into more than one part exactly when it holds the separator. */
  lemma {:induction false} SplitOnSingle(s: string, sep: char)
    ensures |SplitOn(s, sep)| == 1 <==> sep !in s
  {
    if |s| > 0 {
      SplitOnSingle(s[1..], sep);
      assert s == [s[0]] + s[1..];
    }
  }

  /** `sep.join(parts)` for a one-character separator. */
  function JoinOn(parts: seq<string>, sep: char): string
    requires |parts| >= 1
  {
    if |parts| == 1 then parts[0] else parts[0] + [sep] + JoinOn(parts[1..], sep)
  }

  /** Splitting on a character and joining again with it gives back the text. */
  lemma {:induction false} JoinSplit(s: string, sep: char)
    ensures JoinOn(SplitOn(s, sep), sep) == s
  {
    if |s| == 0 {
    } else if s[0] == sep {
      JoinSplit(s[1..], sep);
      assert [sep] + s[1..] == s;
    } else {
      var rest := SplitOn(s[1..], sep);
      JoinSplit(s[1..], sep);
      if |rest| == 1 {
        assert SplitOn(s, sep) == [[s[0]] + rest[0]];
      } else {
        assert SplitOn(s, sep)[1..] == rest[1..];
        assert [s[0]] + rest[0] + [sep] + JoinOn(rest[1..], sep) == [s[0]] + (rest[0] + [sep] + JoinOn(rest[1..], sep));
      }
      assert [s[0]] + s[1..] == s;
    }
  }

  /** Joining all parts equals joining all but the last, the separator, and the last. */
  lemma {:induction false} JoinOnLast(parts: seq<string>, sep: char)
    requires |parts| >= 2
    ensures JoinOn(parts, sep) == JoinOn(parts[..|parts| - 1], sep) + [sep] + parts[|parts| - 1]
  {
    if |parts| == 2 {
    } else {
      JoinOnLast(parts[1..], sep);
      assert parts[1..][..|parts| - 2] == parts[..|parts| - 1][1..];
    }
  }

  function Last<T>(s: seq<T>): T
    requires |s| >= 1
  {
    s[|s| - 1]
  }

  /** Decimal digit character for `d`. */
  function DigitChar(d: nat): (c: char)
    requires d < 10
    ensures IsDigit(c)
  {
    ('0' as int + d) as char
  }

  /** Python's `str(n)` for a natural number. */
  function NatToString(n: nat): (r: string)
    ensures |r| >= 1
    ensures n < 10 <==> |r| == 1
    decreases n
  {
    if n < 10 then [DigitChar(n)] else NatToString(n / 10) + [DigitChar(n % 10)]
  }

  /** Different numbers print differently. */
  lemma {:induction false} NatToStringInjective(a: nat, b: nat)
    requires NatToString(a) == NatToString(b)
    ensures a == b
  {
    if a >= 10 && b >= 10 {
      var ra, rb := NatToString(a), NatToString(b);
      assert ra[|ra| - 1] == DigitChar(a % 10) && rb[|rb| - 1] == DigitChar(b % 10);
      assert NatToString(a / 10) == ra[..|ra| - 1] == rb[..|rb| - 1] == NatToString(b / 10);
      NatToStringInjective(a / 10, b / 10);
    }
  }
}
