/// Token-level replacements for the regular expressions that the three
/// upper-casing revisions run over a normalised statement
/// (`' '.join(sql.split()).upper()`).  In normalised text every `\s+` is
/// exactly one space, so a statement is its token list and each regex
/// becomes a scan over tokens.  Keywords are matched as whole tokens.
module Scanners {
  import opened Text

  /** The tokens of `' '.join(s.split()).upper()`; the text itself is `JoinSpace` of them. */
  function Normalize(s: string): seq<string> {
    SplitWs(UpperStr(s))
  }

  /** A text that splits into no tokens is all white space. */
  lemma {:induction false} SplitWsEmpty(s: string)
    requires SplitWs(s) == []
    ensures forall k :: 0 <= k < |s| ==> IsSpace(s[k])
    decreases |s|
  {
    if s != [] && IsSpace(s[0]) {
      SplitWsEmpty(s[1..]);
      assert forall k :: 1 <= k < |s| ==> s[k] == s[1..][k - 1];
    }
  }

  /** A statement that is not blank (`sql.strip()` is truthy) has at least one token. */
  lemma NormalizeNonBlank(s: string)
    requires Strip(s) != []
    ensures Normalize(s) != []
  {
    StripSpec(s);
    var a := SkipSpace(s, 0);
    SkipSpaceSpec(s, 0);
    assert !IsSpace(s[a]) && !IsSpace(UpperStr(s)[a]);
    if Normalize(s) == [] {
      SplitWsEmpty(UpperStr(s));
    }
  }

  /** The character class `[\w\.]`. */
  predicate IsNameChar(c: char) {
    IsWordChar(c) || c == '.'
  }

  /** End of the run of `[\w\.]` characters that starts at `i`. */
  function NameRunEnd(t: string, i: nat): (r: nat)
    requires i <= |t|
    ensures i <= r <= |t|
    decreases |t| - i
  {
    if i < |t| && IsNameChar(t[i]) then NameRunEnd(t, i + 1) else i
  }

  lemma {:induction false} NameRunEndSpec(t: string, i: nat)
    requires i <= |t|
    ensures forall k :: i <= k < NameRunEnd(t, i) ==> IsNameChar(t[k])
    ensures NameRunEnd(t, i) == |t| || !IsNameChar(t[NameRunEnd(t, i)])
    decreases |t| - i
  {
    if i < |t| && IsNameChar(t[i]) {
      NameRunEndSpec(t, i + 1);
    }
  }

  /** End of the run of `\w` characters that starts at `i`. */
  function WordRunEnd(n: string, i: nat): (r: nat)
    requires i <= |n|
    ensures i <= r <= |n|
    decreases |n| - i
  {
    if i < |n| && IsWordChar(n[i]) then WordRunEnd(n, i + 1) else i
  }

  lemma {:induction false} WordRunEndSpec(n: string, i: nat)
    requires i <= |n|
    ensures forall k :: i <= k < WordRunEnd(n, i) ==> IsWordChar(n[k])
    ensures WordRunEnd(n, i) == |n| || !IsWordChar(n[WordRunEnd(n, i)])
    decreases |n| - i
  {
    if i < |n| && IsWordChar(n[i]) {
      WordRunEndSpec(n, i + 1);
    }
  }

  /** A word runs to its end. */
  lemma {:induction false} WordRunWhole(n: string, i: nat)
    requires i <= |n|
    requires forall k :: i <= k < |n| ==> IsWordChar(n[k])
    ensures WordRunEnd(n, i) == |n|
    decreases |n| - i
  {
    if i < |n| {
      WordRunWhole(n, i + 1);
    }
  }

  /** `n[i..]` matches `\w+(?:\.\w+){0,left}` in full. */
  predicate SegmentsFrom(n: string, i: nat, left: nat)
    requires i <= |n|
    decreases |n| - i
  {
    var e := WordRunEnd(n, i);
    e > i && (e == |n| || (n[e] == '.' && left > 0 && e + 1 <= |n| && SegmentsFrom(n, e + 1, left - 1)))
  }

  /** The whole of `n` matches `(?:\w+\.){0,3}\w+`: one to four non-empty
      word segments joined by single dots. */
  predicate Dotted(n: string) {
    SegmentsFrom(n, 0, 3)
  }

  /** A dotted name consists of `[\w\.]` characters and ends in a word character. */
  lemma {:induction false} SegmentsChars(n: string, i: nat, left: nat)
    requires i <= |n| && SegmentsFrom(n, i, left)
    ensures i < |n| && IsWordChar(n[|n| - 1])
    ensures forall k :: i <= k < |n| ==> IsNameChar(n[k])
    decreases |n| - i
  {
    WordRunEndSpec(n, i);
    var e := WordRunEnd(n, i);
    if e < |n| {
      SegmentsChars(n, e + 1, left - 1);
    }
  }

  /** `table_pattern` matched at the start of token `t`:
      `(?:\w+\.){0,3}\w+(?=\s|$|\))` when `parenOk`, and the same without
      the `\)` alternative otherwise.  The lookahead forces the match to
      end where the `[\w\.]` run ends, so the match is that run or nothing. */
  function NameAt(t: string, parenOk: bool): Option<string> {
    var e := NameRunEnd(t, 0);
    if Dotted(t[..e]) && (e == |t| || (parenOk && t[e] == ')')) then Some(t[..e]) else None
  }

  /** What `NameAt` captures, in both directions. */
  lemma NameAtSpec(t: string, parenOk: bool, n: string)
    ensures NameAt(t, parenOk) == Some(n) <==>
      Dotted(n) && StartsWith(t, n) && (|n| == |t| || (parenOk && t[|n|] == ')'))
  {
    NameRunEndSpec(t, 0);
    var e := NameRunEnd(t, 0);
    if Dotted(n) && StartsWith(t, n) && (|n| == |t| || (parenOk && t[|n|] == ')')) {
      SegmentsChars(n, 0, 3);
      assert forall k :: 0 <= k < |n| ==> t[k] == n[k];
      if e < |n| {
        assert false;
      }
      if e > |n| {
        assert false;
      }
    }
  }

  /** A whole-token dotted name is captured as itself. */
  lemma NameAtWhole(t: string, parenOk: bool)
    requires Dotted(t)
    ensures NameAt(t, parenOk) == Some(t)
  {
    NameAtSpec(t, parenOk, t);
  }

  /** A plain word is a one-segment dotted name and is captured as itself. */
  lemma NameAtWord(t: string, parenOk: bool)
    requires IsWord(t)
    ensures Dotted(t) && NameAt(t, parenOk) == Some(t)
  {
    WordRunWhole(t, 0);
    NameAtWhole(t, parenOk);
  }

  /** A non-empty string of `[\w\.]` characters: what every capture returns. */
  predicate NameShaped(n: string) {
    n != [] && forall k :: 0 <= k < |n| ==> IsNameChar(n[k])
  }

  lemma DottedShaped(n: string)
    requires Dotted(n)
    ensures NameShaped(n)
  {
    SegmentsChars(n, 0, 3);
  }

  // ---------------------------------------------------------------------
  // re.search over keyword alternatives

  /** End of the greedy match of `(?:\w+\.){0,left}\w+` from `i`: whole word
      segments joined by dots while another segment follows the dot.  It is
      `i` when no word character starts at `i`. */
  function PrefixEnd(t: string, i: nat, left: nat): (r: nat)
    requires i <= |t|
    ensures i <= r <= |t|
    decreases |t| - i
  {
    var e := WordRunEnd(t, i);
    if left > 0 && e > i && e + 1 < |t| && t[e] == '.' && IsWordChar(t[e + 1]) then PrefixEnd(t, e + 1, left - 1)
    else e
  }

  /** The greedy prefix is a dotted name of at most `left + 1` segments. */
  lemma {:induction false} PrefixEndDotted(t: string, i: nat, left: nat)
    requires i <= |t| && PrefixEnd(t, i, left) > i
    ensures SegmentsFrom(t[..PrefixEnd(t, i, left)], i, left)
    decreases |t| - i
  {
    var r := PrefixEnd(t, i, left);
    var u := t[..r];
    var e := WordRunEnd(t, i);
    WordRunEndSpec(t, i);
    WordRunPrefix(t, i, r);
    if left > 0 && e > i && e + 1 < |t| && t[e] == '.' && IsWordChar(t[e + 1]) {
      PrefixEndDotted(t, e + 1, left - 1);
      assert u[e] == '.';
    }
  }

  /** A word run that ends before `r` is the same in `t[..r]`. */
  lemma {:induction false} WordRunPrefix(t: string, i: nat, r: nat)
    requires i <= r <= |t| && WordRunEnd(t, i) <= r
    ensures WordRunEnd(t[..r], i) == WordRunEnd(t, i)
    decreases |t| - i
  {
    if i < |t| && IsWordChar(t[i]) {
      WordRunPrefix(t, i + 1, r);
    }
  }

  /** The capture group that follows a keyword phrase: `table_pattern`
      (`Qualified`), the plain run `[\w\.]+` (`Run`), or the greedy
      `(?:\w+\.){0,3}\w+` with no lookahead (`Prefix`). */
  datatype Capture = Qualified(parenOk: bool) | Run | Prefix

  function CaptureAt(t: string, cap: Capture): Option<string> {
    match cap
    case Qualified(parenOk) => NameAt(t, parenOk)
    case Run => var e := NameRunEnd(t, 0); if e > 0 then Some(t[..e]) else None
    case Prefix => var e := PrefixEnd(t, 0, 3); if e > 0 then Some(t[..e]) else None
  }

  lemma CaptureShaped(t: string, cap: Capture)
    requires CaptureAt(t, cap).Some?
    ensures NameShaped(CaptureAt(t, cap).value)
  {
    NameRunEndSpec(t, 0);
    if cap.Qualified? {
      DottedShaped(CaptureAt(t, cap).value);
    } else if cap.Prefix? {
      PrefixEndDotted(t, 0, 3);
      DottedShaped(CaptureAt(t, cap).value);
    }
  }

  /** The phrase `kw` (one token per word) starts at token `j` and the token
      after it starts with the capture. */
  function PhraseAt(ts: seq<string>, j: nat, kw: seq<string>, cap: Capture): Option<string> {
    if j + |kw| < |ts| && ts[j..j + |kw|] == kw then CaptureAt(ts[j + |kw|], cap) else None
  }

  /** `(?:INTO|UPDATE|MERGE INTO)\s+(table_pattern)`: the target phrase of an
      INSERT, UPDATE or MERGE. */
  const TargetAlts: seq<seq<string>> := [["INTO"], ["UPDATE"], ["MERGE", "INTO"]]

  /** The alternation `(?:A|B|…)\s+(name)` tried at token `j`, in list order. */
  function AltAt(ts: seq<string>, j: nat, alts: seq<seq<string>>, cap: Capture): Option<string>
    decreases |alts|
  {
    if alts == [] then None
    else match PhraseAt(ts, j, alts[0], cap)
      case Some(n) => Some(n)
      case None => AltAt(ts, j, alts[1..], cap)
  }

  /** The leftmost token at or after `i` where an alternative matches, or `|ts|`. */
  function FirstPhraseIndex(ts: seq<string>, alts: seq<seq<string>>, cap: Capture, i: nat): (r: nat)
    requires i <= |ts|
    ensures i <= r <= |ts|
    decreases |ts| - i
  {
    if i == |ts| || AltAt(ts, i, alts, cap).Some? then i
    else FirstPhraseIndex(ts, alts, cap, i + 1)
  }

  /** `re.search(…)` over the whole statement: the capture at the leftmost match. */
  function FirstPhrase(ts: seq<string>, alts: seq<seq<string>>, cap: Capture): Option<string> {
    var r := FirstPhraseIndex(ts, alts, cap, 0);
    if r < |ts| then AltAt(ts, r, alts, cap) else None
  }

  /** The search stops at the leftmost matching token and skips only tokens where nothing matches. */
  lemma {:induction false} FirstPhraseIndexSpec(ts: seq<string>, alts: seq<seq<string>>, cap: Capture, i: nat)
    requires i <= |ts|
    ensures forall k :: i <= k < FirstPhraseIndex(ts, alts, cap, i) ==> AltAt(ts, k, alts, cap).None?
    ensures FirstPhraseIndex(ts, alts, cap, i) < |ts| ==>
      AltAt(ts, FirstPhraseIndex(ts, alts, cap, i), alts, cap).Some?
    decreases |ts| - i
  {
    if i < |ts| && AltAt(ts, i, alts, cap).None? {
      FirstPhraseIndexSpec(ts, alts, cap, i + 1);
    }
  }

  /** `re.search` returns the capture of the leftmost match. */
  lemma FirstPhraseLeftmost(ts: seq<string>, alts: seq<seq<string>>, cap: Capture, j: nat)
    requires j < |ts| && AltAt(ts, j, alts, cap).Some?
    requires forall k :: 0 <= k < j ==> AltAt(ts, k, alts, cap).None?
    ensures FirstPhrase(ts, alts, cap) == AltAt(ts, j, alts, cap)
  {
    FirstPhraseIndexLeftmost(ts, alts, cap, j);
  }

  /** The leftmost matching token is where the search stops. */
  lemma FirstPhraseIndexLeftmost(ts: seq<string>, alts: seq<seq<string>>, cap: Capture, j: nat)
    requires j < |ts| && AltAt(ts, j, alts, cap).Some?
    requires forall k :: 0 <= k < j ==> AltAt(ts, k, alts, cap).None?
    ensures FirstPhraseIndex(ts, alts, cap, 0) == j
  {
    FirstPhraseIndexSpec(ts, alts, cap, 0);
    var r := FirstPhraseIndex(ts, alts, cap, 0);
    assert r <= j;
    assert !(r < j);
  }

  lemma {:induction false} AltShaped(ts: seq<string>, j: nat, alts: seq<seq<string>>, cap: Capture)
    requires AltAt(ts, j, alts, cap).Some?
    ensures NameShaped(AltAt(ts, j, alts, cap).value)
    decreases |alts|
  {
    if PhraseAt(ts, j, alts[0], cap).Some? {
      CaptureShaped(ts[j + |alts[0]|], cap);
    } else {
      AltShaped(ts, j, alts[1..], cap);
    }
  }

  lemma FirstPhraseShaped(ts: seq<string>, alts: seq<seq<string>>, cap: Capture)
    requires FirstPhrase(ts, alts, cap).Some?
    ensures NameShaped(FirstPhrase(ts, alts, cap).value)
  {
    AltShaped(ts, FirstPhraseIndex(ts, alts, cap, 0), alts, cap);
  }

  /** No alternative is spelled out by the tokens at `k`. */
  lemma {:induction false} AltAtNone(ts: seq<string>, k: nat, alts: seq<seq<string>>, cap: Capture)
    requires forall i :: 0 <= i < |alts| ==> !(k + |alts[i]| <= |ts| && ts[k..k + |alts[i]|] == alts[i])
    ensures AltAt(ts, k, alts, cap).None?
    decreases |alts|
  {
    if alts != [] {
      assert forall i :: 1 <= i < |alts| ==> alts[1..][i - 1] == alts[i];
      AltAtNone(ts, k, alts[1..], cap);
    }
  }

  /** A token that starts no alternative starts no match. */
  lemma AltAtHead(ts: seq<string>, k: nat, alts: seq<seq<string>>, cap: Capture)
    requires k < |ts|
    requires forall i :: 0 <= i < |alts| ==> alts[i] != [] && alts[i][0] != ts[k]
    ensures AltAt(ts, k, alts, cap).None?
  {
    forall i | 0 <= i < |alts|
      ensures !(k + |alts[i]| <= |ts| && ts[k..k + |alts[i]|] == alts[i])
    {
      if k + |alts[i]| <= |ts| {
        assert ts[k..k + |alts[i]|][0] == ts[k];
      }
    }
    AltAtNone(ts, k, alts, cap);
  }

  /** `re.search` comes back empty exactly when no token starts a match. */
  lemma FirstPhraseNone(ts: seq<string>, alts: seq<seq<string>>, cap: Capture)
    ensures FirstPhrase(ts, alts, cap).None? <==> forall k :: 0 <= k < |ts| ==> AltAt(ts, k, alts, cap).None?
  {
    FirstPhraseIndexSpec(ts, alts, cap, 0);
  }

  // ---------------------------------------------------------------------
  // re.finditer over `KW\s+(name)`

  /** Where `finditer` resumes after a match at token `i` that captured `n`:
      past the name, and with `skipAlias` (the suffix `\s*(?:AS\s+\w+)?`)
      also past an `AS word` that directly follows a whole-token name. */
  function Resume(ts: seq<string>, i: nat, n: string, skipAlias: bool): (r: nat)
    requires i + 1 < |ts|
    ensures i + 2 <= r
  {
    if skipAlias && |n| == |ts[i + 1]| && i + 3 < |ts| && ts[i + 2] == "AS" &&
       ts[i + 3] != [] && IsWordChar(ts[i + 3][0])
    then i + 4 else i + 2
  }

  /** The names captured, in order, by `finditer(KW\s+(name)…)` from token `i` on. */
  function NamesAfter(ts: seq<string>, kw: string, parenOk: bool, skipAlias: bool, i: nat): seq<string>
    decreases |ts| - i
  {
    if i + 1 >= |ts| then []
    else if ts[i] == kw && NameAt(ts[i + 1], parenOk).Some? then
      var n := NameAt(ts[i + 1], parenOk).value;
      [n] + NamesAfter(ts, kw, parenOk, skipAlias, Resume(ts, i, n, skipAlias))
    else NamesAfter(ts, kw, parenOk, skipAlias, i + 1)
  }

  /** Every captured name directly follows a keyword token. */
  lemma {:induction false} NamesAfterSound(ts: seq<string>, kw: string, parenOk: bool, skipAlias: bool, i: nat)
    ensures forall n :: n in NamesAfter(ts, kw, parenOk, skipAlias, i) ==>
      exists j :: i <= j && j + 1 < |ts| && ts[j] == kw && NameAt(ts[j + 1], parenOk) == Some(n)
    decreases |ts| - i
  {
    if i + 1 < |ts| {
      if ts[i] == kw && NameAt(ts[i + 1], parenOk).Some? {
        var n := NameAt(ts[i + 1], parenOk).value;
        NamesAfterSound(ts, kw, parenOk, skipAlias, Resume(ts, i, n, skipAlias));
      } else {
        NamesAfterSound(ts, kw, parenOk, skipAlias, i + 1);
      }
    }
  }

  /** Every captured name is a dotted name. */
  lemma {:induction false} NamesAfterDotted(ts: seq<string>, kw: string, parenOk: bool, skipAlias: bool, i: nat)
    ensures forall n :: n in NamesAfter(ts, kw, parenOk, skipAlias, i) ==> Dotted(n)
  {
    NamesAfterSound(ts, kw, parenOk, skipAlias, i);
    forall n | n in NamesAfter(ts, kw, parenOk, skipAlias, i)
      ensures Dotted(n)
    {
      var j :| i <= j && j + 1 < |ts| && ts[j] == kw && NameAt(ts[j + 1], parenOk) == Some(n);
      NameAtSpec(ts[j + 1], parenOk, n);
    }
  }

  /** Every keyword token followed by a name contributes that name, unless an
      earlier match swallowed the keyword (as its name, or with `skipAlias`
      as its `AS` alias). */
  lemma {:induction false} NamesAfterComplete(ts: seq<string>, kw: string, parenOk: bool, skipAlias: bool, i: nat, j: nat)
    requires kw != "AS"
    requires i <= j && j + 1 < |ts| && ts[j] == kw && NameAt(ts[j + 1], parenOk).Some?
    requires j == i || (ts[j - 1] != kw && (skipAlias ==> ts[j - 1] != "AS"))
    ensures NameAt(ts[j + 1], parenOk).value in NamesAfter(ts, kw, parenOk, skipAlias, i)
    decreases |ts| - i
  {
    if j > i {
      if ts[i] == kw && NameAt(ts[i + 1], parenOk).Some? {
        var n := NameAt(ts[i + 1], parenOk).value;
        var r := Resume(ts, i, n, skipAlias);
        assert r <= j;
        NamesAfterComplete(ts, kw, parenOk, skipAlias, r, j);
      } else {
        NamesAfterComplete(ts, kw, parenOk, skipAlias, i + 1, j);
      }
    }
  }

  // ---------------------------------------------------------------------
  // re.findall(r'WITH\s+(\w+)\s+AS\s*\(')

  /** `AS\s*\(` starting at token `k`. */
  predicate AsParen(ts: seq<string>, k: nat) {
    k < |ts| &&
    (StartsWith(ts[k], "AS(") || (ts[k] == "AS" && k + 1 < |ts| && StartsWith(ts[k + 1], "(")))
  }

  /** Token `j` starts `WITH name AS (`. */
  predicate CteAt(ts: seq<string>, j: nat) {
    j + 1 < |ts| && ts[j] == "WITH" && IsWord(ts[j + 1]) && AsParen(ts, j + 2)
  }

  /** The CTE names: each all-word token between `WITH` and `AS (`. */
  function CteNames(ts: seq<string>): (r: set<string>)
    ensures forall n :: n in r ==> IsWord(n)
  {
    set j | 0 <= j < |ts| - 1 && CteAt(ts, j) :: ts[j + 1]
  }

  // ---------------------------------------------------------------------
  // `p in sql` and `sql.find(p)`

  /** The first token at or after `i` that contains `p`, or `|ts|`.  This is
      `sql.find(p)` and `p in sql` read at token granularity. */
  function FirstTokenWith(ts: seq<string>, p: string, i: nat): (r: nat)
    requires i <= |ts|
    ensures i <= r <= |ts|
    decreases |ts| - i
  {
    if i == |ts| || FindFrom(ts[i], p, 0).Some? then i else FirstTokenWith(ts, p, i + 1)
  }

  /** A pattern whose first character is in no token is in no token. */
  lemma {:induction false} FirstTokenWithout(ts: seq<string>, p: string, i: nat)
    requires i <= |ts| && p != []
    requires forall k, c :: i <= k < |ts| && 0 <= c < |ts[k]| ==> ts[k][c] != p[0]
    ensures FirstTokenWith(ts, p, i) == |ts|
    decreases |ts| - i
  {
    if i < |ts| {
      FindFromAbsent(ts[i], p, 0);
      FirstTokenWithout(ts, p, i + 1);
    }
  }

  /** Some keyword of `ks` occurs in some token. */
  predicate AnyTokenWith(ts: seq<string>, ks: seq<string>)
    decreases |ks|
  {
    ks != [] && (FirstTokenWith(ts, ks[0], 0) < |ts| || AnyTokenWith(ts, ks[1..]))
  }

  lemma {:induction false} FirstTokenWithSpec(ts: seq<string>, p: string, i: nat)
    requires i <= |ts|
    ensures FirstTokenWith(ts, p, i) < |ts| <==> exists k :: i <= k < |ts| && Contains(ts[k], p)
    decreases |ts| - i
  {
    if i < |ts| {
      FindContains(ts[i], p);
      FirstTokenWithSpec(ts, p, i + 1);
    }
  }

  /** A keyword without spaces occurs in the normalised text exactly when
      it occurs in one of its tokens, so `p in sql` can be read per token. */
  lemma {:induction false} AnyTokenWithSpec(ts: seq<string>, ks: seq<string>)
    requires forall k :: k in ks ==> k != [] && ' ' !in k
    ensures AnyTokenWith(ts, ks) <==> exists k :: k in ks && Contains(JoinSpace(ts), k)
    decreases |ks|
  {
    if ks != [] {
      assert ks[0] in ks;
      assert forall k :: k in ks[1..] ==> k in ks;
      FirstTokenWithSpec(ts, ks[0], 0);
      ContainsJoin(ts, ks[0]);
      AnyTokenWithSpec(ts, ks[1..]);
      if exists k :: k in ks && Contains(JoinSpace(ts), k) {
        var k :| k in ks && Contains(JoinSpace(ts), k);
        if k != ks[0] {
          assert k in ks[1..];
        }
      }
    }
  }
}
