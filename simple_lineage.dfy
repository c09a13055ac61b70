/// `SQLLineageParser` of advanced/sttm/sql_lineage_parser.py: the revision
/// that scans the raw statement text (comments removed, no upper-casing,
/// case-insensitive keywords), keeps a target → set-of-sources dictionary
/// and an `all_tables` set, and records only CREATE statements.
module SimpleLineage {
  import opened Text
  import opened Graph
  import opened Scanners
  import opened Lineage
  import LogLineage

  // ---------------------------------------------------------------------
  // Comment removal

  /** `re.sub(r'--.*$', '', sql, flags=re.MULTILINE)` from position `i`:
      each `--` goes together with the rest of its line; the newline stays. */
  function LineStrip(s: string, i: nat): string
    requires i <= |s|
    decreases |s| - i
  {
    if i == |s| then []
    else if i + 1 < |s| && s[i] == '-' && s[i + 1] == '-' then LineStrip(s, LogLineage.LineEnd(s, i + 2))
    else [s[i]] + LineStrip(s, i + 1)
  }

  /** No `--` anywhere in `r`. */
  predicate NoDoubleDash(r: string) {
    forall k :: 0 <= k < |r| - 1 ==> !(r[k] == '-' && r[k + 1] == '-')
  }

  /** After the line-comment pass no `--` is left, not even one formed by
      joining the text around a removed comment. */
  lemma {:induction false} LineStripNoComment(s: string, i: nat)
    requires i <= |s|
    ensures NoDoubleDash(LineStrip(s, i))
    decreases |s| - i
  {
    if i < |s| {
      if i + 1 < |s| && s[i] == '-' && s[i + 1] == '-' {
        LineStripNoComment(s, LogLineage.LineEnd(s, i + 2));
      } else {
        LineStripNoComment(s, i + 1);
        var rest := LineStrip(s, i + 1);
        if s[i] == '-' && rest != [] {
          assert rest[0] == s[i + 1];
        }
      }
    }
  }

  /** A text without `--` passes the line-comment pass unchanged. */
  lemma {:induction false} LineStripPlain(s: string, i: nat)
    requires i <= |s| && NoDoubleDash(s)
    ensures LineStrip(s, i) == s[i..]
    decreases |s| - i
  {
    if i < |s| {
      if i + 1 < |s| {
        assert !(s[i] == '-' && s[i + 1] == '-');
      }
      LineStripPlain(s, i + 1);
      assert LineStrip(s, i) == [s[i]] + LineStrip(s, i + 1);
      assert s[i..] == [s[i]] + s[i + 1..];
    }
  }

  // `re.sub(r'/\*.*?\*/', '', sql, flags=re.DOTALL)` from position `i`:
  // a `/*` goes with everything up to the first `*/` after it; a `/*`
  // that is never closed stays.
  function BlockStrip(s: string, i: nat): string
    requires i <= |s|
    decreases |s| - i
  {
    if i == |s| then []
    else if i + 1 < |s| && s[i] == '/' && s[i + 1] == '*' && FindFrom(s, "*/", i + 2).Some? then
      BlockStrip(s, FindFrom(s, "*/", i + 2).value + 2)
    else [s[i]] + BlockStrip(s, i + 1)
  }

  // No `/*` anywhere in `r`.
  predicate NoOpener(r: string) {
    forall k :: 0 <= k < |r| - 1 ==> !(r[k] == '/' && r[k + 1] == '*')
  }

  // A text without `/*` passes the block-comment pass unchanged.
  lemma {:induction false} BlockStripPlain(s: string, i: nat)
    requires i <= |s| && NoOpener(s)
    ensures BlockStrip(s, i) == s[i..]
    decreases |s| - i
  {
    if i < |s| {
      if i + 1 < |s| {
        assert !(s[i] == '/' && s[i + 1] == '*');
      }
      BlockStripPlain(s, i + 1);
      assert BlockStrip(s, i) == [s[i]] + BlockStrip(s, i + 1);
      assert s[i..] == [s[i]] + s[i + 1..];
    }
  }

  // `/*`, a body without `*/`, then `*/`: the whole comment goes, and
  // the pass goes on right after it.
  lemma BlockCommentRemoved(s: string, i: nat, body: nat)
    requires i + 2 + body + 2 <= |s|
    requires s[i] == '/' && s[i + 1] == '*' && s[i + 2 + body] == '*' && s[i + 3 + body] == '/'
    requires forall k :: i + 2 <= k < i + 2 + body ==> !(s[k] == '*' && s[k + 1] == '/')
    ensures BlockStrip(s, i) == BlockStrip(s, i + 4 + body)
  {
    FindCloser(s, i + 2, i + 2 + body);
  }

  /** The lazy `.*?\*\/` stops at the first closer. */
  lemma {:induction false} FindCloser(s: string, j: nat, c: nat)
    requires j <= c && c + 2 <= |s| && s[c] == '*' && s[c + 1] == '/'
    requires forall k :: j <= k < c ==> !(s[k] == '*' && s[k + 1] == '/')
    ensures FindFrom(s, "*/", j) == Some(c)
    decreases c - j
  {
    assert s[j..j + 2][0] == s[j] && s[j..j + 2][1] == s[j + 1];
    if j < c {
      FindCloser(s, j + 1, c);
    } else {
      assert s[c..c + 2] == "*/";
    }
  }

  // ---------------------------------------------------------------------
  // The reference scan

  /** `(?:FROM|JOIN|INTO|UPDATE|MERGE INTO)`, in alternation order; the scan ignores case. */
  const RefKeywords: seq<string> := ["FROM", "JOIN", "INTO", "UPDATE", "MERGE INTO"]

  /** `KW\s+(name)` at position `i` for the keyword `k`, with the name
      `[a-zA-Z0-9_]+(?:\.[a-zA-Z0-9_]+){0,2}\.?[a-zA-Z0-9_]+`: the span of
      the capture.  That pattern takes, greedily, the first one to four
      dot-joined word segments, and needs at least two characters. */
  function RefAt(s: string, i: nat, k: string): (r: Option<(nat, nat)>)
    requires i <= |s|
    ensures r.Some? ==> i + |k| < r.value.0 && r.value.0 + 2 <= r.value.1 <= |s|
  {
    if LogLineage.LitAt(s, k, i) then
      var j := SkipSpace(s, i + |k|);
      var e := PrefixEnd(s[j..], 0, 3);
      if j > i + |k| && e >= 2 then Some((j, j + e)) else None
    else None
  }

  /** The alternation tried at `i`, in order. */
  function FirstRefAt(s: string, i: nat, ks: seq<string>): (r: Option<(nat, nat)>)
    requires i <= |s|
    ensures r.Some? ==> i < r.value.0 && r.value.0 + 2 <= r.value.1 <= |s|
    decreases |ks|
  {
    if ks == [] then None
    else if RefAt(s, i, ks[0]).Some? then RefAt(s, i, ks[0])
    else FirstRefAt(s, i, ks[1..])
  }

  /** `re.finditer(table_pattern, sql, re.IGNORECASE)` from `i`: the captures in order. */
  function Refs(s: string, i: nat): seq<string>
    requires i <= |s|
    decreases |s| - i
  {
    if i == |s| then []
    else match FirstRefAt(s, i, RefKeywords)
      case Some(m) => [s[m.0..m.1]] + Refs(s, m.1)
      case None => Refs(s, i + 1)
  }

  /** `s` holds, at some position, a keyword whose capture is `r`. */
  ghost predicate Captured(s: string, r: string) {
    exists a, k :: 0 <= a <= |s| && k in RefKeywords && RefAt(s, a, k).Some? &&
      r == s[RefAt(s, a, k).value.0..RefAt(s, a, k).value.1]
  }

  lemma {:induction false} FirstRefCaptured(s: string, i: nat, ks: seq<string>)
    requires i <= |s| && FirstRefAt(s, i, ks).Some?
    ensures exists k :: k in ks && RefAt(s, i, k) == FirstRefAt(s, i, ks)
    decreases |ks|
  {
    if RefAt(s, i, ks[0]).None? {
      FirstRefCaptured(s, i, ks[1..]);
      var k :| k in ks[1..] && RefAt(s, i, k) == FirstRefAt(s, i, ks[1..]);
      assert k in ks;
    }
  }

  /** One capture has at least two characters and one to four segments. */
  lemma RefShaped(s: string, i: nat, k: string)
    requires i <= |s| && k in RefKeywords && RefAt(s, i, k).Some?
    ensures var m := RefAt(s, i, k).value;
      |s[m.0..m.1]| >= 2 && Dotted(s[m.0..m.1]) && Captured(s, s[m.0..m.1])
  {
    var m := RefAt(s, i, k).value;
    RefDotted(s, i, k);
    assert 0 <= i <= |s| && k in RefKeywords && RefAt(s, i, k).Some? &&
      s[m.0..m.1] == s[RefAt(s, i, k).value.0..RefAt(s, i, k).value.1];
  }

  lemma RefDotted(s: string, i: nat, k: string)
    requires i <= |s| && RefAt(s, i, k).Some?
    ensures var m := RefAt(s, i, k).value; Dotted(s[m.0..m.1])
  {
    var m := RefAt(s, i, k).value;
    var t := s[m.0..];
    var e := PrefixEnd(t, 0, 3);
    assert m.1 == m.0 + e;
    PrefixEndDotted(t, 0, 3);
    assert t[..e] == s[m.0..m.1];
  }

  /** A reference as the scan returns it. */
  ghost predicate GoodRef(s: string, r: string) {
    |r| >= 2 && Dotted(r) && Captured(s, r)
  }

  lemma FirstRefShaped(s: string, i: nat)
    requires i <= |s| && FirstRefAt(s, i, RefKeywords).Some?
    ensures var m := FirstRefAt(s, i, RefKeywords).value;
      |s[m.0..m.1]| >= 2 && Dotted(s[m.0..m.1]) && Captured(s, s[m.0..m.1])
  {
    FirstRefCaptured(s, i, RefKeywords);
    var k :| k in RefKeywords && RefAt(s, i, k) == FirstRefAt(s, i, RefKeywords);
    RefShaped(s, i, k);
  }

  /** Every reference has at least two characters and one to four
      dot-separated segments, and is the capture of a keyword in the text. */
  lemma {:induction false} RefsShaped(s: string, i: nat)
    requires i <= |s|
    ensures forall r :: r in Refs(s, i) ==> GoodRef(s, r)
    decreases |s| - i
  {
    if i < |s| {
      var f := FirstRefAt(s, i, RefKeywords);
      if f.Some? {
        var m := f.value;
        RefsShaped(s, m.1);
        FirstRefShaped(s, i);
        assert GoodRef(s, s[m.0..m.1]);
        assert Refs(s, i) == [s[m.0..m.1]] + Refs(s, m.1);
      } else {
        RefsShaped(s, i + 1);
        assert Refs(s, i) == Refs(s, i + 1);
      }
    }
  }

  /** Where `finditer` tries next after position `i`: past the match, or one further. */
  function ScanNext(s: string, i: nat): (r: nat)
    requires i < |s|
    ensures i < r <= |s|
  {
    match FirstRefAt(s, i, RefKeywords)
      case Some(m) => m.1
      case None => i + 1
  }

  /** `a` is a position the scan from `i` tries: `i` itself, or one the scan
      resumes at after failing to match or after a match. */
  ghost predicate Reached(s: string, i: nat, a: nat)
    requires i <= |s|
    decreases |s| - i
  {
    a == i || (i < |s| && Reached(s, ScanNext(s, i), a))
  }

  /** The scan tries every position it resumes at: reached positions are
      closed under one more step. */
  lemma {:induction false} ReachedNext(s: string, i: nat, a: nat)
    requires i <= a < |s| && Reached(s, i, a)
    ensures Reached(s, i, ScanNext(s, a))
    decreases |s| - i
  {
    if a != i {
      ReachedBounds(s, ScanNext(s, i), a);
      ReachedNext(s, ScanNext(s, i), a);
    }
  }

  lemma {:induction false} ReachedBounds(s: string, i: nat, a: nat)
    requires i <= |s| && Reached(s, i, a)
    ensures i <= a <= |s|
    decreases |s| - i
  {
    if a != i {
      ReachedBounds(s, ScanNext(s, i), a);
    }
  }

  /** What the attempt at `i` contributes: the capture of its match, if any. */
  function Attempt(s: string, i: nat): seq<string>
    requires i < |s|
  {
    match FirstRefAt(s, i, RefKeywords)
      case Some(m) => [s[m.0..m.1]]
      case None => []
  }

  lemma RefsStep(s: string, i: nat)
    requires i < |s|
    ensures Refs(s, i) == Attempt(s, i) + Refs(s, ScanNext(s, i))
  {
  }

  /** The references from a reached position are a suffix of the references. */
  lemma {:induction false} RefsSuffix(s: string, i: nat, a: nat) returns (p: nat)
    requires i <= |s| && Reached(s, i, a)
    ensures a <= |s| && p <= |Refs(s, i)|
    ensures Refs(s, i) == Refs(s, i)[..p] + Refs(s, a)
    decreases |s| - i
  {
    if a == i {
      p := 0;
      assert Refs(s, i)[..0] == [];
    } else {
      var n := ScanNext(s, i);
      var q := RefsSuffix(s, n, a);
      RefsStep(s, i);
      p := PrefixJoin(Refs(s, i), Attempt(s, i), Refs(s, n), q, Refs(s, a));
    }
  }

  lemma PrefixJoin(r: seq<string>, h: seq<string>, t: seq<string>, q: nat, u: seq<string>) returns (p: nat)
    requires r == h + t && q <= |t| && t == t[..q] + u
    ensures p == |h| + q && p <= |r| && r == r[..p] + u
  {
    p := |h| + q;
    assert r[..p] == h + t[..q];
  }

  /** No match is lost: the capture of every match at a position the scan
      tries is among the references, in occurrence order, followed by
      exactly the references after that match. */
  lemma {:induction false} RefsComplete(s: string, i: nat, a: nat, m: (nat, nat))
    requires i <= a <= |s| && Reached(s, i, a)
    requires FirstRefAt(s, a, RefKeywords) == Some(m)
    ensures m.0 <= m.1 <= |s|
    ensures exists p :: 0 <= p <= |Refs(s, i)| && Refs(s, i) == Refs(s, i)[..p] + [s[m.0..m.1]] + Refs(s, m.1)
  {
    var p := RefsSuffix(s, i, a);
    RefsAtMatch(s, a, m);
    Regroup(Refs(s, i), Refs(s, i)[..p], s[m.0..m.1], Refs(s, m.1), Refs(s, a));
  }

  lemma Regroup(r: seq<string>, before: seq<string>, x: string, after: seq<string>, tail: seq<string>)
    requires r == before + tail && tail == [x] + after
    ensures r == before + [x] + after
  {
  }

  lemma RefsAtMatch(s: string, a: nat, m: (nat, nat))
    requires a <= |s| && FirstRefAt(s, a, RefKeywords) == Some(m)
    ensures a < m.0 <= m.1 <= |s|
    ensures Refs(s, a) == [s[m.0..m.1]] + Refs(s, m.1)
  {
  }

  /** The text after both comment passes. */
  function Uncommented(sql: string): string {
    BlockStrip(LineStrip(sql, 0), 0)
  }

  /** `extract_table_names`: the references of the comment-free text, in
      order of occurrence and with duplicates; each is a keyword's capture
      in that text. */
  function ExtractTableNames(sql: string): (refs: seq<string>)
    ensures forall r :: r in refs ==> GoodRef(Uncommented(sql), r)
  {
    var text := Uncommented(sql);
    RefsShaped(text, 0);
    Refs(text, 0)
  }

  /** Conversely, no match the scan of the comment-free text tries is lost:
      its capture is among the references, after those of earlier matches
      and before those of later ones. */
  lemma ExtractTableNamesComplete(sql: string, a: nat, m: (nat, nat))
    requires a <= |Uncommented(sql)| && Reached(Uncommented(sql), 0, a)
    requires FirstRefAt(Uncommented(sql), a, RefKeywords) == Some(m)
    ensures m.0 <= m.1 <= |Uncommented(sql)|
    ensures exists p :: (0 <= p <= |ExtractTableNames(sql)| &&
      ExtractTableNames(sql) == ExtractTableNames(sql)[..p] + [Uncommented(sql)[m.0..m.1]] + Refs(Uncommented(sql), m.1))
  {
    var text := Uncommented(sql);
    var refs := ExtractTableNames(sql);
    assert refs == Refs(text, 0);
    RefsComplete(text, 0, a, m);
    var p :| 0 <= p <= |refs| && refs == refs[..p] + [text[m.0..m.1]] + Refs(text, m.1);
  }

  /** No character in `s[i..j]` begins a keyword. */
  predicate NoInitialIn(s: string, i: nat, j: nat)
    requires i <= j <= |s|
    decreases j - i
  {
    i == j || (Upper(s[i]) !in "FJIUM" && NoInitialIn(s, i + 1, j))
  }

  /** The stretch `s[i..j]` read off a copy `u` of the text, shifted by `d`. */
  lemma {:induction false} NoInitialCopy(s: string, i: nat, j: nat, u: string, d: nat)
    requires d <= i <= j <= |s| && j - d <= |u|
    requires forall m :: i <= m < j ==> s[m] == u[m - d]
    requires NoInitialIn(u, i - d, j - d)
    ensures NoInitialIn(s, i, j)
    decreases j - i
  {
    if i < j {
      NoInitialCopy(s, i + 1, j, u, d);
    }
  }

  /** A stretch where no character begins a keyword adds no reference. */
  lemma {:induction false} SkipInitials(s: string, i: nat, j: nat)
    requires i <= j <= |s| && NoInitialIn(s, i, j)
    ensures Refs(s, i) == Refs(s, j)
    decreases j - i
  {
    if i < j {
      NoInitial(s, i);
      SkipOne(s, i);
      SkipInitials(s, i + 1, j);
    }
  }

  /** A position where no keyword starts a reference adds nothing. */
  lemma SkipOne(s: string, i: nat)
    requires i < |s| && FirstRefAt(s, i, RefKeywords).None?
    ensures Refs(s, i) == Refs(s, i + 1)
  {
  }

  /** The keywords and their initials. */
  lemma RefInitials()
    ensures |RefKeywords| == 5 && RefKeywords[0] == "FROM" && RefKeywords[1] == "JOIN" && RefKeywords[2] == "INTO"
    ensures RefKeywords[3] == "UPDATE" && RefKeywords[4] == "MERGE INTO"
    ensures forall l :: 0 <= l < |RefKeywords| ==> RefKeywords[l] != [] && RefKeywords[l][0] in "FJIUM"
  {
  }

  /** Where none of the keywords occurs, no reference starts. */
  lemma {:induction false} FirstRefAtNoLit(s: string, i: nat, ks: seq<string>)
    requires i <= |s| && forall l :: 0 <= l < |ks| ==> !LogLineage.LitAt(s, ks[l], i)
    ensures FirstRefAt(s, i, ks).None?
    decreases |ks|
  {
    if ks != [] {
      assert forall l :: 0 <= l < |ks| - 1 ==> ks[1..][l] == ks[l + 1];
      FirstRefAtNoLit(s, i, ks[1..]);
    }
  }

  /** The first keyword that occurs decides the reference. */
  lemma {:induction false} FirstRefAtHit(s: string, i: nat, ks: seq<string>, j: nat)
    requires i <= |s| && j < |ks| && RefAt(s, i, ks[j]).Some?
    requires forall l :: 0 <= l < j ==> !LogLineage.LitAt(s, ks[l], i)
    ensures FirstRefAt(s, i, ks) == RefAt(s, i, ks[j])
    decreases j
  {
    if j > 0 {
      assert ks[1..][j - 1] == ks[j];
      assert forall l :: 0 <= l < j - 1 ==> ks[1..][l] == ks[l + 1];
      FirstRefAtHit(s, i, ks[1..], j - 1);
    }
  }

  /** The keyword list, case by case: nothing occurs, `INTO` is the first
      to occur, `FROM` occurs. */
  lemma RefNone(s: string, i: nat)
    requires i <= |s| && !LogLineage.LitAt(s, "FROM", i) && !LogLineage.LitAt(s, "JOIN", i)
    requires !LogLineage.LitAt(s, "INTO", i) && !LogLineage.LitAt(s, "UPDATE", i) && !LogLineage.LitAt(s, "MERGE INTO", i)
    ensures FirstRefAt(s, i, RefKeywords).None?
  {
    RefInitials();
    FirstRefAtNoLit(s, i, RefKeywords);
  }

  lemma RefInto(s: string, i: nat)
    requires i <= |s| && !LogLineage.LitAt(s, "FROM", i) && !LogLineage.LitAt(s, "JOIN", i)
    requires RefAt(s, i, "INTO").Some?
    ensures FirstRefAt(s, i, RefKeywords) == RefAt(s, i, "INTO")
  {
    RefInitials();
    FirstRefAtHit(s, i, RefKeywords, 2);
  }

  lemma RefFrom(s: string, i: nat)
    requires i <= |s| && RefAt(s, i, "FROM").Some?
    ensures FirstRefAt(s, i, RefKeywords) == RefAt(s, i, "FROM")
  {
    RefInitials();
    FirstRefAtHit(s, i, RefKeywords, 0);
  }

  /** No reference starts at a character that begins no keyword. */
  lemma NoInitial(s: string, k: nat)
    requires k < |s| && Upper(s[k]) !in "FJIUM"
    ensures FirstRefAt(s, k, RefKeywords).None?
  {
    RefInitials();
    forall l | 0 <= l < |RefKeywords|
      ensures !LogLineage.LitAt(s, RefKeywords[l], k)
    {
    }
    FirstRefAtNoLit(s, k, RefKeywords);
  }

  /** An INSERT whose `INTO` table is also read. */
  const InsertStatement: string := "INSERT INTO ab SELECT * FROM ab"

  lemma InsertPlain()
    ensures BlockStrip(LineStrip(InsertStatement, 0), 0) == InsertStatement
  {
    var s := InsertStatement;
    assert forall k :: 0 <= k < |s| ==> s[k] != '-' && s[k] != '/';
    LineStripPlain(s, 0);
    BlockStripPlain(s, 0);
  }

  /** The statement, piece by piece. */
  lemma InsertPieces(s: string)
    requires s == InsertStatement
    ensures |s| == 31 && s[..15] == "INSERT INTO ab " && s[14..24] == " SELECT * " && s[24..] == "FROM ab"
  {
    var a, b, c := "INSERT INTO ab", " SELECT * ", "FROM ab";
    assert s == a + b + c;
    assert s[..14] == a && s[14..24] == b && s[24..] == c;
    assert s[..15] == s[..14] + [s[14]];
  }

  /** Nothing is captured before `INTO`. */
  lemma InsertHead(s: string)
    requires |s| >= 15 && s[..15] == "INSERT INTO ab "
    ensures Refs(s, 0) == Refs(s, 7)
  {
    InsertHeadChars(s);
    InsertFirst(s);
    SkipOne(s, 0);
    SkipInitials(s, 1, 7);
  }

  lemma InsertHeadChars(s: string)
    requires |s| >= 15 && s[..15] == "INSERT INTO ab "
    ensures s[0] == 'I' && s[1] == 'N' && s[2] == 'S' && NoInitialIn(s, 1, 7)
  {
    var u := s[..15];
    assert forall m :: 0 <= m < 15 ==> s[m] == u[m];
    assert NoInitialIn("INSERT INTO ab ", 1, 7);
    NoInitialCopy(s, 1, 7, "INSERT INTO ab ", 0);
  }

  /** `INSERT` is not `INTO`. */
  lemma InsertFirst(s: string)
    requires |s| >= 3 && s[0] == 'I' && s[1] == 'N' && s[2] == 'S'
    ensures FirstRefAt(s, 0, RefKeywords).None?
  {
    assert Upper(s[0]) == 'I' && Upper(s[2]) == 'S';
    HeadMismatch(s, "FROM", 0);
    HeadMismatch(s, "JOIN", 0);
    HeadMismatch(s, "TO", 2);
    assert !LogLineage.LitAt(s, "INTO", 0);
    HeadMismatch(s, "UPDATE", 0);
    HeadMismatch(s, "MERGE INTO", 0);
    RefNone(s, 0);
  }

  /** A literal whose first letter differs from the text's does not occur. */
  lemma HeadMismatch(s: string, w: string, k: nat)
    requires k < |s| && w != [] && Upper(s[k]) != w[0]
    ensures !LogLineage.LitAt(s, w, k)
  {
  }

  /** A keyword, one space and a two-character word make a reference. */
  lemma TwoCharRef(s: string, i: nat, k: string)
    requires i <= |s| && LogLineage.LitAt(s, k, i)
    requires i + |k| + 3 <= |s| && s[i + |k|] == ' '
    requires IsWordChar(s[i + |k| + 1]) && IsWordChar(s[i + |k| + 2])
    requires i + |k| + 3 == |s| || s[i + |k| + 3] == ' '
    ensures RefAt(s, i, k) == Some((i + |k| + 1, i + |k| + 3))
  {
    var j := i + |k| + 1;
    assert SkipSpace(s, j) == j;
    assert SkipSpace(s, j - 1) == j;
    var t := s[j..];
    assert t[0] == s[j] && t[1] == s[j + 1];
    if |t| > 2 {
      assert t[2] == ' ';
    }
    assert WordRunEnd(t, 2) == 2;
    assert WordRunEnd(t, 1) == 2;
    assert WordRunEnd(t, 0) == 2;
    assert PrefixEnd(t, 0, 3) == 2;
  }

  /** `INTO ab` captures `ab`. */
  lemma InsertInto(s: string)
    requires |s| >= 15 && s[..15] == "INSERT INTO ab "
    ensures FirstRefAt(s, 7, RefKeywords) == Some((12, 14)) && s[12..14] == "ab"
  {
    IntoChars(s);
    IntoAt(s, 7);
    TwoCharRef(s, 7, "INTO");
    assert Upper(s[7]) == 'I';
    HeadMismatch(s, "FROM", 7);
    HeadMismatch(s, "JOIN", 7);
    RefInto(s, 7);
    assert s[12..14] == s[..15][12..14];
  }

  lemma IntoChars(s: string)
    requires |s| >= 15 && s[..15] == "INSERT INTO ab "
    ensures s[7] == 'I' && s[8] == 'N' && s[9] == 'T' && s[10] == 'O'
    ensures s[11] == ' ' && s[12] == 'a' && s[13] == 'b' && s[14] == ' '
  {
    var u := s[..15];
    assert forall m :: 0 <= m < 15 ==> s[m] == u[m];
  }

  /** `INTO` spelled out at `i` occurs there. */
  lemma IntoAt(s: string, i: nat)
    requires i + 4 <= |s| && s[i] == 'I' && s[i + 1] == 'N' && s[i + 2] == 'T' && s[i + 3] == 'O'
    ensures LogLineage.LitAt(s, "INTO", i)
  {
    assert LogLineage.LitAt(s, "", i + 4);
    assert LogLineage.LitAt(s, "O", i + 3);
    assert LogLineage.LitAt(s, "TO", i + 2);
    assert LogLineage.LitAt(s, "NTO", i + 1);
  }

  /** Nothing is captured between the two names. */
  lemma InsertMiddle(s: string)
    requires |s| >= 24 && s[14..24] == " SELECT * "
    ensures Refs(s, 14) == Refs(s, 24)
  {
    InsertMiddleChars(s);
    SkipInitials(s, 14, 24);
  }

  lemma InsertMiddleChars(s: string)
    requires |s| >= 24 && s[14..24] == " SELECT * "
    ensures NoInitialIn(s, 14, 24)
  {
    var u := s[14..24];
    assert forall m :: 14 <= m < 24 ==> s[m] == u[m - 14];
    SelectNoInitial();
    NoInitialCopy(s, 14, 24, " SELECT * ", 14);
  }

  lemma SelectNoInitial()
    ensures NoInitialIn(" SELECT * ", 0, 10)
  {
  }

  /** `FROM ab` at the end captures `ab`. */
  lemma InsertFrom(s: string)
    requires |s| == 31 && s[24..] == "FROM ab"
    ensures FirstRefAt(s, 24, RefKeywords) == Some((29, 31)) && s[29..31] == "ab"
  {
    var u := s[24..];
    assert forall m :: 0 <= m < 7 ==> s[24 + m] == u[m];
    assert s[28] == ' ' && s[29] == 'a' && s[30] == 'b';
    assert s[24..28] == "FROM";
    LogLineage.LitAtCopy(s, "FROM", 24);
    TwoCharRef(s, 24, "FROM");
    RefFrom(s, 24);
    assert s[29..31] == u[5..];
  }

  /** The `INTO` table of an INSERT is among its references, and a table
      named twice is returned twice, in order. */
  lemma InsertTargetAmongSources()
    ensures ExtractTableNames(InsertStatement) == ["ab", "ab"]
  {
    InsertPlain();
    InsertRefs(InsertStatement);
  }

  lemma InsertRefs(s: string)
    requires s == InsertStatement
    ensures Refs(s, 0) == ["ab", "ab"]
  {
    InsertPieces(s);
    InsertHead(s);
    InsertInto(s);
    RefsAt(s, 7, (12, 14));
    InsertMiddle(s);
    InsertFrom(s);
    RefsAt(s, 24, (29, 31));
    assert Refs(s, 31) == [];
  }

  /** A match at `i` is the next reference, and the scan resumes at its end. */
  lemma RefsAt(s: string, i: nat, m: (nat, nat))
    requires i < |s| && FirstRefAt(s, i, RefKeywords) == Some(m)
    ensures Refs(s, i) == [s[m.0..m.1]] + Refs(s, m.1)
  {
  }

  /** A reference inside a `--` comment is not seen. */
  lemma CommentedReferenceIgnored()
    ensures ExtractTableNames("-- FROM ab") == []
  {
    assert LineStrip("-- FROM ab", 0) == [];
  }

  // ---------------------------------------------------------------------
  // The target token

  /** A top-level token of `sqlparse`'s parse of a statement, as far as
      `_extract_target_table` looks at it. */
  datatype SqlToken = SqlToken(isKeyword: bool, isWhitespace: bool, value: string)

  predicate IsTableKeyword(t: SqlToken) {
    t.isKeyword && UpperStr(t.value) == "TABLE"
  }

  /** The first keyword token `TABLE` at or after `i`, or `|toks|`. */
  function TableIndex(toks: seq<SqlToken>, i: nat): (r: nat)
    requires i <= |toks|
    ensures i <= r <= |toks|
    ensures r < |toks| ==> IsTableKeyword(toks[r])
    decreases |toks| - i
  {
    if i == |toks| || IsTableKeyword(toks[i]) then i else TableIndex(toks, i + 1)
  }

  /** The first token at or after `i` that is not white space, or `|toks|`. */
  function NextSolid(toks: seq<SqlToken>, i: nat): (r: nat)
    requires i <= |toks|
    ensures i <= r <= |toks|
    ensures r < |toks| ==> !toks[r].isWhitespace
    ensures forall k :: i <= k < r ==> toks[k].isWhitespace
    decreases |toks| - i
  {
    if i == |toks| || !toks[i].isWhitespace then i else NextSolid(toks, i + 1)
  }

  /** `_extract_target_table` as written: for CREATE, the text of the token
      right after the first `TABLE` keyword. */
  function TargetAsWritten(kind: string, toks: seq<SqlToken>): Option<string> {
    var j := TableIndex(toks, 0);
    if kind == "CREATE" && j + 1 < |toks| then Some(toks[j + 1].value) else None
  }

  /** `_extract_target_table` as intended: the first token after `TABLE`
      that is not white space. */
  function TargetOf(kind: string, toks: seq<SqlToken>): Option<string> {
    var j := TableIndex(toks, 0);
    if kind == "CREATE" && j < |toks| then
      var n := NextSolid(toks, j + 1);
      if n < |toks| then Some(toks[n].value) else None
    else None
  }

  /** As written, a `TABLE` keyword followed by a white-space token makes
      that white space the target. */
  lemma TargetAsWrittenIsSpace(toks: seq<SqlToken>)
    requires TableIndex(toks, 0) + 1 < |toks| && toks[TableIndex(toks, 0) + 1].isWhitespace
    ensures TargetAsWritten("CREATE", toks) == Some(toks[TableIndex(toks, 0) + 1].value)
    ensures TargetOf("CREATE", toks) != TargetAsWritten("CREATE", toks) || toks[TableIndex(toks, 0) + 1].value == toks[NextSolid(toks, TableIndex(toks, 0) + 1)].value
  {
  }

  /** The intended target is the text of a non-white-space token that
      follows the first `TABLE` keyword with only white space between,
      and there is one exactly when such a token exists in a CREATE. */
  lemma TargetOfSpec(kind: string, toks: seq<SqlToken>)
    ensures TargetOf(kind, toks).Some? <==>
      kind == "CREATE" && exists n :: TableIndex(toks, 0) < n < |toks| && !toks[n].isWhitespace
    ensures TargetOf(kind, toks).Some? ==>
      exists j, n :: 0 <= j < n < |toks| && IsTableKeyword(toks[j]) && !toks[n].isWhitespace &&
        (forall k :: j < k < n ==> toks[k].isWhitespace) && TargetOf(kind, toks) == Some(toks[n].value)
  {
    var j := TableIndex(toks, 0);
    if kind == "CREATE" && j < |toks| {
      var n := NextSolid(toks, j + 1);
      if exists m :: j < m < |toks| && !toks[m].isWhitespace {
        var m :| j < m < |toks| && !toks[m].isWhitespace;
        assert n <= m;
      }
    }
  }

  /** The statement `CREATE TABLE dw.sales AS …` as `sqlparse` tokenises it:
      white space is a token of its own. */
  const CreateTokens: seq<SqlToken> := [SqlToken(true, false, "CREATE"), SqlToken(false, true, " "),
                                        SqlToken(true, false, "TABLE"), SqlToken(false, true, " "),
                                        SqlToken(false, false, "dw.sales"), SqlToken(false, true, " "),
                                        SqlToken(true, false, "AS")]

  lemma CreateTokensTable()
    ensures TableIndex(CreateTokens, 0) == 2
  {
    assert !IsTableKeyword(CreateTokens[0]) by {
      assert UpperStr("CREATE")[1] == 'R';
    }
    assert !IsTableKeyword(CreateTokens[1]);
    assert UpperStr("TABLE") == "TABLE";
    assert IsTableKeyword(CreateTokens[2]);
  }

  /** As written, the target of `CREATE TABLE dw.sales AS …` is a blank. */
  lemma CreateTargetAsWritten()
    ensures TargetAsWritten("CREATE", CreateTokens) == Some(" ")
  {
    CreateTokensTable();
  }

  /** As intended, it is `dw.sales`. */
  lemma CreateTargetCorrected()
    ensures TargetOf("CREATE", CreateTokens) == Some("dw.sales")
  {
    CreateTokensTable();
    assert NextSolid(CreateTokens, 3) == NextSolid(CreateTokens, 4) == 4;
  }

  // ---------------------------------------------------------------------
  // The dictionary of targets

  /** `source_targets` (a defaultdict of sets, keys in insertion order) and `all_tables`. */
  datatype Store = Store(order: seq<string>, sourceTargets: map<string, set<string>>, allTables: set<string>)

  /** Every key is listed once in insertion order, maps to a non-empty set,
      and it and its sources are in `all_tables`. */
  ghost predicate Consistent(st: Store) {
    && (forall t :: t in st.order <==> t in st.sourceTargets)
    && (forall a, b :: 0 <= a < b < |st.order| ==> st.order[a] != st.order[b])
    && (forall t :: t in st.sourceTargets ==> st.sourceTargets[t] != {} && t in st.allTables && st.sourceTargets[t] <= st.allTables)
  }

  function SourcesOf(st: Store, t: string): set<string> {
    if t in st.sourceTargets then st.sourceTargets[t] else {}
  }

  /** Recording a statement: `all_tables` gains the target and each source;
      `source_targets[target]` gains each source, the key coming into
      existence (last in order) on the first one. */
  function Add(st: Store, target: string, sources: seq<string>): Store {
    Store(if target in st.sourceTargets || sources == [] then st.order else st.order + [target],
          if sources == [] then st.sourceTargets
          else st.sourceTargets[target := SourcesOf(st, target) + Elements(sources)],
          st.allTables + {target} + Elements(sources))
  }

  /** Recording one more source after the others. */
  lemma AddSnoc(st: Store, target: string, sources: seq<string>, x: string)
    ensures var prev := Add(st, target, sources);
      Add(st, target, sources + [x]) ==
      Store(if target in prev.sourceTargets then prev.order else prev.order + [target],
            prev.sourceTargets[target := SourcesOf(prev, target) + {x}],
            prev.allTables + {x})
  {
    var prev := Add(st, target, sources);
    var a := SourcesOf(st, target);
    assert Elements(sources + [x]) == Elements(sources) + {x};
    assert prev.allTables + {x} == st.allTables + {target} + Elements(sources + [x]);
    if sources != [] {
      assert target in prev.sourceTargets;
      assert prev.order == (if target in st.sourceTargets then st.order else st.order + [target]);
      assert prev.sourceTargets == st.sourceTargets[target := a + Elements(sources)];
      assert SourcesOf(prev, target) + {x} == a + Elements(sources + [x]);
      assert prev.sourceTargets[target := SourcesOf(prev, target) + {x}] ==
        st.sourceTargets[target := a + Elements(sources + [x])];
    } else {
      assert Elements(sources + [x]) == {x};
      assert prev.sourceTargets == st.sourceTargets && SourcesOf(prev, target) == a;
    }
  }

  /** The (target, source) pairs the dictionary holds. */
  function Pairs(st: Store): set<(string, string)> {
    set t, s | t in st.sourceTargets && s in st.sourceTargets[t] :: (t, s)
  }

  lemma AddConsistent(st: Store, target: string, sources: seq<string>)
    requires Consistent(st)
    ensures Consistent(Add(st, target, sources))
  {
    var r := Add(st, target, sources);
    if sources != [] {
      assert sources[0] in Elements(sources);
      forall t | t in r.sourceTargets
        ensures r.sourceTargets[t] != {} && t in r.allTables && r.sourceTargets[t] <= r.allTables
      {
        if t == target {
          assert sources[0] in r.sourceTargets[t];
        }
      }
    }
  }

  /** Recording the same statement twice is recording it once: repeated pairs collapse. */
  lemma AddIdempotent(st: Store, target: string, sources: seq<string>)
    ensures Add(Add(st, target, sources), target, sources) == Add(st, target, sources)
  {
    var once := Add(st, target, sources);
    if sources != [] {
      assert SourcesOf(once, target) + Elements(sources) == SourcesOf(once, target);
      assert once.sourceTargets[target := SourcesOf(once, target)] == once.sourceTargets;
    }
  }

  /** What a recording adds to the pairs: the target with each of its sources. */
  lemma AddPairs(st: Store, target: string, sources: seq<string>)
    ensures Pairs(Add(st, target, sources)) == Pairs(st) + set s | s in sources :: (target, s)
  {
    var r := Add(st, target, sources);
    forall p | p in Pairs(r)
      ensures p in Pairs(st) + set s | s in sources :: (target, s)
    {
      var t, s :| t in r.sourceTargets && s in r.sourceTargets[t] && p == (t, s);
      if t != target {
        assert s in st.sourceTargets[t];
      }
    }
    forall p | p in Pairs(st) + set s | s in sources :: (target, s)
      ensures p in Pairs(r)
    {
      var t, s := p.0, p.1;
      if p in Pairs(st) {
        assert t in st.sourceTargets && s in st.sourceTargets[t];
        assert t in r.sourceTargets && s in r.sourceTargets[t];
      } else {
        assert s in sources && t == target;
        assert t in r.sourceTargets && s in r.sourceTargets[t];
      }
    }
  }

  // ---------------------------------------------------------------------
  // `parse_sql_file`

  /** `_is_create_or_insert` */
  const RecordedKinds: set<string> := {"CREATE", "INSERT", "MERGE"}

  /** What `parse_sql_file` records for one piece of `sqlparse.split`: the
      target and the source list, or nothing.  `typeOf` stands for
      `get_type` and `tokensOf` for the top-level tokens of the parse. */
  function Entry(stmt: string, typeOf: string -> string, tokensOf: string -> seq<SqlToken>): Option<(string, seq<string>)> {
    var st := Strip(stmt);
    if st == [] || StartsWith(UpperStr(st), "DELETE") || typeOf(st) !in RecordedKinds then None
    else
      var target := TargetOf(typeOf(st), tokensOf(st));
      var sources := ExtractTableNames(st);
      if target.Some? && target.value != [] && sources != [] then Some((target.value, sources)) else None
  }

  /** The store after the statements, in order. */
  function Fold(st: Store, stmts: seq<string>, typeOf: string -> string, tokensOf: string -> seq<SqlToken>): Store
    decreases |stmts|
  {
    if stmts == [] then st
    else
      var before := Fold(st, stmts[..|stmts| - 1], typeOf, tokensOf);
      match Entry(Last(stmts), typeOf, tokensOf)
      case None => before
      case Some(e) => Add(before, e.0, e.1)
  }

  /** Every recorded statement is a CREATE with a non-blank target and at
      least one source. */
  lemma EntryIsCreate(stmt: string, typeOf: string -> string, tokensOf: string -> seq<SqlToken>)
    requires Entry(stmt, typeOf, tokensOf).Some?
    ensures typeOf(Strip(stmt)) == "CREATE" && !StartsWith(UpperStr(Strip(stmt)), "DELETE")
    ensures Entry(stmt, typeOf, tokensOf).value.0 != [] && Entry(stmt, typeOf, tokensOf).value.1 != []
  {
    var st := Strip(stmt);
    assert TargetOf(typeOf(st), tokensOf(st)).Some?;
  }

  /** The store stays consistent over any run of statements. */
  lemma {:induction false} FoldConsistent(st: Store, stmts: seq<string>, typeOf: string -> string,
                                          tokensOf: string -> seq<SqlToken>)
    requires Consistent(st)
    ensures Consistent(Fold(st, stmts, typeOf, tokensOf))
    decreases |stmts|
  {
    if stmts != [] {
      var before := Fold(st, stmts[..|stmts| - 1], typeOf, tokensOf);
      FoldConsistent(st, stmts[..|stmts| - 1], typeOf, tokensOf);
      match Entry(Last(stmts), typeOf, tokensOf)
      case None =>
      case Some(e) => AddConsistent(before, e.0, e.1);
    }
  }

  /** Statements that are not CREATE, INSERT and MERGE included, leave
      the store as it was. */
  lemma {:induction false} FoldWithoutCreate(st: Store, stmts: seq<string>, typeOf: string -> string,
                                             tokensOf: string -> seq<SqlToken>)
    requires forall k :: 0 <= k < |stmts| ==> typeOf(Strip(stmts[k])) != "CREATE"
    ensures Fold(st, stmts, typeOf, tokensOf) == st
    decreases |stmts|
  {
    if stmts != [] {
      FoldWithoutCreate(st, stmts[..|stmts| - 1], typeOf, tokensOf);
      if Entry(Last(stmts), typeOf, tokensOf).Some? {
        EntryIsCreate(Last(stmts), typeOf, tokensOf);
      }
    }
  }

  /** The pair of rows and edges never repeats and covers every pair. */
  lemma {:induction false} DistinctCount(xs: seq<(string, string)>)
    requires forall a, b :: 0 <= a < b < |xs| ==> xs[a] != xs[b]
    ensures |set x | x in xs| == |xs|
    decreases |xs|
  {
    if xs != [] {
      var init := xs[..|xs| - 1];
      DistinctCount(init);
      assert (set x | x in xs) == (set x | x in init) + {xs[|xs| - 1]};
      assert xs[|xs| - 1] !in init;
    }
  }

  /** The first position of `x` in `xs`. */
  function IndexOf(xs: seq<string>, x: string): (r: nat)
    requires x in xs
    ensures r < |xs| && xs[r] == x
    ensures forall k :: 0 <= k < r ==> xs[k] != x
  {
    if xs[0] == x then 0 else 1 + IndexOf(xs[1..], x)
  }

  /** The rows of one target: `(t, s)` for each source, in enumeration order. */
  method TargetRows(t: string, sources: set<string>) returns (block: seq<(string, string)>)
    ensures forall a :: 0 <= a < |block| ==> block[a].0 == t && block[a].1 in sources
    ensures forall s :: s in sources ==> (t, s) in block
    ensures forall a, b :: 0 <= a < b < |block| ==> block[a] != block[b]
  {
    var srcs := Enumerate(sources);
    block := [];
    for j := 0 to |srcs|
      invariant |block| == j
      invariant forall a :: 0 <= a < j ==> block[a] == (t, srcs[a])
    {
      block := block + [(t, srcs[j])];
    }
    forall s | s in sources
      ensures (t, s) in block
    {
      var a :| 0 <= a < |srcs| && srcs[a] == s;
      assert block[a] == (t, s);
    }
  }

  lemma IndexOfBelow(xs: seq<string>, x: string, g: nat)
    requires g <= |xs| && x in xs[..g]
    ensures x in xs && IndexOf(xs, x) < g
  {
    var h :| 0 <= h < g && xs[..g][h] == x;
    assert xs[h] == x;
  }

  lemma IndexOfDistinct(xs: seq<string>, g: nat)
    requires g < |xs| && forall a, b :: 0 <= a < b < |xs| ==> xs[a] != xs[b]
    ensures IndexOf(xs, xs[g]) == g
  {
  }

  /** The rows of the first `g` targets of `order`: each pair of the
      dictionary once, grouped by target in `order`'s order. */
  ghost predicate RowsUpTo(order: seq<string>, m: map<string, set<string>>, rows: seq<(string, string)>, g: nat)
  {
    && g <= |order|
    && (forall a :: 0 <= a < |rows| ==> rows[a].0 in order[..g] && rows[a].0 in m && rows[a].1 in m[rows[a].0])
    && (forall a, b :: 0 <= a < b < |rows| ==>
          rows[a].0 in order && rows[b].0 in order && IndexOf(order, rows[a].0) <= IndexOf(order, rows[b].0))
    && (forall a, b :: 0 <= a < b < |rows| ==> rows[a] != rows[b])
    && (forall h, s :: 0 <= h < g && order[h] in m && s in m[order[h]] ==> (order[h], s) in rows)
  }

  /** Appending the rows of target `g` extends the rows of the first `g` targets. */
  lemma RowsStep(order: seq<string>, m: map<string, set<string>>, rows: seq<(string, string)>,
                 block: seq<(string, string)>, g: nat)
    requires g < |order| && (forall a, b :: 0 <= a < b < |order| ==> order[a] != order[b])
    requires order[g] in m && RowsUpTo(order, m, rows, g)
    requires forall a :: 0 <= a < |block| ==> block[a].0 == order[g] && block[a].1 in m[order[g]]
    requires forall s :: s in m[order[g]] ==> (order[g], s) in block
    requires forall a, b :: 0 <= a < b < |block| ==> block[a] != block[b]
    ensures RowsUpTo(order, m, rows + block, g + 1)
  {
    RowsStepMembers(order, m, rows, block, g);
    RowsStepOrder(order, m, rows, block, g);
    RowsStepCover(order, m, rows, block, g);
  }

  /** Each appended row belongs to target `g` and is a pair of the dictionary. */
  lemma RowsStepMembers(order: seq<string>, m: map<string, set<string>>, rows: seq<(string, string)>,
                 block: seq<(string, string)>, g: nat)
    requires g < |order| && (forall a, b :: 0 <= a < b < |order| ==> order[a] != order[b])
    requires order[g] in m && RowsUpTo(order, m, rows, g)
    requires forall a :: 0 <= a < |block| ==> block[a].0 == order[g] && block[a].1 in m[order[g]]
    requires forall s :: s in m[order[g]] ==> (order[g], s) in block
    requires forall a, b :: 0 <= a < b < |block| ==> block[a] != block[b]
    ensures forall a :: 0 <= a < |rows + block| ==>
      (rows + block)[a].0 in order[..g + 1] && (rows + block)[a].0 in m && (rows + block)[a].1 in m[(rows + block)[a].0]
  {
    var r := rows + block;
    assert order[..g + 1] == order[..g] + [order[g]];
    forall a | 0 <= a < |r|
      ensures r[a].0 in order[..g + 1] && r[a].0 in m && r[a].1 in m[r[a].0]
    {
      if a >= |rows| {
        assert r[a] == block[a - |rows|];
      }
    }
  }

  /** The rows stay grouped by target in `order`'s order, and stay distinct. */
  lemma RowsStepOrder(order: seq<string>, m: map<string, set<string>>, rows: seq<(string, string)>,
                 block: seq<(string, string)>, g: nat)
    requires g < |order| && (forall a, b :: 0 <= a < b < |order| ==> order[a] != order[b])
    requires order[g] in m && RowsUpTo(order, m, rows, g)
    requires forall a :: 0 <= a < |block| ==> block[a].0 == order[g] && block[a].1 in m[order[g]]
    requires forall s :: s in m[order[g]] ==> (order[g], s) in block
    requires forall a, b :: 0 <= a < b < |block| ==> block[a] != block[b]
    ensures forall a, b :: 0 <= a < b < |rows + block| ==>
      (rows + block)[a].0 in order && (rows + block)[b].0 in order &&
      IndexOf(order, (rows + block)[a].0) <= IndexOf(order, (rows + block)[b].0)
    ensures forall a, b :: 0 <= a < b < |rows + block| ==> (rows + block)[a] != (rows + block)[b]
  {
    var r := rows + block;
    IndexOfDistinct(order, g);
    forall a | 0 <= a < |rows|
      ensures rows[a].0 in order && IndexOf(order, rows[a].0) < g
    {
      IndexOfBelow(order, rows[a].0, g);
    }
    forall a, b | 0 <= a < b < |r|
      ensures r[a].0 in order && r[b].0 in order && IndexOf(order, r[a].0) <= IndexOf(order, r[b].0)
      ensures r[a] != r[b]
    {
      if b >= |rows| {
        assert r[b] == block[b - |rows|];
        if a >= |rows| {
          assert r[a] == block[a - |rows|];
        }
      }
    }
  }

  /** Every pair of the first `g + 1` targets is among the rows. */
  lemma RowsStepCover(order: seq<string>, m: map<string, set<string>>, rows: seq<(string, string)>,
                 block: seq<(string, string)>, g: nat)
    requires g < |order| && (forall a, b :: 0 <= a < b < |order| ==> order[a] != order[b])
    requires order[g] in m && RowsUpTo(order, m, rows, g)
    requires forall a :: 0 <= a < |block| ==> block[a].0 == order[g] && block[a].1 in m[order[g]]
    requires forall s :: s in m[order[g]] ==> (order[g], s) in block
    requires forall a, b :: 0 <= a < b < |block| ==> block[a] != block[b]
    ensures forall h, s :: 0 <= h < g + 1 && order[h] in m && s in m[order[h]] ==> (order[h], s) in rows + block
  {
    var r := rows + block;
    forall h, s | 0 <= h < g + 1 && order[h] in m && s in m[order[h]]
      ensures (order[h], s) in r
    {
      if h < g {
        assert (order[h], s) in rows;
      } else {
        assert (order[h], s) in block;
      }
    }
  }

  /** Once every target is done, the rows are exactly the dictionary's pairs. */
  lemma RowsDone(st: Store, rows: seq<(string, string)>)
    requires Consistent(st) && RowsUpTo(st.order, st.sourceTargets, rows, |st.order|)
    ensures forall p :: p in rows <==> p in Pairs(st)
    ensures forall a, b :: 0 <= a < b < |rows| ==> rows[a] != rows[b]
    ensures |rows| == |Pairs(st)|
    ensures forall a, b :: 0 <= a < b < |rows| ==>
      rows[a].0 in st.order && rows[b].0 in st.order && IndexOf(st.order, rows[a].0) <= IndexOf(st.order, rows[b].0)
  {
    assert st.order[..|st.order|] == st.order;
    forall p | p in rows
      ensures p in Pairs(st)
    {
      var a :| 0 <= a < |rows| && rows[a] == p;
    }
    forall p | p in Pairs(st)
      ensures p in rows
    {
      var h := IndexOf(st.order, p.0);
    }
    assert (set p | p in rows) == Pairs(st);
    DistinctCount(rows);
  }

  /** The `edge_id` counter of `generate_neptune_files`: one edge per
      `(target, source)` row, from the source to the target, numbered from 0. */
  method NumberEdges(rows: seq<(string, string)>) returns (edges: seq<Edge>)
    ensures |edges| == |rows|
    ensures forall l :: 0 <= l < |rows| ==> edges[l] == Edge(EdgeId(l), rows[l].1, rows[l].0, EdgeLabel, None)
  {
    edges := [];
    var edgeId := 0;
    for k := 0 to |rows|
      invariant edgeId == k == |edges|
      invariant forall l :: 0 <= l < k ==> edges[l] == Edge(EdgeId(l), rows[l].1, rows[l].0, EdgeLabel, None)
    {
      edges := edges + [Edge(EdgeId(edgeId), rows[k].1, rows[k].0, EdgeLabel, None)];
      edgeId := edgeId + 1;
    }
  }

  /** The edges numbered along the CSV rows cover the pairs, one edge per
      row, from source to target, with distinct ids. */
  lemma EdgesFromRows(rows: seq<(string, string)>, edges: seq<Edge>, pairs: set<(string, string)>)
    requires |edges| == |rows|
    requires forall l :: 0 <= l < |rows| ==> edges[l] == Edge(EdgeId(l), rows[l].1, rows[l].0, EdgeLabel, None)
    requires forall p :: p in rows <==> p in pairs
    ensures forall k :: 0 <= k < |edges| ==>
      edges[k].id == EdgeId(k) && edges[k].tag == EdgeLabel && (edges[k].to, edges[k].from) in pairs
    ensures forall p :: p in pairs ==> exists k :: 0 <= k < |edges| && (edges[k].to, edges[k].from) == p
    ensures forall k, l :: 0 <= k < l < |edges| ==> edges[k].id != edges[l].id
  {
    forall k | 0 <= k < |edges|
      ensures (edges[k].to, edges[k].from) in pairs
    {
      assert (edges[k].to, edges[k].from) == rows[k];
    }
    forall p | p in pairs
      ensures exists k :: 0 <= k < |edges| && (edges[k].to, edges[k].from) == p
    {
      var k :| 0 <= k < |rows| && rows[k] == p;
      assert (edges[k].to, edges[k].from) == p;
    }
    forall k, l | 0 <= k < l < |edges|
      ensures edges[k].id != edges[l].id
    {
      if edges[k].id == edges[l].id {
        EdgeIdInjective(k, l);
      }
    }
  }

  class SimpleParser {
    var order: seq<string>
    var sourceTargets: map<string, set<string>>
    var allTables: set<string>

    function State(): Store
      reads this
    {
      Store(order, sourceTargets, allTables)
    }

    constructor()
      ensures State() == Store([], map[], {})
      ensures Consistent(State())
    {
      order := [];
      sourceTargets := map[];
      allTables := {};
    }

    /** The recording loop of `parse_sql_file` for one statement. */
    method Record(target: string, sources: seq<string>)
      modifies this
      ensures State() == Add(old(State()), target, sources)
    {
      allTables := allTables + {target};
      for k := 0 to |sources|
        invariant State() == Add(old(State()), target, sources[..k])
      {
        assert sources[..k + 1] == sources[..k] + [sources[k]];
        AddSnoc(old(State()), target, sources[..k], sources[k]);
        allTables := allTables + {sources[k]};
        if target !in sourceTargets {
          order := order + [target];
          sourceTargets := sourceTargets[target := {}];
        }
        sourceTargets := sourceTargets[target := sourceTargets[target] + {sources[k]}];
      }
      assert sources[..|sources|] == sources;
    }

    /** The loop of `parse_sql_file` over the pieces of `sqlparse.split`. */
    method ParseStatements(stmts: seq<string>, typeOf: string -> string, tokensOf: string -> seq<SqlToken>)
      requires Consistent(State())
      modifies this
      ensures State() == Fold(old(State()), stmts, typeOf, tokensOf)
      ensures Consistent(State())
    {
      for i := 0 to |stmts|
        invariant State() == Fold(old(State()), stmts[..i], typeOf, tokensOf)
      {
        assert stmts[..i + 1][..i] == stmts[..i] && Last(stmts[..i + 1]) == stmts[i];
        var statement := Strip(stmts[i]);
        if statement != [] && !StartsWith(UpperStr(statement), "DELETE") {
          var kind := typeOf(statement);
          if kind in RecordedKinds {
            var target := TargetOf(kind, tokensOf(statement));
            var sources := ExtractTableNames(statement);
            if target.Some? && target.value != [] && sources != [] {
              Record(target.value, sources);
            }
          }
        }
      }
      assert stmts[..|stmts|] == stmts;
      FoldConsistent(old(State()), stmts, typeOf, tokensOf);
    }

    /** `parse_sql_file`: `split` stands for `sqlparse.split` of the file's text. */
    method ParseSqlFile(content: string, split: string -> seq<string>, typeOf: string -> string,
                        tokensOf: string -> seq<SqlToken>)
      requires Consistent(State())
      modifies this
      ensures State() == Fold(old(State()), split(content), typeOf, tokensOf)
      ensures Consistent(State())
    {
      ParseStatements(split(content), typeOf, tokensOf);
    }

    /** `generate_mapping_csv` without the write: `(target, source)` rows,
        targets in insertion order, each target's sources in the order the
        runtime enumerates its set. */
    method GenerateMappingCsv() returns (rows: seq<(string, string)>)
      requires Consistent(State())
      ensures forall p :: p in rows <==> p in Pairs(State())
      ensures forall a, b :: 0 <= a < b < |rows| ==> rows[a] != rows[b]
      ensures |rows| == |Pairs(State())|
      ensures forall a, b :: 0 <= a < b < |rows| ==>
        rows[a].0 in order && rows[b].0 in order && IndexOf(order, rows[a].0) <= IndexOf(order, rows[b].0)
    {
      rows := [];
      for g := 0 to |order|
        invariant RowsUpTo(order, sourceTargets, rows, g)
      {
        var t := order[g];
        var block := TargetRows(t, sourceTargets[t]);
        RowsStep(order, sourceTargets, rows, block, g);
        rows := rows + block;
      }
      RowsDone(State(), rows);
    }

    /** `generate_neptune_files` without the writes: a node per table, and
        an edge per pair, numbered by a counter in the row order. */
    method GenerateNeptuneFiles() returns (nodes: seq<Node>, edges: seq<Edge>)
      requires Consistent(State())
      ensures |nodes| == |allTables|
      ensures forall k :: 0 <= k < |nodes| ==> nodes[k].id in allTables && nodes[k] == NodeFor(nodes[k].id, false)
      ensures forall t :: t in allTables ==> exists k :: 0 <= k < |nodes| && nodes[k].id == t
      ensures |edges| == |Pairs(State())|
      ensures forall k :: 0 <= k < |edges| ==>
        edges[k].id == EdgeId(k) && edges[k].tag == EdgeLabel && (edges[k].to, edges[k].from) in Pairs(State())
      ensures forall p :: p in Pairs(State()) ==> exists k :: 0 <= k < |edges| && (edges[k].to, edges[k].from) == p
      ensures forall k, l :: 0 <= k < l < |edges| ==> edges[k].id != edges[l].id
    {
      nodes := ProjectNodes(allTables, false);
      var rows := GenerateMappingCsv();
      edges := NumberEdges(rows);
      EdgesFromRows(rows, edges, Pairs(State()));
    }
  }
}
