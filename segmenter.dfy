/// `extract_sql_statements`: the statement segmenter and classifier of the
/// canonical engine (advanced/sttm/smart_lineage_parser.py), also copied into
/// advanced/sttm/sql_lineage_analyzer.py. The regular expressions become
/// explicit scans over the text:
///   sql_pattern  `\b(KEYWORD)\b.*?(;|\n)`, matched left to right, case-insensitively;
///   timestamps   `\d{4}-\d{2}-\d{2}\s+\d{2}:\d{2}:\d{2}`, leftmost match.
module Segmenter {
  import opened Text

  /** The alternation of `sql_keywords`, in its order. */
  const Keywords: seq<string> := ["SELECT", "INSERT", "UPDATE", "DELETE", "CREATE", "CREATE OR REPLACE",
                                  "DROP", "ALTER", "MERGE", "TRUNCATE", "BEGIN", "COMMIT", "ROLLBACK"]

  const MinStatementLength := 10

  /** One extracted statement: `{'timestamp', 'statement', 'type'}`. */
  datatype StatementInfo = StatementInfo(timestamp: Option<string>, statement: string, kind: string)

  predicate IsTerminator(c: char) {
    c == ';' || c == '\n'
  }

  /** The literal `k` (upper case) at position `i`, ignoring case, with a word boundary after it. */
  predicate KeywordMatchAt(s: string, i: nat, k: string) {
    && i + |k| <= |s|
    && (forall j :: 0 <= j < |k| ==> Upper(s[i + j]) == k[j])
    && (i + |k| == |s| || !IsWordChar(s[i + |k|]))
  }

  /** The regex engine tries the alternatives in order: the first one that matches at `i`, from `j` on. */
  function FirstKeywordIndex(s: string, i: nat, ks: seq<string>, j: nat): (r: Option<nat>)
    requires j <= |ks|
    ensures r.Some? ==> j <= r.value < |ks| && i + |ks[r.value]| <= |s|
    decreases |ks| - j
  {
    if j == |ks| then None
    else if KeywordMatchAt(s, i, ks[j]) then Some(j)
    else FirstKeywordIndex(s, i, ks, j + 1)
  }

  /** The keyword `\b(SELECT|...|ROLLBACK)\b` matches at `i`, if any; the leading `\b` is the same for every alternative. */
  function KeywordAt(s: string, i: nat, ks: seq<string>): Option<string> {
    if 0 < i <= |s| && IsWordChar(s[i - 1]) then None
    else match FirstKeywordIndex(s, i, ks, 0)
      case None => None
      case Some(x) => Some(ks[x])
  }

  /** The lazy `.*?(;|\n)`: the first terminator at or after `j`. */
  function TerminatorFrom(s: string, j: nat): (r: Option<nat>)
    requires j <= |s|
    ensures r.Some? ==> j <= r.value < |s| && IsTerminator(s[r.value])
    decreases |s| - j
  {
    if j == |s| then None
    else if IsTerminator(s[j]) then Some(j)
    else TerminatorFrom(s, j + 1)
  }

  /** The terminator found is the first one; there is none when nothing is found. */
  lemma {:induction false} TerminatorFromSpec(s: string, j: nat)
    requires j <= |s|
    ensures var r := TerminatorFrom(s, j);
      && (r.Some? ==> forall k :: j <= k < r.value ==> !IsTerminator(s[k]))
      && (r.None? ==> forall k :: j <= k < |s| ==> !IsTerminator(s[k]))
    decreases |s| - j
  {
    if j < |s| {
      TerminatorFromSpec(s, j + 1);
    }
  }

  /** `\d{4}-\d{2}-\d{2}` at `p`. */
  predicate DateAt(s: string, p: nat) {
    && p + 10 <= |s|
    && IsDigit(s[p]) && IsDigit(s[p + 1]) && IsDigit(s[p + 2]) && IsDigit(s[p + 3]) && s[p + 4] == '-'
    && IsDigit(s[p + 5]) && IsDigit(s[p + 6]) && s[p + 7] == '-' && IsDigit(s[p + 8]) && IsDigit(s[p + 9])
  }

  /** `\d{2}:\d{2}:\d{2}` at `p`. */
  predicate ClockAt(s: string, p: nat) {
    && p + 8 <= |s|
    && IsDigit(s[p]) && IsDigit(s[p + 1]) && s[p + 2] == ':' && IsDigit(s[p + 3]) && IsDigit(s[p + 4])
    && s[p + 5] == ':' && IsDigit(s[p + 6]) && IsDigit(s[p + 7])
  }

  /** Length of the (greedy) white-space run at `i`. */
  function SpaceRun(s: string, i: nat): (n: nat)
    requires i <= |s|
    ensures i + n <= |s|
    decreases |s| - i
  {
    if i < |s| && IsSpace(s[i]) then 1 + SpaceRun(s, i + 1) else 0
  }

  /** End of the timestamp `\d{4}-\d{2}-\d{2}\s+\d{2}:\d{2}:\d{2}` that starts at `p`, if one does. */
  function TimestampEnd(s: string, p: nat): (r: Option<nat>)
    ensures r.Some? ==> p + 19 <= r.value <= |s|
  {
    if DateAt(s, p) then
      var w := SpaceRun(s, p + 10);
      if w >= 1 && ClockAt(s, p + 10 + w) then Some(p + 10 + w + 8) else None
    else None
  }

  /** `re.search` for a timestamp from `p` on: the leftmost start. */
  function FirstTimestampFrom(s: string, p: nat): (r: Option<nat>)
    requires p <= |s|
    ensures r.Some? ==> p <= r.value < |s| && TimestampEnd(s, r.value).Some?
    decreases |s| - p
  {
    if p == |s| then None
    else if TimestampEnd(s, p).Some? then Some(p)
    else FirstTimestampFrom(s, p + 1)
  }

  /** The timestamp text the source attaches: the leftmost one in `prefix`, not the nearest. */
  function FirstTimestamp(prefix: string): Option<string> {
    match FirstTimestampFrom(prefix, 0)
    case None => None
    case Some(q) => Some(prefix[q..TimestampEnd(prefix, q).value])
  }

  /** One match of `sql_pattern` at `i`: its keyword and the index of its terminator. */
  datatype Match = Match(keyword: string, end: nat)

  function MatchAt(s: string, i: nat, ks: seq<string>): (r: Option<Match>)
    ensures r.Some? ==> i + |r.value.keyword| <= r.value.end < |s|
  {
    match KeywordAt(s, i, ks)
    case None => None
    case Some(k) =>
      match TerminatorFrom(s, i + |k|)
      case None => None
      case Some(t) => Some(Match(k, t))
  }

  /** The statements `finditer` yields from position `i` on, after the length filter, for the keyword
      alternation `ks` (the source's is `Keywords`). */
  function StatementsFrom(s: string, ks: seq<string>, i: nat): seq<StatementInfo>
    requires i <= |s|
    decreases |s| - i
  {
    if i == |s| then []
    else match MatchAt(s, i, ks)
      case None => StatementsFrom(s, ks, i + 1)
      case Some(m) => Emitted(s, i, m) + StatementsFrom(s, ks, m.end + 1)
  }

  /** What one match contributes: its stripped text, unless shorter than the minimum. */
  function Emitted(s: string, i: nat, m: Match): seq<StatementInfo>
    requires i + |m.keyword| <= m.end < |s|
  {
    var stmt := Strip(s[i..m.end]);
    if |stmt| < MinStatementLength then [] else [StatementInfo(FirstTimestamp(s[..i]), stmt, m.keyword)]
  }

  lemma StepNoMatch(s: string, ks: seq<string>, i: nat)
    requires i < |s| && MatchAt(s, i, ks).None?
    ensures StatementsFrom(s, ks, i) == StatementsFrom(s, ks, i + 1)
  {
  }

  lemma StepMatch(s: string, ks: seq<string>, i: nat, m: Match)
    requires i < |s| && MatchAt(s, i, ks) == Some(m)
    ensures StatementsFrom(s, ks, i) == Emitted(s, i, m) + StatementsFrom(s, ks, m.end + 1)
  {
  }

  /** The loop of `extract_sql_statements` over the matches, for the text read from the log file. */
  method ExtractSqlStatements(content: string) returns (stmts: seq<StatementInfo>)
    ensures stmts == StatementsFrom(content, Keywords, 0)
  {
    stmts := [];
    var i := 0;
    ghost var all := StatementsFrom(content, Keywords, i);
    while i < |content|
      invariant i <= |content|
      invariant stmts + StatementsFrom(content, Keywords, i) == all
      decreases |content| - i
    {
      var emitted, next := NextStatements(content, Keywords, i);
      stmts := stmts + emitted;
      i := next;
    }
    assert StatementsFrom(content, Keywords, i) == [];
  }

  /** One turn of the loop: what the match at `i` (if any) contributes, and where the scan resumes. */
  method NextStatements(content: string, ks: seq<string>, i: nat) returns (emitted: seq<StatementInfo>, next: nat)
    requires i < |content|
    ensures i < next <= |content|
    ensures StatementsFrom(content, ks, i) == emitted + StatementsFrom(content, ks, next)
  {
    var m := MatchAt(content, i, ks);
    if m.None? {
      StepNoMatch(content, ks, i);
      return [], i + 1;
    }
    var mt := m.value;
    StepMatch(content, ks, i, mt);
    next := mt.end + 1;
    var stmt := Strip(content[i..mt.end]);
    if |stmt| < MinStatementLength {
      emitted := [];
    } else {
      emitted := [StatementInfo(FirstTimestamp(content[..i]), stmt, mt.keyword)];
    }
    assert StatementsFrom(content, ks, i) == emitted + StatementsFrom(content, ks, next);
  }

  /** The copy in sql_lineage_analyzer.py: a non-empty report file name reaches `datetime.now()`,
      which the `datetime` module does not have; the exception is caught and the result is empty.
      No name, or the empty name (false under `if output_file:`), returns the statements. */
  method ExtractSqlStatementsWithReport(content: string, outputFile: Option<string>) returns (stmts: seq<StatementInfo>)
    ensures outputFile.Some? && outputFile.value != [] ==> stmts == []
    ensures outputFile.None? || outputFile.value == [] ==> stmts == StatementsFrom(content, Keywords, 0)
  {
    stmts := ExtractSqlStatements(content);
    if outputFile.Some? && outputFile.value != [] {
      stmts := [];
    }
  }

  // ---------------------------------------------------------------- properties

  /** Each keyword is upper-case letters and single spaces, starting and ending with a letter. */
  predicate KeywordShape(k: string) {
    && |k| >= 1
    && 'A' <= k[0] <= 'Z' && 'A' <= k[|k| - 1] <= 'Z'
    && forall j :: 0 <= j < |k| ==> ('A' <= k[j] <= 'Z') || k[j] == ' '
  }

  predicate AllShaped(ks: seq<string>) {
    forall x :: 0 <= x < |ks| ==> KeywordShape(ks[x])
  }

  lemma KeywordsShape()
    ensures AllShaped(Keywords)
  {
    forall x | 0 <= x < |Keywords| ensures KeywordShape(Keywords[x]) {
      var k := Keywords[x];
      assert forall j :: 0 <= j < |k| ==> ('A' <= k[j] <= 'Z') || k[j] == ' ';
    }
  }

  /** What every extracted statement satisfies: at least ten characters, no terminator, and the
      keyword alternation matches at its start and yields its kind. */
  predicate Shaped(statement: string, kind: string, ks: seq<string>) {
    && |statement| >= MinStatementLength
    && (forall k :: 0 <= k < |statement| ==> !IsTerminator(statement[k]))
    && kind in ks
    && KeywordAt(statement, 0, ks) == Some(kind)
  }

  /** The alternative chosen is the first that matches; none matches when there is no result. */
  lemma {:induction false} FirstKeywordIndexSpec(s: string, i: nat, ks: seq<string>, j: nat)
    requires j <= |ks|
    ensures var r := FirstKeywordIndex(s, i, ks, j);
      && (r.Some? ==> KeywordMatchAt(s, i, ks[r.value]))
      && (r.Some? ==> forall x :: j <= x < r.value ==> !KeywordMatchAt(s, i, ks[x]))
      && (r.None? ==> forall x :: j <= x < |ks| ==> !KeywordMatchAt(s, i, ks[x]))
    decreases |ks| - j
  {
    if j < |ks| {
      FirstKeywordIndexSpec(s, i, ks, j + 1);
    }
  }

  /** What a keyword found at `i` satisfies: it is one of the list and it matches there after a word boundary. */
  lemma KeywordAtFacts(s: string, i: nat, ks: seq<string>)
    requires AllShaped(ks)
    ensures KeywordAt(s, i, ks).Some? ==>
      var k := KeywordAt(s, i, ks).value;
      && k in ks && KeywordShape(k)
      && KeywordMatchAt(s, i, k) && (i == 0 || !IsWordChar(s[i - 1]))
  {
    FirstKeywordIndexSpec(s, i, ks, 0);
  }

  /** Because `CREATE` comes before `CREATE OR REPLACE` in the alternation, the latter never wins. */
  lemma NeverCreateOrReplace(s: string, i: nat)
    ensures KeywordAt(s, i, Keywords) != Some("CREATE OR REPLACE")
  {
    FirstKeywordIndexSpec(s, i, Keywords, 0);
    ReplaceListedAfterCreate();
    ReplaceMatchesCreate(s, i);
  }

  /** `CREATE` is alternative 4, and `CREATE OR REPLACE` is alternative 5 and no other. */
  lemma ReplaceListedAfterCreate()
    ensures Keywords[4] == "CREATE" && Keywords[5] == "CREATE OR REPLACE"
    ensures forall x :: 0 <= x < |Keywords| && Keywords[x] == "CREATE OR REPLACE" ==> x == 5
  {
    assert forall x :: 0 <= x < |Keywords| && x != 5 ==> |Keywords[x]| < 17;
  }

  /** Wherever `CREATE OR REPLACE` matches, `CREATE` matches too. */
  lemma ReplaceMatchesCreate(s: string, i: nat)
    ensures KeywordMatchAt(s, i, "CREATE OR REPLACE") ==> KeywordMatchAt(s, i, "CREATE")
  {
    if KeywordMatchAt(s, i, "CREATE OR REPLACE") {
      var k := "CREATE OR REPLACE";
      assert Upper(s[i + 6]) == k[6] == ' ';
      forall j | 0 <= j < 6 ensures Upper(s[i + j]) == "CREATE"[j] {
        assert k[j] == "CREATE"[j];
      }
    }
  }

  /** A matched keyword holds no terminator: its characters are letters and spaces. */
  lemma KeywordHasNoTerminator(s: string, i: nat, kw: string)
    requires KeywordShape(kw) && KeywordMatchAt(s, i, kw)
    ensures forall j :: i <= j < i + |kw| ==> !IsTerminator(s[j])
  {
    forall j | i <= j < i + |kw| ensures !IsTerminator(s[j]) {
      assert Upper(s[j]) == kw[j - i];
    }
  }

  /** A keyword matches at the start of the stripped statement exactly when it matched in the text. */
  lemma KeywordMatchStable(s: string, i: nat, e: nat, t: nat, kw: string)
    requires i < e <= t < |s|
    requires IsTerminator(s[t])
    requires forall k :: i <= k < t ==> !IsTerminator(s[k])
    requires forall k :: e <= k < t ==> IsSpace(s[k])
    requires !IsSpace(s[e - 1])
    requires KeywordShape(kw)
    ensures KeywordMatchAt(s[i..e], 0, kw) <==> KeywordMatchAt(s, i, kw)
  {
    var stmt := s[i..e];
    if KeywordMatchAt(s, i, kw) {
      var last := i + |kw| - 1;
      KeywordHasNoTerminator(s, i, kw);
      assert Upper(s[last]) == kw[|kw| - 1];
      assert !IsSpace(s[last]);
      assert last < e;
      forall j | 0 <= j < |kw| ensures Upper(stmt[j]) == kw[j] {
        assert stmt[j] == s[i + j];
      }
    }
    if KeywordMatchAt(stmt, 0, kw) {
      forall j | 0 <= j < |kw| ensures Upper(s[i + j]) == kw[j] {
        assert stmt[j] == s[i + j];
      }
      if |kw| == |stmt| {
        if e < t {
          assert IsSpace(s[e]);
        }
      } else {
        assert stmt[|kw|] == s[i + |kw|];
      }
    }
  }

  lemma {:induction false} FirstKeywordStable(s: string, i: nat, e: nat, t: nat, ks: seq<string>, j: nat)
    requires j <= |ks| && AllShaped(ks)
    requires i < e <= t < |s|
    requires IsTerminator(s[t])
    requires forall k :: i <= k < t ==> !IsTerminator(s[k])
    requires forall k :: e <= k < t ==> IsSpace(s[k])
    requires !IsSpace(s[e - 1])
    ensures FirstKeywordIndex(s[i..e], 0, ks, j) == FirstKeywordIndex(s, i, ks, j)
    decreases |ks| - j
  {
    if j < |ks| {
      KeywordMatchStable(s, i, e, t, ks[j]);
      FirstKeywordStable(s, i, e, t, ks, j + 1);
    }
  }

  /** Stripping a match that starts with a non-space character only removes trailing white space. */
  lemma StripOfMatch(s: string, i: nat, t: nat)
    requires i < t <= |s| && !IsSpace(s[i])
    ensures var e := i + |Strip(s[i..t])|;
      && i < e <= t
      && Strip(s[i..t]) == s[i..e]
      && !IsSpace(s[e - 1])
      && forall q :: e <= q < t ==> IsSpace(s[q])
  {
    var body := s[i..t];
    StripSpec(body);
    assert SkipSpace(body, 0) == 0;
    var b := SkipSpaceBack(body, 0, |body|);
    assert b > 0 by {
      assert !IsSpace(body[0]);
    }
    forall q | i + b <= q < t ensures IsSpace(s[q]) {
      assert s[q] == body[q - i];
    }
    assert s[i + b - 1] == body[b - 1];
  }

  /** The keyword found in the text is found again at the start of the stripped statement. */
  lemma KeywordOfStatement(s: string, ks: seq<string>, i: nat, m: Match, e: nat)
    requires AllShaped(ks)
    requires i < |s|
    requires MatchAt(s, i, ks) == Some(m)
    requires i < e <= m.end
    requires !IsSpace(s[e - 1])
    requires forall q :: e <= q < m.end ==> IsSpace(s[q])
    ensures KeywordAt(s[i..e], 0, ks) == Some(m.keyword)
  {
    TerminatorFromSpec(s, i + |m.keyword|);
    KeywordAtFacts(s, i, ks);
    KeywordHasNoTerminator(s, i, m.keyword);
    FirstKeywordStable(s, i, e, m.end, ks, 0);
  }

  /** One match of `sql_pattern` yields a statement of the promised shape. */
  lemma MatchWellFormed(s: string, ks: seq<string>, i: nat, m: Match)
    requires AllShaped(ks)
    requires i < |s|
    requires MatchAt(s, i, ks) == Some(m)
    requires |Strip(s[i..m.end])| >= MinStatementLength
    ensures Shaped(Strip(s[i..m.end]), m.keyword, ks)
  {
    var k, t := m.keyword, m.end;
    KeywordAtFacts(s, i, ks);
    assert Upper(s[i]) == k[0];
    StripOfMatch(s, i, t);
    var stmt := Strip(s[i..t]);
    var e := i + |stmt|;
    KeywordOfStatement(s, ks, i, m, e);
    TerminatorFromSpec(s, i + |k|);
    KeywordHasNoTerminator(s, i, k);
    forall q | 0 <= q < |stmt| ensures !IsTerminator(stmt[q]) {
      assert stmt[q] == s[i + q];
    }
  }

  /** Every statement of `sts` is well formed. */
  predicate AllWellFormed(sts: seq<StatementInfo>, ks: seq<string>) {
    forall st :: st in sts ==> Shaped(st.statement, st.kind, ks)
  }

  /** Every statement the segmenter yields is well formed. */
  lemma {:induction false} StatementsWellFormed(s: string, ks: seq<string>, i: nat)
    requires AllShaped(ks)
    requires i <= |s|
    ensures AllWellFormed(StatementsFrom(s, ks, i), ks)
    decreases |s| - i
  {
    if i < |s| {
      StatementsWellFormed(s, ks, NextStart(s, ks, i));
      WellFormedBack(s, ks, i);
    }
  }

  /** Where the scan goes on after position `i`. */
  function NextStart(s: string, ks: seq<string>, i: nat): (n: nat)
    requires i < |s|
    ensures i < n <= |s|
  {
    match MatchAt(s, i, ks)
    case None => i + 1
    case Some(m) => m.end + 1
  }

  /** Well-formed statements after the next start make the statements from `i` well formed. */
  lemma WellFormedBack(s: string, ks: seq<string>, i: nat)
    requires AllShaped(ks)
    requires i < |s| && AllWellFormed(StatementsFrom(s, ks, NextStart(s, ks, i)), ks)
    ensures AllWellFormed(StatementsFrom(s, ks, i), ks)
  {
    var r := MatchAt(s, i, ks);
    if r.None? {
      StepNoMatch(s, ks, i);
    } else {
      WellFormedStep(s, ks, i, r.value);
    }
  }

  /** A match followed by well-formed statements gives well-formed statements. */
  lemma WellFormedStep(s: string, ks: seq<string>, i: nat, m: Match)
    requires AllShaped(ks)
    requires i < |s| && MatchAt(s, i, ks) == Some(m)
    requires AllWellFormed(StatementsFrom(s, ks, m.end + 1), ks)
    ensures AllWellFormed(StatementsFrom(s, ks, i), ks)
  {
    StepMatch(s, ks, i, m);
    EmittedWellFormed(s, ks, i, m);
    ShapedConcat(Emitted(s, i, m), StatementsFrom(s, ks, m.end + 1), ks);
  }

  /** Well-formed statements followed by well-formed statements. */
  lemma ShapedConcat(a: seq<StatementInfo>, b: seq<StatementInfo>, ks: seq<string>)
    requires AllWellFormed(a, ks) && AllWellFormed(b, ks)
    ensures AllWellFormed(a + b, ks)
  {
  }

  /** What one match contributes is well formed. */
  lemma EmittedWellFormed(s: string, ks: seq<string>, i: nat, m: Match)
    requires AllShaped(ks)
    requires i < |s|
    requires MatchAt(s, i, ks) == Some(m)
    ensures AllWellFormed(Emitted(s, i, m), ks)
  {
    if |Strip(s[i..m.end])| >= MinStatementLength {
      MatchWellFormed(s, ks, i, m);
    }
  }

  /** What `extract_sql_statements` returns: statements of at least ten characters, without a
      terminator, whose `type` is the keyword at their start, and never `CREATE OR REPLACE`. */
  lemma ExtractedStatementsWellFormed(content: string)
    ensures forall st :: st in StatementsFrom(content, Keywords, 0) ==>
      Shaped(st.statement, st.kind, Keywords) && st.kind != "CREATE OR REPLACE"
  {
    KeywordsShape();
    StatementsWellFormed(content, Keywords, 0);
    forall st | st in StatementsFrom(content, Keywords, 0)
      ensures st.kind != "CREATE OR REPLACE"
    {
      NeverCreateOrReplace(st.statement, 0);
    }
  }

  /** The attached timestamp is a timestamp of the text before the statement, and no timestamp starts earlier. */
  lemma {:induction false} FirstTimestampFromSpec(s: string, p: nat)
    requires p <= |s|
    ensures var r := FirstTimestampFrom(s, p);
      && (r.Some? ==> forall q :: p <= q < r.value ==> TimestampEnd(s, q).None?)
      && (r.None? ==> forall q :: p <= q <= |s| ==> TimestampEnd(s, q).None?)
    decreases |s| - p
  {
    if p < |s| {
      FirstTimestampFromSpec(s, p + 1);
    } else {
      assert TimestampEnd(s, p).None?;
    }
  }

  lemma TimestampIsLeftmost(prefix: string)
    ensures FirstTimestamp(prefix).Some? ==>
      exists q :: 0 <= q < |prefix| && TimestampEnd(prefix, q).Some?
        && FirstTimestamp(prefix) == Some(prefix[q..TimestampEnd(prefix, q).value])
        && forall q' :: 0 <= q' < q ==> TimestampEnd(prefix, q').None?
    ensures FirstTimestamp(prefix).None? ==> forall q :: 0 <= q <= |prefix| ==> TimestampEnd(prefix, q).None?
  {
    var r := FirstTimestampFrom(prefix, 0);
    FirstTimestampFromSpec(prefix, 0);
    if r.Some? {
      var q := r.value;
      assert TimestampEnd(prefix, q).Some?;
    }
  }
}
