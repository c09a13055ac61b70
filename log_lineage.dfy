/// The log-file revision (sttm_from_sql_logs.py): log-noise removal,
/// `check_keywords`, table extraction with the function-name filter, the
/// `;` / blank-line splitter and the aggregation with schema-carrying nodes.
module LogLineage {
  import opened Text
  import opened Graph
  import opened Scanners
  import opened Lineage
  import Segmenter

  // ---------------------------------------------------------------------
  // The regular-expression fragment used by `log_patterns`

  /** One element of a log pattern.  The patterns run with IGNORECASE and
      MULTILINE, so literals are kept upper-case and compared through
      `Upper`, and `^` matches at the start of every line. */
  datatype Elem =
    | LineStart           // `^`
    | Lit(text: string)   // a literal
    | Spaces              // `\s+`
    | NonSpaces           // `\S+`
    | Digits(n: nat)      // `\d{n}`
    | LazyToKeyword       // `.*?(?=SELECT|INSERT|UPDATE|CREATE|MERGE)`
    | ToLineEnd           // `.*$`

  type Pattern = seq<Elem>

  /** The words of the lookahead `(?=SELECT|INSERT|UPDATE|CREATE|MERGE)`. */
  const LookaheadWords: seq<string> := ["SELECT", "INSERT", "UPDATE", "CREATE", "MERGE"]

  /** The upper-case literal `w` occurs, ignoring case, at `k`. */
  predicate LitAt(s: string, w: string, k: nat)
    requires k <= |s|
    ensures LitAt(s, w, k) ==> k + |w| <= |s|
    decreases |w|
  {
    w == [] || (k < |s| && Upper(s[k]) == w[0] && LitAt(s, w[1..], k + 1))
  }

  /** One of the literals `ws` occurs at `k`. */
  predicate AnyLitAt(s: string, ws: seq<string>, k: nat)
    requires k <= |s|
    decreases |ws|
  {
    ws != [] && (LitAt(s, ws[0], k) || AnyLitAt(s, ws[1..], k))
  }

  /** End of the run of characters at or after `j` that satisfy `space == IsSpace`. */
  function RunEnd(s: string, j: nat, space: bool): (r: nat)
    requires j <= |s|
    ensures j <= r <= |s|
    decreases |s| - j
  {
    if j < |s| && IsSpace(s[j]) == space then RunEnd(s, j + 1, space) else j
  }

  /** `n` ASCII digits start at `j`. */
  predicate DigitsAt(s: string, j: nat, n: nat)
    requires j <= |s|
    ensures DigitsAt(s, j, n) ==> j + n <= |s|
    decreases n
  {
    n == 0 || (j < |s| && IsDigit(s[j]) && DigitsAt(s, j + 1, n - 1))
  }

  /** The end of the line that contains `j`: the next `\n` or the end of the text. */
  function LineEnd(s: string, j: nat): (r: nat)
    requires j <= |s|
    ensures j <= r <= |s|
    decreases |s| - j
  {
    if j < |s| && s[j] != '\n' then LineEnd(s, j + 1) else j
  }

  /** Where a match of `pat` that starts at `j` ends, with the engine's
      preferences: `\s+` and `\S+` take the whole run (each is followed by
      an element that cannot start with the same class, so this is the
      backtracking result too), `.*?` takes the shortest stretch of the line
      after which a lookahead word starts and the rest matches. */
  function MatchFrom(s: string, pat: Pattern, j: nat): (r: Option<nat>)
    requires j <= |s|
    ensures r.Some? ==> j <= r.value <= |s|
    decreases 2 * |pat|, 0
  {
    if pat == [] then Some(j)
    else match pat[0]
      case LineStart => if j == 0 || s[j - 1] == '\n' then MatchFrom(s, pat[1..], j) else None
      case Lit(w) => if LitAt(s, w, j) then MatchFrom(s, pat[1..], j + |w|) else None
      case Spaces => if j < |s| && IsSpace(s[j]) then MatchFrom(s, pat[1..], RunEnd(s, j, true)) else None
      case NonSpaces => if j < |s| && !IsSpace(s[j]) then MatchFrom(s, pat[1..], RunEnd(s, j, false)) else None
      case Digits(n) => if DigitsAt(s, j, n) then MatchFrom(s, pat[1..], j + n) else None
      case LazyToKeyword => LazyFrom(s, pat[1..], j)
      case ToLineEnd => MatchFrom(s, pat[1..], LineEnd(s, j))
  }

  /** `.*?(?=…)` followed by `rest`, trying the end positions `k`, `k + 1`, … of the line. */
  function LazyFrom(s: string, rest: Pattern, k: nat): (r: Option<nat>)
    requires k <= |s|
    ensures r.Some? ==> k <= r.value <= |s|
    decreases 2 * |rest| + 1, |s| - k
  {
    if AnyLitAt(s, LookaheadWords, k) && MatchFrom(s, rest, k).Some? then MatchFrom(s, rest, k)
    else if k < |s| && s[k] != '\n' then LazyFrom(s, rest, k + 1)
    else None
  }

  /** `re.sub(pat, '', s)` from position `i`: every non-empty leftmost match
      is dropped and scanning goes on after it; other characters are kept.
      `^` is tested against the original text. */
  function SubFrom(s: string, pat: Pattern, i: nat): string
    requires i <= |s|
    decreases |s| - i
  {
    if i == |s| then []
    else match MatchFrom(s, pat, i)
      case Some(e) => if e > i then SubFrom(s, pat, e) else [s[i]] + SubFrom(s, pat, i + 1)
      case None => [s[i]] + SubFrom(s, pat, i + 1)
  }

  function SubAll(s: string, pat: Pattern): string {
    SubFrom(s, pat, 0)
  }

  /** The patterns applied in list order, each to the previous result. */
  function ApplyPatterns(ps: seq<Pattern>, s: string): string
    decreases |ps|
  {
    if ps == [] then s else ApplyPatterns(ps[1..], SubAll(s, ps[0]))
  }

  // ---------------------------------------------------------------------
  // log_patterns

  /** `\d{4}-\d{2}-\d{2}\s+\d{2}:\d{2}:\d{2}` */
  const DateTime: Pattern := [Digits(4), Lit("-"), Digits(2), Lit("-"), Digits(2), Spaces,
                              Digits(2), Lit(":"), Digits(2), Lit(":"), Digits(2)]

  /** `^Created\s+\S+\s+\S+\s+<date time>:\d{6}.*?(?=…)` */
  const Created: Pattern := [LineStart, Lit("CREATED"), Spaces, NonSpaces, Spaces, NonSpaces, Spaces] +
                            DateTime + [Lit(":"), Digits(6), LazyToKeyword]
  /** `^Populated\s+\S+\s+\S+\s+<date time>:\d{6}.*?(?=…)` */
  const Populated: Pattern := [LineStart, Lit("POPULATED"), Spaces, NonSpaces, Spaces, NonSpaces, Spaces] +
                              DateTime + [Lit(":"), Digits(6), LazyToKeyword]
  /** `^<date time>.*?(?=…)` */
  const Timestamped: Pattern := [LineStart] + DateTime + [LazyToKeyword]
  const RunningQuery: Pattern := [Lit("RUNNING QUERY:"), LazyToKeyword]
  const Info: Pattern := [Lit("INFO:"), LazyToKeyword]
  const Debug: Pattern := [Lit("DEBUG:"), LazyToKeyword]
  const QueryCompleted: Pattern := [Lit("QUERY COMPLETED"), ToLineEnd]
  const AffectedRows: Pattern := [Lit("AFFECTED ROWS:"), ToLineEnd]
  const ExecutionTime: Pattern := [Lit("EXECUTION TIME:"), ToLineEnd]

  /** The list as written: with no commas after its first two strings,
      Python concatenates the first three patterns into one. */
  const AsWrittenPatterns: seq<Pattern> :=
    [Created + Populated + Timestamped, RunningQuery, Info, Debug, QueryCompleted, AffectedRows, ExecutionTime]

  /** The evidently intended list of nine patterns. */
  const LogPatterns: seq<Pattern> :=
    [Created, Populated, Timestamped, RunningQuery, Info, Debug, QueryCompleted, AffectedRows, ExecutionTime]

  lemma PatternCounts()
    ensures |AsWrittenPatterns| == 7 && |LogPatterns| == 9
    ensures AsWrittenPatterns[1..] == LogPatterns[3..]
  {
  }

  /** A lookahead word starts with `S`, `I`, `U`, `C` or `M`. */
  lemma LookaheadInitial(s: string, k: nat)
    requires k <= |s| && AnyLitAt(s, LookaheadWords, k)
    ensures k < |s| && Upper(s[k]) in "SIUCM"
  {
    var ws := LookaheadWords;
    if LitAt(s, ws[0], k) {
      assert Upper(s[k]) == 'S';
    } else if LitAt(s, ws[1], k) {
      assert Upper(s[k]) == 'I';
    } else if LitAt(s, ws[2], k) {
      assert Upper(s[k]) == 'U';
    } else if LitAt(s, ws[3], k) {
      assert Upper(s[k]) == 'C';
    } else {
      assert ws[1..][1..][1..][1..][0] == "MERGE";
      assert LitAt(s, ws[4], k);
      assert Upper(s[k]) == 'M';
    }
  }

  /** After `.*?(?=SELECT|…)` the text starts with a lookahead word, so a
      following `^` and a literal starting with any other letter never match. */
  lemma {:induction false} LazyThenLitFails(s: string, w: string, b: Pattern, k: nat)
    requires k <= |s| && w != [] && w[0] !in "SIUCM"
    ensures LazyFrom(s, [LineStart, Lit(w)] + b, k).None?
    decreases |s| - k
  {
    if AnyLitAt(s, LookaheadWords, k) {
      LineLitFails(s, w, b, k);
    }
    if k < |s| && s[k] != '\n' {
      LazyThenLitFails(s, w, b, k + 1);
    }
  }

  /** Where a lookahead word starts, `^` and a literal of another initial fail. */
  lemma LineLitFails(s: string, w: string, b: Pattern, k: nat)
    requires k <= |s| && w != [] && w[0] !in "SIUCM" && AnyLitAt(s, LookaheadWords, k)
    ensures MatchFrom(s, [LineStart, Lit(w)] + b, k).None?
  {
    var rest := [LineStart, Lit(w)] + b;
    LookaheadInitial(s, k);
    assert rest[0] == LineStart && rest[1..] == [Lit(w)] + b;
    assert !LitAt(s, w, k);
    assert MatchFrom(s, rest[1..], k).None?;
  }

  /** `.*?(?=…)` before a part that never matches never matches. */
  lemma {:induction false} LazyNone(s: string, rest: Pattern, k: nat)
    requires k <= |s|
    requires forall j :: k <= j <= |s| ==> MatchFrom(s, rest, j).None?
    ensures LazyFrom(s, rest, k).None?
    decreases |s| - k
  {
    if k < |s| && s[k] != '\n' {
      LazyNone(s, rest, k + 1);
    }
  }

  /** Any pattern that contains `.*?(?=…)^W…`, with `W` not starting like
      a lookahead word, never matches anywhere. */
  lemma {:induction false} DeadPattern(a: Pattern, w: string, b: Pattern, s: string, j: nat)
    requires j <= |s| && w != [] && w[0] !in "SIUCM"
    ensures MatchFrom(s, a + [LazyToKeyword, LineStart, Lit(w)] + b, j).None?
    decreases |a|
  {
    var p := a + [LazyToKeyword, LineStart, Lit(w)] + b;
    if a == [] {
      assert p[1..] == [LineStart, Lit(w)] + b;
      LazyThenLitFails(s, w, b, j);
    } else {
      assert p[1..] == a[1..] + [LazyToKeyword, LineStart, Lit(w)] + b;
      forall k | j <= k <= |s|
        ensures MatchFrom(s, p[1..], k).None?
      {
        DeadPattern(a[1..], w, b, s, k);
      }
      if a[0].LazyToKeyword? {
        LazyNone(s, p[1..], j);
      }
    }
  }

  /** The fused first entry never matches: after its first `.*?(?=…)` it
      needs `^Populated` where a lookahead word starts. */
  lemma FusedNeverMatches(s: string, j: nat)
    requires j <= |s|
    ensures MatchFrom(s, AsWrittenPatterns[0], j).None?
  {
    var a := Created[..|Created| - 1];
    var b := Populated[2..] + Timestamped;
    assert AsWrittenPatterns[0] == a + [LazyToKeyword, LineStart, Lit("POPULATED")] + b;
    DeadPattern(a, "POPULATED", b, s, j);
  }

  /** Substituting a pattern that never matches changes nothing. */
  lemma {:induction false} SubNoMatch(s: string, pat: Pattern, i: nat)
    requires i <= |s|
    requires forall j :: i <= j <= |s| ==> MatchFrom(s, pat, j).None?
    ensures SubFrom(s, pat, i) == s[i..]
    decreases |s| - i
  {
    if i < |s| {
      SubNoMatch(s, pat, i + 1);
      assert s[i..] == [s[i]] + s[i + 1..];
    }
  }

  /** As written, the cleanup is that of the last six intended patterns:
      the `Created`, `Populated` and timestamp prefixes are never removed. */
  lemma AsWrittenSkipsThree(s: string)
    ensures ApplyPatterns(AsWrittenPatterns, s) == ApplyPatterns(LogPatterns[3..], s)
  {
    forall j | 0 <= j <= |s|
      ensures MatchFrom(s, AsWrittenPatterns[0], j).None?
    {
      FusedNeverMatches(s, j);
    }
    SubNoMatch(s, AsWrittenPatterns[0], 0);
    assert s[0..] == s;
  }

  /** A timestamped log line, the shape the third pattern is meant to clean. */
  const TimestampedLine: string := "2024-01-01 10:00:00 SELECT 1"

  /** The intended timestamp pattern strips the prefix. */
  lemma TimestampPrefixRemoved()
    ensures SubAll(TimestampedLine, Timestamped) == "SELECT 1"
  {
    var s := TimestampedLine;
    TimestampMatch();
    forall k | 20 <= k <= |s|
      ensures MatchFrom(s, Timestamped, k).None?
    {
      assert s[k - 1] != '\n';
    }
    SubNoMatch(s, Timestamped, 20);
    assert s[20..] == "SELECT 1";
  }

  /** The list as written leaves the line as it is. */
  lemma TimestampPrefixKept()
    ensures SubAll(TimestampedLine, AsWrittenPatterns[0]) == TimestampedLine
  {
    var s := TimestampedLine;
    forall j | 0 <= j <= |s|
      ensures MatchFrom(s, AsWrittenPatterns[0], j).None?
    {
      FusedNeverMatches(s, j);
    }
    SubNoMatch(s, AsWrittenPatterns[0], 0);
    assert s[0..] == s;
  }

  /** The timestamp pattern matches the first 20 characters. */
  lemma TimestampMatch()
    ensures MatchFrom(TimestampedLine, Timestamped, 0) == Some(20)
  {
    TimestampFrom(TimestampedLine, Timestamped);
  }

  lemma TimestampFrom(s: string, t: Pattern)
    requires s == TimestampedLine && t == Timestamped
    ensures MatchFrom(s, t, 0) == Some(20)
  {
    TimestampDate(s);
    TimestampClock(s);
    TimestampElems(t);
    TimestampSteps(s, t);
    LazyTail(s, t, 19);
    TimestampSelect(s);
    LazyStops(s, 19);
  }

  lemma TimestampDate(s: string)
    requires s == TimestampedLine
    ensures |s| == 28 && Segmenter.DateAt(s, 0) && IsSpace(s[10])
  {
    var d := s[..10];
    assert d == "2024-01-01" && s[10] == ' ';
    assert Segmenter.DateAt(d, 0);
    assert forall k :: 0 <= k < 10 ==> s[k] == d[k];
  }

  lemma TimestampClock(s: string)
    requires s == TimestampedLine
    ensures |s| == 28 && Segmenter.ClockAt(s, 11)
  {
    var c := s[11..19];
    assert c == "10:00:00";
    assert Segmenter.ClockAt(c, 0);
    assert forall k :: 0 <= k < 8 ==> s[11 + k] == c[k];
  }

  lemma TimestampSelect(s: string)
    requires s == TimestampedLine
    ensures |s| == 28 && s[19] == ' ' && s[20..26] == "SELECT"
  {
  }

  lemma TimestampElems(t: Pattern)
    requires t == Timestamped
    ensures |t| == 13 && t[0] == LineStart && t[12] == LazyToKeyword
    ensures t[1] == Digits(4) && t[2] == Lit("-") && t[3] == Digits(2) && t[4] == Lit("-") && t[5] == Digits(2)
    ensures t[6] == Spaces && t[7] == Digits(2) && t[8] == Lit(":") && t[9] == Digits(2)
    ensures t[10] == Lit(":") && t[11] == Digits(2)
  {
  }

  /** The date and time elements of the timestamp pattern match a date, one
      space and a clock time. */
  lemma TimestampSteps(s: string, t: Pattern)
    requires 19 <= |s| && Segmenter.DateAt(s, 0) && IsSpace(s[10]) && Segmenter.ClockAt(s, 11)
    requires |t| == 13 && t[0] == LineStart
    requires t[1] == Digits(4) && t[2] == Lit("-") && t[3] == Digits(2) && t[4] == Lit("-") && t[5] == Digits(2)
    requires t[6] == Spaces && t[7] == Digits(2) && t[8] == Lit(":") && t[9] == Digits(2)
    requires t[10] == Lit(":") && t[11] == Digits(2)
    ensures MatchFrom(s, t, 0) == MatchFrom(s, t[12..], 19)
  {
    assert t[0..] == t;
    StepLineStart(s, t, 0, 0);
    DateSteps(s, t, 0);
    ClockSteps(s, t, 10);
  }

  /** A trailing `.*?(?=…)` is the lazy scan with nothing after it. */
  lemma LazyTail(s: string, t: Pattern, j: nat)
    requires j <= |s| && |t| == 13 && t[12] == LazyToKeyword
    ensures MatchFrom(s, t[12..], j) == LazyFrom(s, [], j)
  {
    assert t[12..] == [LazyToKeyword] && t[12..][1..] == [];
  }

  /** `.*?(?=…)` at a space before `SELECT` takes just the space. */
  lemma LazyStops(s: string, j: nat)
    requires j + 7 <= |s| && s[j] == ' ' && s[j + 1..j + 7] == "SELECT"
    ensures LazyFrom(s, [], j) == Some(j + 1)
  {
    NoLookaheadAt(s, j);
    SelectLookahead(s, j + 1);
    assert LazyFrom(s, [], j + 1) == Some(j + 1);
  }

  /** No lookahead word starts at a space. */
  lemma NoLookaheadAt(s: string, j: nat)
    requires j < |s| && s[j] == ' '
    ensures !AnyLitAt(s, LookaheadWords, j)
  {
    if AnyLitAt(s, LookaheadWords, j) {
      LookaheadInitial(s, j);
      assert false;
    }
  }

  /** `SELECT` spelled out is a lookahead word. */
  lemma SelectLookahead(s: string, k: nat)
    requires k + 6 <= |s| && s[k..k + 6] == "SELECT"
    ensures AnyLitAt(s, LookaheadWords, k)
  {
    var w := LookaheadWords[0];
    assert w == "SELECT";
    LitAtCopy(s, w, k);
  }

  /** `\d{4}-\d{2}-\d{2}` as the elements 1 to 5 of `t` matches a date. */
  lemma DateSteps(s: string, t: Pattern, j: nat)
    requires Segmenter.DateAt(s, j)
    requires |t| > 5 && t[1] == Digits(4) && t[2] == Lit("-") && t[3] == Digits(2) && t[4] == Lit("-") && t[5] == Digits(2)
    ensures MatchFrom(s, t[1..], j) == MatchFrom(s, t[6..], j + 10)
  {
    TwoDigits(s, j);
    TwoDigits(s, j + 2);
    assert DigitsAt(s, j + 2, 2) ==> DigitsAt(s, j + 1, 3);
    StepDigits(s, t, 1, j, 4);
    StepLit(s, t, 2, j + 4, "-");
    TwoDigits(s, j + 5);
    StepDigits(s, t, 3, j + 5, 2);
    StepLit(s, t, 4, j + 7, "-");
    TwoDigits(s, j + 8);
    StepDigits(s, t, 5, j + 8, 2);
  }

  /** `\s+\d{2}:\d{2}:\d{2}` as the elements 6 to 11 of `t` matches one
      space and a clock time. */
  lemma ClockSteps(s: string, t: Pattern, j: nat)
    requires j < |s| && IsSpace(s[j]) && Segmenter.ClockAt(s, j + 1)
    requires |t| > 11 && t[6] == Spaces && t[7] == Digits(2) && t[8] == Lit(":") && t[9] == Digits(2)
    requires t[10] == Lit(":") && t[11] == Digits(2)
    ensures MatchFrom(s, t[6..], j) == MatchFrom(s, t[12..], j + 9)
  {
    assert !IsSpace(s[j + 1]);
    assert RunEnd(s, j + 1, true) == j + 1;
    StepSpaces(s, t, 6, j);
    TwoDigits(s, j + 1);
    StepDigits(s, t, 7, j + 1, 2);
    StepLit(s, t, 8, j + 3, ":");
    TwoDigits(s, j + 4);
    StepDigits(s, t, 9, j + 4, 2);
    StepLit(s, t, 10, j + 6, ":");
    TwoDigits(s, j + 7);
    StepDigits(s, t, 11, j + 7, 2);
  }

  /** Two digits at `j` and `j + 1`. */
  lemma TwoDigits(s: string, j: nat)
    requires j + 2 <= |s| && IsDigit(s[j]) && IsDigit(s[j + 1])
    ensures DigitsAt(s, j, 2)
  {
    assert DigitsAt(s, j + 1, 1);
  }

  /** `^` at a line start is passed over. */
  lemma StepLineStart(s: string, t: Pattern, i: nat, j: nat)
    requires i < |t| && t[i] == LineStart && j <= |s| && (j == 0 || s[j - 1] == '\n')
    ensures MatchFrom(s, t[i..], j) == MatchFrom(s, t[i + 1..], j)
  {
    assert t[i..][0] == t[i] && t[i..][1..] == t[i + 1..];
  }

  /** `\d{n}` consumes `n` digits. */
  lemma StepDigits(s: string, t: Pattern, i: nat, j: nat, n: nat)
    requires i < |t| && t[i] == Digits(n) && j <= |s| && DigitsAt(s, j, n)
    ensures MatchFrom(s, t[i..], j) == MatchFrom(s, t[i + 1..], j + n)
  {
    assert t[i..][0] == t[i] && t[i..][1..] == t[i + 1..];
  }

  /** A literal that occurs is consumed. */
  lemma StepLit(s: string, t: Pattern, i: nat, j: nat, w: string)
    requires i < |t| && t[i] == Lit(w) && j <= |s| && LitAt(s, w, j)
    ensures MatchFrom(s, t[i..], j) == MatchFrom(s, t[i + 1..], j + |w|)
  {
    assert t[i..][0] == t[i] && t[i..][1..] == t[i + 1..];
  }

  /** `\s+` consumes the run of white space. */
  lemma StepSpaces(s: string, t: Pattern, i: nat, j: nat)
    requires i < |t| && t[i] == Spaces && j < |s| && IsSpace(s[j])
    ensures MatchFrom(s, t[i..], j) == MatchFrom(s, t[i + 1..], RunEnd(s, j, true))
  {
    assert t[i..][0] == t[i] && t[i..][1..] == t[i + 1..];
  }

  /** An upper-case word spelled out at `k` occurs there. */
  lemma {:induction false} LitAtCopy(s: string, w: string, k: nat)
    requires k + |w| <= |s| && s[k..k + |w|] == w
    requires forall i :: 0 <= i < |w| ==> 'A' <= w[i] <= 'Z'
    ensures LitAt(s, w, k)
    decreases |w|
  {
    if w != [] {
      assert s[k] == s[k..k + |w|][0];
      assert s[k + 1..k + 1 + |w[1..]|] == s[k..k + |w|][1..];
      LitAtCopy(s, w[1..], k + 1);
    }
  }

  // ---------------------------------------------------------------------
  // clean_sql_statement

  /** The alternatives of `^(SELECT|INSERT|…|INTO|AS|\()`, matched ignoring case. */
  const LineKeywords: seq<string> := ["SELECT", "INSERT", "UPDATE", "CREATE", "MERGE", "FROM", "JOIN", "WHERE",
                                      "GROUP", "ORDER", "HAVING", "WITH", "AND", "OR", "UNION", "INTO", "AS", "("]

  /** The class `[A-Za-z0-9_\.\(\)]`. */
  predicate IsLeadChar(c: char) {
    IsWordChar(c) || c == '.' || c == '(' || c == ')'
  }

  /** `re.match(r'^\s*[A-Za-z0-9_\.\(\)]', line)` */
  predicate LeadCharStart(line: string) {
    var k := SkipSpace(line, 0);
    k < |line| && IsLeadChar(line[k])
  }

  /** The test a stripped line passes to be kept: it starts with a keyword
      of `LineKeywords`, or with a character of the lead class. */
  predicate Keep(line: string) {
    AnyLitAt(line, LineKeywords, 0) || LeadCharStart(line)
  }

  /** The pieces kept, stripped, in order. */
  function KeptLines(pieces: seq<string>): seq<string>
    decreases |pieces|
  {
    if pieces == [] then []
    else
      var line := Strip(Last(pieces));
      KeptLines(pieces[..|pieces| - 1]) + (if Keep(line) then [line] else [])
  }

  /** `clean_sql_statement` with the pattern list `ps`. */
  function CleanSql(ps: seq<Pattern>, sql: string): string {
    JoinSpace(KeptLines(SplitOn(ApplyPatterns(ps, Strip(sql)), ';')))
  }

  /** A literal list whose words all start with a lead character matches only
      where a lead character stands. */
  lemma {:induction false} AnyLitAtLead(s: string, ws: seq<string>, k: nat)
    requires k <= |s| && AnyLitAt(s, ws, k)
    requires AllLead(ws)
    ensures k < |s| && IsLeadChar(s[k])
    decreases |ws|
  {
    if !LitAt(s, ws[0], k) {
      AnyLitAtLead(s, ws[1..], k);
    }
  }

  /** Every word of the list starts with a lead character. */
  predicate AllLead(ws: seq<string>) {
    forall i :: 0 <= i < |ws| ==> ws[i] != [] && IsLeadChar(ws[i][0])
  }

  lemma LineKeywordsLead()
    ensures AllLead(LineKeywords)
  {
    var ws := LineKeywords;
    forall i | 0 <= i < |ws|
      ensures ws[i] != [] && IsLeadChar(ws[i][0])
    {
    }
  }

  /** The keyword test adds nothing to the character-class test: a line is
      kept exactly when, after leading blanks, a lead character starts it. */
  lemma KeepIff(line: string)
    ensures Keep(line) <==> LeadCharStart(line)
  {
    if AnyLitAt(line, LineKeywords, 0) {
      LineKeywordsLead();
      AnyLitAtLead(line, LineKeywords, 0);
      assert SkipSpace(line, 0) == 0;
    }
  }

  /** A stripped line is kept exactly when it is non-empty and starts with a lead character. */
  lemma KeepStripped(x: string)
    ensures Keep(Strip(x)) <==> Strip(x) != [] && IsLeadChar(Strip(x)[0])
  {
    KeepIff(Strip(x));
    StripSpec(x);
  }

  /** `l` is one of the stripped pieces. */
  ghost predicate StrippedPiece(pieces: seq<string>, l: string) {
    exists k :: 0 <= k < |pieces| && Strip(pieces[k]) == l
  }

  lemma StrippedPieceSnoc(pieces: seq<string>, l: string)
    requires pieces != []
    ensures StrippedPiece(pieces, l) <==> StrippedPiece(pieces[..|pieces| - 1], l) || Strip(Last(pieces)) == l
  {
    var init := pieces[..|pieces| - 1];
    if StrippedPiece(pieces, l) {
      var k :| 0 <= k < |pieces| && Strip(pieces[k]) == l;
      if k < |init| {
        assert Strip(init[k]) == l;
      }
    }
    if StrippedPiece(init, l) {
      var k :| 0 <= k < |init| && Strip(init[k]) == l;
      assert Strip(pieces[k]) == l;
    }
  }

  /** The kept lines are exactly the stripped pieces that start with a lead
      character. */
  lemma {:induction false} KeptLinesMembers(pieces: seq<string>, l: string)
    ensures l in KeptLines(pieces) <==> l != [] && IsLeadChar(l[0]) && StrippedPiece(pieces, l)
    decreases |pieces|
  {
    if pieces != [] {
      KeptLinesMembers(pieces[..|pieces| - 1], l);
      KeepStripped(Last(pieces));
      StrippedPieceSnoc(pieces, l);
    }
  }

  /** No character outside the tokens comes into `' '.join`. */
  lemma {:induction false} JoinSpaceAvoids(ts: seq<string>, c: char)
    requires c != ' '
    requires forall k :: 0 <= k < |ts| ==> c !in ts[k]
    ensures c !in JoinSpace(ts)
    decreases |ts|
  {
    if |ts| > 1 {
      JoinSpaceAvoids(ts[1..], c);
      assert c !in ts[0];
    }
  }

  /** The cleaned statement holds no `;`: the pieces were cut at every one. */
  lemma CleanSqlHasNoSemicolon(ps: seq<Pattern>, sql: string)
    ensures ';' !in CleanSql(ps, sql)
  {
    var pieces := SplitOn(ApplyPatterns(ps, Strip(sql)), ';');
    var lines := KeptLines(pieces);
    forall k | 0 <= k < |lines|
      ensures ';' !in lines[k]
    {
      KeptLinesMembers(pieces, lines[k]);
      assert lines[k] in lines;
      var j :| 0 <= j < |pieces| && Strip(pieces[j]) == lines[k];
      StripSpec(pieces[j]);
      assert ';' !in pieces[j];
    }
    JoinSpaceAvoids(lines, ';');
  }

  /** `check_keywords` returns true exactly when some keyword occurs in the text. */
  method CheckKeywords(s: string, keywords: seq<string>) returns (found: bool)
    ensures found <==> exists k :: k in keywords && Contains(s, k)
  {
    for i := 0 to |keywords|
      invariant forall j :: 0 <= j < i ==> !Contains(s, keywords[j])
    {
      FindContains(s, keywords[i]);
      if FindFrom(s, keywords[i], 0).Some? {
        return true;
      }
    }
    return false;
  }

  // ---------------------------------------------------------------------
  // extract_table_names

  /** The words of `function_pattern`. */
  const FunctionWords: set<string> := {"COUNT", "SUM", "AVG", "MAX", "MIN", "COALESCE", "CASE", "WHEN", "THEN",
                                       "END", "AND", "OR", "IN", "EXISTS", "BETWEEN"}

  /** `n` starts with the word `w` followed by a word boundary. */
  predicate WordPrefix(n: string, w: string) {
    StartsWith(n, w) && (|n| == |w| || !IsWordChar(n[|w|]))
  }

  /** The maximal run of word characters that starts `n`. */
  function LeadingWord(n: string): string {
    n[..WordRunEnd(n, 0)]
  }

  /** `re.match(function_pattern, n)`: `\b(COUNT|…|BETWEEN)\b` at the start
      of a name.  The closing `\b` makes the matched word the whole leading
      word run, so the test is whether that run is a function word. */
  predicate FunctionLike(n: string) {
    LeadingWord(n) in FunctionWords
  }

  /** A run of word characters ended by a non-word character or the end is
      what `WordRunEnd` finds. */
  lemma {:induction false} WordRunExact(n: string, i: nat, m: nat)
    requires i <= m <= |n| && forall k :: i <= k < m ==> IsWordChar(n[k])
    requires m == |n| || !IsWordChar(n[m])
    ensures WordRunEnd(n, i) == m
    decreases m - i
  {
    if i < m {
      WordRunExact(n, i + 1, m);
    }
  }

  lemma LeadingWordExact(n: string, m: nat)
    requires m <= |n| && forall k :: 0 <= k < m ==> IsWordChar(n[k])
    requires m == |n| || !IsWordChar(n[m])
    ensures LeadingWord(n) == n[..m]
  {
    WordRunExact(n, 0, m);
  }

  lemma FunctionWordsAreWords(w: string)
    requires w in FunctionWords
    ensures IsWord(w)
  {
  }

  /** A name is filtered exactly when one of the function words, followed by
      a word boundary, begins it: the regular expression's own reading. */
  lemma FunctionLikeSpec(n: string)
    ensures FunctionLike(n) <==> exists w :: w in FunctionWords && WordPrefix(n, w)
  {
    WordRunEndSpec(n, 0);
    if FunctionLike(n) {
      assert WordPrefix(n, LeadingWord(n));
    }
    if exists w :: w in FunctionWords && WordPrefix(n, w) {
      var w :| w in FunctionWords && WordPrefix(n, w);
      FunctionWordsAreWords(w);
      forall k | 0 <= k < |w|
        ensures IsWordChar(n[k])
      {
        assert n[..|w|][k] == n[k];
      }
      LeadingWordExact(n, |w|);
    }
  }

  /** The word boundary keeps tables whose names merely begin like a function word. */
  lemma FunctionBoundary()
    ensures FunctionLike("COUNT") && FunctionLike("IN.X")
    ensures !FunctionLike("ORDERS") && !FunctionLike("COUNTRY")
  {
    LeadingWordExact("COUNT", 5);
    assert "COUNT"[..5] == "COUNT";
    LeadingWordExact("IN.X", 2);
    assert "IN.X"[..2] == "IN";
    LeadingWordExact("ORDERS", 6);
    assert "ORDERS"[..6] == "ORDERS";
    LeadingWordExact("COUNTRY", 7);
    assert "COUNTRY"[..7] == "COUNTRY";
  }

  /** The words `VIEW` and `TABLE` pass the function filter. */
  lemma KindNotFunction(w: string)
    requires w == "VIEW" || w == "TABLE"
    ensures !FunctionLike(w)
  {
    LeadingWordExact(w, |w|);
    assert w[..|w|] == w;
  }

  const DmlWords: seq<string> := ["INSERT", "UPDATE", "MERGE"]
  const CreateWords: seq<string> := ["CREATE", "REPLACE"]

  /** `(?:CREATE|REPLACE)\s+(VIEW|TABLE)\s+(name)` as one phrase per combination. */
  const CreateViewAlts: seq<seq<string>> := [["CREATE", "VIEW"], ["CREATE", "TABLE"], ["REPLACE", "VIEW"], ["REPLACE", "TABLE"]]

  /** Group 2 of the `CREATE … VIEW|TABLE` search: the name that follows. */
  function CreatedName(ts: seq<string>): Option<string> {
    FirstPhrase(ts, CreateViewAlts, Prefix)
  }

  /** Group 1 of the same search, the one the code reads: the word `VIEW` or `TABLE`. */
  function CreatedKindAsWritten(ts: seq<string>): Option<string> {
    var j := FirstPhraseIndex(ts, CreateViewAlts, Prefix, 0);
    if j + 1 < |ts| then Some(ts[j + 1]) else None
  }

  /** A match is added unless it looks like a function. */
  function Unless(m: Option<string>): set<string> {
    if m.Some? && !FunctionLike(m.value) then {m.value} else {}
  }

  /** The target choice: the DML phrase when an INSERT/UPDATE/MERGE keyword
      occurs, otherwise the `CREATE` capture `created` when CREATE/REPLACE occurs. */
  function TargetsWith(ts: seq<string>, created: Option<string>): set<string> {
    if AnyTokenWith(ts, DmlWords) then Unless(FirstPhrase(ts, TargetAlts, Qualified(true)))
    else if AnyTokenWith(ts, CreateWords) then Unless(created)
    else {}
  }

  function LogTargets(ts: seq<string>): set<string> {
    TargetsWith(ts, CreatedName(ts))
  }

  function LogTargetsAsWritten(ts: seq<string>): set<string> {
    TargetsWith(ts, CreatedKindAsWritten(ts))
  }

  /** The names of a `finditer` that are not function-like. */
  function Unfiltered(names: seq<string>): set<string> {
    set n | n in names && !FunctionLike(n)
  }

  function LogSources(ts: seq<string>): set<string> {
    (Unfiltered(NamesAfter(ts, "FROM", true, false, 0)) + Unfiltered(NamesAfter(ts, "JOIN", true, false, 0))) - CteNames(ts)
  }

  /** The names of one cleaned and normalised statement whose `sqlparse`
      type is `kind`.  An empty statement makes `sqlparse.parse(sql)[0]`
      fail, and the handler returns nothing, as for a DELETE. */
  function LogTableNames(ts: seq<string>, kind: string): Names {
    if ts == [] || kind == "DELETE" then Names({}, {}) else Names(LogSources(ts), LogTargets(ts))
  }

  /** `extract_table_names` on a raw statement; `typeOf` stands for `sqlparse`'s `get_type`. */
  function LogStatementNames(sql: string, typeOf: string -> string): Names {
    var ts := Normalize(CleanSql(LogPatterns, sql));
    LogTableNames(ts, typeOf(JoinSpace(ts)))
  }

  /** A source was captured after `FROM` or `JOIN`, is not function-like and is no CTE. */
  ghost predicate CapturedSource(ts: seq<string>, s: string) {
    !FunctionLike(s) && s !in CteNames(ts) &&
    exists j :: 0 <= j && j + 1 < |ts| && (ts[j] == "FROM" || ts[j] == "JOIN") && NameAt(ts[j + 1], true) == Some(s)
  }

  /** Every source is a captured, unfiltered name. */
  lemma LogSourcesSound(ts: seq<string>, s: string)
    requires s in LogSources(ts)
    ensures CapturedSource(ts, s)
  {
    NamesAfterSound(ts, "FROM", true, false, 0);
    NamesAfterSound(ts, "JOIN", true, false, 0);
  }

  /** Every name after `FROM` or `JOIN` is a source, unless the previous token
      is the same keyword (its match took this keyword as its name), the name
      is function-like, or it names a CTE. */
  lemma LogSourcesComplete(ts: seq<string>, j: nat)
    requires j + 1 < |ts| && (ts[j] == "FROM" || ts[j] == "JOIN") && NameAt(ts[j + 1], true).Some?
    requires j == 0 || ts[j - 1] != ts[j]
    requires !FunctionLike(NameAt(ts[j + 1], true).value) && NameAt(ts[j + 1], true).value !in CteNames(ts)
    ensures NameAt(ts[j + 1], true).value in LogSources(ts)
  {
    NamesAfterComplete(ts, ts[j], true, false, 0, j);
  }

  /** Every target is a name of `[\w\.]` characters that is not function-like. */
  lemma LogTargetsShaped(ts: seq<string>, t: string)
    requires t in LogTargets(ts)
    ensures NameShaped(t) && !FunctionLike(t) && LogTargets(ts) == {t}
  {
    if AnyTokenWith(ts, DmlWords) {
      FirstPhraseShaped(ts, TargetAlts, Qualified(true));
    } else {
      FirstPhraseShaped(ts, CreateViewAlts, Prefix);
    }
  }

  /** When the text holds INSERT, UPDATE or MERGE, the target is the leftmost
      `INTO`/`UPDATE`/`MERGE INTO` capture unless it is function-like. */
  lemma DmlTargetLeftmost(ts: seq<string>, j: nat)
    requires exists k :: k in DmlWords && Contains(JoinSpace(ts), k)
    requires j < |ts| && AltAt(ts, j, TargetAlts, Qualified(true)).Some?
    requires forall k :: 0 <= k < j ==> AltAt(ts, k, TargetAlts, Qualified(true)).None?
    ensures var n := AltAt(ts, j, TargetAlts, Qualified(true)).value;
      LogTargets(ts) == if FunctionLike(n) then {} else {n}
  {
    AnyTokenWithSpec(ts, DmlWords);
    FirstPhraseLeftmost(ts, TargetAlts, Qualified(true), j);
  }

  /** Without a DML keyword, the target after `CREATE|REPLACE VIEW|TABLE` is
      the name that follows; the code as written takes `VIEW` or `TABLE` instead. */
  lemma CreateTargetLeftmost(ts: seq<string>, j: nat)
    requires forall k :: k in DmlWords ==> !Contains(JoinSpace(ts), k)
    requires j < |ts| && AltAt(ts, j, CreateViewAlts, Prefix).Some?
    requires forall k :: 0 <= k < j ==> AltAt(ts, k, CreateViewAlts, Prefix).None?
    requires !FunctionLike(AltAt(ts, j, CreateViewAlts, Prefix).value)
    ensures LogTargets(ts) == {AltAt(ts, j, CreateViewAlts, Prefix).value}
  {
    NoDml(ts);
    CreateAltsKind(ts, j);
    CreateWordsOccur(ts, j);
    assert LogTargets(ts) == Unless(CreatedName(ts));
    FirstPhraseLeftmost(ts, CreateViewAlts, Prefix, j);
  }

  /** As written, a CREATE statement's target is the word `VIEW` or `TABLE`. */
  lemma CreateTargetAsWritten(ts: seq<string>, j: nat)
    requires forall k :: k in DmlWords ==> !Contains(JoinSpace(ts), k)
    requires j < |ts| && AltAt(ts, j, CreateViewAlts, Prefix).Some?
    requires forall k :: 0 <= k < j ==> AltAt(ts, k, CreateViewAlts, Prefix).None?
    ensures LogTargetsAsWritten(ts) == {ts[j + 1]} && (ts[j + 1] == "VIEW" || ts[j + 1] == "TABLE")
  {
    FirstPhraseIndexLeftmost(ts, CreateViewAlts, Prefix, j);
    CreateAltsKind(ts, j);
    NoDml(ts);
    CreateWordsOccur(ts, j);
    assert CreatedKindAsWritten(ts) == Some(ts[j + 1]);
    KindNotFunction(ts[j + 1]);
  }

  /** Without a DML keyword in the text the first keyword test fails. */
  lemma NoDml(ts: seq<string>)
    requires forall k :: k in DmlWords ==> !Contains(JoinSpace(ts), k)
    ensures !AnyTokenWith(ts, DmlWords)
  {
    AnyTokenWithSpec(ts, DmlWords);
  }

  /** A `CREATE`/`REPLACE` token makes the second keyword test succeed. */
  lemma CreateWordsOccur(ts: seq<string>, j: nat)
    requires j < |ts| && (ts[j] == "CREATE" || ts[j] == "REPLACE")
    ensures AnyTokenWith(ts, CreateWords)
  {
    AnyTokenWithSpec(ts, CreateWords);
    ContainsJoin(ts, ts[j]);
    assert OccursAt(ts[j], ts[j], 0);
    assert ts[j] in CreateWords;
  }

  /** A match of the `CREATE` phrase starts with CREATE or REPLACE, then VIEW or TABLE. */
  lemma CreateAltsKind(ts: seq<string>, j: nat)
    requires AltAt(ts, j, CreateViewAlts, Prefix).Some?
    ensures j + 2 < |ts| && (ts[j] == "CREATE" || ts[j] == "REPLACE") && (ts[j + 1] == "VIEW" || ts[j + 1] == "TABLE")
  {
    var a := CreateViewAlts;
    if PhraseAt(ts, j, a[0], Prefix).None? && PhraseAt(ts, j, a[1], Prefix).None? {
      assert a[1..][1..][0] == a[2];
      if PhraseAt(ts, j, a[2], Prefix).None? {
        assert a[1..][1..][1..] == [a[3]];
        assert PhraseAt(ts, j, a[3], Prefix).Some?;
      }
    }
  }

  // ---------------------------------------------------------------------
  // The CREATE-target finding

  /** `CREATE TABLE sales.day AS SELECT 1`, cleaned and normalised. */
  const CreateStatement: seq<string> := ["CREATE", "TABLE", "SALES.DAY", "AS", "SELECT", "1"]

  /** None of INSERT, UPDATE, MERGE occurs in the statement's text. */
  lemma CreateStatementNoDml()
    ensures forall k :: k in DmlWords ==> !Contains(JoinSpace(CreateStatement), k)
  {
    CreateStatementNoDmlToken();
    NoDmlText(CreateStatement);
  }

  lemma CreateStatementNoDmlToken()
    ensures !AnyTokenWith(CreateStatement, DmlWords)
  {
    CreateStatementLacks("INSERT");
    CreateStatementLacks("UPDATE");
    CreateStatementLacks("MERGE");
    assert DmlWords[1..][1..][1..] == [];
  }

  /** No DML keyword in any token means none in the text. */
  lemma NoDmlText(ts: seq<string>)
    requires !AnyTokenWith(ts, DmlWords)
    ensures forall k :: k in DmlWords ==> !Contains(JoinSpace(ts), k)
  {
    AnyTokenWithSpec(ts, DmlWords);
  }

  /** No token of the statement holds an `I`, a `U` or an `M`. */
  lemma CreateStatementLacks(p: string)
    requires p != [] && p[0] in "IUM"
    ensures FirstTokenWith(CreateStatement, p, 0) == |CreateStatement|
  {
    var ts := CreateStatement;
    forall k, c | 0 <= k < |ts| && 0 <= c < |ts[k]|
      ensures ts[k][c] != p[0]
    {
      assert ts[k][c] in "CREATBLSDY.1*";
    }
    FirstTokenWithout(ts, p, 0);
  }

  /** The `CREATE TABLE` phrase matches at the first token and captures the name. */
  lemma CreateStatementMatch()
    ensures AltAt(CreateStatement, 0, CreateViewAlts, Prefix) == Some("SALES.DAY")
    ensures !FunctionLike("SALES.DAY")
  {
    var t := "SALES.DAY";
    WordRunExact(t, 0, 5);
    WordRunExact(t, 6, 9);
    assert PrefixEnd(t, 6, 2) == 9;
    assert PrefixEnd(t, 0, 3) == 9;
    assert t[..9] == t;
    assert CaptureAt(t, Prefix) == Some(t);
    assert CreateStatement[0..2] == CreateViewAlts[1];
    assert PhraseAt(CreateStatement, 0, CreateViewAlts[1], Prefix) == Some(t);
    LeadingWordExact(t, 5);
  }

  /** As written, the statement's target is the keyword `TABLE`. */
  lemma CreateTargetAsWrittenExample()
    ensures LogTargetsAsWritten(CreateStatement) == {"TABLE"}
  {
    CreateStatementNoDml();
    CreateStatementMatch();
    CreateTargetAsWritten(CreateStatement, 0);
  }

  /** Reading group 2, the target is the created table. */
  lemma CreateTargetCorrectedExample()
    ensures LogTargets(CreateStatement) == {"SALES.DAY"}
  {
    CreateStatementNoDml();
    CreateStatementMatch();
    CreateTargetLeftmost(CreateStatement, 0);
  }

  // ---------------------------------------------------------------------
  // re.split(r';|\n\n(?=(?:SELECT|INSERT|UPDATE|CREATE|MERGE))', content)

  /** One of the words occurs at `k`, with case. */
  predicate CasedAt(s: string, ws: seq<string>, k: nat)
    decreases |ws|
  {
    ws != [] && (OccursAt(s, ws[0], k) || CasedAt(s, ws[1..], k))
  }

  /** Length of the separator at `i`: `;`, or a blank line followed by a
      statement keyword (which stays with the next piece), or none. */
  function SepLen(s: string, i: nat): (n: nat)
    requires i < |s|
    ensures i + n <= |s| && n <= 2
  {
    if s[i] == ';' then 1
    else if i + 2 <= |s| && s[i] == '\n' && s[i + 1] == '\n' && CasedAt(s, LookaheadWords, i + 2) then 2
    else 0
  }

  /** The pieces from `i` on, the current one having started at `start`. */
  function PiecesFrom(s: string, start: nat, i: nat): (r: seq<string>)
    requires start <= i <= |s|
    ensures |r| >= 1
    decreases |s| - i
  {
    if i == |s| then [s[start..]]
    else
      var n := SepLen(s, i);
      if n > 0 then [s[start..i]] + PiecesFrom(s, i + n, i + n) else PiecesFrom(s, start, i + 1)
  }

  /** The separators from `i` on. */
  function SepsFrom(s: string, i: nat): seq<string>
    requires i <= |s|
    decreases |s| - i
  {
    if i == |s| then []
    else
      var n := SepLen(s, i);
      if n > 0 then [s[i..i + n]] + SepsFrom(s, i + n) else SepsFrom(s, i + 1)
  }

  /** The statements of a log file. */
  function SplitLog(content: string): seq<string> {
    PiecesFrom(content, 0, 0)
  }

  /** The pieces put back together with the separators between them. */
  function Interleave(ps: seq<string>, seps: seq<string>): string
    requires |ps| == |seps| + 1
    decreases |seps|
  {
    if seps == [] then ps[0] else ps[0] + seps[0] + Interleave(ps[1..], seps[1..])
  }

  /** Splitting loses only the separators: putting them back gives the text. */
  lemma {:induction false} SplitRoundTrip(s: string, start: nat, i: nat)
    requires start <= i <= |s|
    ensures |PiecesFrom(s, start, i)| == |SepsFrom(s, i)| + 1
    ensures Interleave(PiecesFrom(s, start, i), SepsFrom(s, i)) == s[start..]
    decreases |s| - i, 1
  {
    if i < |s| {
      if SepLen(s, i) > 0 {
        SplitAtSeparator(s, start, i);
      } else {
        SplitRoundTrip(s, start, i + 1);
      }
    }
  }

  /** The round trip where a separator starts at `i`. */
  lemma {:induction false} SplitAtSeparator(s: string, start: nat, i: nat)
    requires start <= i < |s| && SepLen(s, i) > 0
    ensures |PiecesFrom(s, start, i)| == |SepsFrom(s, i)| + 1
    ensures Interleave(PiecesFrom(s, start, i), SepsFrom(s, i)) == s[start..]
    decreases |s| - i, 0
  {
    var n := SepLen(s, i);
    SplitRoundTrip(s, i + n, i + n);
    var ps, ss := PiecesFrom(s, i + n, i + n), SepsFrom(s, i + n);
    var p, sep := s[start..i], s[i..i + n];
    SeparatorStep(s, start, i);
    assert PiecesFrom(s, start, i) == [p] + ps && SepsFrom(s, i) == [sep] + ss;
    InterleaveCons(p, sep, ps, ss);
    assert Interleave(ps, ss) == s[i + n..];
    SliceJoin(s, start, i, i + n);
  }

  lemma SeparatorStep(s: string, start: nat, i: nat)
    requires start <= i < |s| && SepLen(s, i) > 0
    ensures PiecesFrom(s, start, i) == [s[start..i]] + PiecesFrom(s, i + SepLen(s, i), i + SepLen(s, i))
    ensures SepsFrom(s, i) == [s[i..i + SepLen(s, i)]] + SepsFrom(s, i + SepLen(s, i))
  {
  }

  lemma SliceJoin(s: string, a: nat, b: nat, c: nat)
    requires a <= b <= c <= |s|
    ensures s[a..b] + s[b..c] + s[c..] == s[a..]
  {
  }

  lemma InterleaveCons(p: string, sep: string, ps: seq<string>, seps: seq<string>)
    requires |ps| == |seps| + 1
    ensures Interleave([p] + ps, [sep] + seps) == p + sep + Interleave(ps, seps)
  {
    assert ([p] + ps)[1..] == ps && ([sep] + seps)[1..] == seps;
  }

  lemma SplitLogRoundTrip(content: string)
    ensures |SplitLog(content)| == |SepsFrom(content, 0)| + 1
    ensures Interleave(SplitLog(content), SepsFrom(content, 0)) == content
  {
    SplitRoundTrip(content, 0, 0);
  }

  /** Every separator is `;` or a blank line. */
  lemma {:induction false} SepsShape(s: string, i: nat)
    requires i <= |s|
    ensures forall k :: 0 <= k < |SepsFrom(s, i)| ==> SepsFrom(s, i)[k] in {";", "\n\n"}
    decreases |s| - i
  {
    if i < |s| {
      var n := SepLen(s, i);
      if n > 0 {
        SepsShape(s, i + n);
        if n == 2 {
          assert s[i..i + n] == "\n\n";
        } else {
          assert s[i..i + n] == ";";
        }
      } else {
        SepsShape(s, i + 1);
      }
    }
  }

  /** No piece holds a `;`: every one is a separator. */
  lemma {:induction false} PiecesHaveNoSemicolon(s: string, start: nat, i: nat)
    requires start <= i <= |s|
    requires forall k :: start <= k < i ==> s[k] != ';'
    ensures forall p :: p in PiecesFrom(s, start, i) ==> ';' !in p
    decreases |s| - i
  {
    if i == |s| {
      assert forall k :: 0 <= k < |s[start..]| ==> s[start..][k] == s[start + k];
    } else {
      var n := SepLen(s, i);
      if n > 0 {
        PiecesHaveNoSemicolon(s, i + n, i + n);
        assert forall k :: 0 <= k < |s[start..i]| ==> s[start..i][k] == s[start + k];
      } else {
        PiecesHaveNoSemicolon(s, start, i + 1);
      }
    }
  }

  lemma SplitLogNoSemicolon(content: string)
    ensures forall p :: p in SplitLog(content) ==> ';' !in p
  {
    PiecesHaveNoSemicolon(content, 0, 0);
  }

  // ---------------------------------------------------------------------
  // The parser object

  /** What one piece contributes: a blank piece is skipped, any other yields
      its names; the log revision stamps nothing. */
  function LogContribution(stmt: string, typeOf: string -> string): Contribution {
    Contribution(if Strip(stmt) == [] then Names({}, {}) else LogStatementNames(stmt, typeOf), None)
  }

  function LogContributions(stmts: seq<string>, typeOf: string -> string): (r: seq<Contribution>)
    ensures |r| == |stmts|
  {
    ContributionsBy(stmts, (stmt: string) => LogContribution(stmt, typeOf))
  }

  lemma LogContributionsSnoc(stmts: seq<string>, i: nat, typeOf: string -> string)
    requires i < |stmts|
    ensures LogContributions(stmts[..i + 1], typeOf) == LogContributions(stmts[..i], typeOf) + [LogContribution(stmts[i], typeOf)]
  {
    ContributionsBySnoc(stmts, i, (stmt: string) => LogContribution(stmt, typeOf));
  }

  class LogParser {
    const registry: Registry
    const logPatterns: seq<Pattern>

    constructor()
      ensures fresh(registry)
      ensures registry.sourceTables == {} && registry.targetTables == {} && registry.mappings == []
      ensures logPatterns == LogPatterns
    {
      registry := new Registry();
      logPatterns := LogPatterns;
    }

    /** `clean_sql_statement`: the patterns in turn, then the line filter. */
    method CleanSqlStatement(sql: string) returns (cleaned: string)
      ensures cleaned == CleanSql(logPatterns, sql)
    {
      var text := Strip(sql);
      var i := 0;
      while i < |logPatterns|
        invariant i <= |logPatterns|
        invariant ApplyPatterns(logPatterns[i..], text) == ApplyPatterns(logPatterns, Strip(sql))
      {
        assert logPatterns[i..][1..] == logPatterns[i + 1..];
        text := SubAll(text, logPatterns[i]);
        i := i + 1;
      }
      var pieces := SplitOn(text, ';');
      var lines: seq<string> := [];
      for k := 0 to |pieces|
        invariant lines == KeptLines(pieces[..k])
      {
        assert pieces[..k + 1][..k] == pieces[..k];
        var line := Strip(pieces[k]);
        if Keep(line) {
          lines := lines + [line];
        }
      }
      assert pieces[..|pieces|] == pieces;
      cleaned := JoinSpace(lines);
    }

    /** `extract_table_names`: the returned lists hold each name once. */
    method ExtractTableNames(sql: string, typeOf: string -> string) returns (sources: seq<string>, targets: seq<string>)
      requires logPatterns == LogPatterns
      ensures Elements(sources) == LogStatementNames(sql, typeOf).sources
      ensures |sources| == |LogStatementNames(sql, typeOf).sources|
      ensures Elements(targets) == LogStatementNames(sql, typeOf).targets
      ensures |targets| == |LogStatementNames(sql, typeOf).targets|
      ensures Distinct(sources) && Distinct(targets)
    {
      var cleaned := CleanSqlStatement(sql);
      var ts := Normalize(cleaned);
      var text := JoinSpace(ts);
      assert LogStatementNames(sql, typeOf) == LogTableNames(ts, typeOf(text));
      if ts == [] || typeOf(text) == "DELETE" {
        return [], [];
      }
      var tgts := CollectTargets(ts);
      var srcs := CollectSources(ts);
      assert LogStatementNames(sql, typeOf) == Names(srcs, tgts);
      sources := Enumerate(srcs);
      targets := Enumerate(tgts);
    }

    /** One iteration of `process_sql_file`'s loop: both registries gain
        the statement's names and its block of mappings is appended, one per
        target and source in target-major order; `l` is the order in which
        `list(set)` gave the names. */
    method ProcessStatement(stmt: string, typeOf: string -> string) returns (ghost l: Listing)
      requires logPatterns == LogPatterns
      modifies registry
      ensures Lists(l, LogContribution(stmt, typeOf))
      ensures registry.sourceTables == old(registry.sourceTables) + LogContribution(stmt, typeOf).names.sources
      ensures registry.targetTables == old(registry.targetTables) + LogContribution(stmt, typeOf).names.targets
      ensures registry.mappings == old(registry.mappings) + Cross(l.targets, l.sources, None)
    {
      if Strip(stmt) != [] {
        var ss, tt := ExtractTableNames(stmt, typeOf);
        registry.Record(ss, tt, None);
        l := Listing(ss, tt);
      } else {
        l := Listing([], []);
        assert Cross([], [], None) == [];
      }
    }

    /** The loop of `process_sql_file` over the pieces of the log: the
        pieces' blocks are appended one after the other, in order. */
    method ProcessSqlFile(content: string, typeOf: string -> string) returns (ghost ls: seq<Listing>)
      requires logPatterns == LogPatterns
      modifies registry
      ensures ExtendsBy(registry.sourceTables, registry.targetTables, registry.mappings,
                        old(registry.sourceTables), old(registry.targetTables), old(registry.mappings),
                        LogContributions(SplitLog(content), typeOf), ls)
    {
      var stmts := SplitLog(content);
      ghost var s0, t0, m0 := registry.sourceTables, registry.targetTables, registry.mappings;
      ls := [];
      var i := 0;
      assert LogContributions(stmts[..0], typeOf) == [];
      ExtendsNone(s0, t0, m0);
      while i < |stmts|
        invariant i <= |stmts|
        invariant ExtendsBy(registry.sourceTables, registry.targetTables, registry.mappings,
                            s0, t0, m0, LogContributions(stmts[..i], typeOf), ls)
      {
        ghost var s1, t1, m1 := registry.sourceTables, registry.targetTables, registry.mappings;
        ghost var c := LogContribution(stmts[i], typeOf);
        ghost var l := ProcessStatement(stmts[i], typeOf);
        ExtendsSnoc(registry.sourceTables, registry.targetTables, registry.mappings, s1, t1, m1,
                    s0, t0, m0, LogContributions(stmts[..i], typeOf), ls, c, l);
        LogContributionsSnoc(stmts, i, typeOf);
        ls := ls + [l];
        i := i + 1;
      }
      assert stmts[..i] == stmts;
    }

    /** `generate_mapping_csv` without the write: the rows are the mappings in order. */
    method GenerateMappingCsv() returns (rows: seq<(string, string)>)
      ensures |rows| == |registry.mappings|
      ensures forall k :: 0 <= k < |rows| ==>
        rows[k] == (registry.mappings[k].source, registry.mappings[k].target)
    {
      rows := registry.PairRows();
    }

    /** `generate_neptune_files` without the writes: nodes carry their schema. */
    method GenerateNeptuneFiles() returns (nodes: seq<Node>, edges: seq<Edge>)
      ensures |nodes| == |registry.sourceTables + registry.targetTables|
      ensures forall k :: 0 <= k < |nodes| ==>
        nodes[k].id in registry.sourceTables + registry.targetTables && nodes[k] == NodeFor(nodes[k].id, true)
      ensures forall t :: t in registry.sourceTables + registry.targetTables ==>
        exists k :: 0 <= k < |nodes| && nodes[k].id == t
      ensures |edges| == |registry.mappings|
      ensures forall k :: 0 <= k < |edges| ==>
        edges[k] == Edge(EdgeId(k), registry.mappings[k].source, registry.mappings[k].target, EdgeLabel, registry.mappings[k].stamp)
      ensures forall k, l :: 0 <= k < l < |edges| ==> edges[k].id != edges[l].id
    {
      nodes, edges := registry.Project(true);
    }
  }

  /** The target branch of `extract_table_names`. */
  method CollectTargets(ts: seq<string>) returns (tgts: set<string>)
    ensures tgts == LogTargets(ts)
  {
    var text := JoinSpace(ts);
    tgts := {};
    var dml := CheckKeywords(text, DmlWords);
    AnyTokenWithSpec(ts, DmlWords);
    if dml {
      tgts := Unless(FirstPhrase(ts, TargetAlts, Qualified(true)));
    } else {
      var create := CheckKeywords(text, CreateWords);
      AnyTokenWithSpec(ts, CreateWords);
      if create {
        tgts := Unless(CreatedName(ts));
      }
    }
  }

  /** The two `finditer` loops of `extract_table_names`, then the CTE filter. */
  method CollectSources(ts: seq<string>) returns (srcs: set<string>)
    ensures srcs == LogSources(ts)
  {
    var froms := NamesAfter(ts, "FROM", true, false, 0);
    var joins := NamesAfter(ts, "JOIN", true, false, 0);
    srcs := {};
    for k := 0 to |froms|
      invariant srcs == Unfiltered(froms[..k])
    {
      assert froms[..k + 1] == froms[..k] + [froms[k]];
      if !FunctionLike(froms[k]) {
        srcs := srcs + {froms[k]};
      }
    }
    assert froms[..|froms|] == froms;
    for k := 0 to |joins|
      invariant srcs == Unfiltered(froms) + Unfiltered(joins[..k])
    {
      assert joins[..k + 1] == joins[..k] + [joins[k]];
      if !FunctionLike(joins[k]) {
        srcs := srcs + {joins[k]};
      }
    }
    assert joins[..|joins|] == joins;
    srcs := srcs - CteNames(ts);
  }
}
