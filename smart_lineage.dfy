/// The canonical `SQLLineageParser` (smart_lineage_parser.py): name
/// cleaning, alias extraction, per-statement source/target extraction and
/// the aggregation over the statements `extract_sql_statements` yields.
module SmartLineage {
  import opened Text
  import opened Graph
  import opened Scanners
  import opened Lineage
  import Segmenter

  // ---------------------------------------------------------------------
  // clean_table_name

  /** Drops one pair of enclosing double quotes (a lone `"` becomes empty). */
  function Unquote(a: string): string {
    if |a| >= 1 && a[0] == '"' && a[|a| - 1] == '"' then (if |a| >= 2 then a[1..|a| - 1] else "") else a
  }

  /** Cuts at the first `' AS '` and strips what precedes it. */
  function CutAlias(b: string): string {
    match FindFrom(b, " AS ", 0) case Some(i) => Strip(b[..i]) case None => b
  }

  /** `clean_table_name`: strip, drop one pair of enclosing double quotes,
      cut at the first `' AS '`, strip again. */
  function CleanTableName(name: string): string {
    Strip(CutAlias(Unquote(Strip(name))))
  }

  /** The result never starts or ends with white space. */
  lemma CleanIsStripped(name: string)
    ensures var r := CleanTableName(name); r == [] || (!IsSpace(r[0]) && !IsSpace(r[|r| - 1]))
  {
    StripSpec(CutAlias(Unquote(Strip(name))));
  }

  /** A slice that holds no occurrence of `p` of the whole string has no `p`. */
  lemma SliceAbsent(s: string, p: string, lo: nat, hi: nat)
    requires lo <= hi <= |s|
    requires forall k :: lo <= k && k + |p| <= hi ==> !OccursAt(s, p, k)
    ensures !Contains(s[lo..hi], p)
  {
    forall i: nat | i <= hi - lo
      ensures !OccursAt(s[lo..hi], p, i)
    {
      if i + |p| <= hi - lo {
        var k := lo + i;
        assert lo <= k && k + |p| <= hi;
        assert !OccursAt(s, p, k);
        var u, v := s[lo..hi][i..i + |p|], s[k..k + |p|];
        assert forall m :: 0 <= m < |p| ==> u[m] == v[m];
        assert u == v;
      }
    }
  }

  /** Stripping cannot create an occurrence. */
  lemma StripAbsent(s: string, p: string)
    requires !Contains(s, p)
    ensures !Contains(Strip(s), p)
  {
    var a := SkipSpace(s, 0);
    SliceAbsent(s, p, a, SkipSpaceBack(s, a, |s|));
  }

  /** Everything from the first `' AS '` on is gone. */
  lemma CleanHasNoAs(name: string)
    ensures !Contains(CleanTableName(name), " AS ")
  {
    var b := Unquote(Strip(name));
    FindFromSpec(b, " AS ", 0);
    FindContains(b, " AS ");
    match FindFrom(b, " AS ", 0)
    case Some(i) =>
      SliceAbsent(b, " AS ", 0, i);
      assert b[0..i] == b[..i];
      StripAbsent(b[..i], " AS ");
      StripAbsent(Strip(b[..i]), " AS ");
    case None =>
      StripAbsent(b, " AS ");
  }

  lemma StripNoSpace(s: string)
    requires NoSpace(s)
    ensures Strip(s) == s
  {
    StripSpec(s);
  }

  lemma NoAsInNoSpace(s: string)
    requires NoSpace(s)
    ensures FindFrom(s, " AS ", 0).None?
  {
    forall k | 0 <= k <= |s|
      ensures !OccursAt(s, " AS ", k)
    {
      if k + 4 <= |s| {
        assert s[k..k + 4][0] == s[k];
      }
    }
  }

  /** A bare `[\w\.]` name, as every capture in this revision is, comes back unchanged. */
  lemma CleanPlain(n: string)
    requires NameShaped(n)
    ensures CleanTableName(n) == n
  {
    assert NoSpace(n);
    StripNoSpace(n);
    NoAsInNoSpace(n);
  }

  /** One pair of enclosing quotes is removed. */
  lemma CleanQuoted(x: string)
    requires NoSpace(x)
    ensures CleanTableName("\"" + x + "\"") == x
  {
    var q := "\"" + x + "\"";
    assert NoSpace(q);
    StripNoSpace(q);
    assert q[1..|q| - 1] == x;
    NoAsInNoSpace(x);
    StripNoSpace(x);
  }

  /** `name AS alias` is cut back to `name`. */
  lemma CleanDropsAlias(x: string, y: string)
    requires NoSpace(x) && x != [] && x[0] != '"'
    requires NoSpace(y) && y != []
    ensures CleanTableName(x + " AS " + y) == x
  {
    var s := x + " AS " + y;
    assert s[0] == x[0] && s[|s| - 1] == y[|y| - 1];
    StripTrimmed(s);
    assert Unquote(Strip(s)) == s;
    FirstAlias(x, y);
    assert s[..|x|] == x;
    StripNoSpace(x);
  }

  /** The first `' AS '` of `x AS y` is the one after `x`. */
  lemma FirstAlias(x: string, y: string)
    requires NoSpace(x)
    ensures FindFrom(x + " AS " + y, " AS ", 0) == Some(|x|)
  {
    var s := x + " AS " + y;
    assert OccursAt(s, " AS ", |x|);
    forall k | 0 <= k < |x|
      ensures !OccursAt(s, " AS ", k)
    {
      if k + 4 <= |s| {
        assert s[k..k + 4][0] == s[k] == x[k];
      }
    }
    FindFromSpec(s, " AS ", 0);
  }

  // ---------------------------------------------------------------------
  // extract_aliases

  /** The clause words of the alias lookahead `\s+(?:JOIN|ON|WHERE|…|LIMIT)`. */
  const Boundaries: seq<string> := ["JOIN", "ON", "WHERE", "GROUP", "ORDER", "HAVING", "WINDOW", "LIMIT"]

  /** SQL words that name neither a table nor an alias (used by the corrected scan). */
  const Reserved: set<string> := {
    "SELECT", "FROM", "JOIN", "INTO", "INSERT", "UPDATE", "MERGE", "DELETE", "CREATE", "TABLE",
    "REPLACE", "WITH", "AS", "ON", "WHERE", "GROUP", "ORDER", "BY", "HAVING", "WINDOW", "LIMIT",
    "VALUES", "SET", "USING", "INNER", "LEFT", "RIGHT", "FULL", "OUTER", "CROSS", "UNION", "ALL",
    "DISTINCT", "AND", "OR", "NOT", "IN", "IS", "NULL", "CASE", "WHEN", "THEN", "ELSE", "END"}

  function StartsWithAny(t: string, ps: seq<string>): bool
    decreases |ps|
  {
    ps != [] && (StartsWith(t, ps[0]) || StartsWithAny(t, ps[1..]))
  }

  /** Start of the word run that ends at `j`. */
  function WordStartBack(t: string, j: nat): (r: nat)
    requires j <= |t|
    ensures r <= j
    decreases j
  {
    if j > 0 && IsWordChar(t[j - 1]) then WordStartBack(t, j - 1) else j
  }

  /** Extends a dotted name that starts at `p` leftwards over `word.` pieces. */
  function ExtendBack(t: string, p: nat): (r: nat)
    requires p <= |t|
    ensures r <= p
    decreases p
  {
    if p >= 2 && t[p - 1] == '.' && IsWordChar(t[p - 2]) then ExtendBack(t, WordStartBack(t, p - 1)) else p
  }

  /** Where the name `\b\w+(?:\.\w+)*\b` that ends token `t` starts: the
      leftmost word start from which the greedy name runs to the token's end.
      Only such a name can be followed by `\s+alias`. */
  function TrailStart(t: string): Option<nat> {
    if t == [] || !IsWordChar(t[|t| - 1]) then None else Some(ExtendBack(t, WordStartBack(t, |t|)))
  }

  /** The lookahead `(?=\s*(?:,|\s+(?:JOIN|…|LIMIT|$)))` after a match that
      ends at character `e` of token `k`.  In normalised text nothing follows
      the last token, so the `\s+$` branch never holds. */
  predicate LookaheadOk(ts: seq<string>, k: nat, e: nat)
    requires k < |ts| && e <= |ts[k]|
  {
    if e < |ts[k]| then ts[k][e] == ','
    else k + 1 < |ts| && (StartsWith(ts[k + 1], ",") || StartsWithAny(ts[k + 1], Boundaries))
  }

  datatype AliasPair = AliasPair(alias: string, table: string)

  /** The word `\w+` that starts token `k`. */
  function LeadWord(ts: seq<string>, k: nat): string
    requires k < |ts|
  {
    ts[k][..WordRunEnd(ts[k], 0)]
  }

  /** `(?:\s+(?:AS\s+)?(\w+))?` after a name that ends token `j`: the token
      holding the alias and the alias, `AS alias` tried before a bare alias.
      Words in `reserved` are not accepted as aliases. */
  function AliasAfter(ts: seq<string>, j: nat, reserved: set<string>): (r: Option<(nat, string)>)
    ensures r.Some? ==> j < r.value.0 < |ts| && r.value.1 == LeadWord(ts, r.value.0)
  {
    if j + 2 < |ts| && ts[j + 1] == "AS" && LeadWord(ts, j + 2) != [] &&
       LeadWord(ts, j + 2) !in reserved && LookaheadOk(ts, j + 2, WordRunEnd(ts[j + 2], 0))
    then Some((j + 2, LeadWord(ts, j + 2)))
    else if j + 1 < |ts| && LeadWord(ts, j + 1) != [] &&
       LeadWord(ts, j + 1) !in reserved && LookaheadOk(ts, j + 1, WordRunEnd(ts[j + 1], 0))
    then Some((j + 1, LeadWord(ts, j + 1)))
    else None
  }

  /** The `(table, alias)` matches of `alias_pattern` from token `j` on, in
      order.  With `reserved` empty this is the pattern as written; with
      `Reserved` a keyword is never taken as a table or an alias.  After an
      alias that is only the head of its token (`B,C`) the scan goes on in
      that token. */
  function AliasScan(ts: seq<string>, reserved: set<string>, j: nat): seq<AliasPair>
    decreases |ts| - j
  {
    if j >= |ts| then []
    else match TrailStart(ts[j])
      case None => AliasScan(ts, reserved, j + 1)
      case Some(p) =>
        if ts[j][p..] in reserved then AliasScan(ts, reserved, j + 1)
        else match AliasAfter(ts, j, reserved)
          case None => AliasScan(ts, reserved, j + 1)
          case Some(a) =>
            [AliasPair(a.1, ts[j][p..])] +
            AliasScan(ts, reserved, if |a.1| == |ts[a.0]| then a.0 + 1 else a.0)
  }

  /** The dictionary the loop builds: `table_aliases[alias.upper()] = table.upper()`, later entries winning. */
  function AliasMap(ps: seq<AliasPair>): map<string, string>
    decreases |ps|
  {
    if ps == [] then map[]
    else AliasMap(ps[..|ps| - 1])[UpperStr(Last(ps).alias) := UpperStr(Last(ps).table)]
  }

  /** No match after the `i`-th has alias `key`. */
  predicate LastWith(ps: seq<AliasPair>, key: string, i: nat) {
    forall l :: i < l < |ps| ==> UpperStr(ps[l].alias) != key
  }

  /** A key is present exactly when some match had that alias (upper-cased). */
  lemma {:induction false} AliasMapKeys(ps: seq<AliasPair>, key: string)
    ensures key in AliasMap(ps) <==> exists i :: 0 <= i < |ps| && UpperStr(ps[i].alias) == key
    decreases |ps|
  {
    if ps != [] {
      var init := ps[..|ps| - 1];
      AliasMapKeys(init, key);
      if key in AliasMap(ps) && UpperStr(Last(ps).alias) != key {
        var i :| 0 <= i < |init| && UpperStr(init[i].alias) == key;
        assert ps[i] == init[i];
      }
      if exists i :: 0 <= i < |ps| && UpperStr(ps[i].alias) == key {
        var i :| 0 <= i < |ps| && UpperStr(ps[i].alias) == key;
        if i < |init| {
          assert init[i] == ps[i];
        }
      }
    }
  }

  /** The key maps to the table of the last match with that alias. */
  lemma {:induction false} AliasMapLast(ps: seq<AliasPair>, key: string, i: nat)
    requires i < |ps| && UpperStr(ps[i].alias) == key && LastWith(ps, key, i)
    ensures key in AliasMap(ps) && AliasMap(ps)[key] == UpperStr(ps[i].table)
    decreases |ps|
  {
    var init := ps[..|ps| - 1];
    if i < |init| {
      assert init[i] == ps[i];
      assert UpperStr(Last(ps).alias) != key;
      assert LastWith(init, key, i) by {
        forall l | i < l < |init| ensures UpperStr(init[l].alias) != key {
          assert init[l] == ps[l];
        }
      }
      AliasMapLast(init, key, i);
    }
  }

  /** With the correction no keyword is stored as an alias or as a table. */
  lemma {:induction false} CorrectedAliasesAvoidKeywords(ts: seq<string>, j: nat)
    ensures forall p :: p in AliasScan(ts, Reserved, j) ==> p.alias !in Reserved && p.table !in Reserved
    decreases |ts| - j
  {
    if j < |ts| {
      match TrailStart(ts[j])
      case None => CorrectedAliasesAvoidKeywords(ts, j + 1);
      case Some(p) =>
        if ts[j][p..] in Reserved {
          CorrectedAliasesAvoidKeywords(ts, j + 1);
        } else {
          match AliasAfter(ts, j, Reserved)
          case None => CorrectedAliasesAvoidKeywords(ts, j + 1);
          case Some(a) =>
            CorrectedAliasesAvoidKeywords(ts, if |a.1| == |ts[a.0]| then a.0 + 1 else a.0);
        }
    }
  }

  // ---------------------------------------------------------------------
  // extract_table_names

  /** `CREATE\s+(?:OR\s+REPLACE\s+)?TABLE\s+([\w\.]+)` */
  const CreateAlts: seq<seq<string>> := [["CREATE", "OR", "REPLACE", "TABLE"], ["CREATE", "TABLE"]]
  /** `INTO\s+(table_pattern)` */
  const IntoAlt: seq<seq<string>> := [["INTO"]]
  const Dml: set<string> := {"INSERT", "UPDATE", "MERGE"}

  /** The names after `FROM` and after `JOIN` from token `i` on. */
  function FromJoin(ts: seq<string>, i: nat): set<string> {
    Elements(NamesAfter(ts, "FROM", true, true, i)) + Elements(NamesAfter(ts, "JOIN", true, true, i))
  }

  /** Sources before alias resolution and CTE removal, and the target. */
  datatype Raw = Raw(sources: set<string>, target: Option<string>)

  function RawNames(ts: seq<string>, kind: string): Raw {
    match FirstPhrase(ts, CreateAlts, Run)
    case Some(t) => Raw(FromJoin(ts, FirstTokenWith(ts, "SELECT", 0)), Some(t))
    case None =>
      if kind in Dml then
        if FirstTokenWith(ts, "VALUES", 0) < |ts| then
          match FirstPhrase(ts, IntoAlt, Qualified(true))
          case Some(t) => Raw({t}, Some(t))
          case None => Raw({}, None)
        else Raw(FromJoin(ts, 0), FirstPhrase(ts, TargetAlts, Qualified(true)))
      else Raw({}, None)
  }

  function Resolve(aliases: map<string, string>, s: string): string {
    if s in aliases then aliases[s] else s
  }

  function Resolved(ss: set<string>, aliases: map<string, string>): set<string> {
    set s | s in ss :: Resolve(aliases, s)
  }

  /** The statement's sources (alias-resolved, then without CTE names) and targets. */
  function TableNames(ts: seq<string>, kind: string, aliases: map<string, string>): Names {
    var raw := RawNames(ts, kind);
    Names(Resolved(raw.sources, aliases) - CteNames(ts), if raw.target.Some? then {raw.target.value} else {})
  }

  /** What `extract_table_names` returns for one extracted statement. */
  function StatementNames(st: Segmenter.StatementInfo): Names {
    var ts := Normalize(st.statement);
    TableNames(ts, st.kind, AliasMap(AliasScan(ts, Reserved, 0)))
  }

  /** `s` resolves a name that follows `FROM` or `JOIN` at token `k` or later. */
  ghost predicate FromJoinSource(ts: seq<string>, k: nat, aliases: map<string, string>, s: string) {
    exists j, n :: k <= j && j + 1 < |ts| && (ts[j] == "FROM" || ts[j] == "JOIN") &&
      NameAt(ts[j + 1], true) == Some(n) && s == Resolve(aliases, n)
  }

  /** A `CREATE [OR REPLACE] TABLE name` match wins whatever the statement
      type: `name` is the only target, and every source is the resolution of
      a name after `FROM`/`JOIN` at or after the first `SELECT`. */
  lemma CreateTakesPriority(ts: seq<string>, kind: string, aliases: map<string, string>, t: string)
    requires FirstPhrase(ts, CreateAlts, Run) == Some(t)
    ensures TableNames(ts, kind, aliases).targets == {t}
    ensures forall s :: s in TableNames(ts, kind, aliases).sources ==>
      s !in CteNames(ts) && FromJoinSource(ts, FirstTokenWith(ts, "SELECT", 0), aliases, s)
  {
    var k := FirstTokenWith(ts, "SELECT", 0);
    CreateRaw(ts, kind, t);
    forall s | s in Resolved(FromJoin(ts, k), aliases)
      ensures FromJoinSource(ts, k, aliases, s)
    {
      FromJoinSound(ts, k, aliases, s);
    }
  }

  lemma CreateRaw(ts: seq<string>, kind: string, t: string)
    requires FirstPhrase(ts, CreateAlts, Run) == Some(t)
    ensures RawNames(ts, kind) == Raw(FromJoin(ts, FirstTokenWith(ts, "SELECT", 0)), Some(t))
  {
  }

  /** Every resolved `FROM`/`JOIN` name from token `k` on is such a source. */
  lemma FromJoinSound(ts: seq<string>, k: nat, aliases: map<string, string>, s: string)
    requires s in Resolved(FromJoin(ts, k), aliases)
    ensures FromJoinSource(ts, k, aliases, s)
  {
    var n :| n in FromJoin(ts, k) && s == Resolve(aliases, n);
    var kw := if n in NamesAfter(ts, "FROM", true, true, k) then "FROM" else "JOIN";
    var j := KeywordBefore(ts, kw, k, n);
    assert k <= j && j + 1 < |ts| && (ts[j] == "FROM" || ts[j] == "JOIN") &&
      NameAt(ts[j + 1], true) == Some(n) && s == Resolve(aliases, n);
  }

  /** The keyword token a name of `NamesAfter` follows. */
  lemma KeywordBefore(ts: seq<string>, kw: string, k: nat, n: string) returns (j: nat)
    requires n in NamesAfter(ts, kw, true, true, k)
    ensures k <= j && j + 1 < |ts| && ts[j] == kw && NameAt(ts[j + 1], true) == Some(n)
  {
    NamesAfterSound(ts, kw, true, true, k);
    j :| k <= j && j + 1 < |ts| && ts[j] == kw && NameAt(ts[j + 1], true) == Some(n);
  }

  /** With `VALUES` in an INSERT/UPDATE/MERGE the name after `INTO` is the
      target and, resolved and unless it is a CTE name, the only source;
      the target itself is never resolved or filtered. */
  lemma ValuesSelfReference(ts: seq<string>, kind: string, aliases: map<string, string>, t: string)
    requires FirstPhrase(ts, CreateAlts, Run).None? && kind in Dml
    requires FirstTokenWith(ts, "VALUES", 0) < |ts|
    requires FirstPhrase(ts, IntoAlt, Qualified(true)) == Some(t)
    ensures TableNames(ts, kind, aliases).targets == {t}
    ensures TableNames(ts, kind, aliases).sources == {Resolve(aliases, t)} - CteNames(ts)
  {
    ValuesRaw(ts, kind, t);
    ResolvedSingle(t, aliases);
  }

  lemma ValuesRaw(ts: seq<string>, kind: string, t: string)
    requires FirstPhrase(ts, CreateAlts, Run).None? && kind in Dml
    requires FirstTokenWith(ts, "VALUES", 0) < |ts|
    requires FirstPhrase(ts, IntoAlt, Qualified(true)) == Some(t)
    ensures RawNames(ts, kind) == Raw({t}, Some(t))
  {
  }

  lemma ResolvedSingle(t: string, aliases: map<string, string>)
    ensures Resolved({t}, aliases) == {Resolve(aliases, t)}
  {
  }

  /** Any other statement type without a `CREATE … TABLE` match, DELETE
      included, yields no sources and no targets. */
  lemma OtherKindsYieldNothing(ts: seq<string>, kind: string, aliases: map<string, string>)
    requires FirstPhrase(ts, CreateAlts, Run).None? && kind !in Dml
    ensures TableNames(ts, kind, aliases) == Names({}, {})
  {
    assert Resolved({}, aliases) == {};
  }

  /** In an INSERT/UPDATE/MERGE without `VALUES`, every `FROM`/`JOIN`
      followed by a name contributes its resolution, unless the keyword was
      swallowed by the previous match or the resolution is a CTE name. */
  lemma DmlSourcesComplete(ts: seq<string>, kind: string, aliases: map<string, string>, j: nat)
    requires FirstPhrase(ts, CreateAlts, Run).None? && kind in Dml
    requires FirstTokenWith(ts, "VALUES", 0) == |ts|
    requires j + 1 < |ts| && (ts[j] == "FROM" || ts[j] == "JOIN") && NameAt(ts[j + 1], true).Some?
    requires j == 0 || (ts[j - 1] != ts[j] && ts[j - 1] != "AS")
    requires Resolve(aliases, NameAt(ts[j + 1], true).value) !in CteNames(ts)
    ensures Resolve(aliases, NameAt(ts[j + 1], true).value) in TableNames(ts, kind, aliases).sources
  {
    NamesAfterComplete(ts, ts[j], true, true, 0, j);
    var n := NameAt(ts[j + 1], true).value;
    assert n in FromJoin(ts, 0);
  }

  /** The target of an INSERT/UPDATE/MERGE without `VALUES` is the name
      after the leftmost `INTO`, `UPDATE` or `MERGE INTO`. */
  lemma DmlTargetIsLeftmost(ts: seq<string>, kind: string, aliases: map<string, string>, j: nat)
    requires FirstPhrase(ts, CreateAlts, Run).None? && kind in Dml
    requires FirstTokenWith(ts, "VALUES", 0) == |ts|
    requires j < |ts| && AltAt(ts, j, TargetAlts, Qualified(true)).Some?
    requires forall k :: 0 <= k < j ==> AltAt(ts, k, TargetAlts, Qualified(true)).None?
    ensures TableNames(ts, kind, aliases).targets == {AltAt(ts, j, TargetAlts, Qualified(true)).value}
  {
    FirstPhraseLeftmost(ts, TargetAlts, Qualified(true), j);
  }

  // ---------------------------------------------------------------------
  // The alias finding

  /** `INSERT INTO T SELECT * FROM A JOIN B`, normalised. */
  const FindingStatement: seq<string> := ["INSERT", "INTO", "T", "SELECT", "*", "FROM", "A", "JOIN", "B"]

  lemma {:induction false} WordStartBackWord(t: string, j: nat)
    requires j <= |t|
    requires forall k :: 0 <= k < j ==> IsWordChar(t[k])
    ensures WordStartBack(t, j) == 0
    decreases j
  {
    if j > 0 {
      WordStartBackWord(t, j - 1);
    }
  }

  /** A word token is its own trailing name and its own leading word. */
  lemma WordToken(ts: seq<string>, k: nat)
    requires k < |ts| && IsWord(ts[k])
    ensures TrailStart(ts[k]) == Some(0) && LeadWord(ts, k) == ts[k]
  {
    WordStartBackWord(ts[k], |ts[k]|);
    WordRunWhole(ts[k], 0);
  }

  /** As written, `FROM A JOIN` reads as table `FROM` with alias `A`, so the
      source `A` is reported as `FROM`. */
  lemma AliasPatternAsWritten()
    ensures AliasScan(FindingStatement, {}, 0) == [AliasPair("A", "FROM")]
    ensures TableNames(FindingStatement, "INSERT", AliasMap(AliasScan(FindingStatement, {}, 0))).sources == {"FROM", "B"}
  {
    AsWrittenTail();
    AsWrittenHead(0);
    AsWrittenSources();
  }

  /** From `FROM` on, the only match is `FROM` with alias `A`. */
  lemma AsWrittenTail()
    ensures AliasScan(FindingStatement, {}, 5) == [AliasPair("A", "FROM")]
  {
    var ts := FindingStatement;
    FindingWords();
    assert AliasScan(ts, {}, 8) == [];
    assert AliasScan(ts, {}, 7) == [];
    assert StartsWith(ts[7], "JOIN");
    assert LookaheadOk(ts, 6, 1);
    assert AliasAfter(ts, 5, {}) == Some((6, "A"));
  }

  /** Before `FROM` nothing matches. */
  lemma {:induction false} AsWrittenHead(j: nat)
    requires j <= 5
    ensures AliasScan(FindingStatement, {}, j) == AliasScan(FindingStatement, {}, 5)
    decreases 5 - j
  {
    if j < 5 {
      AsWrittenSkip(j);
      AsWrittenHead(j + 1);
    }
  }

  /** Token `j` before `FROM` opens no match of the pattern as written. */
  lemma AsWrittenSkip(j: nat)
    requires j < 5
    ensures AliasScan(FindingStatement, {}, j) == AliasScan(FindingStatement, {}, j + 1)
  {
    var ts := FindingStatement;
    if j < 4 {
      NoAliasAfter(j);
      FindingWords();
      assert TrailStart(ts[j]) == Some(0) && ts[j][0..] == ts[j];
    } else {
      assert TrailStart(ts[4]) == None;
    }
  }

  /** No alias follows tokens 0 to 3. */
  lemma NoAliasAfter(j: nat)
    requires j < 4
    ensures AliasAfter(FindingStatement, j, {}) == None
  {
    var ts := FindingStatement;
    FindingWords();
    if j < 3 {
      NoBoundary(j + 2);
      NoAliasNext(ts, j);
    } else {
      assert LeadWord(ts, 4) == [];
    }
  }

  /** A word followed by a token that is neither `,` nor a clause boundary
      is no alias, and neither is `AS`. */
  lemma NoAliasNext(ts: seq<string>, j: nat)
    requires j + 2 < |ts| && ts[j + 1] != "AS" && IsWord(ts[j + 1])
    requires !StartsWith(ts[j + 2], ",") && !StartsWithAny(ts[j + 2], Boundaries)
    ensures AliasAfter(ts, j, {}) == None
  {
    WordRunWhole(ts[j + 1], 0);
    assert !LookaheadOk(ts, j + 1, WordRunEnd(ts[j + 1], 0));
  }

  /** Tokens 2 to 4 start with no clause boundary. */
  lemma NoBoundary(k: nat)
    requires 2 <= k <= 4
    ensures !StartsWithAny(FindingStatement[k], Boundaries)
    ensures !StartsWith(FindingStatement[k], ",") && FindingStatement[k - 1] != "AS"
  {
    var t := FindingStatement[k];
    assert t[0] in "TS*";
    if |t| >= 1 {
      assert t[..1][0] == t[0];
    }
    var b := Boundaries;
    forall i | 0 <= i < |b|
      ensures !StartsWith(t, b[i])
    {
      assert b[i][0] in "JOWGHL";
      if |b[i]| <= |t| {
        assert t[..|b[i]|][0] == t[0];
      }
    }
    NotStartsWithAny(t, b);
  }

  lemma {:induction false} NotStartsWithAny(t: string, ps: seq<string>)
    requires forall i :: 0 <= i < |ps| ==> !StartsWith(t, ps[i])
    ensures !StartsWithAny(t, ps)
    decreases |ps|
  {
    if ps != [] {
      assert forall i :: 1 <= i < |ps| ==> ps[1..][i - 1] == ps[i];
      NotStartsWithAny(t, ps[1..]);
    }
  }

  lemma AsWrittenSources()
    ensures TableNames(FindingStatement, "INSERT", AliasMap([AliasPair("A", "FROM")])).sources == {"FROM", "B"}
  {
    var m := AliasMap([AliasPair("A", "FROM")]);
    assert UpperStr("A") == "A" && UpperStr("FROM") == "FROM";
    assert m == map["A" := "FROM"];
    FindingRawNames();
    assert Resolved({"A", "B"}, m) == {"FROM", "B"};
  }

  /** With keywords excluded no alias is found and the sources are `A` and `B`. */
  lemma AliasPatternCorrected()
    ensures AliasScan(FindingStatement, Reserved, 0) == []
    ensures TableNames(FindingStatement, "INSERT", AliasMap(AliasScan(FindingStatement, Reserved, 0))).sources == {"A", "B"}
  {
    FindingNoAliases();
    FindingRawNames();
    assert Resolved({"A", "B"}, map[]) == {"A", "B"};
  }

  lemma FindingNoAliases()
    ensures AliasScan(FindingStatement, Reserved, 0) == []
  {
    var ts := FindingStatement;
    FindingWords();
    assert AliasScan(ts, Reserved, 8) == [];
    assert AliasScan(ts, Reserved, 7) == [];
    assert AliasAfter(ts, 6, Reserved) == None;
    assert AliasScan(ts, Reserved, 6) == [];
    assert AliasScan(ts, Reserved, 5) == [];
    assert TrailStart(ts[4]) == None;
    assert AliasScan(ts, Reserved, 4) == [];
    assert AliasScan(ts, Reserved, 3) == [];
    assert AliasAfter(ts, 2, Reserved) == None;
    assert AliasScan(ts, Reserved, 2) == [];
    assert AliasScan(ts, Reserved, 0) == [];
  }

  lemma FindingWords()
    ensures forall k :: 0 <= k < |FindingStatement| && k != 4 ==>
      IsWord(FindingStatement[k]) && TrailStart(FindingStatement[k]) == Some(0) &&
      LeadWord(FindingStatement, k) == FindingStatement[k]
    ensures LeadWord(FindingStatement, 4) == []
  {
    var ts := FindingStatement;
    forall k | 0 <= k < |ts| && k != 4
      ensures IsWord(ts[k]) && TrailStart(ts[k]) == Some(0) && LeadWord(ts, k) == ts[k]
    {
      assert IsWord(ts[k]);
      WordToken(ts, k);
    }
  }

  /** The raw sources of the finding's statement and the absence of CTEs. */
  lemma FindingRawNames()
    ensures RawNames(FindingStatement, "INSERT").sources == {"A", "B"}
    ensures CteNames(FindingStatement) == {}
  {
    FindingNoCreate();
    FindingNoValues();
    FindingFromJoin();
    FindingNoCte();
  }

  /** No token of the statement holds a `V`. */
  lemma FindingNoValues()
    ensures FirstTokenWith(FindingStatement, "VALUES", 0) == |FindingStatement|
  {
    var ts := FindingStatement;
    forall k, c | 0 <= k < |ts| && 0 <= c < |ts[k]|
      ensures ts[k][c] != 'V'
    {
      assert ts[k][c] in "INSERTOLCFMAJB*";
    }
    FirstTokenWithout(ts, "VALUES", 0);
  }

  lemma FindingNoCreate()
    ensures FirstPhrase(FindingStatement, CreateAlts, Run).None?
  {
    var ts := FindingStatement;
    forall j | 0 <= j < |ts|
      ensures AltAt(ts, j, CreateAlts, Run).None?
    {
      AltAtHead(ts, j, CreateAlts, Run);
    }
    FirstPhraseNone(ts, CreateAlts, Run);
  }

  lemma FindingFromJoin()
    ensures NamesAfter(FindingStatement, "FROM", true, true, 0) == ["A"]
    ensures NamesAfter(FindingStatement, "JOIN", true, true, 0) == ["B"]
  {
    var ts := FindingStatement;
    NameAtWord("A", true);
    NameAtWord("B", true);
    assert NamesAfter(ts, "FROM", true, true, 7) == [];
    assert NamesAfter(ts, "FROM", true, true, 5) == ["A"];
    assert NamesAfter(ts, "FROM", true, true, 0) == ["A"];
    assert NamesAfter(ts, "JOIN", true, true, 7) == ["B"];
    assert NamesAfter(ts, "JOIN", true, true, 0) == ["B"];
  }

  lemma FindingNoCte()
    ensures CteNames(FindingStatement) == {}
  {
    var ts := FindingStatement;
    assert forall j :: 0 <= j < |ts| ==> ts[j] != "WITH";
  }

  // ---------------------------------------------------------------------
  // The parser object

  /** Adds each captured name, cleaned, to `acc`. */
  method AddNames(acc: set<string>, names: seq<string>) returns (r: set<string>)
    requires forall n :: n in names ==> Dotted(n)
    ensures r == acc + Elements(names)
  {
    r := acc;
    var i := 0;
    while i < |names|
      invariant i <= |names|
      invariant r == acc + Elements(names[..i])
    {
      DottedShaped(names[i]);
      CleanPlain(names[i]);
      r := r + {CleanTableName(names[i])};
      assert names[..i + 1] == names[..i] + [names[i]];
      i := i + 1;
    }
    assert names[..i] == names;
  }

  lemma ResolvedInsert(ss: set<string>, s: string, aliases: map<string, string>)
    ensures Resolved(ss + {s}, aliases) == Resolved(ss, aliases) + {Resolve(aliases, s)}
  {
  }

  /** The loop that replaces each source by its alias target. */
  method ResolveAliases(sources: set<string>, aliases: map<string, string>) returns (r: set<string>)
    ensures r == Resolved(sources, aliases)
  {
    r := {};
    var rest := sources;
    while rest != {}
      invariant rest <= sources
      invariant r == Resolved(sources - rest, aliases)
      decreases |rest|
    {
      var s :| s in rest;
      if s in aliases {
        r := r + {aliases[s]};
      } else {
        r := r + {s};
      }
      ResolvedInsert(sources - rest, s, aliases);
      assert sources - (rest - {s}) == (sources - rest) + {s};
      rest := rest - {s};
    }
    assert sources - rest == sources;
  }

  /** The matching part of `extract_table_names`: the cleaned captures
      before alias resolution and CTE removal. */
  method CollectNames(ts: seq<string>, kind: string) returns (srcs: set<string>, target: Option<string>)
    ensures srcs == RawNames(ts, kind).sources && target == RawNames(ts, kind).target
  {
    srcs := {};
    target := None;
    var create := FirstPhrase(ts, CreateAlts, Run);
    if create.Some? {
      FirstPhraseShaped(ts, CreateAlts, Run);
      CleanPlain(create.value);
      target := Some(CleanTableName(create.value));
      var k := FirstTokenWith(ts, "SELECT", 0);
      if k < |ts| {
        srcs := CollectFromJoin(ts, k);
      }
    } else if kind in Dml {
      if FirstTokenWith(ts, "VALUES", 0) < |ts| {
        var into := FirstPhrase(ts, IntoAlt, Qualified(true));
        if into.Some? {
          FirstPhraseShaped(ts, IntoAlt, Qualified(true));
          CleanPlain(into.value);
          var t := CleanTableName(into.value);
          target := Some(t);
          srcs := {t};
        }
      } else {
        var found := FirstPhrase(ts, TargetAlts, Qualified(true));
        if found.Some? {
          FirstPhraseShaped(ts, TargetAlts, Qualified(true));
          CleanPlain(found.value);
          target := Some(CleanTableName(found.value));
        }
        srcs := CollectFromJoin(ts, 0);
      }
    }
  }

  /** The two `finditer` loops over `FROM` and `JOIN`. */
  method CollectFromJoin(ts: seq<string>, k: nat) returns (srcs: set<string>)
    ensures srcs == FromJoin(ts, k)
  {
    NamesAfterDotted(ts, "FROM", true, true, k);
    NamesAfterDotted(ts, "JOIN", true, true, k);
    srcs := AddNames({}, NamesAfter(ts, "FROM", true, true, k));
    srcs := AddNames(srcs, NamesAfter(ts, "JOIN", true, true, k));
  }

  /** What one extracted statement contributes to the registries: a blank
      statement is skipped, any other yields its names, stamped with its
      timestamp and type. */
  function ContributionOf(st: Segmenter.StatementInfo): Contribution {
    Contribution(if Strip(st.statement) == [] then Names({}, {}) else StatementNames(st),
                 Some(Stamp(st.timestamp, st.kind)))
  }

  function Contributions(stmts: seq<Segmenter.StatementInfo>): (r: seq<Contribution>)
    ensures |r| == |stmts|
  {
    ContributionsBy(stmts, ContributionOf)
  }

  lemma ContributionsSnoc(stmts: seq<Segmenter.StatementInfo>, i: nat)
    requires i < |stmts|
    ensures Contributions(stmts[..i + 1]) == Contributions(stmts[..i]) + [ContributionOf(stmts[i])]
  {
    ContributionsBySnoc(stmts, i, ContributionOf);
  }

  class Parser {
    const registry: Registry
    var lastTarget: Option<string>
    var tableAliases: map<string, string>

    constructor()
      ensures fresh(registry)
      ensures registry.sourceTables == {} && registry.targetTables == {} && registry.mappings == []
      ensures lastTarget == None && tableAliases == map[]
    {
      registry := new Registry();
      lastTarget := None;
      tableAliases := map[];
    }

    /** `extract_aliases`: the map is rebuilt from scratch for each statement. */
    method ExtractAliases(ts: seq<string>)
      modifies this`tableAliases
      ensures tableAliases == AliasMap(AliasScan(ts, Reserved, 0))
    {
      tableAliases := map[];
      var pairs := AliasScan(ts, Reserved, 0);
      var i := 0;
      while i < |pairs|
        invariant i <= |pairs|
        invariant tableAliases == AliasMap(pairs[..i])
      {
        assert pairs[..i + 1][..i] == pairs[..i];
        tableAliases := tableAliases[UpperStr(pairs[i].alias) := UpperStr(pairs[i].table)];
        i := i + 1;
      }
      assert pairs[..i] == pairs;
    }

    /** `extract_table_names`: the returned lists hold each name once. */
    method ExtractTableNames(st: Segmenter.StatementInfo) returns (sources: seq<string>, targets: seq<string>)
      modifies this`tableAliases, this`lastTarget
      ensures Elements(sources) == StatementNames(st).sources && |sources| == |StatementNames(st).sources|
      ensures Elements(targets) == StatementNames(st).targets && |targets| == |StatementNames(st).targets|
      ensures Distinct(sources) && Distinct(targets)
      ensures tableAliases == AliasMap(AliasScan(Normalize(st.statement), Reserved, 0))
      ensures lastTarget == (var t := RawNames(Normalize(st.statement), st.kind).target;
                             if t.Some? then t else old(lastTarget))
    {
      var ts := Normalize(st.statement);
      ExtractAliases(ts);
      var srcs, target := CollectNames(ts, st.kind);
      var tgts: set<string> := {};
      if target.Some? {
        tgts := {target.value};
        lastTarget := target;
      }
      var resolved := ResolveAliases(srcs, tableAliases);
      var cteNames := CteNames(ts);
      resolved := resolved - cteNames;
      assert StatementNames(st) == TableNames(ts, st.kind, tableAliases);
      sources := Enumerate(resolved);
      targets := Enumerate(tgts);
    }

    /** One iteration of `process_sql_file`'s loop: both registries gain
        the statement's names and its block of mappings is appended, one per
        target and source in target-major order; `l` is the order in which
        `list(set)` gave the names. */
    method ProcessStatement(st: Segmenter.StatementInfo) returns (ghost l: Listing)
      modifies this, registry
      ensures Lists(l, ContributionOf(st))
      ensures registry.sourceTables == old(registry.sourceTables) + ContributionOf(st).names.sources
      ensures registry.targetTables == old(registry.targetTables) + ContributionOf(st).names.targets
      ensures registry.mappings == old(registry.mappings) + Cross(l.targets, l.sources, ContributionOf(st).stamp)
    {
      if Strip(st.statement) != [] {
        var ss, ts := ExtractTableNames(st);
        registry.Record(ss, ts, ContributionOf(st).stamp);
        l := Listing(ss, ts);
      } else {
        l := Listing([], []);
        assert Cross([], [], ContributionOf(st).stamp) == [];
      }
    }

    /** The loop of `process_sql_file` over already extracted statements:
        the statements' blocks are appended one after the other, in order. */
    method ProcessStatements(stmts: seq<Segmenter.StatementInfo>) returns (ghost ls: seq<Listing>)
      modifies this, registry
      ensures ExtendsBy(registry.sourceTables, registry.targetTables, registry.mappings,
                        old(registry.sourceTables), old(registry.targetTables), old(registry.mappings),
                        Contributions(stmts), ls)
    {
      ghost var s0, t0, m0 := registry.sourceTables, registry.targetTables, registry.mappings;
      ls := [];
      var i := 0;
      assert Contributions(stmts[..0]) == [];
      ExtendsNone(s0, t0, m0);
      while i < |stmts|
        invariant i <= |stmts|
        invariant ExtendsBy(registry.sourceTables, registry.targetTables, registry.mappings,
                            s0, t0, m0, Contributions(stmts[..i]), ls)
      {
        ghost var s1, t1, m1 := registry.sourceTables, registry.targetTables, registry.mappings;
        ghost var l := ProcessStatement(stmts[i]);
        ExtendsSnoc(registry.sourceTables, registry.targetTables, registry.mappings, s1, t1, m1,
                    s0, t0, m0, Contributions(stmts[..i]), ls, ContributionOf(stmts[i]), l);
        ContributionsSnoc(stmts, i);
        ls := ls + [l];
        i := i + 1;
      }
      assert stmts[..i] == stmts;
    }

    /** `process_sql_file`: segment the log, then aggregate. */
    method ProcessSqlFile(content: string) returns (ghost ls: seq<Listing>)
      modifies this, registry
      ensures ExtendsBy(registry.sourceTables, registry.targetTables, registry.mappings,
                        old(registry.sourceTables), old(registry.targetTables), old(registry.mappings),
                        Contributions(Segmenter.StatementsFrom(content, Segmenter.Keywords, 0)), ls)
    {
      var stmts := Segmenter.ExtractSqlStatements(content);
      ls := ProcessStatements(stmts);
    }

    /** `generate_neptune_files` without the writes. */
    method GenerateNeptuneFiles() returns (nodes: seq<Node>, edges: seq<Edge>)
      ensures |nodes| == |registry.sourceTables + registry.targetTables|
      ensures forall k :: 0 <= k < |nodes| ==>
        nodes[k].id in registry.sourceTables + registry.targetTables && nodes[k] == NodeFor(nodes[k].id, false)
      ensures forall t :: t in registry.sourceTables + registry.targetTables ==>
        exists k :: 0 <= k < |nodes| && nodes[k].id == t
      ensures |edges| == |registry.mappings|
      ensures forall k :: 0 <= k < |edges| ==>
        edges[k] == Edge(EdgeId(k), registry.mappings[k].source, registry.mappings[k].target, EdgeLabel, registry.mappings[k].stamp)
      ensures forall k, l :: 0 <= k < l < |edges| ==> edges[k].id != edges[l].id
    {
      nodes, edges := registry.Project(false);
    }
  }
}
