/// `SQLLineageParser` of advanced/sttm/sql_lineage_analyzer.py: the
/// revision whose `table_pattern` lookahead is `(?=\s|$)` (no `\)`), whose
/// only CREATE target is `CREATE TABLE name`, which keeps no alias map and
/// whose mappings carry no timestamp.  The statements come from the same
/// segmenter as the canonical engine.
module Analyzer {
  import opened Text
  import opened Graph
  import opened Scanners
  import opened Lineage
  import Segmenter

  /** `(?:CREATE)\s+TABLE\s+(table_pattern)`: the search that replaces the
      `(?:CREATE|REPLACE)` one just before it. */
  const CreateTableAlt: seq<seq<string>> := [["CREATE", "TABLE"]]
  const DmlKinds: set<string> := {"INSERT", "UPDATE", "MERGE"}
  /** `'CREATE' in sql or 'REPLACE' in sql` */
  const CreateMarkers: seq<string> := ["CREATE", "REPLACE"]

  /** Every name after `FROM` and after `JOIN` in the whole statement, minus the CTE names. */
  function Sources(ts: seq<string>): set<string> {
    (Elements(NamesAfter(ts, "FROM", false, false, 0)) + Elements(NamesAfter(ts, "JOIN", false, false, 0)))
      - CteNames(ts)
  }

  /** The target search: the DML phrase for INSERT/UPDATE/MERGE, else
      `CREATE TABLE` when the text mentions CREATE or REPLACE. */
  function Target(ts: seq<string>, kind: string): Option<string> {
    if kind in DmlKinds then FirstPhrase(ts, TargetAlts, Qualified(false))
    else if AnyTokenWith(ts, CreateMarkers) then FirstPhrase(ts, CreateTableAlt, Qualified(false))
    else None
  }

  /** `extract_table_names` on the normalised tokens, for statement type `kind`. */
  function TableNames(ts: seq<string>, kind: string): Names {
    if kind == "DELETE" then Names({}, {})
    else Names(Sources(ts), if Target(ts, kind).Some? then {Target(ts, kind).value} else {})
  }

  /** `extract_table_names(sql)`; `typeOf` stands for `sqlparse`'s `get_type`. */
  function StatementNames(sql: string, typeOf: string -> string): Names {
    var ts := Normalize(sql);
    TableNames(ts, typeOf(JoinSpace(ts)))
  }

  // ---------------------------------------------------------------------
  // Properties

  /** For INSERT, UPDATE and MERGE the target is the name after the leftmost
      `INTO`, `UPDATE` or `MERGE INTO` that is followed by a name. */
  lemma DmlTargetIsLeftmost(ts: seq<string>, kind: string, j: nat)
    requires kind in DmlKinds
    requires j < |ts| && AltAt(ts, j, TargetAlts, Qualified(false)).Some?
    requires forall k :: 0 <= k < j ==> AltAt(ts, k, TargetAlts, Qualified(false)).None?
    ensures TableNames(ts, kind).targets == {AltAt(ts, j, TargetAlts, Qualified(false)).value}
  {
    FirstPhraseLeftmost(ts, TargetAlts, Qualified(false), j);
  }

  /** Outside INSERT/UPDATE/MERGE/DELETE the target is exactly the name
      after a `CREATE TABLE`: the `'CREATE' in sql or 'REPLACE' in sql`
      guard never decides anything, and `CREATE OR REPLACE TABLE` alone
      yields no target. */
  lemma CreateTargetIsCreateTable(ts: seq<string>, kind: string)
    requires kind !in DmlKinds && kind != "DELETE"
    ensures TableNames(ts, kind).targets ==
      (var c := FirstPhrase(ts, CreateTableAlt, Qualified(false)); if c.Some? then {c.value} else {})
  {
    var c := FirstPhrase(ts, CreateTableAlt, Qualified(false));
    if c.Some? {
      var j := FirstPhraseIndex(ts, CreateTableAlt, Qualified(false), 0);
      assert ts[j] == "CREATE";
      assert OccursAt(ts[j], "CREATE", 0);
      FirstTokenWithSpec(ts, "CREATE", 0);
      assert AnyTokenWith(ts, CreateMarkers);
    }
  }

  /** A name directly followed by `)` is a source of the canonical scan
      but not of this one, whose lookahead has no `\)`. */
  lemma ParenthesisedNameDropped(n: string)
    requires Dotted(n)
    ensures NameAt(n + ")", false).None?
    ensures NameAt(n + ")", true) == Some(n)
  {
    NameAtSpec(n + ")", true, n);
    assert StartsWith(n + ")", n);
  }

  /** Every source follows a `FROM` or `JOIN` token, is captured by the
      lookahead without `\)`, and is no CTE name; DELETE yields nothing. */
  lemma SourcesSound(ts: seq<string>, kind: string, s: string)
    requires s in TableNames(ts, kind).sources
    ensures kind != "DELETE" && s !in CteNames(ts)
    ensures exists j :: 0 <= j && j + 1 < |ts| && (ts[j] == "FROM" || ts[j] == "JOIN") && NameAt(ts[j + 1], false) == Some(s)
  {
    NamesAfterSound(ts, "FROM", false, false, 0);
    NamesAfterSound(ts, "JOIN", false, false, 0);
  }

  /** Every `FROM`/`JOIN` token followed by a whole-token name contributes it,
      unless the previous token is the same keyword (swallowed as a name)
      or the name is a CTE name. */
  lemma SourcesComplete(ts: seq<string>, kind: string, j: nat)
    requires kind != "DELETE"
    requires j + 1 < |ts| && (ts[j] == "FROM" || ts[j] == "JOIN") && NameAt(ts[j + 1], false).Some?
    requires j == 0 || ts[j - 1] != ts[j]
    requires NameAt(ts[j + 1], false).value !in CteNames(ts)
    ensures NameAt(ts[j + 1], false).value in TableNames(ts, kind).sources
  {
    NamesAfterComplete(ts, ts[j], false, false, 0, j);
  }

  /** CTE names are removed from the sources only: a target that is also a
      CTE name stays a target. */
  lemma CteTargetKept(ts: seq<string>, kind: string, t: string)
    requires kind in DmlKinds && FirstPhrase(ts, TargetAlts, Qualified(false)) == Some(t)
    requires t in CteNames(ts)
    ensures t in TableNames(ts, kind).targets && t !in TableNames(ts, kind).sources
  {
  }

  // ---------------------------------------------------------------------
  // The parser object

  /** One extracted statement's contribution: its names, with no stamp. */
  function ContributionOf(st: Segmenter.StatementInfo, typeOf: string -> string): Contribution {
    Contribution(if Strip(st.statement) == [] then Names({}, {}) else StatementNames(st.statement, typeOf), None)
  }

  function Contributions(stmts: seq<Segmenter.StatementInfo>, typeOf: string -> string): (r: seq<Contribution>)
    ensures |r| == |stmts|
  {
    ContributionsBy(stmts, (st: Segmenter.StatementInfo) => ContributionOf(st, typeOf))
  }

  lemma ContributionsSnoc(stmts: seq<Segmenter.StatementInfo>, i: nat, typeOf: string -> string)
    requires i < |stmts|
    ensures Contributions(stmts[..i + 1], typeOf) == Contributions(stmts[..i], typeOf) + [ContributionOf(stmts[i], typeOf)]
  {
    ContributionsBySnoc(stmts, i, (st: Segmenter.StatementInfo) => ContributionOf(st, typeOf));
  }

  /** The two `finditer` loops, then the CTE filter. */
  method CollectSources(ts: seq<string>) returns (srcs: set<string>)
    ensures srcs == Sources(ts)
  {
    var froms := NamesAfter(ts, "FROM", false, false, 0);
    var joins := NamesAfter(ts, "JOIN", false, false, 0);
    srcs := {};
    for k := 0 to |froms|
      invariant srcs == Elements(froms[..k])
    {
      assert froms[..k + 1] == froms[..k] + [froms[k]];
      srcs := srcs + {froms[k]};
    }
    assert froms[..|froms|] == froms;
    for k := 0 to |joins|
      invariant srcs == Elements(froms) + Elements(joins[..k])
    {
      assert joins[..k + 1] == joins[..k] + [joins[k]];
      srcs := srcs + {joins[k]};
    }
    assert joins[..|joins|] == joins;
    srcs := srcs - CteNames(ts);
  }

  class AnalyzerParser {
    const registry: Registry

    constructor()
      ensures fresh(registry)
      ensures registry.sourceTables == {} && registry.targetTables == {} && registry.mappings == []
    {
      registry := new Registry();
    }

    /** `extract_table_names`: `sqlparse.parse(sql)[0]` raises on a text
        without tokens, so the statement must have one. */
    method ExtractTableNames(sql: string, typeOf: string -> string) returns (sources: seq<string>, targets: seq<string>)
      requires Normalize(sql) != []
      ensures Elements(sources) == StatementNames(sql, typeOf).sources
      ensures |sources| == |StatementNames(sql, typeOf).sources|
      ensures Elements(targets) == StatementNames(sql, typeOf).targets
      ensures |targets| == |StatementNames(sql, typeOf).targets|
      ensures Distinct(sources) && Distinct(targets)
    {
      var ts := Normalize(sql);
      var kind := typeOf(JoinSpace(ts));
      if kind == "DELETE" {
        return [], [];
      }
      var found: Option<string> := None;
      if kind in DmlKinds {
        found := FirstPhrase(ts, TargetAlts, Qualified(false));
      } else if AnyTokenWith(ts, CreateMarkers) {
        found := FirstPhrase(ts, CreateTableAlt, Qualified(false));
      }
      var tgts: set<string> := if found.Some? then {found.value} else {};
      var srcs := CollectSources(ts);
      assert StatementNames(sql, typeOf) == Names(srcs, tgts);
      sources := Enumerate(srcs);
      targets := Enumerate(tgts);
    }

    /** One iteration of `process_sql_file`'s loop: both registries gain
        the statement's names and its block of mappings is appended, one per
        target and source in target-major order; `l` is the order in which
        `list(set)` gave the names. */
    method ProcessStatement(st: Segmenter.StatementInfo, typeOf: string -> string) returns (ghost l: Listing)
      modifies registry
      ensures Lists(l, ContributionOf(st, typeOf))
      ensures registry.sourceTables == old(registry.sourceTables) + ContributionOf(st, typeOf).names.sources
      ensures registry.targetTables == old(registry.targetTables) + ContributionOf(st, typeOf).names.targets
      ensures registry.mappings == old(registry.mappings) + Cross(l.targets, l.sources, None)
    {
      if Strip(st.statement) != [] {
        NormalizeNonBlank(st.statement);
        var ss, tt := ExtractTableNames(st.statement, typeOf);
        registry.Record(ss, tt, None);
        l := Listing(ss, tt);
      } else {
        l := Listing([], []);
        assert Cross([], [], None) == [];
      }
    }

    /** The loop of `process_sql_file` over extracted statements: the
        statements' blocks are appended one after the other, in order. */
    method ProcessStatements(stmts: seq<Segmenter.StatementInfo>, typeOf: string -> string) returns (ghost ls: seq<Listing>)
      modifies registry
      ensures ExtendsBy(registry.sourceTables, registry.targetTables, registry.mappings,
                        old(registry.sourceTables), old(registry.targetTables), old(registry.mappings),
                        Contributions(stmts, typeOf), ls)
    {
      ghost var s0, t0, m0 := registry.sourceTables, registry.targetTables, registry.mappings;
      ls := [];
      var i := 0;
      assert Contributions(stmts[..0], typeOf) == [];
      ExtendsNone(s0, t0, m0);
      while i < |stmts|
        invariant i <= |stmts|
        invariant ExtendsBy(registry.sourceTables, registry.targetTables, registry.mappings,
                            s0, t0, m0, Contributions(stmts[..i], typeOf), ls)
      {
        ghost var s1, t1, m1 := registry.sourceTables, registry.targetTables, registry.mappings;
        ghost var c := ContributionOf(stmts[i], typeOf);
        ghost var l := ProcessStatement(stmts[i], typeOf);
        ExtendsSnoc(registry.sourceTables, registry.targetTables, registry.mappings, s1, t1, m1,
                    s0, t0, m0, Contributions(stmts[..i], typeOf), ls, c, l);
        ContributionsSnoc(stmts, i, typeOf);
        ls := ls + [l];
        i := i + 1;
      }
      assert stmts[..i] == stmts;
    }

    /** `process_sql_file`: `extract_sql_statements(file_path, None)`, then
        the per-statement loop over each statement's text. */
    method ProcessSqlFile(content: string, typeOf: string -> string) returns (ghost ls: seq<Listing>)
      modifies registry
      ensures ExtendsBy(registry.sourceTables, registry.targetTables, registry.mappings,
                        old(registry.sourceTables), old(registry.targetTables), old(registry.mappings),
                        Contributions(Segmenter.StatementsFrom(content, Segmenter.Keywords, 0), typeOf), ls)
    {
      var stmts := Segmenter.ExtractSqlStatementsWithReport(content, None);
      ls := ProcessStatements(stmts, typeOf);
    }

    /** `generate_mapping_csv` without the write: the rows are the mappings in order. */
    method GenerateMappingCsv() returns (rows: seq<(string, string)>)
      ensures |rows| == |registry.mappings|
      ensures forall k :: 0 <= k < |rows| ==>
        rows[k] == (registry.mappings[k].source, registry.mappings[k].target)
    {
      rows := registry.PairRows();
    }

    /** `generate_neptune_files` without the writes: nodes have no schema. */
    method GenerateNeptuneFiles() returns (nodes: seq<Node>, edges: seq<Edge>)
      ensures |nodes| == |registry.sourceTables + registry.targetTables|
      ensures forall k :: 0 <= k < |nodes| ==>
        nodes[k].id in registry.sourceTables + registry.targetTables && nodes[k] == NodeFor(nodes[k].id, false)
      ensures forall t :: t in registry.sourceTables + registry.targetTables ==>
        exists k :: 0 <= k < |nodes| && nodes[k].id == t
      ensures |edges| == |registry.mappings|
      ensures forall k :: 0 <= k < |edges| ==>
        edges[k] == Edge(EdgeId(k), registry.mappings[k].source, registry.mappings[k].target, EdgeLabel, registry.mappings[k].stamp)
      ensures forall k, l :: 0 <= k < l < |edges| ==> edges[k].id != edges[l].id
    {
      nodes, edges := registry.Project(false);
    }
  }
}
