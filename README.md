# SQL table lineage (advanced/sttm)

A Dafny model of the source-to-target table-lineage engine of `advanced/sttm`.
The engine reads a SQL script or a query log. It cuts the text into statements
and finds, per statement, the tables it writes (targets) and the tables it reads
(sources). It then folds the `(sources, targets)` pairs into a mapping list and
two table registries, and projects that state into the node and edge records of
a property graph (AWS Neptune bulk-load format).

The engine exists in four revisions, each modelled in its own module:

| module | file | what it is |
|---|---|---|
| `Segmenter` | smart_lineage_parser.py, sql_lineage_analyzer.py | `extract_sql_statements`: finds statements in a log, classifies them by leading keyword, attaches a timestamp |
| `SmartLineage` | smart_lineage_parser.py | the canonical engine: `clean_table_name`, `extract_aliases`, `extract_table_names` with `CREATE [OR REPLACE] TABLE` priority, `VALUES` self-reference, alias resolution and CTE removal; the parser object |
| `LogLineage` | sttm_from_sql_logs.py | log-noise removal (`log_patterns`, `clean_sql_statement`), `check_keywords`, the function-name filter, the `;`/blank-line splitter, schema-carrying nodes |
| `Analyzer` | sql_lineage_analyzer.py | the revision whose target search only accepts `CREATE TABLE` and whose name pattern does not stop at `)` |
| `SimpleLineage` | sql_lineage_parser.py | comment stripping, a case-insensitive reference scan over the raw text, a target → set-of-sources dictionary, CSV rows and a numbered edge list |
| `Lineage`, `Graph` | all four | the registry class (`source_tables`, `target_tables`, `mappings`), the cross product of a statement's names, and the node/edge projection |
| `Scanners`, `Text` | all four | token-level scanners that stand for the regular expressions, and string helpers |
| `Variants` | all four | lemmas that run one statement through several revisions and state where they disagree |

Three of the revisions upper-case the statement and collapse its white space
(`' '.join(sql.split()).upper()`) before any matching. The model works on the
token list of that normalised text (`Scanners.Normalize`). Every `\s+` there is
exactly one space, so each regular expression becomes a scan over tokens:
- "the name after `FROM`/`JOIN`/`INTO`/`UPDATE`/`MERGE INTO`";
- "`WITH x AS (`";
- "`name [AS] alias` before a clause boundary".

The segmenter, the log cleaner and the simple revision's reference scan work on
the characters of the text, as the source does.

Calls into `sqlparse` are parameters of the model:
- `get_type` is a function `typeOf` from statement text to kind;
- `split` is a function from text to pieces;
- the top-level token stream is a function `tokensOf`.

File reads are replaced by a `content` string. File writes are replaced by the
in-memory rows, nodes and edges that would be written.

Each parser class keeps its state in fields that its methods update:
- `Lineage.Registry` holds `sourceTables`, `targetTables` and `mappings`;
- `SmartLineage.Parser` also holds `tableAliases` and `lastTarget`;
- `SimpleLineage.SimpleParser` holds the insertion-ordered dictionary and `all_tables`.

Each method is proved against a specification function. The per-statement
methods return exactly `TableNames`/`LogStatementNames`/`StatementNames`. The
per-statement methods append exactly `Cross(targets, sources, stamp)`: one
mapping per target and source, target-major, in the order `list(set)` gave the
names (a ghost `Listing`). The file loops satisfy `Lineage.ExtendsBy`: the
registries gain exactly the run's names, and the mapping list is the old list
followed by each statement's block, in statement order. `Lineage.ExtendsCounts`
derives from this, for any enumeration order, |targets|·|sources| mappings per
statement, counted with multiplicity across statements.

## Model

| member | source | states |
|---|---|---|
| Segmenter.ExtractSqlStatements | advanced/sttm/smart_lineage_parser.py:37-57 | the loop over `finditer` returns exactly the statements of the specification `StatementsFrom` (keyword, lazy scan to `;` or newline, strip, length filter, leftmost timestamp, type) |
| Segmenter.NextStatements | advanced/sttm/smart_lineage_parser.py:38-57 | one loop turn emits what the match at the current position contributes and resumes strictly further on, so the statements from here are what it emits followed by the statements from the resume point |
| Segmenter.ExtractSqlStatementsWithReport | advanced/sttm/sql_lineage_analyzer.py:26-79 | the analyzer's copy returns the canonical statements when no report file is named or the name is empty (`if output_file:` is false), and `[]` for a non-empty name: `datetime.now()` on the module raises and the handler returns an empty list |
| Segmenter.TerminatorFromSpec | advanced/sttm/smart_lineage_parser.py:27 | the lazy `.*?` stops at the first `;` or newline after the keyword |
| Segmenter.FirstKeywordIndexSpec | advanced/sttm/smart_lineage_parser.py:23 | the alternation picks the first listed keyword that matches, and none matches when there is no result |
| Segmenter.NeverCreateOrReplace | advanced/sttm/smart_lineage_parser.py:23-54 | the keyword found is never `CREATE OR REPLACE`, because `CREATE` comes first in the alternation and matches wherever it does |
| Segmenter.MatchWellFormed | advanced/sttm/smart_lineage_parser.py:37-54 | a kept match is at least 10 characters long, holds no `;` or newline, and its leading keyword is its type |
| Segmenter.StatementsWellFormed | advanced/sttm/smart_lineage_parser.py:37-57 | every statement the scan yields from any position is well formed in that sense |
| Segmenter.ExtractedStatementsWellFormed | advanced/sttm/smart_lineage_parser.py:37-57 | every extracted statement has length ≥ 10, no terminator, its type is the upper-cased keyword that starts it, and the type is never `CREATE OR REPLACE` |
| Segmenter.TimestampIsLeftmost | advanced/sttm/smart_lineage_parser.py:46-49 | the timestamp attached is the leftmost `YYYY-MM-DD HH:MM:SS` in the text before the match, not the nearest one; with none, there is no timestamp |
| Scanners.NormalizeNonBlank | advanced/sttm/smart_lineage_parser.py:118 | a statement that is not blank normalises to at least one token |
| Scanners.NameAtSpec | advanced/sttm/smart_lineage_parser.py:127 | `table_pattern` after a keyword captures `n` exactly when `n` is one to four dot-joined word segments that start the next token and end it, or end just before a `)` when the lookahead allows `\)` |
| Scanners.NameAtWhole | advanced/sttm/smart_lineage_parser.py:127 | a whole-token dotted name is captured as itself |
| Scanners.FirstPhraseLeftmost | advanced/sttm/smart_lineage_parser.py:175-178 | `re.search` of a keyword phrase returns the capture at the leftmost token where the phrase matches |
| Scanners.FirstPhraseNone | advanced/sttm/smart_lineage_parser.py:175-178 | the search finds nothing exactly when no token starts a match |
| Scanners.NamesAfterSound | advanced/sttm/smart_lineage_parser.py:185-199 | every name a `FROM`/`JOIN` `finditer` yields is the capture of the token after a keyword token |
| Scanners.NamesAfterComplete | advanced/sttm/smart_lineage_parser.py:185-199 | every keyword token followed by a capturable name yields it, unless the previous match consumed the keyword (as its name or its `AS` alias) |
| Scanners.NamesAfterDotted | advanced/sttm/smart_lineage_parser.py:127 | every captured name is a dotted name |
| Scanners.CteNames | advanced/sttm/smart_lineage_parser.py:210-211 | every CTE name captured by `WITH (\w+) AS\s*\(` is a plain word |
| Scanners.FirstTokenWithSpec | advanced/sttm/smart_lineage_parser.py:142 | the first token holding a text is found exactly when some token holds it (`sql.find` and `in` at token granularity) |
| Scanners.AnyTokenWithSpec | advanced/sttm/sttm_from_sql_logs.py:55-59 | a keyword without spaces occurs in the normalised text exactly when it occurs in some token |
| SmartLineage.CleanIsStripped | advanced/sttm/smart_lineage_parser.py:78-88 | `clean_table_name` never returns a name that starts or ends with white space |
| SmartLineage.CleanHasNoAs | advanced/sttm/smart_lineage_parser.py:85-87 | the cleaned name holds no `' AS '`: everything from the first one on is gone |
| SmartLineage.CleanPlain | advanced/sttm/smart_lineage_parser.py:137 | a bare `[\w.]` capture comes back unchanged |
| SmartLineage.CleanQuoted | advanced/sttm/smart_lineage_parser.py:82-83 | one pair of enclosing double quotes is removed |
| SmartLineage.CleanDropsAlias | advanced/sttm/smart_lineage_parser.py:85-87 | `name AS alias` is cut back to `name` |
| SmartLineage.AliasMapKeys | advanced/sttm/smart_lineage_parser.py:98-103 | a key is in the alias map exactly when some match had that alias, upper-cased |
| SmartLineage.AliasMapLast | advanced/sttm/smart_lineage_parser.py:98-103 | a key maps to the upper-cased table of the last match with that alias |
| SmartLineage.CorrectedAliasesAvoidKeywords | advanced/sttm/smart_lineage_parser.py:96 | with the corrected alias pattern no SQL keyword is stored as an alias or as a table |
| SmartLineage.AliasPatternAsWritten | advanced/sttm/smart_lineage_parser.py:96-103 | as written, `INSERT INTO T SELECT * FROM A JOIN B` stores alias `A` → `FROM` and reports the sources `{FROM, B}` |
| SmartLineage.AliasPatternCorrected | advanced/sttm/smart_lineage_parser.py:96 | corrected, the same statement has no alias and the sources `{A, B}` |
| SmartLineage.CreateTakesPriority | advanced/sttm/smart_lineage_parser.py:130-163 | a `CREATE [OR REPLACE] TABLE name` match wins whatever the type: `name` is the only target, and every source is the alias resolution of a name after `FROM`/`JOIN` at or after the first `SELECT`, and is no CTE name |
| SmartLineage.ValuesSelfReference | advanced/sttm/smart_lineage_parser.py:165-172 | with `VALUES` in an INSERT/UPDATE/MERGE, the name after `INTO` is the only target and, resolved and unless a CTE, the only source; `FROM`/`JOIN` are not scanned |
| SmartLineage.DmlTargetIsLeftmost | advanced/sttm/smart_lineage_parser.py:173-182 | without `VALUES`, the target is the name after the leftmost `INTO`, `UPDATE` or `MERGE INTO` |
| SmartLineage.DmlSourcesComplete | advanced/sttm/smart_lineage_parser.py:184-212 | without `VALUES`, every `FROM`/`JOIN` followed by a name contributes its alias resolution, unless consumed by the previous match or a CTE name |
| SmartLineage.OtherKindsYieldNothing | advanced/sttm/smart_lineage_parser.py:130-214 | any other type, DELETE included, with no `CREATE … TABLE` match yields no sources and no targets |
| SmartLineage.AddNames | advanced/sttm/smart_lineage_parser.py:151-162 | the capture loop adds exactly the cleaned captures to the set |
| SmartLineage.ResolveAliases | advanced/sttm/smart_lineage_parser.py:201-207 | the resolution loop yields each source replaced by its alias entry if it has one |
| SmartLineage.CollectFromJoin | advanced/sttm/smart_lineage_parser.py:185-199 | the two `finditer` loops yield exactly the `FROM` and `JOIN` names from the given token on |
| SmartLineage.CollectNames | advanced/sttm/smart_lineage_parser.py:130-199 | the branching part of `extract_table_names` yields exactly the raw sources and target of the specification |
| SmartLineage.Parser.constructor | advanced/sttm/smart_lineage_parser.py:70-76 | the registries, the alias map and `last_target` start empty |
| SmartLineage.Parser.ExtractAliases | advanced/sttm/smart_lineage_parser.py:90-103 | the alias map is rebuilt from scratch for the statement and holds the map of its alias matches |
| SmartLineage.Parser.ExtractTableNames | advanced/sttm/smart_lineage_parser.py:105-214 | the returned lists hold each of the statement's sources and targets once; the alias map is the statement's, and `last_target` becomes the target found or stays as it was |
| SmartLineage.Parser.ProcessStatement | advanced/sttm/smart_lineage_parser.py:225-241 | a non-blank statement adds all its names to both registries and appends exactly `Cross(targets, sources, stamp)`, target-major, for the order `list(set)` gave each name set once; a blank one changes nothing |
| SmartLineage.Parser.ProcessStatements | advanced/sttm/smart_lineage_parser.py:225-241 | the mapping list becomes the old list followed by every statement's stamped block, in statement order, with nothing merged or removed |
| SmartLineage.Parser.ProcessSqlFile | advanced/sttm/smart_lineage_parser.py:216-241 | `process_sql_file` appends the blocks of the statements the segmenter extracts from the text, in order |
| SmartLineage.Parser.GenerateNeptuneFiles | advanced/sttm/smart_lineage_parser.py:255-284 | one node per table of `source_tables ∪ target_tables` with its last-segment label; edge `k` is `e{k}` from mapping `k`'s source to its target with its timestamp and type; edge ids are distinct |
| Lineage.CrossLength | advanced/sttm/smart_lineage_parser.py:234-241 | a statement appends |targets|·|sources| mappings |
| Lineage.CrossLayout | advanced/sttm/smart_lineage_parser.py:234-241 | the appended mappings are target-major: entry `a·|sources| + b` pairs target `a` with source `b` |
| Lineage.CrossMembers | advanced/sttm/smart_lineage_parser.py:234-241 | a mapping is appended exactly when it pairs one of the sources with one of the targets and carries the statement's stamp |
| Lineage.CrossIsMappings | advanced/sttm/smart_lineage_parser.py:234-241 | the cross product of the name lists is the statement's set of pairs, with |targets|·|sources| entries |
| Lineage.Enumerate | advanced/sttm/smart_lineage_parser.py:214 | `list(s)` holds every element of the set exactly once |
| Lineage.ExtendsSnoc | advanced/sttm/smart_lineage_parser.py:225-241 | one more statement's `Record` extends a run by that statement: its names join the registries and its block follows the earlier blocks |
| Lineage.ExtendsCounts | advanced/sttm/smart_lineage_parser.py:234-241 | whatever order the sets are enumerated in, a run leaves the old mappings in place and appends |targets|·|sources| mappings per statement: as a multiset, each statement's pairs once per statement that yields them, never deduplicated |
| Lineage.CrossBag | advanced/sttm/smart_lineage_parser.py:234-241 | one statement's block holds each of its source-target pairs exactly once |
| Lineage.Registry.constructor | advanced/sttm/smart_lineage_parser.py:72-74 | the registries start empty |
| Lineage.Registry.Record | advanced/sttm/smart_lineage_parser.py:229-241 | both registries gain every name even when the cross product is empty, and the cross product is appended in target-major order |
| Lineage.Registry.AppendRow | advanced/sttm/smart_lineage_parser.py:235-241 | the inner loop appends one mapping per source, in order, for one target |
| Lineage.Registry.PairRows | advanced/sttm/sql_lineage_analyzer.py:182-192 | the CSV rows are the mappings' `(source, target)` pairs, in order |
| Lineage.Registry.Project | advanced/sttm/smart_lineage_parser.py:263-284 | one node per registered table and one edge per mapping, with distinct edge ids |
| Graph.SchemaLabelRoundTrip | advanced/sttm/sttm_from_sql_logs.py:179-185 | a dotted name is exactly its schema, a dot and its label |
| Graph.UndottedLabel | advanced/sttm/sttm_from_sql_logs.py:179-185 | a name without a dot is its own label and has the schema `default` |
| Graph.EdgeIdInjective | advanced/sttm/smart_lineage_parser.py:278 | distinct indices give distinct edge ids `e{idx}` |
| Graph.ProjectNodes | advanced/sttm/smart_lineage_parser.py:264-272 | the node loop yields one node per table, each with the table's label, and no two with the same id |
| Graph.ProjectEdges | advanced/sttm/smart_lineage_parser.py:275-284 | edge `k` is mapping `k` with id `e{k}`, and no two edges share an id |
| Graph.EdgesRoundTrip | advanced/sttm/smart_lineage_parser.py:275-284 | reading the edges back gives the mapping list's `(source, target)` pairs |
| LogLineage.PatternCounts | advanced/sttm/sttm_from_sql_logs.py:16-26 | as written the list has 7 entries, not the 9 written out; its last six are the intended last six |
| LogLineage.LazyThenLitFails | advanced/sttm/sttm_from_sql_logs.py:17-18 | after the lazy scan up to a lookahead word (SELECT, INSERT, …) a `^` followed by a literal that starts with any other letter never matches |
| LogLineage.DeadPattern | advanced/sttm/sttm_from_sql_logs.py:17-19 | any pattern holding `.*?(?=…)^W` with such a `W` never matches anywhere |
| LogLineage.FusedNeverMatches | advanced/sttm/sttm_from_sql_logs.py:17-19 | the fused first entry never matches |
| LogLineage.AsWrittenSkipsThree | advanced/sttm/sttm_from_sql_logs.py:16-40 | as written, cleaning is that of the last six intended patterns: `Created`, `Populated` and timestamp prefixes are never removed |
| LogLineage.TimestampMatch | advanced/sttm/sttm_from_sql_logs.py:19 | the intended timestamp pattern matches `2024-01-01 10:00:00 ` up to the `SELECT` |
| LogLineage.TimestampPrefixRemoved | advanced/sttm/sttm_from_sql_logs.py:19 | the intended timestamp pattern strips a timestamped line down to its SQL |
| LogLineage.TimestampPrefixKept | advanced/sttm/sttm_from_sql_logs.py:17-19 | the fused pattern as written leaves that line as it is |
| LogLineage.KeepIff | advanced/sttm/sttm_from_sql_logs.py:47-50 | the keyword test adds nothing: a line is kept exactly when a character of `[A-Za-z0-9_.()]` starts it after leading blanks |
| LogLineage.KeptLinesMembers | advanced/sttm/sttm_from_sql_logs.py:43-51 | the kept lines are exactly the stripped `;`-pieces that are non-empty and start with such a character |
| LogLineage.CleanSqlHasNoSemicolon | advanced/sttm/sttm_from_sql_logs.py:38-53 | the cleaned statement holds no `;` |
| LogLineage.CheckKeywords | advanced/sttm/sttm_from_sql_logs.py:55-59 | `check_keywords` is true exactly when some keyword is a substring of the text |
| LogLineage.FunctionLikeSpec | advanced/sttm/sttm_from_sql_logs.py:83 | a name is filtered exactly when it begins with a word of `function_pattern` followed by a word boundary |
| LogLineage.FunctionBoundary | advanced/sttm/sttm_from_sql_logs.py:83 | `COUNT` and `IN.X` are filtered; `ORDERS` and `COUNTRY` are not |
| LogLineage.LogSourcesSound | advanced/sttm/sttm_from_sql_logs.py:108-125 | every source was captured after `FROM` or `JOIN`, is not function-like and is no CTE name |
| LogLineage.LogSourcesComplete | advanced/sttm/sttm_from_sql_logs.py:108-125 | every name after `FROM`/`JOIN` is a source unless consumed by the previous match, function-like, or a CTE name |
| LogLineage.LogTargetsShaped | advanced/sttm/sttm_from_sql_logs.py:98-106 | a statement has at most one target, a `[\w.]` name that is not function-like |
| LogLineage.DmlTargetLeftmost | advanced/sttm/sttm_from_sql_logs.py:98-101 | when INSERT, UPDATE or MERGE occurs anywhere in the text (a CTAS included), the target is the leftmost `INTO`/`UPDATE`/`MERGE INTO` capture unless it is function-like |
| LogLineage.CreateTargetLeftmost | advanced/sttm/sttm_from_sql_logs.py:103-106 | corrected: without a DML keyword the target is the name after the leftmost `CREATE` or `REPLACE` followed by `VIEW` or `TABLE` |
| LogLineage.CreateTargetAsWritten | advanced/sttm/sttm_from_sql_logs.py:104-106 | as written, that target is the word `VIEW` or `TABLE` |
| LogLineage.CreateTargetAsWrittenExample | advanced/sttm/sttm_from_sql_logs.py:104-106 | as written, `CREATE TABLE sales.day AS SELECT 1` has the target `TABLE` |
| LogLineage.CreateTargetCorrectedExample | advanced/sttm/sttm_from_sql_logs.py:104-106 | corrected, its target is `SALES.DAY` |
| LogLineage.SplitRoundTrip | advanced/sttm/sttm_from_sql_logs.py:145-146 | splitting only loses the separators: interleaving the pieces with them gives back the text |
| LogLineage.SplitLogRoundTrip | advanced/sttm/sttm_from_sql_logs.py:145-146 | the same for a whole log |
| LogLineage.SepsShape | advanced/sttm/sttm_from_sql_logs.py:145 | every separator is a `;` or a blank line; the statement keyword after the blank line stays with the next piece |
| LogLineage.SplitLogNoSemicolon | advanced/sttm/sttm_from_sql_logs.py:145-146 | no piece holds a `;` |
| LogLineage.CollectTargets | advanced/sttm/sttm_from_sql_logs.py:98-106 | the target branch yields exactly the specification's targets |
| LogLineage.CollectSources | advanced/sttm/sttm_from_sql_logs.py:108-125 | the two filtered `finditer` loops and the CTE filter yield exactly the specification's sources |
| LogLineage.LogParser.constructor | advanced/sttm/sttm_from_sql_logs.py:9-26 | the registries start empty and the pattern list is the intended one |
| LogLineage.LogParser.CleanSqlStatement | advanced/sttm/sttm_from_sql_logs.py:28-53 | the patterns are applied in list order, each removing every match, then the `;`-pieces are filtered and joined with single spaces |
| LogLineage.LogParser.ExtractTableNames | advanced/sttm/sttm_from_sql_logs.py:61-131 | the returned lists hold each source and target of the cleaned statement once; a DELETE, and an empty statement that makes the parse raise, yield nothing |
| LogLineage.LogParser.ProcessStatement | advanced/sttm/sttm_from_sql_logs.py:148-162 | a non-blank piece adds its names and appends exactly `Cross(targets, sources, None)`, target-major, for the order `list(set)` gave the names; a blank one changes nothing |
| LogLineage.LogParser.ProcessSqlFile | advanced/sttm/sttm_from_sql_logs.py:133-162 | the mapping list becomes the old list followed by every piece's block, in the order of the pieces of the split log |
| LogLineage.LogParser.GenerateMappingCsv | advanced/sttm/sttm_from_sql_logs.py:164-169 | the CSV rows are the mappings' pairs, in order |
| LogLineage.LogParser.GenerateNeptuneFiles | advanced/sttm/sttm_from_sql_logs.py:171-196 | one node per table with its label and its schema; edge `k` is `e{k}` from mapping `k` |
| Analyzer.DmlTargetIsLeftmost | advanced/sttm/sql_lineage_analyzer.py:119-123 | for INSERT, UPDATE and MERGE the target is the name after the leftmost `INTO`, `UPDATE` or `MERGE INTO` |
| Analyzer.CreateTargetIsCreateTable | advanced/sttm/sql_lineage_analyzer.py:125-130 | for the other kinds the only target is a `CREATE TABLE name` match: the `REPLACE` search is overwritten |
| Analyzer.ParenthesisedNameDropped | advanced/sttm/sql_lineage_analyzer.py:104 | a name directly followed by `)` is not captured, though the canonical lookahead captures it |
| Analyzer.SourcesSound | advanced/sttm/sql_lineage_analyzer.py:115-149 | every source follows a `FROM` or `JOIN` token, is no CTE name, and the statement is no DELETE |
| Analyzer.SourcesComplete | advanced/sttm/sql_lineage_analyzer.py:132-149 | in a statement that is not a DELETE, every name after `FROM`/`JOIN` anywhere in the statement is a source unless consumed by the previous match or a CTE name |
| Analyzer.CteTargetKept | advanced/sttm/sql_lineage_analyzer.py:119-149 | a target that is also a CTE name stays a target and is not a source: CTE names leave sources only |
| Analyzer.CollectSources | advanced/sttm/sql_lineage_analyzer.py:132-149 | the two `finditer` loops and the CTE filter yield exactly the specification's sources |
| Analyzer.AnalyzerParser.constructor | advanced/sttm/sql_lineage_analyzer.py:82-86 | the registries start empty |
| Analyzer.AnalyzerParser.ExtractTableNames | advanced/sttm/sql_lineage_analyzer.py:88-151 | the returned lists hold each source and target once; a DELETE yields nothing |
| Analyzer.AnalyzerParser.ProcessStatement | advanced/sttm/sql_lineage_analyzer.py:166-180 | a non-blank statement adds its names and appends exactly its unstamped `Cross(targets, sources, None)`, target-major, for the order `list(set)` gave the names |
| Analyzer.AnalyzerParser.ProcessStatements | advanced/sttm/sql_lineage_analyzer.py:166-180 | the mapping list becomes the old list followed by every statement's block, in statement order |
| Analyzer.AnalyzerParser.ProcessSqlFile | advanced/sttm/sql_lineage_analyzer.py:153-180 | the mapping list gains the blocks of the statements the segmenter extracts, in order |
| Analyzer.AnalyzerParser.GenerateMappingCsv | advanced/sttm/sql_lineage_analyzer.py:182-192 | the CSV rows are the mappings' pairs, in order |
| Analyzer.AnalyzerParser.GenerateNeptuneFiles | advanced/sttm/sql_lineage_analyzer.py:194-221 | one node per table with its last-segment label; edge ids run `e0…` in mapping order |
| SimpleLineage.LineStripNoComment | advanced/sttm/sql_lineage_parser.py:16 | after the `--` pass no `--` is left in the text |
| SimpleLineage.LineStripPlain | advanced/sttm/sql_lineage_parser.py:16 | a text without `--` passes unchanged |
| SimpleLineage.BlockStripPlain | advanced/sttm/sql_lineage_parser.py:17 | a text without `/*` passes the block-comment pass unchanged |
| SimpleLineage.BlockCommentRemoved | advanced/sttm/sql_lineage_parser.py:17 | a block comment is removed up to its first `*/` (non-greedy) |
| SimpleLineage.RefsShaped | advanced/sttm/sql_lineage_parser.py:20-23 | every reference has at least two characters and one to four dot-separated segments, and is the capture of a keyword in the text |
| SimpleLineage.ExtractTableNames | advanced/sttm/sql_lineage_parser.py:13-23 | every reference is a dotted name of at least two characters captured after a keyword in the comment-free text |
| SimpleLineage.ReachedNext | advanced/sttm/sql_lineage_parser.py:22-23 | the positions `finditer` tries are closed under its step: after a failed attempt the next character, after a match the end of the match |
| SimpleLineage.RefsComplete | advanced/sttm/sql_lineage_parser.py:22-23 | the capture of every match at a position the scan tries is among the references, with exactly the later matches' captures after it: occurrence order, duplicates kept, none lost |
| SimpleLineage.ExtractTableNamesComplete | advanced/sttm/sql_lineage_parser.py:13-23 | the same completeness for `extract_table_names` on the comment-free text |
| SimpleLineage.InsertTargetAmongSources | advanced/sttm/sql_lineage_parser.py:20-23 | references come in order with duplicates kept: `INSERT INTO ab SELECT * FROM ab` gives `[ab, ab]` |
| SimpleLineage.CommentedReferenceIgnored | advanced/sttm/sql_lineage_parser.py:16-23 | a reference inside a `--` comment is not seen |
| SimpleLineage.TargetOfSpec | advanced/sttm/sql_lineage_parser.py:60-73 | corrected: there is a target exactly for a CREATE with a non-white-space token after the first `TABLE`, and it is the first such token |
| SimpleLineage.TargetAsWrittenIsSpace | advanced/sttm/sql_lineage_parser.py:67-71 | as written, a white-space token after `TABLE` becomes the target |
| SimpleLineage.CreateTargetAsWritten | advanced/sttm/sql_lineage_parser.py:67-71 | as written, `CREATE TABLE dw.sales AS …` has the target `" "` |
| SimpleLineage.CreateTargetCorrected | advanced/sttm/sql_lineage_parser.py:67-71 | corrected, its target is `dw.sales` |
| SimpleLineage.EntryIsCreate | advanced/sttm/sql_lineage_parser.py:33-73 | a recorded statement does not start with DELETE, has type CREATE, a non-blank target and at least one source: INSERT and MERGE never record |
| SimpleLineage.AddConsistent | advanced/sttm/sql_lineage_parser.py:49-53 | recording keeps the store consistent: each key once in insertion order, a non-empty set, and it and its sources in `all_tables` |
| SimpleLineage.AddIdempotent | advanced/sttm/sql_lineage_parser.py:49-53 | recording the same statement twice equals recording it once: repeated pairs collapse |
| SimpleLineage.AddPairs | advanced/sttm/sql_lineage_parser.py:49-53 | recording adds exactly the pairs of the target with each of its sources |
| SimpleLineage.FoldConsistent | advanced/sttm/sql_lineage_parser.py:33-53 | the store stays consistent over any run of statements |
| SimpleLineage.FoldWithoutCreate | advanced/sttm/sql_lineage_parser.py:39-58 | statements that are not CREATE leave the store as it was |
| SimpleLineage.TargetRows | advanced/sttm/sql_lineage_parser.py:85-87 | one target's rows are `(target, source)`, once each, for every source in its set |
| SimpleLineage.RowsStep | advanced/sttm/sql_lineage_parser.py:85-87 | appending one target's rows keeps the rows grouped by target in insertion order, distinct and complete |
| SimpleLineage.RowsDone | advanced/sttm/sql_lineage_parser.py:85-87 | once every target is done the rows are exactly the dictionary's pairs, each once, grouped in insertion order |
| SimpleLineage.NumberEdges | advanced/sttm/sql_lineage_parser.py:105-115 | the counter numbers the edges `e0…` along the rows, each from source to target |
| SimpleLineage.EdgesFromRows | advanced/sttm/sql_lineage_parser.py:105-115 | the edges cover every pair once, run from source to target, and have distinct ids, as many as there are pairs |
| SimpleLineage.SimpleParser.constructor | advanced/sttm/sql_lineage_parser.py:9-11 | the dictionary and `all_tables` start empty, which is a consistent state |
| SimpleLineage.SimpleParser.Record | advanced/sttm/sql_lineage_parser.py:49-53 | the recording loop leaves the state that `Add` specifies |
| SimpleLineage.SimpleParser.ParseStatements | advanced/sttm/sql_lineage_parser.py:33-53 | the loop over the pieces leaves the state of the fold over them, and keeps the state consistent (keys in insertion order, non-empty source sets, all tables registered) |
| SimpleLineage.SimpleParser.ParseSqlFile | advanced/sttm/sql_lineage_parser.py:25-53 | `parse_sql_file` folds the pieces `sqlparse.split` yields and keeps the state consistent |
| SimpleLineage.SimpleParser.GenerateMappingCsv | advanced/sttm/sql_lineage_parser.py:79-87 | the rows are exactly the dictionary's `(target, source)` pairs, each once, grouped by target in insertion order |
| SimpleLineage.SimpleParser.GenerateNeptuneFiles | advanced/sttm/sql_lineage_parser.py:89-115 | one node per table of `all_tables`; one edge per pair from source to target, with distinct counter ids |
| Variants.ReplaceCanonical | advanced/sttm/smart_lineage_parser.py:130-134 | the canonical search finds `n` in `CREATE OR REPLACE TABLE n` |
| Variants.ReplaceLog | advanced/sttm/sttm_from_sql_logs.py:104 | the log revision's search first matches at the `REPLACE` token and captures `n` |
| Variants.ReplaceAnalyzer | advanced/sttm/sql_lineage_analyzer.py:127-128 | the analyzer's `CREATE\s+TABLE` search finds nothing in `CREATE OR REPLACE TABLE n` |
| Variants.CreateOrReplaceTargets | advanced/sttm/sql_lineage_analyzer.py:125-130 | for `CREATE OR REPLACE TABLE n`, the canonical engine and the corrected log revision record `n`, the log revision as written records `TABLE`, and the analyzer records nothing |
| Variants.InsertTargets | advanced/sttm/sql_lineage_parser.py:55-73 | for `INSERT INTO n SELECT …`, the canonical engine, the log revision and the analyzer record `n`, while the simple parser records nothing |

## Left out

- Scanning at token level: the upper-casing revisions are modelled on the tokens of the normalised text. Keywords are matched as whole tokens. So a keyword inside a longer word (`XFROM a`) is not a match in the model, though the source's regexes (which have no `\b` before `FROM`/`JOIN`/`INTO`) would match it.
- `sql.find('SELECT')` and `'VALUES' in sql` work at token granularity. The `FROM`/`JOIN` scan of a CTAS starts at the first token that holds `SELECT`, not at the character.
- Character classes are ASCII. `\w`, `\s`, upper-casing and `re.IGNORECASE` follow Python's Unicode rules in the source; the model has no Unicode case folding.
- `sqlparse` is a parameter: `parse(…)[0].get_type()`, `sqlparse.split` and the top-level token stream are given functions, not a SQL grammar.
- File reads are a `content` string. CSV and JSON writes, `json.dumps` formatting, `print` and the `FileNotFoundError` handler are I/O and left out. `main` is a demo driver.
- `generate_mapping_csv` of the canonical revision writes `self.mappings` as they are, with their timestamp and type. Only file output, so it has no member.
- Analyzer process_sql_file: line 167 calls `.strip()` on a statement dictionary, which raises. The model does not reproduce that crash. It reads the statement text, as the canonical revision does at line 226.
- Analyzer.AnalyzerParser.ExtractTableNames requires a statement with at least one token. On a blank text `sqlparse.parse(sql)[0]` raises and nothing catches it.
- Other exceptions that `sqlparse` may raise are not modelled. The log revision's handler is modelled only for the empty statement, which makes `parse(…)[0]` fail.
- The order in which the runtime enumerates a set (`list(sources)`, `for table in all_tables`) is not fixed. `Lineage.Enumerate` and `ProjectNodes` promise every element once, in some order.
- The pattern list: `log_patterns` is written with nine strings but two missing commas, so the list as written has 7 entries. `AsWrittenPatterns` follows the code with those 7 entries.
- `LogLineage.LogParser` cleans with the corrected nine-entry list (`LogPatterns`), not the list as written. `AsWrittenPatterns` is proved equivalent to the last six corrected entries.
- Only the `log_patterns` elements these nine patterns use are modelled: `^`, literals, `\s+`, `\S+`, `\d{n}`, `.*?(?=SELECT|INSERT|UPDATE|CREATE|MERGE)` and `.*$`. General regular-expression semantics are out of scope.
- SmartLineage.Parser.ExtractAliases: the alias map uses the corrected pattern, which never takes an SQL keyword as a table or an alias. The pattern as written is `AliasScan(ts, {}, 0)` and is kept for the finding below.
- The log revision, as written, records `VIEW`/`TABLE` as a CREATE target. Its parser uses the corrected target (the name after it). `LogTargetsAsWritten` keeps the as-written choice for the finding.
- The simple revision, as written, takes the token right after `TABLE`, which `sqlparse` makes a white-space token. `Entry` uses the corrected target (the first non-white-space token after it). `TargetAsWritten` keeps the as-written choice.
- Subqueries (`FROM (SELECT …)`) are not recursed into, as in the source.

## Findings

| source | as written | input that shows it | evidently intended | confidence | as-written member | corrected member |
|---|---|---|---|---|---|---|
| advanced/sttm/smart_lineage_parser.py:96 | the alias pattern accepts any word as table and alias, so `FROM A JOIN` reads as table `FROM` with alias `A`, and the source `A` resolves to `FROM` | `INSERT INTO T SELECT * FROM A JOIN B` gives the sources `{FROM, B}` | SQL keywords are neither tables nor aliases; the sources are `{A, B}` | high, not executed | SmartLineage.AliasPatternAsWritten | SmartLineage.AliasPatternCorrected |
| advanced/sttm/sttm_from_sql_logs.py:17-19 | two missing commas concatenate the `Created`, `Populated` and timestamp patterns into one pattern that can never match | `2024-01-01 10:00:00 SELECT 1` keeps its timestamp prefix | three patterns, the timestamp one stripping the prefix to `SELECT 1` | high, not executed | LogLineage.AsWrittenSkipsThree | LogLineage.TimestampPrefixRemoved |
| advanced/sttm/sttm_from_sql_logs.py:104-106 | the CREATE branch records capture group 1, the word `VIEW` or `TABLE` | `CREATE TABLE sales.day AS SELECT 1` gets the target `TABLE` | group 2, the table name `SALES.DAY` | high, not executed | LogLineage.CreateTargetAsWrittenExample | LogLineage.CreateTargetCorrectedExample |
| advanced/sttm/sql_lineage_parser.py:67-71 | the target is the token right after `TABLE`, which in `sqlparse`'s token stream is white space | `CREATE TABLE dw.sales AS …` gets the target `" "` | the first non-white-space token after `TABLE`, `dw.sales` | medium (depends on `sqlparse` keeping white space as top-level tokens), not executed | SimpleLineage.CreateTargetAsWritten | SimpleLineage.CreateTargetCorrected |
