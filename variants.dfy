/// The four revisions of the lineage engine side by side: the same
/// normalised statement, and what each revision takes as its target.
module Variants {
  import opened Text
  import opened Scanners
  import SmartLineage
  import LogLineage
  import Analyzer
  import SimpleLineage

  // ---------------------------------------------------------------------
  // Scanner facts used by the comparisons

  /** A dotted name is one run of `[\w\.]` characters. */
  lemma {:induction false} NameRunWhole(n: string, i: nat)
    requires i <= |n|
    requires forall k :: i <= k < |n| ==> IsNameChar(n[k])
    ensures NameRunEnd(n, i) == |n|
    decreases |n| - i
  {
    if i < |n| {
      NameRunWhole(n, i + 1);
    }
  }

  /** The greedy dotted prefix of a dotted name is the whole name. */
  lemma {:induction false} PrefixEndWhole(n: string, i: nat, left: nat)
    requires i <= |n| && SegmentsFrom(n, i, left)
    ensures PrefixEnd(n, i, left) == |n|
    decreases |n| - i
  {
    var e := WordRunEnd(n, i);
    if e < |n| {
      var f := WordRunEnd(n, e + 1);
      WordRunEndSpec(n, e + 1);
      assert f > e + 1;
      PrefixEndWhole(n, e + 1, left - 1);
    }
  }

  /** Every capture of a whole-token dotted name is that name. */
  lemma CapturesWhole(n: string)
    requires Dotted(n)
    ensures CaptureAt(n, Run) == Some(n) && CaptureAt(n, Prefix) == Some(n)
    ensures CaptureAt(n, Qualified(true)) == Some(n) && CaptureAt(n, Qualified(false)) == Some(n)
  {
    SegmentsChars(n, 0, 3);
    NameRunWhole(n, 0);
    PrefixEndWhole(n, 0, 3);
    assert n[..|n|] == n;
    NameAtWhole(n, true);
    NameAtWhole(n, false);
  }

  // ---------------------------------------------------------------------
  // CREATE OR REPLACE TABLE

  /** `CREATE OR REPLACE TABLE n` starts at token `j`; no token before it is
      CREATE or REPLACE, and no token after it is CREATE. */
  ghost predicate ReplaceStatement(ts: seq<string>, j: nat, n: string) {
    j + 4 < |ts| && ts[j..j + 5] == ["CREATE", "OR", "REPLACE", "TABLE", n] && Dotted(n) &&
    (forall k :: 0 <= k < j ==> ts[k] != "CREATE" && ts[k] != "REPLACE") &&
    (forall k :: j < k < |ts| ==> ts[k] != "CREATE")
  }

  lemma ReplaceTokens(ts: seq<string>, j: nat, n: string)
    requires ReplaceStatement(ts, j, n)
    ensures ts[j] == "CREATE" && ts[j + 1] == "OR" && ts[j + 2] == "REPLACE" && ts[j + 3] == "TABLE" && ts[j + 4] == n
  {
    assert ts[j..j + 5][1] == ts[j + 1];
    assert ts[j..j + 5][3] == ts[j + 3];
  }

  /** The canonical engine's `CREATE (?:OR REPLACE )?TABLE` search finds `n`. */
  lemma ReplaceCanonical(ts: seq<string>, j: nat, n: string)
    requires ReplaceStatement(ts, j, n)
    ensures FirstPhrase(ts, SmartLineage.CreateAlts, Run) == Some(n)
  {
    ReplaceTokens(ts, j, n);
    var alts := SmartLineage.CreateAlts;
    forall k | 0 <= k < j
      ensures AltAt(ts, k, alts, Run).None?
    {
      AltAtHead(ts, k, alts, Run);
    }
    assert ts[j..j + 4] == alts[0];
    CapturesWhole(n);
    assert AltAt(ts, j, alts, Run) == Some(n);
    FirstPhraseLeftmost(ts, alts, Run, j);
  }

  /** The log revision's `(?:CREATE|REPLACE)\s+(VIEW|TABLE)` search first
      matches at the `REPLACE` token and captures `n`. */
  lemma ReplaceLog(ts: seq<string>, j: nat, n: string)
    requires ReplaceStatement(ts, j, n)
    ensures AltAt(ts, j + 2, LogLineage.CreateViewAlts, Prefix) == Some(n)
    ensures forall k :: 0 <= k < j + 2 ==> AltAt(ts, k, LogLineage.CreateViewAlts, Prefix).None?
  {
    ReplaceTokens(ts, j, n);
    var alts := LogLineage.CreateViewAlts;
    forall k | 0 <= k < j + 2
      ensures AltAt(ts, k, alts, Prefix).None?
    {
      if k == j {
        forall i | 0 <= i < |alts|
          ensures !(k + |alts[i]| <= |ts| && ts[k..k + |alts[i]|] == alts[i])
        {
          if k + |alts[i]| <= |ts| {
            assert ts[k..k + |alts[i]|][0] == ts[k];
            assert ts[k..k + |alts[i]|][1] == ts[k + 1];
          }
        }
        AltAtNone(ts, k, alts, Prefix);
      } else {
        AltAtHead(ts, k, alts, Prefix);
      }
    }
    assert ts[j + 2..j + 4] == alts[3];
    assert ts[j + 2..j + 4] != alts[2];
    CapturesWhole(n);
    assert alts[1..][1..][1..] == [alts[3]];
  }

  /** The analyzer's `CREATE\s+TABLE` search finds nothing. */
  lemma ReplaceAnalyzer(ts: seq<string>, j: nat, n: string)
    requires ReplaceStatement(ts, j, n)
    ensures FirstPhrase(ts, Analyzer.CreateTableAlt, Qualified(false)).None?
  {
    ReplaceTokens(ts, j, n);
    var alts := Analyzer.CreateTableAlt;
    forall k | 0 <= k < |ts|
      ensures AltAt(ts, k, alts, Qualified(false)).None?
    {
      if k == j {
        assert ts[k..k + 2][1] == ts[k + 1];
        AltAtNone(ts, k, alts, Qualified(false));
      } else {
        AltAtHead(ts, k, alts, Qualified(false));
      }
    }
    FirstPhraseNone(ts, alts, Qualified(false));
  }

  /** One `CREATE OR REPLACE TABLE n AS SELECT …`, three revisions, three
      targets: the canonical engine and the corrected log revision record
      `n`, the log revision as written records the word `TABLE`, and the
      analyzer, whose `CREATE TABLE` search replaces the one that allows
      `OR REPLACE`, records nothing. */
  lemma CreateOrReplaceTargets(ts: seq<string>, j: nat, n: string, kind: string, aliases: map<string, string>)
    requires ReplaceStatement(ts, j, n) && !LogLineage.FunctionLike(n)
    requires forall k :: k in LogLineage.DmlWords ==> !Contains(JoinSpace(ts), k)
    requires kind !in Analyzer.DmlKinds && kind != "DELETE"
    ensures SmartLineage.TableNames(ts, kind, aliases).targets == {n}
    ensures LogLineage.LogTargets(ts) == {n}
    ensures LogLineage.LogTargetsAsWritten(ts) == {"TABLE"}
    ensures Analyzer.TableNames(ts, kind).targets == {}
  {
    ReplaceTokens(ts, j, n);
    ReplaceCanonical(ts, j, n);
    SmartLineage.CreateTakesPriority(ts, kind, aliases, n);
    ReplaceLog(ts, j, n);
    LogLineage.CreateTargetLeftmost(ts, j + 2);
    LogLineage.CreateTargetAsWritten(ts, j + 2);
    ReplaceAnalyzer(ts, j, n);
    Analyzer.CreateTargetIsCreateTable(ts, kind);
  }

  // ---------------------------------------------------------------------
  // INSERT … SELECT

  /** `INTO n` at token `j` is the first target phrase; there is no CREATE
      token, no token holds `VALUES`, and some token is INSERT. */
  ghost predicate InsertStatement(ts: seq<string>, j: nat, n: string) {
    j + 1 < |ts| && ts[j] == "INTO" && ts[j + 1] == n && Dotted(n) &&
    (forall k :: 0 <= k < j ==> ts[k] != "INTO" && ts[k] != "UPDATE" && ts[k] != "MERGE") &&
    (forall k :: 0 <= k < |ts| ==> ts[k] != "CREATE") &&
    FirstTokenWith(ts, "VALUES", 0) == |ts| &&
    exists i :: 0 <= i < |ts| && ts[i] == "INSERT"
  }

  /** The target phrase matches first at `j`, for either lookahead. */
  lemma InsertPhrase(ts: seq<string>, j: nat, n: string, parenOk: bool)
    requires InsertStatement(ts, j, n)
    ensures AltAt(ts, j, TargetAlts, Qualified(parenOk)) == Some(n)
    ensures forall k :: 0 <= k < j ==> AltAt(ts, k, TargetAlts, Qualified(parenOk)).None?
  {
    forall k | 0 <= k < j
      ensures AltAt(ts, k, TargetAlts, Qualified(parenOk)).None?
    {
      AltAtHead(ts, k, TargetAlts, Qualified(parenOk));
    }
    assert ts[j..j + 1] == TargetAlts[0];
    CapturesWhole(n);
  }

  /** With no CREATE token the canonical `CREATE` search finds nothing. */
  lemma NoCanonicalCreate(ts: seq<string>)
    requires forall k :: 0 <= k < |ts| ==> ts[k] != "CREATE"
    ensures FirstPhrase(ts, SmartLineage.CreateAlts, Run).None?
  {
    forall k | 0 <= k < |ts|
      ensures AltAt(ts, k, SmartLineage.CreateAlts, Run).None?
    {
      AltAtHead(ts, k, SmartLineage.CreateAlts, Run);
    }
    FirstPhraseNone(ts, SmartLineage.CreateAlts, Run);
  }

  /** One `INSERT INTO n SELECT …`: the canonical engine, the log revision
      and the analyzer all record `n`, while the simple parser finds no
      target for an INSERT and so records nothing for the statement. */
  lemma InsertTargets(ts: seq<string>, j: nat, n: string, aliases: map<string, string>,
                      stmt: string, typeOf: string -> string, tokensOf: string -> seq<SimpleLineage.SqlToken>)
    requires InsertStatement(ts, j, n) && !LogLineage.FunctionLike(n)
    requires typeOf(Strip(stmt)) == "INSERT"
    ensures SmartLineage.TableNames(ts, "INSERT", aliases).targets == {n}
    ensures LogLineage.LogTargets(ts) == {n}
    ensures Analyzer.TableNames(ts, "INSERT").targets == {n}
    ensures SimpleLineage.Entry(stmt, typeOf, tokensOf).None?
  {
    InsertPhrase(ts, j, n, true);
    InsertPhrase(ts, j, n, false);
    NoCanonicalCreate(ts);
    SmartLineage.DmlTargetIsLeftmost(ts, "INSERT", aliases, j);
    var i :| 0 <= i < |ts| && ts[i] == "INSERT";
    ContainsJoin(ts, "INSERT");
    assert OccursAt(ts[i], "INSERT", 0);
    assert "INSERT" in LogLineage.DmlWords;
    LogLineage.DmlTargetLeftmost(ts, j);
    Analyzer.DmlTargetIsLeftmost(ts, "INSERT", j);
  }
}
