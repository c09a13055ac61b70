/// The aggregation shared by the three revisions that keep a flat mapping
/// list: `source_tables`, `target_tables` and `mappings`, which
/// `process_sql_file` only ever extends, and the node/edge projection that
/// `generate_neptune_files` builds from them.
module Lineage {
  import opened Text
  import opened Graph

  /** The mappings one target contributes: one per source, in source order. */
  function Row(target: string, ss: seq<string>, stamp: Option<Stamp>): (r: seq<Mapping>)
    ensures |r| == |ss|
  {
    seq(|ss|, k requires 0 <= k < |ss| => Mapping(ss[k], target, stamp))
  }

  /** `for target in targets: for source in sources: mappings.append(…)` */
  function Cross(ts: seq<string>, ss: seq<string>, stamp: Option<Stamp>): seq<Mapping>
    decreases |ts|
  {
    if ts == [] then [] else Row(ts[0], ss, stamp) + Cross(ts[1..], ss, stamp)
  }

  /** One more source extends a row by one mapping. */
  lemma RowSnoc(t: string, ss: seq<string>, j: nat, stamp: Option<Stamp>)
    requires j < |ss|
    ensures Row(t, ss[..j + 1], stamp) == Row(t, ss[..j], stamp) + [Mapping(ss[j], t, stamp)]
  {
  }

  lemma {:induction false} CrossSnoc(ts: seq<string>, t: string, ss: seq<string>, stamp: Option<Stamp>)
    ensures Cross(ts + [t], ss, stamp) == Cross(ts, ss, stamp) + Row(t, ss, stamp)
    decreases |ts|
  {
    if ts == [] {
      assert Cross([t], ss, stamp) == Row(t, ss, stamp) + Cross([], ss, stamp);
    } else {
      assert (ts + [t])[1..] == ts[1..] + [t];
      CrossSnoc(ts[1..], t, ss, stamp);
    }
  }

  lemma {:induction false} CrossLength(ts: seq<string>, ss: seq<string>, stamp: Option<Stamp>)
    ensures |Cross(ts, ss, stamp)| == |ts| * |ss|
    decreases |ts|
  {
    if ts != [] {
      CrossLength(ts[1..], ss, stamp);
      assert |ts| * |ss| == |ss| + (|ts| - 1) * |ss|;
    }
  }

  /** The cross product is target-major: entry `a·|ss| + b` pairs target `a`
      with source `b`. */
  lemma {:induction false} CrossLayout(ts: seq<string>, ss: seq<string>, stamp: Option<Stamp>, a: nat, b: nat)
    requires a < |ts| && b < |ss|
    ensures a * |ss| + b < |Cross(ts, ss, stamp)|
    ensures Cross(ts, ss, stamp)[a * |ss| + b] == Mapping(ss[b], ts[a], stamp)
    decreases a
  {
    CrossLength(ts, ss, stamp);
    IndexBound(a, b, |ts|, |ss|);
    var c := Cross(ts, ss, stamp);
    assert c == Row(ts[0], ss, stamp) + Cross(ts[1..], ss, stamp);
    if a > 0 {
      CrossLayout(ts[1..], ss, stamp, a - 1, b);
      MulPred(a, |ss|);
    }
  }

  lemma IndexBound(a: nat, b: nat, m: nat, n: nat)
    requires a < m && b < n
    ensures a * n + b < m * n
  {
    MulPred(m - a, n);
    assert m * n == a * n + (m - a) * n;
  }

  lemma MulPred(a: nat, n: nat)
    requires a > 0
    ensures a * n == n + (a - 1) * n
  {
  }

  /** A mapping is in the cross product exactly when it pairs one of the
      targets with one of the sources and carries the statement's stamp. */
  lemma {:induction false} CrossMembers(ts: seq<string>, ss: seq<string>, stamp: Option<Stamp>, m: Mapping)
    ensures m in Cross(ts, ss, stamp) <==> m.target in ts && m.source in ss && m.stamp == stamp
    decreases |ts|
  {
    if ts != [] {
      CrossMembers(ts[1..], ss, stamp, m);
      var row := Row(ts[0], ss, stamp);
      if m.target == ts[0] && m.source in ss && m.stamp == stamp {
        var k :| 0 <= k < |ss| && ss[k] == m.source;
        assert row[k] == m;
      }
      assert m in row <==> m.target == ts[0] && m.source in ss && m.stamp == stamp;
      assert m.target in ts <==> m.target == ts[0] || m.target in ts[1..];
    }
  }

  /** `list(s)` for a set: every element once, in an order the runtime picks. */
  method Enumerate(s: set<string>) returns (r: seq<string>)
    ensures |r| == |s|
    ensures forall x :: x in r <==> x in s
    ensures forall k, l :: 0 <= k < l < |r| ==> r[k] != r[l]
  {
    r := [];
    var rest := s;
    while rest != {}
      invariant rest <= s
      invariant |r| + |rest| == |s|
      invariant forall x :: x in r <==> x in s - rest
      invariant forall k, l :: 0 <= k < l < |r| ==> r[k] != r[l]
      decreases |rest|
    {
      var x :| x in rest;
      assert x !in r;
      r := r + [x];
      rest := rest - {x};
    }
  }

  function Elements(xs: seq<string>): set<string> {
    set x | x in xs
  }

  /** The sources and targets one statement yields. */
  datatype Names = Names(sources: set<string>, targets: set<string>)

  /** One statement's names and the stamp its mappings carry. */
  datatype Contribution = Contribution(names: Names, stamp: Option<Stamp>)

  /** The contributions of a run of statements, one per statement, in order. */
  function ContributionsBy<T>(xs: seq<T>, f: T -> Contribution): (r: seq<Contribution>)
    ensures |r| == |xs|
  {
    seq(|xs|, k requires 0 <= k < |xs| => f(xs[k]))
  }

  /** One more statement adds its contribution at the end. */
  lemma ContributionsBySnoc<T>(xs: seq<T>, i: nat, f: T -> Contribution)
    requires i < |xs|
    ensures ContributionsBy(xs[..i + 1], f) == ContributionsBy(xs[..i], f) + [f(xs[i])]
  {
    var a, b := ContributionsBy(xs[..i + 1], f), ContributionsBy(xs[..i], f);
    forall k | 0 <= k < i
      ensures a[k] == b[k]
    {
      assert xs[..i + 1][k] == xs[..i][k];
    }
    assert a == b + [f(xs[i])];
  }

  function Product(a: nat, b: nat): nat {
    a * b
  }

  /** The mappings one statement appends, as a set. */
  function MappingsOf(c: Contribution): set<Mapping> {
    set s, t | s in c.names.sources && t in c.names.targets :: Mapping(s, t, c.stamp)
  }

  /** What a run over the statements adds to `source_tables`. */
  function SourcesOf(cs: seq<Contribution>): set<string>
    decreases |cs|
  {
    if cs == [] then {} else SourcesOf(cs[..|cs| - 1]) + Last(cs).names.sources
  }

  /** What a run over the statements adds to `target_tables`. */
  function TargetsOf(cs: seq<Contribution>): set<string>
    decreases |cs|
  {
    if cs == [] then {} else TargetsOf(cs[..|cs| - 1]) + Last(cs).names.targets
  }

  /** How many mappings a run appends: |targets|·|sources| per statement. */
  function PairCount(cs: seq<Contribution>): nat
    decreases |cs|
  {
    if cs == [] then 0
    else PairCount(cs[..|cs| - 1]) + Product(|Last(cs).names.targets|, |Last(cs).names.sources|)
  }

  /** The mappings a run appends, as a set. */
  function Expected(cs: seq<Contribution>): set<Mapping>
    decreases |cs|
  {
    if cs == [] then {} else Expected(cs[..|cs| - 1]) + MappingsOf(Last(cs))
  }

  /** The cross product of a statement's two name lists is its set of
      mappings, and has |targets|·|sources| entries. */
  lemma CrossIsMappings(ss: seq<string>, ts: seq<string>, c: Contribution)
    requires Elements(ss) == c.names.sources && |ss| == |c.names.sources|
    requires Elements(ts) == c.names.targets && |ts| == |c.names.targets|
    ensures |Cross(ts, ss, c.stamp)| == Product(|c.names.targets|, |c.names.sources|)
    ensures forall m :: m in Cross(ts, ss, c.stamp) <==> m in MappingsOf(c)
  {
    CrossLength(ts, ss, c.stamp);
    forall m
      ensures m in Cross(ts, ss, c.stamp) <==> m in MappingsOf(c)
    {
      CrossMembers(ts, ss, c.stamp, m);
      assert m.target in Elements(ts) <==> m.target in ts;
      assert m.source in Elements(ss) <==> m.source in ss;
    }
  }

  /** No entry of `xs` occurs twice. */
  predicate Distinct<T(==)>(xs: seq<T>) {
    forall k, l :: 0 <= k < l < |xs| ==> xs[k] != xs[l]
  }

  /** The order `list(set)` gave one statement's names. */
  datatype Listing = Listing(sources: seq<string>, targets: seq<string>)

  /** `l` lists each of the statement's sources and targets exactly once. */
  ghost predicate Lists(l: Listing, c: Contribution) {
    && Elements(l.sources) == c.names.sources && |l.sources| == |c.names.sources| && Distinct(l.sources)
    && Elements(l.targets) == c.names.targets && |l.targets| == |c.names.targets| && Distinct(l.targets)
  }

  ghost predicate ListsAll(ls: seq<Listing>, cs: seq<Contribution>) {
    |ls| == |cs| && forall i :: 0 <= i < |cs| ==> Lists(ls[i], cs[i])
  }

  /** What a run appends to `mappings`: statement by statement, in order,
      the target-major cross product of that statement's listed names. */
  function Appended(cs: seq<Contribution>, ls: seq<Listing>): seq<Mapping>
    requires |ls| == |cs|
    decreases |cs|
  {
    if cs == [] then []
    else Appended(cs[..|cs| - 1], ls[..|ls| - 1]) + Cross(Last(ls).targets, Last(ls).sources, Last(cs).stamp)
  }

  /** The mappings a run appends, counted with multiplicity: each statement
      adds each of its pairs once, and nothing is merged across statements. */
  ghost function Bag(cs: seq<Contribution>): multiset<Mapping>
    decreases |cs|
  {
    if cs == [] then multiset{} else Bag(cs[..|cs| - 1]) + multiset(MappingsOf(Last(cs)))
  }

  /** Registries `(s, t, m)` are `(s0, t0, m0)` after a run over `cs` whose
      names `list(set)` gave in the orders `ls`: the sets gained exactly the
      run's names and `m` is `m0` followed by the run's blocks. */
  ghost predicate ExtendsBy(s: set<string>, t: set<string>, m: seq<Mapping>,
                            s0: set<string>, t0: set<string>, m0: seq<Mapping>,
                            cs: seq<Contribution>, ls: seq<Listing>)
  {
    && ListsAll(ls, cs)
    && s == s0 + SourcesOf(cs)
    && t == t0 + TargetsOf(cs)
    && m == m0 + Appended(cs, ls)
  }

  /** The empty run changes nothing. */
  lemma ExtendsNone(s0: set<string>, t0: set<string>, m0: seq<Mapping>)
    ensures ExtendsBy(s0, t0, m0, s0, t0, m0, [], [])
  {
  }

  /** One more statement: a run over `cs` followed by that statement's
      `Record` is a run over `cs + [c]`. */
  lemma ExtendsSnoc(s2: set<string>, t2: set<string>, m2: seq<Mapping>,
                    s1: set<string>, t1: set<string>, m1: seq<Mapping>,
                    s0: set<string>, t0: set<string>, m0: seq<Mapping>,
                    cs: seq<Contribution>, ls: seq<Listing>, c: Contribution, l: Listing)
    requires ExtendsBy(s1, t1, m1, s0, t0, m0, cs, ls)
    requires Lists(l, c)
    requires s2 == s1 + c.names.sources && t2 == t1 + c.names.targets
    requires m2 == m1 + Cross(l.targets, l.sources, c.stamp)
    ensures ExtendsBy(s2, t2, m2, s0, t0, m0, cs + [c], ls + [l])
  {
    RunSnoc(cs, ls, c, l);
    ListsAllSnoc(cs, ls, c, l);
    SetsSnoc(s2, s1, s0, SourcesOf(cs), c.names.sources);
    SetsSnoc(t2, t1, t0, TargetsOf(cs), c.names.targets);
    SeqSnoc(m2, m1, m0, Appended(cs, ls), Cross(l.targets, l.sources, c.stamp));
  }

  lemma SetsSnoc(s2: set<string>, s1: set<string>, s0: set<string>, a: set<string>, b: set<string>)
    requires s1 == s0 + a && s2 == s1 + b
    ensures s2 == s0 + (a + b)
  {
  }

  lemma SeqSnoc(m2: seq<Mapping>, m1: seq<Mapping>, m0: seq<Mapping>, a: seq<Mapping>, b: seq<Mapping>)
    requires m1 == m0 + a && m2 == m1 + b
    ensures m2 == m0 + (a + b)
  {
  }

  lemma RunSnoc(cs: seq<Contribution>, ls: seq<Listing>, c: Contribution, l: Listing)
    requires |ls| == |cs|
    ensures SourcesOf(cs + [c]) == SourcesOf(cs) + c.names.sources
    ensures TargetsOf(cs + [c]) == TargetsOf(cs) + c.names.targets
    ensures Appended(cs + [c], ls + [l]) == Appended(cs, ls) + Cross(l.targets, l.sources, c.stamp)
  {
    var cs', ls' := cs + [c], ls + [l];
    assert cs'[..|cs'| - 1] == cs && ls'[..|ls'| - 1] == ls;
  }

  lemma ListsAllSnoc(cs: seq<Contribution>, ls: seq<Listing>, c: Contribution, l: Listing)
    requires ListsAll(ls, cs) && Lists(l, c)
    ensures ListsAll(ls + [l], cs + [c])
  {
    var cs', ls' := cs + [c], ls + [l];
    forall i | 0 <= i < |cs'|
      ensures Lists(ls'[i], cs'[i])
    {
      if i < |cs| {
        assert ls'[i] == ls[i] && cs'[i] == cs[i];
      }
    }
  }

  /** Whatever orders `list(set)` gave, a run appends |targets|·|sources|
      mappings per statement, exactly the statements' pairs, each pair once
      per statement that yields it. */
  lemma {:induction false} ExtendsCounts(s: set<string>, t: set<string>, m: seq<Mapping>,
                                         s0: set<string>, t0: set<string>, m0: seq<Mapping>,
                                         cs: seq<Contribution>, ls: seq<Listing>)
    requires ExtendsBy(s, t, m, s0, t0, m0, cs, ls)
    ensures m[..|m0|] == m0 && |m| == |m0| + PairCount(cs)
    ensures forall x :: x in m[|m0|..] <==> x in Expected(cs)
    ensures multiset(m[|m0|..]) == Bag(cs)
  {
    assert m[|m0|..] == Appended(cs, ls);
    AppendedCounts(cs, ls);
  }

  lemma {:induction false} AppendedCounts(cs: seq<Contribution>, ls: seq<Listing>)
    requires ListsAll(ls, cs)
    ensures |Appended(cs, ls)| == PairCount(cs)
    ensures forall x :: x in Appended(cs, ls) <==> x in Expected(cs)
    ensures multiset(Appended(cs, ls)) == Bag(cs)
    decreases |cs|
  {
    if cs != [] {
      var n := |cs| - 1;
      var c, l := cs[n], ls[n];
      assert Lists(l, c);
      assert ListsAll(ls[..n], cs[..n]) by {
        forall i | 0 <= i < n
          ensures Lists(ls[..n][i], cs[..n][i])
        {
          assert ls[..n][i] == ls[i] && cs[..n][i] == cs[i];
        }
      }
      AppendedCounts(cs[..n], ls[..n]);
      CrossIsMappings(l.sources, l.targets, c);
      CrossBag(l.targets, l.sources, c);
    }
  }

  /** One statement's block holds each of its pairs exactly once. */
  lemma CrossBag(ts: seq<string>, ss: seq<string>, c: Contribution)
    requires Elements(ss) == c.names.sources && Distinct(ss)
    requires Elements(ts) == c.names.targets && Distinct(ts)
    ensures multiset(Cross(ts, ss, c.stamp)) == multiset(MappingsOf(c))
  {
    var xs := Cross(ts, ss, c.stamp);
    CrossDistinct(ts, ss, c.stamp);
    forall x
      ensures multiset(xs)[x] == multiset(MappingsOf(c))[x]
    {
      DistinctOnce(xs, x);
      CrossMembers(ts, ss, c.stamp, x);
      assert x.target in Elements(ts) <==> x.target in ts;
      assert x.source in Elements(ss) <==> x.source in ss;
    }
  }

  /** Distinct targets and distinct sources give distinct pairs. */
  lemma {:induction false} CrossDistinct(ts: seq<string>, ss: seq<string>, stamp: Option<Stamp>)
    requires Distinct(ts) && Distinct(ss)
    ensures Distinct(Cross(ts, ss, stamp))
    decreases |ts|
  {
    if ts != [] {
      var row, rest := Row(ts[0], ss, stamp), Cross(ts[1..], ss, stamp);
      CrossDistinct(ts[1..], ss, stamp);
      assert Cross(ts, ss, stamp) == row + rest;
      forall k, l | 0 <= k < l < |row + rest|
        ensures (row + rest)[k] != (row + rest)[l]
      {
        if l < |row| {
          assert row[k].source == ss[k] && row[l].source == ss[l];
        } else if k < |row| {
          CrossMembers(ts[1..], ss, stamp, rest[l - |row|]);
          assert rest[l - |row|] in rest;
          assert ts[0] !in ts[1..] by {
            forall j | 0 <= j < |ts| - 1
              ensures ts[1..][j] != ts[0]
            {
              assert ts[1..][j] == ts[j + 1];
            }
          }
          assert row[k].target == ts[0];
        } else {
          assert (row + rest)[k] == rest[k - |row|] && (row + rest)[l] == rest[l - |row|];
        }
      }
    }
  }

  /** In a sequence without repeats every entry occurs once. */
  lemma {:induction false} DistinctOnce(xs: seq<Mapping>, x: Mapping)
    requires Distinct(xs)
    ensures multiset(xs)[x] == if x in xs then 1 else 0
    decreases |xs|
  {
    if xs != [] {
      var n := |xs| - 1;
      var p := xs[..n];
      assert xs == p + [xs[n]];
      DistinctOnce(p, x);
      assert xs[n] !in p by {
        forall k | 0 <= k < n
          ensures p[k] != xs[n]
        {
          assert p[k] == xs[k];
        }
      }
    }
  }

  /** The three registries of a parser object. */
  class Registry {
    var sourceTables: set<string>
    var targetTables: set<string>
    var mappings: seq<Mapping>

    constructor()
      ensures sourceTables == {} && targetTables == {} && mappings == []
    {
      sourceTables := {};
      targetTables := {};
      mappings := [];
    }

    /** One statement's contribution: both registries gain every name (even
        when the cross product is empty) and the cross product is appended. */
    method Record(ss: seq<string>, ts: seq<string>, stamp: Option<Stamp>)
      modifies this
      ensures sourceTables == old(sourceTables) + Elements(ss)
      ensures targetTables == old(targetTables) + Elements(ts)
      ensures mappings == old(mappings) + Cross(ts, ss, stamp)
    {
      sourceTables := sourceTables + Elements(ss);
      targetTables := targetTables + Elements(ts);
      ghost var before := mappings;
      var i := 0;
      while i < |ts|
        invariant i <= |ts|
        invariant sourceTables == old(sourceTables) + Elements(ss)
        invariant targetTables == old(targetTables) + Elements(ts)
        invariant mappings == before + Cross(ts[..i], ss, stamp)
      {
        AppendRow(ts[i], ss, stamp);
        CrossSnoc(ts[..i], ts[i], ss, stamp);
        assert ts[..i + 1] == ts[..i] + [ts[i]];
        i := i + 1;
      }
      assert ts[..i] == ts;
    }

    /** The inner loop for one target: a mapping from every source, in order. */
    method AppendRow(t: string, ss: seq<string>, stamp: Option<Stamp>)
      modifies this
      ensures sourceTables == old(sourceTables) && targetTables == old(targetTables)
      ensures mappings == old(mappings) + Row(t, ss, stamp)
    {
      var j := 0;
      while j < |ss|
        invariant j <= |ss|
        invariant sourceTables == old(sourceTables) && targetTables == old(targetTables)
        invariant mappings == old(mappings) + Row(t, ss[..j], stamp)
      {
        RowSnoc(t, ss, j, stamp);
        mappings := mappings + [Mapping(ss[j], t, stamp)];
        j := j + 1;
      }
      assert ss[..j] == ss;
    }

    /** `generate_mapping_csv` without the write: one `(source, target)` row per mapping, in order. */
    method PairRows() returns (rows: seq<(string, string)>)
      ensures |rows| == |mappings|
      ensures forall k :: 0 <= k < |rows| ==> rows[k] == (mappings[k].source, mappings[k].target)
    {
      rows := [];
      for k := 0 to |mappings|
        invariant |rows| == k
        invariant forall l :: 0 <= l < k ==> rows[l] == (mappings[l].source, mappings[l].target)
      {
        rows := rows + [(mappings[k].source, mappings[k].target)];
      }
    }

    /** `generate_neptune_files` without the writes: one node per table of
        `source_tables ∪ target_tables`, edge `k` from mapping `k`. */
    method Project(withSchema: bool) returns (nodes: seq<Node>, edges: seq<Edge>)
      ensures |nodes| == |sourceTables + targetTables|
      ensures forall k :: 0 <= k < |nodes| ==>
        nodes[k].id in sourceTables + targetTables && nodes[k] == NodeFor(nodes[k].id, withSchema)
      ensures forall t :: t in sourceTables + targetTables ==> exists k :: 0 <= k < |nodes| && nodes[k].id == t
      ensures |edges| == |mappings|
      ensures forall k :: 0 <= k < |mappings| ==>
        edges[k] == Edge(EdgeId(k), mappings[k].source, mappings[k].target, EdgeLabel, mappings[k].stamp)
      ensures forall k, l :: 0 <= k < l < |edges| ==> edges[k].id != edges[l].id
    {
      nodes := ProjectNodes(sourceTables + targetTables, withSchema);
      edges := ProjectEdges(mappings);
    }
  }
}
