/**
 * The analysis pass: every rule is run on every node of every source file,
 * and what the rules return is gathered into a two-level insertion-ordered
 * map, rule key to domain key to the list of entries, by appending only.
 */
module Analysis {
  import opened Wrappers
  import opened OrderedMaps
  import opened Ast
  import opened RuleTypes

  /** What the analysis keeps per rule key: the metadata it first saw and the entries by domain key. */
  datatype RuleData = RuleData(meta: Meta, result: OrderedMap<seq<Entry>>)

  /** Rule key to the data gathered under it, in order of first use. */
  type AnalyzeResult = OrderedMap<RuleData>

  /** A project: its source files, in the order the compiler lists them. */
  type Project = seq<SourceFile>

  /** Every node of the project: file by file, and within a file in traversal order. */
  function AllNodes(project: Project): seq<Node>
    decreases |project|
  {
    if project == [] then []
    else AllNodes(project[..|project| - 1]) + project[|project| - 1].nodes
  }

  /** One run of one rule on one node: the rule's metadata and what it returned. */
  datatype Visit = Visit(meta: Meta, output: RuleOutput)

  /** The runs of `rules`, in order, on one node. */
  function RuleVisits(node: Node, rules: seq<Rule>): (vs: seq<Visit>)
    ensures |vs| == |rules|
    ensures forall i :: 0 <= i < |rules| ==> vs[i] == Visit(rules[i].meta, rules[i].execute(node))
  {
    seq(|rules|, i requires 0 <= i < |rules| => Visit(rules[i].meta, rules[i].execute(node)))
  }

  /** Every run of the analysis, in order: node by node, and for each node rule by rule. */
  function Visits(nodes: seq<Node>, rules: seq<Rule>): seq<Visit>
    decreases |nodes|
  {
    if nodes == [] then []
    else Visits(nodes[..|nodes| - 1], rules) + RuleVisits(nodes[|nodes| - 1], rules)
  }

  /** The inner loop over one rule output: each of its lists is appended under its domain key. */
  function Merge(inner: OrderedMap<seq<Entry>>, output: RuleOutput): OrderedMap<seq<Entry>>
    decreases |output|
  {
    if output == [] then inner
    else
      var m := Merge(inner, output[..|output| - 1]);
      var (domain, entries) := output[|output| - 1];
      Set(m, domain, Get(m, domain).GetOr([]) + entries)
  }

  /** One run folded in: the rule key keeps the data it has (a fresh one carries the rule's metadata), and the output is merged into it. */
  function Step(agg: AnalyzeResult, v: Visit): AnalyzeResult {
    var existing := Get(agg, v.meta.key).GetOr(RuleData(v.meta, []));
    Set(agg, v.meta.key, RuleData(existing.meta, Merge(existing.result, v.output)))
  }

  /** The runs `vs` folded in, in order. */
  function Fold(agg: AnalyzeResult, vs: seq<Visit>): AnalyzeResult
    decreases |vs|
  {
    if vs == [] then agg else Step(Fold(agg, vs[..|vs| - 1]), vs[|vs| - 1])
  }

  /** What the analysis of a project with a list of rules yields. */
  function Analyze(project: Project, rules: seq<Rule>): AnalyzeResult {
    Fold([], Visits(AllNodes(project), rules))
  }

  // ----- Views of the result -----

  /** The entries stored under a rule key and a domain key; none when either is missing. */
  function Stored(agg: AnalyzeResult, key: string, domain: string): seq<Entry> {
    match Get(agg, key)
    case None => []
    case Some(data) => Get(data.result, domain).GetOr([])
  }

  /** The domain keys stored under a rule key, in order; none when the key is missing. */
  function DomainKeys(agg: AnalyzeResult, key: string): seq<string> {
    match Get(agg, key)
    case None => []
    case Some(data) => Keys(data.result)
  }

  /** The lists a rule output holds under `domain`, concatenated in order. */
  function EntriesUnder(output: RuleOutput, domain: string): seq<Entry>
    decreases |output|
  {
    if output == [] then []
    else
      var (d, entries) := output[|output| - 1];
      EntriesUnder(output[..|output| - 1], domain) + (if d == domain then entries else [])
  }

  /** What the runs of rules with key `key` returned under `domain`, concatenated in order. */
  function Emitted(vs: seq<Visit>, key: string, domain: string): seq<Entry>
    decreases |vs|
  {
    if vs == [] then []
    else
      var v := vs[|vs| - 1];
      Emitted(vs[..|vs| - 1], key, domain) + (if v.meta.key == key then EntriesUnder(v.output, domain) else [])
  }

  /** The rule keys of the runs, in order, with repeats. */
  function VisitKeys(vs: seq<Visit>): (ks: seq<string>)
    ensures |ks| == |vs| && forall i :: 0 <= i < |vs| ==> ks[i] == vs[i].meta.key
  {
    seq(|vs|, i requires 0 <= i < |vs| => vs[i].meta.key)
  }

  /** The domain keys the runs of rules with key `key` returned, in order, with repeats. */
  function EmittedDomains(vs: seq<Visit>, key: string): seq<string>
    decreases |vs|
  {
    if vs == [] then []
    else
      var v := vs[|vs| - 1];
      EmittedDomains(vs[..|vs| - 1], key) + (if v.meta.key == key then Keys(v.output) else [])
  }

  /** The rule keys of a rule list, in order, with repeats. */
  function RuleKeys(rules: seq<Rule>): (ks: seq<string>)
    ensures |ks| == |rules| && forall i :: 0 <= i < |rules| ==> ks[i] == rules[i].meta.key
  {
    seq(|rules|, i requires 0 <= i < |rules| => rules[i].meta.key)
  }

  // ----- Merging one output -----

  /** Merging appends each list after what was stored under its domain key; nothing is dropped or reordered. */
  lemma {:induction false} MergeEntries(inner: OrderedMap<seq<Entry>>, output: RuleOutput, domain: string)
    ensures Get(Merge(inner, output), domain).GetOr([]) == Get(inner, domain).GetOr([]) + EntriesUnder(output, domain)
    decreases |output|
  {
    if output != [] {
      MergeEntries(inner, output[..|output| - 1], domain);
    }
  }

  /** Merging adds the output's domain keys that are new, after the old ones, in the order the output lists them. */
  lemma {:induction false} MergeKeys(inner: OrderedMap<seq<Entry>>, output: RuleOutput)
    ensures Keys(Merge(inner, output)) == AppendAllNew(Keys(inner), Keys(output))
    decreases |output|
  {
    if output != [] {
      MergeKeys(inner, output[..|output| - 1]);
      KeysSnoc(output);
      assert Keys(output)[..|output| - 1] == Keys(output[..|output| - 1]);
    }
  }

  // ----- Folding runs -----

  /** One run extends the stored list under its own rule key, and changes no other. */
  lemma StepStored(agg: AnalyzeResult, v: Visit, key: string, domain: string)
    ensures Stored(Step(agg, v), key, domain) == Stored(agg, key, domain) + (if v.meta.key == key then EntriesUnder(v.output, domain) else [])
  {
    if v.meta.key == key {
      var existing := Get(agg, v.meta.key).GetOr(RuleData(v.meta, []));
      MergeEntries(existing.result, v.output, domain);
    }
  }

  /**
   * For every rule key and domain key, the stored list is what was stored
   * before followed by everything the runs of rules with that key returned
   * under that domain key, in run order.
   */
  lemma {:induction false} FoldStored(agg: AnalyzeResult, vs: seq<Visit>, key: string, domain: string)
    ensures Stored(Fold(agg, vs), key, domain) == Stored(agg, key, domain) + Emitted(vs, key, domain)
    decreases |vs|
  {
    if vs != [] {
      FoldStored(agg, vs[..|vs| - 1], key, domain);
      StepStored(Fold(agg, vs[..|vs| - 1]), vs[|vs| - 1], key, domain);
    }
  }

  /** Rule keys are kept in the order in which their first run came. */
  lemma {:induction false} FoldKeys(agg: AnalyzeResult, vs: seq<Visit>)
    ensures Keys(Fold(agg, vs)) == AppendAllNew(Keys(agg), VisitKeys(vs))
    decreases |vs|
  {
    if vs != [] {
      FoldKeys(agg, vs[..|vs| - 1]);
      assert VisitKeys(vs)[..|vs| - 1] == VisitKeys(vs[..|vs| - 1]);
    }
  }

  /** One run adds its new domain keys under its own rule key, and no other rule key's domains change. */
  lemma StepDomainKeys(agg: AnalyzeResult, v: Visit, key: string)
    ensures DomainKeys(Step(agg, v), key) == AppendAllNew(DomainKeys(agg, key), if v.meta.key == key then Keys(v.output) else [])
  {
    if v.meta.key == key {
      var existing := Get(agg, v.meta.key).GetOr(RuleData(v.meta, []));
      MergeKeys(existing.result, v.output);
    }
  }

  /** Domain keys under a rule key are kept in the order in which they were first returned. */
  lemma {:induction false} FoldDomainKeys(agg: AnalyzeResult, vs: seq<Visit>, key: string)
    ensures DomainKeys(Fold(agg, vs), key) == AppendAllNew(DomainKeys(agg, key), EmittedDomains(vs, key))
    decreases |vs|
  {
    if vs != [] {
      var init := vs[..|vs| - 1];
      var v := vs[|vs| - 1];
      FoldDomainKeys(agg, init, key);
      StepDomainKeys(Fold(agg, init), v, key);
      AppendAllNewConcat(DomainKeys(agg, key), EmittedDomains(init, key), if v.meta.key == key then Keys(v.output) else []);
    }
  }

  /** Metadata stored under a key never changes afterwards. */
  lemma {:induction false} FoldKeepsMeta(agg: AnalyzeResult, vs: seq<Visit>, key: string)
    requires Get(agg, key).Some?
    ensures Get(Fold(agg, vs), key).Some? && Get(Fold(agg, vs), key).value.meta == Get(agg, key).value.meta
    decreases |vs|
  {
    if vs != [] {
      FoldKeepsMeta(agg, vs[..|vs| - 1], key);
    }
  }

  /** A key first stored by the folding carries the metadata of the first run with that key. */
  lemma {:induction false} FoldFirstMeta(agg: AnalyzeResult, vs: seq<Visit>, key: string)
    requires Get(agg, key).None? && key in VisitKeys(vs)
    ensures Get(Fold(agg, vs), key).Some?
    ensures Get(Fold(agg, vs), key).value.meta == vs[FirstIndex(VisitKeys(vs), key)].meta
    decreases |vs|
  {
    var init := vs[..|vs| - 1];
    assert VisitKeys(vs) == VisitKeys(init) + [vs[|vs| - 1].meta.key];
    if key in VisitKeys(init) {
      FoldFirstMeta(agg, init, key);
      FirstIndexAppend(VisitKeys(init), vs[|vs| - 1].meta.key, key);
    } else {
      FoldAbsent(agg, init, key);
      assert FirstIndex(VisitKeys(vs), key) == |init|;
    }
  }

  /** A key no run carries is not added. */
  lemma {:induction false} FoldAbsent(agg: AnalyzeResult, vs: seq<Visit>, key: string)
    requires key !in VisitKeys(vs)
    ensures Get(Fold(agg, vs), key) == Get(agg, key)
    decreases |vs|
  {
    if vs != [] {
      var init := vs[..|vs| - 1];
      assert VisitKeys(vs) == VisitKeys(init) + [vs[|vs| - 1].meta.key];
      FoldAbsent(agg, init, key);
    }
  }

  // ----- The whole analysis -----

  lemma VisitsSnoc(nodes: seq<Node>, node: Node, rules: seq<Rule>)
    ensures Visits(nodes + [node], rules) == Visits(nodes, rules) + RuleVisits(node, rules)
  {
    assert (nodes + [node])[..|nodes|] == nodes;
  }

  /** The rule keys of every run on `nodes`: the rule list's keys once per node. */
  lemma {:induction false} VisitKeysOfVisits(nodes: seq<Node>, rules: seq<Rule>)
    ensures |nodes| > 0 ==> AppendAllNew([], VisitKeys(Visits(nodes, rules))) == Distinct(RuleKeys(rules))
    decreases |nodes|
  {
    if |nodes| > 0 {
      var init := nodes[..|nodes| - 1];
      var vs := Visits(init, rules);
      var ws := RuleVisits(nodes[|nodes| - 1], rules);
      assert VisitKeys(ws) == RuleKeys(rules);
      assert VisitKeys(vs + ws) == VisitKeys(vs) + VisitKeys(ws);
      AppendAllNewConcat([], VisitKeys(vs), VisitKeys(ws));
      if |init| > 0 {
        VisitKeysOfVisits(init, rules);
        AppendAllNewContents([], RuleKeys(rules));
        AppendAllNewPresent(Distinct(RuleKeys(rules)), RuleKeys(rules));
      } else {
        assert vs == [];
      }
    }
  }

  /**
   * Once one node has been visited, every rule's key is present, each once,
   * in the order in which the rules are listed; with no node there is none.
   */
  lemma AnalyzeRuleKeys(project: Project, rules: seq<Rule>)
    ensures |AllNodes(project)| > 0 ==> Keys(Analyze(project, rules)) == Distinct(RuleKeys(rules))
    ensures |AllNodes(project)| == 0 ==> Analyze(project, rules) == []
  {
    FoldKeys([], Visits(AllNodes(project), rules));
    VisitKeysOfVisits(AllNodes(project), rules);
  }

  /**
   * A rule whose runs never returned a domain key is still present once a
   * node has been visited, with an empty map of domain keys.
   */
  lemma AnalyzeUnmatchedRule(project: Project, rules: seq<Rule>, key: string)
    requires |AllNodes(project)| > 0 && key in RuleKeys(rules)
    requires EmittedDomains(Visits(AllNodes(project), rules), key) == []
    ensures Get(Analyze(project, rules), key).Some?
    ensures Get(Analyze(project, rules), key).value.result == []
  {
    AnalyzeMeta(project, rules, key);
    FoldDomainKeys([], Visits(AllNodes(project), rules), key);
    assert AppendAllNew<string>([], []) == [];
  }

  /**
   * Under every rule key and domain key, the analysis stores everything the
   * rules with that key returned under that domain key, in visiting order:
   * files, then nodes, then rules.
   */
  lemma AnalyzeStored(project: Project, rules: seq<Rule>, key: string, domain: string)
    ensures Stored(Analyze(project, rules), key, domain) == Emitted(Visits(AllNodes(project), rules), key, domain)
  {
    FoldStored([], Visits(AllNodes(project), rules), key, domain);
  }

  /** The stored metadata of a rule key is that of the first listed rule with that key. */
  lemma AnalyzeMeta(project: Project, rules: seq<Rule>, key: string)
    requires |AllNodes(project)| > 0 && key in RuleKeys(rules)
    ensures Get(Analyze(project, rules), key).Some?
    ensures Get(Analyze(project, rules), key).value.meta == rules[FirstIndex(RuleKeys(rules), key)].meta
  {
    var nodes := AllNodes(project);
    var first := nodes[0];
    var rest := nodes[1..];
    var vs := Visits(nodes, rules);
    var ws := RuleVisits(first, rules);
    VisitsPrefix(nodes, rules);
    assert ws <= vs;
    var i := FirstIndex(RuleKeys(rules), key);
    assert VisitKeys(ws) == RuleKeys(rules);
    assert VisitKeys(vs)[..|ws|] == VisitKeys(ws);
    assert VisitKeys(vs)[i] == key;
    var j := FirstIndex(VisitKeys(vs), key);
    assert j == i by {
      assert key !in VisitKeys(vs)[..i] by {
        assert VisitKeys(vs)[..i] == RuleKeys(rules)[..i];
      }
      FirstIndexIsFirst(VisitKeys(vs), key, i);
    }
    FoldFirstMeta([], vs, key);
  }

  /** The runs on the first node come first. */
  lemma {:induction false} VisitsPrefix(nodes: seq<Node>, rules: seq<Rule>)
    requires |nodes| > 0
    ensures RuleVisits(nodes[0], rules) <= Visits(nodes, rules)
    decreases |nodes|
  {
    if |nodes| > 1 {
      VisitsPrefix(nodes[..|nodes| - 1], rules);
    } else {
      assert nodes[..0] == [];
    }
  }

  /** An occurrence with no earlier one is the first. */
  lemma FirstIndexIsFirst<K>(xs: seq<K>, x: K, i: nat)
    requires i < |xs| && xs[i] == x && x !in xs[..i]
    ensures FirstIndex(xs, x) == i
  {
  }

  // ----- The imperative pass -----

  /** The inner loop of the pass: every list of one rule output appended under its domain key. */
  method MergeInto(inner: OrderedMap<seq<Entry>>, result: RuleOutput) returns (merged: OrderedMap<seq<Entry>>)
    ensures merged == Merge(inner, result)
  {
    merged := inner;
    var e := 0;
    while e < |result|
      invariant 0 <= e <= |result|
      invariant merged == Merge(inner, result[..e])
    {
      var (mapKey, value) := result[e];
      assert result[..e + 1][..e] == result[..e];
      var existingEntries := Get(merged, mapKey).GetOr([]);
      merged := Set(merged, mapKey, existingEntries + value);
      e := e + 1;
    }
    assert result[..e] == result;
  }

  /** Folding two runs of runs is folding them one after the other. */
  lemma {:induction false} FoldConcat(agg: AnalyzeResult, vs: seq<Visit>, ws: seq<Visit>)
    ensures Fold(agg, vs + ws) == Fold(Fold(agg, vs), ws)
    decreases |ws|
  {
    if ws == [] {
      assert vs + ws == vs;
    } else {
      assert (vs + ws)[..|vs + ws| - 1] == vs + ws[..|ws| - 1];
      FoldConcat(agg, vs, ws[..|ws| - 1]);
    }
  }

  /** The loop over the rules for one node: each rule's output merged under its key, in order. */
  method RunRules(dataMap: AnalyzeResult, node: Node, rules: seq<Rule>) returns (updated: AnalyzeResult)
    ensures updated == Fold(dataMap, RuleVisits(node, rules))
  {
    updated := dataMap;
    var r := 0;
    while r < |rules|
      invariant 0 <= r <= |rules|
      invariant updated == Fold(dataMap, RuleVisits(node, rules)[..r])
    {
      var rule := rules[r];
      var result := rule.execute(node);
      var key := rule.meta.key;
      var existingData := Get(updated, key).GetOr(RuleData(rule.meta, []));
      var inner := MergeInto(existingData.result, result);
      updated := Set(updated, key, RuleData(existingData.meta, inner));
      assert RuleVisits(node, rules)[..r + 1][..r] == RuleVisits(node, rules)[..r];
      r := r + 1;
    }
    assert RuleVisits(node, rules)[..r] == RuleVisits(node, rules);
  }

  /** The loop over the nodes of one file: every rule run on each node, in order. */
  method AnalyzeFile(dataMap: AnalyzeResult, nodes: seq<Node>, rules: seq<Rule>) returns (updated: AnalyzeResult)
    ensures updated == Fold(dataMap, Visits(nodes, rules))
  {
    updated := dataMap;
    var n := 0;
    while n < |nodes|
      invariant 0 <= n <= |nodes|
      invariant updated == Fold(dataMap, Visits(nodes[..n], rules))
    {
      var node := nodes[n];
      updated := RunRules(updated, node, rules);
      assert nodes[..n + 1] == nodes[..n] + [node];
      VisitsSnoc(nodes[..n], node, rules);
      FoldConcat(dataMap, Visits(nodes[..n], rules), RuleVisits(node, rules));
      n := n + 1;
    }
    assert nodes[..n] == nodes;
  }

  /** The runs on two runs of nodes are the runs on each, one after the other. */
  lemma {:induction false} VisitsConcat(xs: seq<Node>, ys: seq<Node>, rules: seq<Rule>)
    ensures Visits(xs + ys, rules) == Visits(xs, rules) + Visits(ys, rules)
    decreases |ys|
  {
    if ys == [] {
      assert xs + ys == xs;
    } else {
      var init := ys[..|ys| - 1];
      assert xs + ys == (xs + init) + [ys[|ys| - 1]];
      VisitsSnoc(xs + init, ys[|ys| - 1], rules);
      VisitsConcat(xs, init, rules);
    }
  }

  /**
   * The pass itself: for every file, every node and every rule, in order,
   * the rule's output is merged under its key.
   */
  method AnalyzeProject(project: Project, rules: seq<Rule>) returns (dataMap: AnalyzeResult)
    ensures dataMap == Analyze(project, rules)
  {
    dataMap := [];
    var f := 0;
    while f < |project|
      invariant 0 <= f <= |project|
      invariant dataMap == Fold([], Visits(AllNodes(project[..f]), rules))
    {
      var nodes := project[f].nodes;
      var done := AllNodes(project[..f]);
      dataMap := AnalyzeFile(dataMap, nodes, rules);
      assert AllNodes(project[..f + 1]) == done + nodes by {
        assert project[..f + 1][..f] == project[..f];
      }
      VisitsConcat(done, nodes, rules);
      FoldConcat([], Visits(done, rules), Visits(nodes, rules));
      f := f + 1;
    }
    assert project[..f] == project;
  }
}
