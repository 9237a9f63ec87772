/**
 * The command's entry point without its input and output: which rules are
 * active, how a local rule file is recognised, and what the report of a
 * project is.
 */
module Registry {
  import opened Wrappers
  import opened Text
  import opened OrderedMaps
  import opened Ast
  import opened RuleTypes
  import opened FindCrashAnalyticService
  import opened Analysis
  import opened MarkdownTable

  /** The built-in rules, in order. */
  const GlobalRules: seq<Rule> := [FindCrashAnalyticServiceRule]

  /**
   * A value a rule module evaluates to, as far as the rule check looks at it:
   * its kind, and for functions and objects the names of their members. An
   * object also carries the values of its `meta` and `execute` members, which
   * mean something only when it has them.
   */
  datatype JsValue =
    | Undefined
    | Null
    | Primitive(typeName: string)
    | Function(functionMembers: set<string>)
    | Object(members: set<string>, meta: Meta, execute: Node -> RuleOutput)

  /** The `typeof` operator; `null` is an object to it. */
  function TypeOf(v: JsValue): string {
    match v
    case Undefined => "undefined"
    case Null => "object"
    case Primitive(t) => t
    case Function(_) => "function"
    case Object(_, _, _) => "object"
  }

  /** The `in` operator on a function or an object. */
  predicate HasMember(v: JsValue, name: string) {
    match v
    case Function(ms) => name in ms
    case Object(ms, _, _) => name in ms
    case _ => false
  }

  /**
   * The rule check: an object other than `null` with both an `execute` and a
   * `meta` member. Functions, primitives, `null` and `undefined` fail it.
   */
  predicate IsRule(v: JsValue)
    ensures IsRule(v) <==> v.Object? && "execute" in v.members && "meta" in v.members
  {
    TypeOf(v) == "object" && !v.Null? && HasMember(v, "execute") && HasMember(v, "meta")
  }

  /** A value that passes the rule check, used as a rule. */
  function AsRule(v: JsValue): Rule
    requires IsRule(v)
  {
    Rule(v.meta, v.execute)
  }

  /**
   * The suffix a local rule file must have. The filter is written as
   * `'.ts' || 'js'`, which evaluates to `'.ts'`: JavaScript files are not
   * accepted.
   */
  const RuleFileSuffix := ".ts"

  predicate IsLocalRuleFile(file: string) {
    EndsWith(file, RuleFileSuffix)
  }

  /** A file name ending in `.js` is never taken for a rule file. */
  lemma JavaScriptFilesRejected(file: string)
    requires EndsWith(file, ".js")
    ensures !IsLocalRuleFile(file)
  {
    assert file[|file| - 3..][1] == 'j';
  }

  /** The rule directory's files that the name filter keeps, in directory order. */
  function AcceptedFiles(files: seq<string>): (accepted: seq<string>)
    ensures forall f :: f in accepted <==> f in files && IsLocalRuleFile(f)
    decreases |files|
  {
    if files == [] then []
    else
      var init, last := files[..|files| - 1], files[|files| - 1];
      assert files == init + [last];
      AcceptedFiles(init) + (if IsLocalRuleFile(last) then [last] else [])
  }

  /** Filtering keeps directory order: the files of a concatenation are filtered part by part. */
  lemma {:induction false} AcceptedFilesConcat(a: seq<string>, b: seq<string>)
    ensures AcceptedFiles(a + b) == AcceptedFiles(a) + AcceptedFiles(b)
    decreases |b|
  {
    if b == [] {
      assert a + b == a;
    } else {
      assert (a + b)[..|a + b| - 1] == a + b[..|b| - 1];
      AcceptedFilesConcat(a, b[..|b| - 1]);
    }
  }

  /**
   * The local rules: the accepted files loaded in order, and those whose
   * value passes the rule check kept. `load` stands for loading a module
   * from the rule directory.
   */
  function LocalRules(files: seq<string>, load: string -> JsValue): (rules: seq<Rule>)
    ensures |rules| <= |AcceptedFiles(files)|
    decreases |files|
  {
    if files == [] then []
    else
      var init, last := files[..|files| - 1], files[|files| - 1];
      LocalRules(init, load) + (if IsLocalRuleFile(last) && IsRule(load(last)) then [AsRule(load(last))] else [])
  }

  /** Loading keeps directory order: the rules of a concatenation are loaded part by part. */
  lemma {:induction false} LocalRulesConcat(a: seq<string>, b: seq<string>, load: string -> JsValue)
    ensures LocalRules(a + b, load) == LocalRules(a, load) + LocalRules(b, load)
    decreases |b|
  {
    if b == [] {
      assert a + b == a;
    } else {
      assert (a + b)[..|a + b| - 1] == a + b[..|b| - 1];
      LocalRulesConcat(a, b[..|b| - 1], load);
    }
  }

  /** A single file contributes its rule exactly when its name is accepted and its value passes the check. */
  lemma LocalRulesOfOne(file: string, load: string -> JsValue)
    ensures LocalRules([file], load) == if IsLocalRuleFile(file) && IsRule(load(file)) then [AsRule(load(file))] else []
  {
    assert [file][..0] == [];
  }

  /**
   * Every accepted file whose value passes the check contributes its rule,
   * right after the rules of the files listed before it.
   */
  lemma LocalRuleOfFile(files: seq<string>, load: string -> JsValue, i: nat)
    requires i < |files| && IsLocalRuleFile(files[i]) && IsRule(load(files[i]))
    ensures |LocalRules(files[..i], load)| < |LocalRules(files, load)|
    ensures LocalRules(files, load)[|LocalRules(files[..i], load)|] == AsRule(load(files[i]))
  {
    assert files == files[..i] + [files[i]] + files[i + 1..];
    LocalRulesConcat(files[..i] + [files[i]], files[i + 1..], load);
    LocalRulesConcat(files[..i], [files[i]], load);
    LocalRulesOfOne(files[i], load);
  }

  /** Conversely, every local rule is the rule of an accepted file whose value passes the check. */
  lemma {:induction false} FileOfLocalRule(files: seq<string>, load: string -> JsValue, j: nat)
    requires j < |LocalRules(files, load)|
    ensures exists i :: 0 <= i < |files| && IsLocalRuleFile(files[i]) && IsRule(load(files[i]))
              && LocalRules(files, load)[j] == AsRule(load(files[i]))
    decreases |files|
  {
    var init := files[..|files| - 1];
    if j < |LocalRules(init, load)| {
      FileOfLocalRule(init, load, j);
      var i :| 0 <= i < |init| && IsLocalRuleFile(init[i]) && IsRule(load(init[i])) && LocalRules(init, load)[j] == AsRule(load(init[i]));
      assert init[i] == files[i];
    } else {
      assert LocalRules(files, load)[j] == AsRule(load(files[|files| - 1]));
    }
  }

  /** The active rules: the built-in ones first, then the local ones. */
  function ActiveRules(files: seq<string>, load: string -> JsValue): (rules: seq<Rule>)
    ensures |rules| == |GlobalRules| + |LocalRules(files, load)|
    ensures rules[0].meta == RuleMeta
    ensures forall j :: 0 <= j < |LocalRules(files, load)| ==> rules[|GlobalRules| + j].meta == LocalRules(files, load)[j].meta
  {
    GlobalRules + LocalRules(files, load)
  }

  /**
   * The built-in rule is run first, so its metadata is the one stored under
   * its key, even when a local rule reuses that key.
   */
  lemma BuiltInMetaWins(project: Project, files: seq<string>, load: string -> JsValue)
    requires |AllNodes(project)| > 0
    ensures Get(Analyze(project, ActiveRules(files, load)), RuleMeta.key).Some?
    ensures Get(Analyze(project, ActiveRules(files, load)), RuleMeta.key).value.meta == RuleMeta
  {
    var rules := ActiveRules(files, load);
    assert RuleKeys(rules)[0] == RuleMeta.key;
    assert FirstIndex(RuleKeys(rules), RuleMeta.key) == 0;
    AnalyzeMeta(project, rules, RuleMeta.key);
  }

  /** The report the command writes for a project. */
  function Report(project: Project, files: seq<string>, load: string -> JsValue): string {
    Unlines(Lines(Analyze(project, ActiveRules(files, load))))
  }

  /** When the project has a node, the report opens with the built-in rule's section heading. */
  lemma ReportOpensWithBuiltInRule(project: Project, files: seq<string>, load: string -> JsValue)
    requires |AllNodes(project)| > 0
    ensures |Lines(Analyze(project, ActiveRules(files, load)))| > 0
    ensures Lines(Analyze(project, ActiveRules(files, load)))[0] == "## " + RuleMeta.key
    ensures "## " + RuleMeta.key + "\n" <= Report(project, files, load)
  {
    var rules := ActiveRules(files, load);
    var agg := Analyze(project, rules);
    AnalyzeRuleKeys(project, rules);
    DistinctHead(RuleKeys(rules));
    assert Keys(agg)[0] == agg[0].0;
    LinesHead(agg);
    UnlinesHead(Lines(agg));
  }

  /** Text made of lines opens with its first line and a newline. */
  lemma UnlinesHead(lines: seq<string>)
    requires lines != []
    ensures lines[0] + "\n" <= Unlines(lines)
  {
    assert lines == [lines[0]] + lines[1..];
    UnlinesConcat([lines[0]], lines[1..]);
    assert [lines[0]][..0] == [];
    assert Unlines([lines[0]]) == lines[0] + "\n";
  }

  /** The first element of a non-empty sequence is the first of its distinct elements. */
  lemma DistinctHead(ks: seq<string>)
    requires |ks| > 0
    ensures |Distinct(ks)| > 0 && Distinct(ks)[0] == ks[0]
  {
    assert ks == [ks[0]] + ks[1..];
    AppendAllNewConcat([], [ks[0]], ks[1..]);
    assert AppendAllNew([], [ks[0]]) == [ks[0]] by {
      assert [ks[0]][..0] == [];
    }
    AppendAllNewContents([ks[0]], ks[1..]);
  }

  // ----- The built-in rule over a whole project -----

  /** The records of the report nodes among `nodes` filed under `domain`, in order. */
  function ReportsUnder(nodes: seq<Node>, domain: string): seq<Entry>
    decreases |nodes|
  {
    if nodes == [] then []
    else
      var n := nodes[|nodes| - 1];
      ReportsUnder(nodes[..|nodes| - 1], domain)
        + (if IsReport(n) && EntryOf(n).domain == domain then [EntryOf(n).AsRecord()] else [])
  }

  /** The domains of the report nodes among `nodes`, in order, with repeats. */
  function ReportDomains(nodes: seq<Node>): seq<string>
    decreases |nodes|
  {
    if nodes == [] then []
    else
      var n := nodes[|nodes| - 1];
      ReportDomains(nodes[..|nodes| - 1]) + (if IsReport(n) then [EntryOf(n).domain] else [])
  }

  /** What the built-in rule returns for one node, seen as the analysis reads it. */
  lemma ClassifyUnder(n: Node, domain: string)
    ensures EntriesUnder(Classify(n), domain) == if IsReport(n) && EntryOf(n).domain == domain then [EntryOf(n).AsRecord()] else []
    ensures Keys(Classify(n)) == if IsReport(n) then [EntryOf(n).domain] else []
  {
    if IsReport(n) {
      var out := Classify(n);
      var e := EntryOf(n);
      assert out == [(e.domain, [e.AsRecord()])];
      assert out[..0] == [];
      assert EntriesUnder(out, domain) == EntriesUnder([], domain) + (if e.domain == domain then [e.AsRecord()] else []);
    }
  }

  lemma {:induction false} BuiltInEmitted(nodes: seq<Node>, domain: string)
    ensures Emitted(Visits(nodes, GlobalRules), RuleMeta.key, domain) == ReportsUnder(nodes, domain)
    ensures EmittedDomains(Visits(nodes, GlobalRules), RuleMeta.key) == ReportDomains(nodes)
    decreases |nodes|
  {
    if nodes != [] {
      var init, n := nodes[..|nodes| - 1], nodes[|nodes| - 1];
      BuiltInEmitted(init, domain);
      var vs := Visits(init, GlobalRules);
      var v := Visit(RuleMeta, Classify(n));
      assert RuleVisits(n, GlobalRules) == [v];
      assert Visits(nodes, GlobalRules) == vs + [v];
      assert (vs + [v])[..|vs|] == vs;
      ClassifyUnder(n, domain);
    }
  }

  /**
   * With the built-in rules alone, the report of a project lists under each
   * domain the entries of every report call filed under it, in file and
   * traversal order, and its domains in the order in which they first occur.
   */
  lemma BuiltInAnalysis(project: Project, domain: string)
    ensures Stored(Analyze(project, GlobalRules), RuleMeta.key, domain) == ReportsUnder(AllNodes(project), domain)
    ensures DomainKeys(Analyze(project, GlobalRules), RuleMeta.key) == Distinct(ReportDomains(AllNodes(project)))
  {
    AnalyzeStored(project, GlobalRules, RuleMeta.key, domain);
    FoldDomainKeys([], Visits(AllNodes(project), GlobalRules), RuleMeta.key);
    BuiltInEmitted(AllNodes(project), domain);
  }

  // ----- The built-in rule's tables -----

  /** The header row of the built-in rule's tables. */
  lemma BuiltInHeaderRow()
    ensures HeaderRow(RuleMeta.headers) == "| 에러 메시지 | 분류 | 분류 이유 |"
  {
    HeaderRowOfThree("에러 메시지", "분류", "분류 이유");
  }

  /** An entry row of the built-in rule: its title, severity and reason; its domain is the table, not a column. */
  lemma BuiltInRow(e: LogEntry)
    ensures Row(RuleMeta.headersKey, e.AsRecord()) == "| " + e.title + " | " + e.severity + " | " + e.reason + " |"
  {
    RowOfThree("title", "severity", "reason", e.AsRecord());
  }
}
