/**
 * The built-in rule: recognise a `CrashAnalyticsService.<method>(…)` report
 * call, and classify it by severity, domain tag and the reason it was sent.
 */
module FindCrashAnalyticService {
  import opened Wrappers
  import opened Text
  import opened OrderedMaps
  import opened Ast
  import opened RuleTypes

  // The values of the `Severity` enumeration.
  const Error := "error"
  const Warning := "warning"
  const Info := "info"
  const Debug := "debug"
  const UnhandledError := "unhandledError"

  // Reason labels.
  const NoHandling := "예외처리 없음"
  const ToastShown := "토스트 노출"
  const ModalShown := "모달 노출"
  const FallbackShown := "fallback 화면 노출"
  const LoggedForRecord := "기록을 위한 로그"

  /** The marker in a title that a lookup failed, so that a fallback screen is shown. */
  const LookupFailed := "조회 실패"

  const DefaultTitle := "MapToError"
  const ServiceName := "CrashAnalyticsService"

  /** The method names that make a call a report; `debug` is not among them. */
  const ValidMethods := ["sendError", "sendWarning", "sendInfo", "sendUnhandledError"]

  const RuleMeta := Meta(
    ["에러 메시지", "분류", "분류 이유"],
    "findCrashAnalyticService",
    "../findCrashAnalyticService.md",
    ["title", "severity", "reason"])

  datatype LogEntry = LogEntry(title: string, severity: string, domain: string, reason: string) {
    /** The entry as a record of named fields. */
    function AsRecord(): Entry {
      map["title" := title, "severity" := severity, "domain" := domain, "reason" := reason]
    }
  }

  /** The severity a method name reports, or `""` for a name that is not a reporting method. */
  function MapMethodNameToSeverity(methodName: string): (r: string)
    ensures r in {Error, Warning, Info, Debug, UnhandledError, ""}
    ensures r == "" <==> methodName !in {"sendError", "sendWarning", "sendInfo", "debug", "sendUnhandledError"}
    ensures methodName == "sendError" <==> r == Error
    ensures methodName == "sendWarning" <==> r == Warning
    ensures methodName == "sendInfo" <==> r == Info
    ensures methodName == "debug" <==> r == Debug
    ensures methodName == "sendUnhandledError" <==> r == UnhandledError
  {
    match methodName
    case "sendError" => Error
    case "sendWarning" => Warning
    case "sendInfo" => Info
    case "debug" => Debug
    case "sendUnhandledError" => UnhandledError
    case _ => ""
  }

  /** The context mentions a toast: `ToastService` or `toast` occurs somewhere in it. */
  predicate IsToast(text: string)
    ensures IsToast(text) <==>
              (exists i :: 0 <= i <= |text| && "ToastService" <= text[i..]) || (exists i :: 0 <= i <= |text| && "toast" <= text[i..])
  {
    ContainsIff(text, "ToastService");
    ContainsIff(text, "toast");
    Contains(text, "ToastService") || Contains(text, "toast")
  }

  /** The context mentions a modal: `alert` occurs somewhere in it. */
  predicate IsModal(text: string)
    ensures IsModal(text) <==> exists i :: 0 <= i <= |text| && "alert" <= text[i..]
  {
    ContainsIff(text, "alert");
    Contains(text, "alert")
  }

  // ----- The two text templates -----

  /** Template A, `new Error\('([^']*)'\)`, opens with this text. */
  const ErrorOpen := "new Error('"
  /** Template B, `tag: ErrorTag\.([^,]*)`, opens with this text. */
  const TagOpen := "tag: ErrorTag."

  /**
   * Template A tried at position `p` of `t`: the characters after the opening
   * up to the next quote, provided that quote is followed by `)`.
   */
  function ErrorMatchAt(t: string, p: nat): Option<string> {
    if p <= |t| && ErrorOpen <= t[p..] then
      var rest := t[p + |ErrorOpen|..];
      match IndexOf(rest, '\'')
      case None => None
      case Some(q) => if q + 1 < |rest| && rest[q + 1] == ')' then Some(rest[..q]) else None
    else None
  }

  /** Template A matches at `p` capturing `c` exactly when `new Error('c')` starts there and `c` holds no quote. */
  lemma ErrorMatchAtIff(t: string, p: nat, c: string)
    ensures ErrorMatchAt(t, p) == Some(c) <==> p <= |t| && ErrorOpen + c + "')" <= t[p..] && '\'' !in c
  {
    if p <= |t| && ErrorOpen + c + "')" <= t[p..] && '\'' !in c {
      ErrorMatchAtComplete(t, p, c);
    }
    if ErrorMatchAt(t, p) == Some(c) {
      ErrorMatchAtSound(t, p, c);
    }
  }

  lemma ErrorMatchAtComplete(t: string, p: nat, c: string)
    requires p <= |t| && ErrorOpen + c + "')" <= t[p..] && '\'' !in c
    ensures ErrorMatchAt(t, p) == Some(c)
  {
    assert ErrorOpen <= t[p..] by {
      assert (ErrorOpen + c + "')")[..|ErrorOpen|] == ErrorOpen;
    }
    var rest := t[p + |ErrorOpen|..];
    assert rest[..|c| + 2] == c + "')" by {
      assert t[p..][|ErrorOpen|..|ErrorOpen| + |c| + 2] == (ErrorOpen + c + "')")[|ErrorOpen|..];
    }
    assert rest[..|c|] == c by {
      assert rest[..|c| + 2][..|c|] == rest[..|c|];
    }
    assert rest[|c|] == '\'' && rest[|c| + 1] == ')' by {
      assert rest[..|c| + 2][|c|] == '\'';
      assert rest[..|c| + 2][|c| + 1] == ')';
    }
    assert IndexOf(rest, '\'') == Some(|c|);
  }

  lemma ErrorMatchAtSound(t: string, p: nat, c: string)
    requires ErrorMatchAt(t, p) == Some(c)
    ensures p <= |t| && ErrorOpen + c + "')" <= t[p..] && '\'' !in c
  {
    var rest := t[p + |ErrorOpen|..];
    var q := IndexOf(rest, '\'').value;
    assert c == rest[..q];
    assert rest[..q + 2] == c + "')";
    assert t[p..] == ErrorOpen + rest;
  }

  /** Template B tried at position `p` of `t`: the characters after the opening up to the next comma or the end. */
  function TagMatchAt(t: string, p: nat): Option<string> {
    if p <= |t| && TagOpen <= t[p..] then
      var rest := t[p + |TagOpen|..];
      match IndexOf(rest, ',')
      case None => Some(rest)
      case Some(q) => Some(rest[..q])
    else None
  }

  /** Template B matches at `p` capturing `c` exactly when `tag: ErrorTag.c` starts there and runs up to a comma or the end. */
  lemma TagMatchAtIff(t: string, p: nat, c: string)
    ensures TagMatchAt(t, p) == Some(c) <==>
              && p <= |t| && TagOpen + c <= t[p..] && ',' !in c
              && (p + |TagOpen| + |c| == |t| || t[p + |TagOpen| + |c|] == ',')
  {
    if p <= |t| && TagOpen + c <= t[p..] && ',' !in c {
      var rest := t[p + |TagOpen|..];
      assert rest[..|c|] == c;
      if p + |TagOpen| + |c| == |t| {
        assert rest == c;
      } else if t[p + |TagOpen| + |c|] == ',' {
        assert rest[|c|] == ',';
        assert IndexOf(rest, ',') == Some(|c|);
      }
    }
  }

  /** The two templates. */
  datatype Template = ErrorTemplate | TagTemplate

  function MatchAt(tpl: Template, t: string, p: nat): Option<string> {
    match tpl
    case ErrorTemplate => ErrorMatchAt(t, p)
    case TagTemplate => TagMatchAt(t, p)
  }

  /** The result of trying a template at every position of `t`, the end included. */
  function Matches(tpl: Template, t: string): (ms: seq<Option<string>>)
    ensures |ms| == |t| + 1
    ensures forall q :: 0 <= q <= |t| ==> ms[q] == MatchAt(tpl, t, q)
  {
    seq(|t| + 1, q requires 0 <= q <= |t| => MatchAt(tpl, t, q))
  }

  /** The first success among the attempts `ms` from position `p` on. */
  function FirstMatch(ms: seq<Option<string>>, p: nat): Option<string>
    decreases |ms| - p
  {
    if p >= |ms| then None
    else if ms[p].Some? then ms[p]
    else FirstMatch(ms, p + 1)
  }

  /** The leftmost match of a template in `t` at or after `p`. */
  function Leftmost(tpl: Template, t: string, p: nat): Option<string>
    decreases |t| + 1 - p
  {
    if p > |t| then None
    else if MatchAt(tpl, t, p).Some? then MatchAt(tpl, t, p)
    else Leftmost(tpl, t, p + 1)
  }

  /** What `text.match(regex)` captures for a template: the leftmost match, or `None` for `null`. */
  function Find(tpl: Template, t: string): Option<string> {
    Leftmost(tpl, t, 0)
  }

  /** The leftmost search is the first success among the attempts at every position. */
  lemma {:induction false} LeftmostIsFirstMatch(tpl: Template, t: string, p: nat)
    ensures Leftmost(tpl, t, p) == FirstMatch(Matches(tpl, t), p)
    decreases |t| + 1 - p
  {
    if p <= |t| && MatchAt(tpl, t, p).None? {
      LeftmostIsFirstMatch(tpl, t, p + 1);
    }
  }

  /** The first success is `None` only when every attempt fails, and otherwise an attempt with only failures before it. */
  lemma {:induction false} FirstMatchSpec(ms: seq<Option<string>>, p: nat)
    ensures FirstMatch(ms, p).None? ==> forall q :: p <= q < |ms| ==> ms[q].None?
    ensures FirstMatch(ms, p).Some? ==>
              exists q :: p <= q < |ms| && ms[q] == FirstMatch(ms, p) && forall q' :: p <= q' < q ==> ms[q'].None?
    decreases |ms| - p
  {
    if p < |ms| && ms[p].None? {
      FirstMatchSpec(ms, p + 1);
    }
  }

  /** The first success from `p` is the one at `q` when every attempt from `p` up to `q` fails. */
  lemma {:induction false} FirstMatchAt(ms: seq<Option<string>>, p: nat, q: nat)
    requires p <= q < |ms| && ms[q].Some?
    requires forall q' :: p <= q' < q ==> ms[q'].None?
    ensures FirstMatch(ms, p) == ms[q]
    decreases q - p
  {
    if p < q {
      FirstMatchAt(ms, p + 1, q);
    }
  }

  /** A child `…new Error('x')…` whose text before the template has no `n` yields the title `x`. */
  lemma ErrorTemplateFound(a: string, x: string, b: string)
    requires 'n' !in a && '\'' !in x
    ensures Find(ErrorTemplate, a + ErrorOpen + x + "')" + b) == Some(x)
  {
    var t := a + ErrorOpen + x + "')" + b;
    assert t[|a|..] == ErrorOpen + x + "')" + b;
    ErrorMatchAtIff(t, |a|, x);
    forall q | 0 <= q < |a|
      ensures MatchAt(ErrorTemplate, t, q).None?
    {
      assert t[q] == a[q];
      assert !(ErrorOpen <= t[q..]) by {
        assert t[q..][0] == a[q];
      }
    }
    FirstMatchAt(Matches(ErrorTemplate, t), 0, |a|);
    LeftmostIsFirstMatch(ErrorTemplate, t, 0);
  }

  /** A child that is exactly `tag: ErrorTag.y`, with no comma in `y`, yields the domain `y`. */
  lemma TagTemplateFound(y: string)
    requires ',' !in y
    ensures Find(TagTemplate, TagOpen + y) == Some(y)
  {
    var t := TagOpen + y;
    assert t[0..] == t;
    TagMatchAtIff(t, 0, y);
    FirstMatchAt(Matches(TagTemplate, t), 0, 0);
    LeftmostIsFirstMatch(TagTemplate, t, 0);
  }

  /** Text without a `(` never matches template A. */
  lemma NoErrorTemplate(t: string)
    requires '(' !in t
    ensures Find(ErrorTemplate, t) == None
  {
    forall q | 0 <= q <= |t|
      ensures MatchAt(ErrorTemplate, t, q).None?
    {
      assert !(ErrorOpen <= t[q..]) by {
        if q + 9 < |t| {
          assert t[q..][9] == t[q + 9];
        }
      }
    }
    FirstMatchSpec(Matches(ErrorTemplate, t), 0);
    LeftmostIsFirstMatch(ErrorTemplate, t, 0);
  }

  /** Text without a `.` never matches template B. */
  lemma NoTagTemplate(t: string)
    requires '.' !in t
    ensures Find(TagTemplate, t) == None
  {
    forall q | 0 <= q <= |t|
      ensures MatchAt(TagTemplate, t, q).None?
    {
      assert !(TagOpen <= t[q..]) by {
        if q + 13 < |t| {
          assert t[q..][13] == t[q + 13];
        }
      }
    }
    FirstMatchSpec(Matches(TagTemplate, t), 0);
    LeftmostIsFirstMatch(TagTemplate, t, 0);
  }

  // ----- Extraction from the arguments -----

  /** The texts of the children of every object-literal argument, in source order; other arguments add nothing. */
  function ChildTexts(args: seq<Argument>): seq<string>
    decreases |args|
  {
    if args == [] then []
    else
      var last := args[|args| - 1];
      ChildTexts(args[..|args| - 1]) + (if last.isObjectLiteral then last.children else [])
  }

  /** Last write wins: the capture of the last text that the template matches, or `init` when none does. */
  function LastCapture(texts: seq<string>, tpl: Template, init: string): string
    decreases |texts|
  {
    if texts == [] then init
    else match Find(tpl, texts[|texts| - 1])
      case Some(c) => c
      case None => LastCapture(texts[..|texts| - 1], tpl, init)
  }

  /** With no matching text, `LastCapture` keeps `init`. */
  lemma {:induction false} LastCaptureNone(texts: seq<string>, tpl: Template, init: string)
    requires forall i :: 0 <= i < |texts| ==> Find(tpl, texts[i]).None?
    ensures LastCapture(texts, tpl, init) == init
    decreases |texts|
  {
    if texts != [] {
      var init' := texts[..|texts| - 1];
      assert forall i :: 0 <= i < |init'| ==> init'[i] == texts[i];
      LastCaptureNone(init', tpl, init);
    }
  }

  /** Otherwise the capture of the last matching text wins, whatever earlier texts captured. */
  lemma {:induction false} LastCaptureWins(texts: seq<string>, tpl: Template, init: string, i: nat)
    requires i < |texts| && Find(tpl, texts[i]).Some?
    requires forall j :: i < j < |texts| ==> Find(tpl, texts[j]).None?
    ensures LastCapture(texts, tpl, init) == Find(tpl, texts[i]).value
    decreases |texts|
  {
    if i < |texts| - 1 {
      var init' := texts[..|texts| - 1];
      assert forall j :: 0 <= j < |init'| ==> init'[j] == texts[j];
      LastCaptureWins(init', tpl, init, i);
    }
  }

  function Title(args: seq<Argument>): string {
    LastCapture(ChildTexts(args), ErrorTemplate, DefaultTitle)
  }

  function Domain(args: seq<Argument>): string {
    LastCapture(ChildTexts(args), TagTemplate, "")
  }

  // ----- Reason -----

  /** The text the reason is read from: the nearest catch clause, else the nearest arrow function, else nothing. */
  function ContextText(node: Node): string {
    match node.catchClause
    case Some(t) => t
    case None => node.arrowFunction.GetOr("")
  }

  /**
   * Why a report was sent. Only `sendInfo` is inspected; its context is
   * checked for a toast, then for a modal, and only then is the title checked
   * for the lookup-failure marker.
   */
  function Reason(methodName: string, context: string, title: string): (r: string)
    ensures methodName != "sendInfo" ==> r == NoHandling
    ensures methodName == "sendInfo" ==>
              && (r == ToastShown <==> IsToast(context))
              && (r == ModalShown <==> !IsToast(context) && IsModal(context))
              && (r == FallbackShown <==> !IsToast(context) && !IsModal(context) && Contains(title, LookupFailed))
              && (r == LoggedForRecord <==> !IsToast(context) && !IsModal(context) && !Contains(title, LookupFailed))
  {
    if methodName != "sendInfo" then NoHandling
    else if IsToast(context) then ToastShown
    else if IsModal(context) then ModalShown
    else if Contains(title, LookupFailed) then FallbackShown
    else LoggedForRecord
  }

  // ----- The rule -----

  function MethodName(node: Node): Option<string> {
    SecondSegment(node.callee)
  }

  /** A call whose callee starts with the service name and whose second segment is a reporting method. */
  predicate IsReport(node: Node) {
    && node.isCall
    && ServiceName <= node.callee
    && MethodName(node).Some?
    && MethodName(node).value in ValidMethods
  }

  /** A reporting method has a severity, and it is not `debug`. */
  lemma ReportingSeverity(methodName: string)
    requires methodName in ValidMethods
    ensures MapMethodNameToSeverity(methodName) != "" && MapMethodNameToSeverity(methodName) != Debug
  {
  }

  /** The entry a report call yields. */
  function EntryOf(node: Node): (e: LogEntry)
    requires IsReport(node)
    ensures e.severity != "" && e.severity != Debug
  {
    var methodName := MethodName(node).value;
    var title := Title(node.arguments);
    ReportingSeverity(methodName);
    LogEntry(title, MapMethodNameToSeverity(methodName), Domain(node.arguments), Reason(methodName, ContextText(node), title))
  }

  /** The rule's result for one node: nothing, or its one entry under its domain. */
  function Classify(node: Node): RuleOutput {
    if IsReport(node) then [(EntryOf(node).domain, [EntryOf(node).AsRecord()])] else []
  }

  const FindCrashAnalyticServiceRule := Rule(RuleMeta, Classify)

  /**
   * The argument scan of the rule's `execute`: every child of every
   * object-literal argument is matched against both templates, in order, and
   * each match overwrites the title or the domain found before it.
   */
  method ExtractTitleAndDomain(args: seq<Argument>) returns (title: string, domain: string)
    ensures title == Title(args) && domain == Domain(args)
  {
    title, domain := DefaultTitle, "";
    var i := 0;
    while i < |args|
      invariant 0 <= i <= |args|
      invariant title == LastCapture(ChildTexts(args[..i]), ErrorTemplate, DefaultTitle)
      invariant domain == LastCapture(ChildTexts(args[..i]), TagTemplate, "")
    {
      var arg := args[i];
      assert args[..i + 1][..i] == args[..i];
      if arg.isObjectLiteral {
        ghost var done := ChildTexts(args[..i]);
        title, domain := ScanChildren(arg.children, title, domain);
        LastCaptureConcat(done, arg.children, ErrorTemplate, DefaultTitle);
        LastCaptureConcat(done, arg.children, TagTemplate, "");
        assert ChildTexts(args[..i + 1]) == done + arg.children;
      } else {
        assert ChildTexts(args[..i + 1]) == ChildTexts(args[..i]);
      }
      i := i + 1;
    }
    assert args[..i] == args;
  }

  /** The loop over the children of one object literal: each match overwrites what came before. */
  method ScanChildren(children: seq<string>, title0: string, domain0: string) returns (title: string, domain: string)
    ensures title == LastCapture(children, ErrorTemplate, title0)
    ensures domain == LastCapture(children, TagTemplate, domain0)
  {
    title, domain := title0, domain0;
    var j := 0;
    while j < |children|
      invariant 0 <= j <= |children|
      invariant title == LastCapture(children[..j], ErrorTemplate, title0)
      invariant domain == LastCapture(children[..j], TagTemplate, domain0)
    {
      var child := children[j];
      assert children[..j + 1][..j] == children[..j];
      var errorRegexMatches := Find(ErrorTemplate, child);
      var tagRegexMatches := Find(TagTemplate, child);
      if errorRegexMatches.Some? {
        title := errorRegexMatches.value;
      }
      if tagRegexMatches.Some? {
        domain := tagRegexMatches.value;
      }
      j := j + 1;
    }
    assert children[..j] == children;
  }

  /** Scanning two runs of texts is scanning the second from where the first left off. */
  lemma {:induction false} LastCaptureConcat(xs: seq<string>, ys: seq<string>, tpl: Template, init: string)
    ensures LastCapture(xs + ys, tpl, init) == LastCapture(ys, tpl, LastCapture(xs, tpl, init))
    decreases |ys|
  {
    if ys == [] {
      assert xs + ys == xs;
    } else {
      assert (xs + ys)[..|xs + ys| - 1] == xs + ys[..|ys| - 1];
      LastCaptureConcat(xs, ys[..|ys| - 1], tpl, init);
    }
  }


  /**
   * The rule's `execute`: a report call yields one entry that starts from its
   * defaults, takes title and domain from the arguments and, for `sendInfo`,
   * a reason decided from the context; it is filed under its domain.
   */
  method Execute(node: Node) returns (result: RuleOutput)
    ensures result == Classify(node)
  {
    result := [];
    if !node.isCall {
      return;
    }
    var callExpressionText := node.callee;
    if !(ServiceName <= callExpressionText) {
      return;
    }
    var methodName := SecondSegment(callExpressionText);
    if !(methodName.Some? && methodName.value in ValidMethods) {
      return;
    }
    var logEntry := LogEntry(DefaultTitle, MapMethodNameToSeverity(methodName.value), "", NoHandling);
    var title, domain := ExtractTitleAndDomain(node.arguments);
    logEntry := logEntry.(title := title, domain := domain);

    if methodName.value == "sendInfo" {
      var targetText := "";
      if node.catchClause.None? {
        targetText := node.arrowFunction.GetOr("");
      } else {
        targetText := node.catchClause.value;
      }
      var isFallbackUI := Contains(logEntry.title, LookupFailed);
      if IsToast(targetText) {
        logEntry := logEntry.(reason := ToastShown);
      } else if IsModal(targetText) {
        logEntry := logEntry.(reason := ModalShown);
      } else if isFallbackUI {
        logEntry := logEntry.(reason := FallbackShown);
      } else {
        logEntry := logEntry.(reason := LoggedForRecord);
      }
    }

    assert logEntry == EntryOf(node);
    var key := logEntry.domain;
    AppendOnEmpty(key, logEntry.AsRecord());
    var logEntries := Get(result, key).GetOr([]);
    result := Set(result, key, logEntries + [logEntry.AsRecord()]);
  }

  // ----- What the rule promises -----

  /**
   * A node yields nothing unless it is a call whose callee starts with the
   * service name and names a reporting method; a report yields exactly one
   * entry, filed under its own domain, with a non-empty severity.
   */
  lemma ClassifyShape(node: Node)
    ensures Classify(node) == [] <==> !IsReport(node)
    ensures IsReport(node) ==>
              && |Classify(node)| == 1 && |Classify(node)[0].1| == 1
              && Classify(node)[0].0 == Classify(node)[0].1[0]["domain"]
              && Classify(node)[0].1[0]["severity"] == MapMethodNameToSeverity(MethodName(node).value)
              && Classify(node)[0].1[0]["severity"] != ""
  {
  }

  /** `debug` has a severity but is never reported. */
  lemma DebugNotReported(node: Node)
    requires MethodName(node) == Some("debug")
    ensures Classify(node) == []
  {
  }

  /**
   * The service test is a prefix test: any receiver that starts with the
   * service name (a longer name included), followed by a reporting method,
   * is a report.
   */
  lemma ServicePrefixSuffices(receiver: string, methodName: string, args: seq<Argument>, catchText: Option<string>, arrowText: Option<string>)
    requires ServiceName <= receiver && '.' !in receiver && methodName in ValidMethods
    ensures IsReport(Node(true, receiver + "." + methodName, args, catchText, arrowText))
    ensures MethodName(Node(true, receiver + "." + methodName, args, catchText, arrowText)) == Some(methodName)
  {
    assert '.' !in methodName;
    SecondSegmentOfPair(receiver, methodName);
    assert ServiceName <= receiver + "." + methodName;
  }

  /** With no template match among the children, the title and domain keep their defaults. */
  lemma DefaultsWithoutMatches(node: Node)
    requires IsReport(node)
    requires forall t :: t in ChildTexts(node.arguments) ==> Find(ErrorTemplate, t).None? && Find(TagTemplate, t).None?
    ensures EntryOf(node).title == DefaultTitle && EntryOf(node).domain == ""
  {
    LastCaptureNone(ChildTexts(node.arguments), ErrorTemplate, DefaultTitle);
    LastCaptureNone(ChildTexts(node.arguments), TagTemplate, "");
  }

  /** Only `sendInfo` has its reason inspected; every other report has none of its handling recognised. */
  lemma ReasonOnlyForInfo(node: Node)
    requires IsReport(node) && MethodName(node) != Some("sendInfo")
    ensures EntryOf(node).reason == NoHandling
  {
  }

  /** A toast in the catch clause wins even when the title carries the lookup-failure marker. */
  lemma ToastWinsOverFallback(node: Node, catchText: string)
    requires IsReport(node) && MethodName(node) == Some("sendInfo")
    requires node.catchClause == Some(catchText) && Contains(catchText, "toast")
    ensures EntryOf(node).reason == ToastShown
  {
  }

  /** The catch clause is the context whenever there is one, even inside an arrow function. */
  lemma CatchClauseFirst(node: Node)
    requires node.catchClause.Some?
    ensures ContextText(node) == node.catchClause.value
  {
  }

  /** Children that build no `Error` and carry no tag, followed by a tag: the default title, the tag's domain. */
  lemma TagOnly(others: seq<string>, d: string)
    requires forall i :: 0 <= i < |others| ==> '(' !in others[i] && '.' !in others[i]
    requires ',' !in d && '(' !in d
    ensures Title([Argument(true, others + [TagOpen + d])]) == DefaultTitle
    ensures Domain([Argument(true, others + [TagOpen + d])]) == d
  {
    var c := others + [TagOpen + d];
    var args := [Argument(true, c)];
    assert ChildTexts(args) == c by {
      assert args[..0] == [];
    }
    forall i | 0 <= i < |c|
      ensures Find(ErrorTemplate, c[i]).None?
    {
      NoErrorTemplate(c[i]);
    }
    LastCaptureNone(c, ErrorTemplate, DefaultTitle);
    TagTemplateFound(d);
    LastCaptureWins(c, TagTemplate, "", |others|);
  }

  /** A child `…new Error('x')` followed by a tag: the title `x`, the tag's domain. */
  lemma ErrorThenTag(a: string, x: string, d: string)
    requires 'n' !in a && '.' !in a && '\'' !in x && '.' !in x
    requires ',' !in d && '(' !in d
    ensures Title([Argument(true, [a + ErrorOpen + x + "')", TagOpen + d])]) == x
    ensures Domain([Argument(true, [a + ErrorOpen + x + "')", TagOpen + d])]) == d
  {
    var c0, c1 := a + ErrorOpen + x + "')", TagOpen + d;
    var args := [Argument(true, [c0, c1])];
    assert ChildTexts(args) == [c0, c1] by {
      assert args[..0] == [];
    }
    ErrorThenTagFinds(a, x, d);
    LastCaptureWins([c0, c1], ErrorTemplate, DefaultTitle, 0);
    LastCaptureWins([c0, c1], TagTemplate, "", 1);
  }

  /** What each template finds in the two children of `ErrorThenTag`. */
  lemma ErrorThenTagFinds(a: string, x: string, d: string)
    requires 'n' !in a && '.' !in a && '\'' !in x && '.' !in x
    requires ',' !in d && '(' !in d
    ensures Find(ErrorTemplate, a + ErrorOpen + x + "')") == Some(x)
    ensures Find(TagTemplate, a + ErrorOpen + x + "')") == None
    ensures Find(ErrorTemplate, TagOpen + d) == None
    ensures Find(TagTemplate, TagOpen + d) == Some(d)
  {
    var c0 := a + ErrorOpen + x + "')";
    assert c0 == a + ErrorOpen + x + "')" + "";
    ErrorTemplateFound(a, x, "");
    assert '.' !in c0;
    NoTagTemplate(c0);
    NoErrorTemplate(TagOpen + d);
    TagTemplateFound(d);
  }

  /** The children of the object literal passed in `example/ex1.ts`. */
  function LookupFailureChildren(): seq<string> {
    ["error: " + ErrorOpen + "고객 잔여 캐시 조회 실패" + "')", TagOpen + "test1"]
  }

  lemma LookupFailureTitleAndDomain()
    ensures Title([Argument(true, LookupFailureChildren())]) == "고객 잔여 캐시 조회 실패"
    ensures Domain([Argument(true, LookupFailureChildren())]) == "test1"
  {
    ErrorThenTag("error: ", "고객 잔여 캐시 조회 실패", "test1");
  }

  /** The title of `example/ex1.ts` ends in the lookup-failure marker. */
  lemma LookupFailureMarked()
    ensures Contains("고객 잔여 캐시 조회 실패", LookupFailed)
  {
    ContainsIff("고객 잔여 캐시 조회 실패", LookupFailed);
    assert LookupFailed <= "고객 잔여 캐시 조회 실패"[9..];
  }

  /**
   * The `sendInfo` call of `example/ex1.ts`, inside an arrow function without a
   * catch clause, toast or alert: its title ends in the lookup-failure marker,
   * so the reason is the fallback screen.
   */
  lemma ExampleLookupFailure(arrowText: string)
    requires !IsToast(arrowText) && !IsModal(arrowText)
    ensures
      var node := Node(true, ServiceName + "." + "sendInfo", [Argument(true, LookupFailureChildren())], None, Some(arrowText));
      Classify(node) == [("test1", [LogEntry("고객 잔여 캐시 조회 실패", Info, "test1", FallbackShown).AsRecord()])]
  {
    ServicePrefixSuffices(ServiceName, "sendInfo", [Argument(true, LookupFailureChildren())], None, Some(arrowText));
    LookupFailureTitleAndDomain();
    LookupFailureMarked();
  }

  /**
   * The children of the object literal passed in `example/qweqweqwe.ts`; the
   * text of the nested `metadata` object is left open.
   */
  function UnhandledChildren(metadata: string): seq<string> {
    ["error: error", "originalError: error", metadata, TagOpen + "WhiteScreen"]
  }

  lemma UnhandledTitleAndDomain(metadata: string)
    requires '(' !in metadata && '.' !in metadata
    ensures Title([Argument(true, UnhandledChildren(metadata))]) == DefaultTitle
    ensures Domain([Argument(true, UnhandledChildren(metadata))]) == "WhiteScreen"
  {
    var others := ["error: error", "originalError: error", metadata];
    assert others + [TagOpen + "WhiteScreen"] == UnhandledChildren(metadata);
    assert '(' !in others[0] && '.' !in others[0];
    assert '(' !in others[1] && '.' !in others[1];
    TagOnly(others, "WhiteScreen");
  }

  /**
   * The `sendUnhandledError` call of `example/qweqweqwe.ts`: no child builds an
   * `Error` from a literal, so it is filed under its tag with the default
   * title, and its reason is not inspected.
   */
  lemma ExampleUnhandled(metadata: string, catchText: Option<string>, arrowText: Option<string>)
    requires '(' !in metadata && '.' !in metadata
    ensures
      var node := Node(true, ServiceName + "." + "sendUnhandledError", [Argument(true, UnhandledChildren(metadata))], catchText, arrowText);
      Classify(node) == [("WhiteScreen", [LogEntry(DefaultTitle, UnhandledError, "WhiteScreen", NoHandling).AsRecord()])]
  {
    ServicePrefixSuffices(ServiceName, "sendUnhandledError", [Argument(true, UnhandledChildren(metadata))], catchText, arrowText);
    UnhandledTitleAndDomain(metadata);
  }
}
