/**
 * The shared helper module: a severity mapping that knows only four of the
 * service's methods.
 */
module Util {
  import Rule = FindCrashAnalyticService

  /**
   * The method-name-to-severity mapping of the shared helpers: the same as the
   * rule's, except that it has no case for `sendUnhandledError`.
   */
  function MapMethodNameToSeverity(methodName: string): (r: string)
    ensures r in {Rule.Error, Rule.Warning, Rule.Info, Rule.Debug, ""}
    ensures r == "" <==> methodName !in {"sendError", "sendWarning", "sendInfo", "debug"}
    ensures methodName == "sendError" <==> r == Rule.Error
    ensures methodName == "sendWarning" <==> r == Rule.Warning
    ensures methodName == "sendInfo" <==> r == Rule.Info
    ensures methodName == "debug" <==> r == Rule.Debug
  {
    match methodName
    case "sendError" => Rule.Error
    case "sendWarning" => Rule.Warning
    case "sendInfo" => Rule.Info
    case "debug" => Rule.Debug
    case _ => ""
  }

  /**
   * The two mappings agree on every name but `sendUnhandledError`, which the
   * helper maps to the empty severity and the rule to `unhandledError`.
   */
  lemma AgreesWithRuleExceptUnhandled(methodName: string)
    ensures methodName != "sendUnhandledError" ==> MapMethodNameToSeverity(methodName) == Rule.MapMethodNameToSeverity(methodName)
    ensures MapMethodNameToSeverity("sendUnhandledError") == ""
    ensures Rule.MapMethodNameToSeverity("sendUnhandledError") == Rule.UnhandledError
  {
  }
}
