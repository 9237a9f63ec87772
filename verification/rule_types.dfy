/** What a rule is, and what it hands back to the analysis for one node. */
module RuleTypes {
  import opened OrderedMaps
  import opened Ast

  /** A rule's report metadata: column labels, its key, an output path and the entry fields shown per column. */
  datatype Meta = Meta(headers: seq<string>, key: string, resultPath: string, headersKey: seq<string>)

  /** A reported entry: its fields by name. */
  type Entry = map<string, string>

  /** What one rule returns for one node: entries grouped by domain key. */
  type RuleOutput = OrderedMap<seq<Entry>>

  /** A rule: its metadata and a pure classification of a node. */
  datatype Rule = Rule(meta: Meta, execute: Node -> RuleOutput)
}
