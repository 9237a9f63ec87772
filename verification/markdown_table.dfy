/**
 * The report renderer: the analysis result as Markdown, one section per
 * rule key, one table per domain key, one row per entry.
 */
module MarkdownTable {
  import opened Wrappers
  import opened OrderedMaps
  import opened Text
  import opened RuleTypes
  import opened Analysis

  /** Lines joined into text, each followed by a newline. */
  function Unlines(lines: seq<string>): string
    decreases |lines|
  {
    if lines == [] then "" else Unlines(lines[..|lines| - 1]) + lines[|lines| - 1] + "\n"
  }

  /** One `| h ` cell per header, closed by `|`. */
  function HeaderRow(headers: seq<string>): string {
    HeaderCells(headers) + "|"
  }

  function HeaderCells(headers: seq<string>): string
    decreases |headers|
  {
    if headers == [] then "" else HeaderCells(headers[..|headers| - 1]) + "| " + headers[|headers| - 1] + " "
  }

  /** One `| ------- ` cell per header, closed by `|`. */
  function SeparatorRow(headers: seq<string>): string {
    SeparatorCells(|headers|) + "|"
  }

  function SeparatorCells(n: nat): string {
    if n == 0 then "" else SeparatorCells(n - 1) + "| ------- "
  }

  /** A field as a template literal shows it: its value, or `undefined` when the entry has no such field. */
  function Field(entry: Entry, key: string): string {
    if key in entry then entry[key] else "undefined"
  }

  /** The entry's fields named by `keys`, in the order of `keys`. */
  function Fields(keys: seq<string>, entry: Entry): (fs: seq<string>)
    ensures |fs| == |keys| && forall i :: 0 <= i < |keys| ==> fs[i] == Field(entry, keys[i])
  {
    seq(|keys|, i requires 0 <= i < |keys| => Field(entry, keys[i]))
  }

  /** An entry row: its fields for the header keys, separated by ` | ` and framed by `| ` and ` |`. */
  function Row(keys: seq<string>, entry: Entry): string {
    "| " + Join(Fields(keys, entry), " | ") + " |"
  }

  /** One row per entry, in list order. */
  function RowLines(keys: seq<string>, entries: seq<Entry>): (rows: seq<string>)
    ensures |rows| == |entries| && forall i :: 0 <= i < |entries| ==> rows[i] == Row(keys, entries[i])
  {
    seq(|entries|, i requires 0 <= i < |entries| => Row(keys, entries[i]))
  }

  /** The table of one domain key: its heading, the header row, the separator row, then the entry rows. */
  function GroupLines(meta: Meta, domain: string, entries: seq<Entry>): seq<string> {
    ["### " + domain, HeaderRow(meta.headers), SeparatorRow(meta.headers)] + RowLines(meta.headersKey, entries)
  }

  /** The tables of every domain key of a rule, in order. */
  function SectionBody(meta: Meta, result: OrderedMap<seq<Entry>>): seq<string>
    decreases |result|
  {
    if result == [] then []
    else
      SectionBody(meta, result[..|result| - 1]) + GroupLines(meta, result[|result| - 1].0, result[|result| - 1].1)
  }

  /** The section of one rule key: its heading, then its tables. */
  function SectionLines(key: string, data: RuleData): seq<string> {
    ["## " + key] + SectionBody(data.meta, data.result)
  }

  /** The lines of the whole report: one section per rule key, in order. */
  function Lines(agg: AnalyzeResult): seq<string>
    decreases |agg|
  {
    if agg == [] then []
    else
      Lines(agg[..|agg| - 1]) + SectionLines(agg[|agg| - 1].0, agg[|agg| - 1].1)
  }

  // ----- Properties of the report -----

  /** Joining lines distributes over concatenation. */
  lemma {:induction false} UnlinesConcat(a: seq<string>, b: seq<string>)
    ensures Unlines(a + b) == Unlines(a) + Unlines(b)
    decreases |b|
  {
    if b == [] {
      assert a + b == a;
    } else {
      var init := b[..|b| - 1];
      assert (a + b)[..|a + b| - 1] == a + init;
      UnlinesConcat(a, init);
    }
  }

  /** The report of a concatenation is the two reports one after the other: sections keep the order of their keys. */
  lemma {:induction false} LinesConcat(a: AnalyzeResult, b: AnalyzeResult)
    ensures Lines(a + b) == Lines(a) + Lines(b)
    decreases |b|
  {
    if b == [] {
      assert a + b == a;
    } else {
      var init, last := b[..|b| - 1], b[|b| - 1];
      assert (a + b)[..|a + b| - 1] == a + init;
      assert (a + b)[|a + b| - 1] == last;
      var s := SectionLines(last.0, last.1);
      assert Lines(a + b) == Lines(a + init) + s;
      assert Lines(b) == Lines(init) + s;
      LinesConcat(a, init);
    }
  }

  /** A non-empty report opens with the heading of its first rule key. */
  lemma LinesHead(agg: AnalyzeResult)
    requires agg != []
    ensures |Lines(agg)| > 0 && Lines(agg)[0] == "## " + agg[0].0
  {
    assert agg == [agg[0]] + agg[1..];
    LinesConcat([agg[0]], agg[1..]);
    assert [agg[0]][..0] == [];
  }

  /** The tables of a concatenation of domain keys are the two runs of tables one after the other. */
  lemma {:induction false} SectionBodyConcat(meta: Meta, a: OrderedMap<seq<Entry>>, b: OrderedMap<seq<Entry>>)
    ensures SectionBody(meta, a + b) == SectionBody(meta, a) + SectionBody(meta, b)
    decreases |b|
  {
    if b == [] {
      assert a + b == a;
    } else {
      var init := b[..|b| - 1];
      assert (a + b)[..|a + b| - 1] == a + init;
      SectionBodyConcat(meta, a, init);
    }
  }

  /** The number of lines of a report: a heading per rule key, three lines per domain key, and a row per entry. */
  function LineCount(agg: AnalyzeResult): nat
    decreases |agg|
  {
    if agg == [] then 0 else LineCount(agg[..|agg| - 1]) + 1 + 3 * |agg[|agg| - 1].1.result| + StoredEntries(agg[|agg| - 1].1.result)
  }

  /** The number of entries stored under all domain keys of one rule. */
  function StoredEntries(result: OrderedMap<seq<Entry>>): nat
    decreases |result|
  {
    if result == [] then 0 else StoredEntries(result[..|result| - 1]) + |result[|result| - 1].1|
  }

  lemma {:induction false} SectionBodyLength(meta: Meta, result: OrderedMap<seq<Entry>>)
    ensures |SectionBody(meta, result)| == 3 * |result| + StoredEntries(result)
    decreases |result|
  {
    if result != [] {
      SectionBodyLength(meta, result[..|result| - 1]);
    }
  }

  /** The report has one line per rule key, three per domain key (heading, header, separator) and one per entry. */
  lemma {:induction false} LinesLength(agg: AnalyzeResult)
    ensures |Lines(agg)| == LineCount(agg)
    decreases |agg|
  {
    if agg != [] {
      LinesLength(agg[..|agg| - 1]);
      SectionBodyLength(agg[|agg| - 1].1.meta, agg[|agg| - 1].1.result);
    }
  }

  /** A header row has one `|` per header and a closing one, when no header holds a `|`. */
  lemma {:induction false} HeaderRowBars(headers: seq<string>)
    requires forall i :: 0 <= i < |headers| ==> '|' !in headers[i]
    ensures Count(HeaderRow(headers), '|') == |headers| + 1
    decreases |headers|
  {
    HeaderCellsBars(headers);
    CountConcat(HeaderCells(headers), "|", '|');
  }

  lemma {:induction false} HeaderCellsBars(headers: seq<string>)
    requires forall i :: 0 <= i < |headers| ==> '|' !in headers[i]
    ensures Count(HeaderCells(headers), '|') == |headers|
    decreases |headers|
  {
    if headers != [] {
      var init, h := headers[..|headers| - 1], headers[|headers| - 1];
      HeaderCellsBars(init);
      CountAbsent(h, '|');
      CountConcat(HeaderCells(init), "| ", '|');
      CountConcat(HeaderCells(init) + "| ", h, '|');
      CountConcat(HeaderCells(init) + "| " + h, " ", '|');
    }
  }

  /** The separator row has as many cells as the header row. */
  lemma {:induction false} SeparatorRowBars(headers: seq<string>)
    ensures Count(SeparatorRow(headers), '|') == |headers| + 1
  {
    SeparatorCellsBars(|headers|);
    CountConcat(SeparatorCells(|headers|), "|", '|');
  }

  lemma {:induction false} SeparatorCellsBars(n: nat)
    ensures Count(SeparatorCells(n), '|') == n
  {
    if n > 0 {
      SeparatorCellsBars(n - 1);
      CountConcat(SeparatorCells(n - 1), "| ------- ", '|');
    }
  }

  /**
   * An entry row has one `|` per header key and a closing one, when no
   * field holds a `|`; its width follows the header keys, not the headers.
   * With no header keys it still has two.
   */
  lemma RowBars(keys: seq<string>, entry: Entry)
    requires forall i :: 0 <= i < |keys| ==> '|' !in Field(entry, keys[i])
    ensures Count(Row(keys, entry), '|') == if keys == [] then 2 else |keys| + 1
  {
    var fs := Fields(keys, entry);
    CountJoin(fs, " | ", '|');
    CountConcat("| ", Join(fs, " | "), '|');
    CountConcat("| " + Join(fs, " | "), " |", '|');
  }

  /** A header row of three headers. */
  lemma HeaderRowOfThree(a: string, b: string, c: string)
    ensures HeaderRow([a, b, c]) == "| " + a + " | " + b + " | " + c + " |"
  {
    assert [a, b, c][..2] == [a, b];
    assert [a, b][..1] == [a];
    assert [a][..0] == [];
    assert HeaderCells([a]) == "| " + a + " ";
    assert HeaderCells([a, b]) == "| " + a + " " + "| " + b + " ";
    assert " " + "| " == " | ";
  }

  /** An entry row of three columns. */
  lemma RowOfThree(x: string, y: string, z: string, entry: Entry)
    ensures Row([x, y, z], entry) == "| " + Field(entry, x) + " | " + Field(entry, y) + " | " + Field(entry, z) + " |"
  {
    var fs := Fields([x, y, z], entry);
    assert fs[..2] == [Field(entry, x), Field(entry, y)];
    assert fs[..2][..1] == [Field(entry, x)];
    assert Join(fs[..2][..1], " | ") == Field(entry, x);
    assert Join(fs[..2], " | ") == Field(entry, x) + " | " + Field(entry, y);
  }

  // ----- The imperative renderer -----

  /** Appending one more line to text that ends in some lines. */
  lemma AppendLine(text: string, lines: seq<string>, line: string)
    ensures (text + Unlines(lines)) + (line + "\n") == text + Unlines(lines + [line])
  {
    assert (lines + [line])[..|lines|] == lines;
    assert Unlines(lines + [line]) == Unlines(lines) + line + "\n";
  }

  /** Appending more lines to text that ends in some lines. */
  lemma AppendLines(text: string, a: seq<string>, b: seq<string>)
    ensures (text + Unlines(a)) + Unlines(b) == text + Unlines(a + b)
  {
    UnlinesConcat(a, b);
  }

  lemma SectionBodySnoc(meta: Meta, result: OrderedMap<seq<Entry>>, j: nat)
    requires j < |result|
    ensures SectionBody(meta, result[..j + 1]) == SectionBody(meta, result[..j]) + GroupLines(meta, result[j].0, result[j].1)
  {
    assert result[..j + 1][..j] == result[..j];
  }

  lemma LinesSnoc(agg: AnalyzeResult, i: nat)
    requires i < |agg|
    ensures Lines(agg[..i + 1]) == Lines(agg[..i]) + SectionLines(agg[i].0, agg[i].1)
  {
    assert agg[..i + 1][..i] == agg[..i];
  }

  lemma SectionLinesSplit(lines: seq<string>, key: string, data: RuleData)
    ensures lines + ["## " + key] + SectionBody(data.meta, data.result) == lines + SectionLines(key, data)
  {
  }

  lemma GroupLinesSplit(lines: seq<string>, meta: Meta, domain: string, entries: seq<Entry>)
    ensures lines + ["### " + domain] + [HeaderRow(meta.headers)] + [SeparatorRow(meta.headers)] + RowLines(meta.headersKey, entries)
            == lines + GroupLines(meta, domain, entries)
  {
  }

  /** The loop over one list: one row per entry appended. */
  method AppendRows(text: string, keys: seq<string>, entries: seq<Entry>) returns (out: string)
    ensures out == text + Unlines(RowLines(keys, entries))
  {
    out := text;
    var k := 0;
    while k < |entries|
      invariant 0 <= k <= |entries|
      invariant out == text + Unlines(RowLines(keys, entries[..k]))
    {
      var entry := entries[k];
      var row := "| " + Join(Fields(keys, entry), " | ") + " |";
      AppendLine(text, RowLines(keys, entries[..k]), row);
      out := out + (row + "\n");
      assert RowLines(keys, entries[..k + 1]) == RowLines(keys, entries[..k]) + [row];
      k := k + 1;
    }
    assert entries[..k] == entries;
  }

  /** The loop over the domain keys of one rule: one table each, in order. */
  method AppendTables(text: string, meta: Meta, result: OrderedMap<seq<Entry>>) returns (out: string)
    ensures out == text + Unlines(SectionBody(meta, result))
  {
    out := text;
    var j := 0;
    while j < |result|
      invariant 0 <= j <= |result|
      invariant out == text + Unlines(SectionBody(meta, result[..j]))
    {
      var resultKey, entries := result[j].0, result[j].1;
      ghost var lines := SectionBody(meta, result[..j]);
      var heading, header, separator := "### " + resultKey, HeaderRow(meta.headers), SeparatorRow(meta.headers);
      AppendLine(text, lines, heading);
      out := out + (heading + "\n");
      AppendLine(text, lines + [heading], header);
      out := out + (header + "\n");
      AppendLine(text, lines + [heading] + [header], separator);
      out := out + (separator + "\n");
      ghost var top := lines + [heading] + [header] + [separator];
      out := AppendRows(out, meta.headersKey, entries);
      AppendLines(text, top, RowLines(meta.headersKey, entries));
      GroupLinesSplit(lines, meta, resultKey, entries);
      SectionBodySnoc(meta, result, j);
      j := j + 1;
    }
    assert result[..j] == result;
  }

  /** The renderer: one section per rule key, in order. */
  method GenerateMarkdownTable(dataMap: AnalyzeResult) returns (markdownTable: string)
    ensures markdownTable == Unlines(Lines(dataMap))
  {
    markdownTable := "";
    var i := 0;
    while i < |dataMap|
      invariant 0 <= i <= |dataMap|
      invariant markdownTable == "" + Unlines(Lines(dataMap[..i]))
    {
      var key, data := dataMap[i].0, dataMap[i].1;
      ghost var lines := Lines(dataMap[..i]);
      AppendLine("", lines, "## " + key);
      markdownTable := markdownTable + ("## " + key + "\n");
      markdownTable := AppendTables(markdownTable, data.meta, data.result);
      AppendLines("", lines + ["## " + key], SectionBody(data.meta, data.result));
      LinesSnoc(dataMap, i);
      SectionLinesSplit(lines, key, data);
      i := i + 1;
    }
    assert dataMap[..i] == dataMap;
  }
}
