/**
 * plugins/db_manager.py, the sql command: every code argument is run as a
 * statement; its status line, its error, and up to 1000 result rows become
 * the outputs of the reply. While the estimated length of the reply
 * exceeds 2000 characters, the longest table loses a row and is marked
 * "..."; the reply text is then cut to 2000 characters.
 *
 * A table is a list shared between the list of outputs and the list of
 * tables, so shrinking it shows in both. Here the outputs hold a `Table`
 * placeholder, and the k-th placeholder stands for the k-th table.
 */
module DbManager {
  import opened Wrappers
  import opened Text
  import DiscordUtil

  /**
   * The outcome of one statement: the text of its error, or its status
   * line, its column names and its rows, each row already rendered as the
   * repr of its columns joined by " ". An error is shown as a code block.
   */
  datatype StmtResult = Failed(error: string) | Fetched(status: string, columns: string, rows: seq<string>)

  /** An output of the reply: a line of text, or the next table. */
  datatype Output = Line(s: string) | Table

  /** The rows of a table: the column names, at most 1000 rows, and "..." when 1000 were kept. */
  function TableOf(columns: string, rows: seq<string>): (r: seq<string>)
    ensures |rows| < 1000 ==> r == [columns] + rows
    ensures |rows| >= 1000 ==> r == [columns] + rows[..1000] + ["..."]
  {
    var kept := if |rows| < 1000 then rows else rows[..1000];
    [columns] + kept + (if |kept| == 1000 then ["..."] else [])
  }

  /** How many tables the outputs refer to. */
  function TableCount(outputs: seq<Output>): nat
  {
    if outputs == [] then 0 else (if outputs[0].Table? then 1 else 0) + TableCount(outputs[1..])
  }

  lemma {:induction false} TableCountAppend(a: seq<Output>, b: seq<Output>)
    ensures TableCount(a + b) == TableCount(a) + TableCount(b)
  {
    if a == [] {
      assert a + b == b;
    } else {
      assert (a + b)[0] == a[0] && (a + b)[1..] == a[1..] + b;
      TableCountAppend(a[1..], b);
    }
  }

  /** What one statement adds to the tables and to the outputs; an error line is format("{!b}", e). */
  function Step(data: seq<seq<string>>, outputs: seq<Output>, r: StmtResult): (seq<seq<string>>, seq<Output>)
  {
    match r
    case Failed(e) => (data, outputs + [Line(DiscordUtil.CodeBlockStr(e, None))])
    case Fetched(status, columns, rows) =>
      if rows == [] then (data, outputs + [Line(status)])
      else (data + [TableOf(columns, rows)], outputs + [Line(status), Table])
  }

  /** The tables and outputs after the statements, in order. */
  function Collected(results: seq<StmtResult>): (seq<seq<string>>, seq<Output>)
  {
    if results == [] then ([], [])
    else
      var (d, o) := Collected(results[..|results| - 1]);
      Step(d, o, results[|results| - 1])
  }

  /** The loop over the arguments. */
  method Collect(results: seq<StmtResult>) returns (data: seq<seq<string>>, outputs: seq<Output>)
    ensures (data, outputs) == Collected(results)
  {
    data, outputs := [], [];
    for i := 0 to |results|
      invariant (data, outputs) == Collected(results[..i])
    {
      assert results[..i + 1][..i] == results[..i] && results[..i + 1][i] == results[i];
      match results[i]
      case Failed(e) =>
        outputs := outputs + [Line(DiscordUtil.CodeBlockStr(e, None))];
      case Fetched(status, columns, rows) =>
        outputs := outputs + [Line(status)];
        if rows != [] {
          assert outputs + [Table] == outputs[..|outputs| - 1] + [Line(status), Table];
          data := data + [TableOf(columns, rows)];
          outputs := outputs + [Table];
        }
    }
    assert results[..|results|] == results;
  }

  /**
   * Every table is referred to by exactly one placeholder, and each holds
   * the column names, at most 1000 rows and possibly the "..." marker.
   */
  lemma {:induction false} CollectedTables(results: seq<StmtResult>)
    ensures var (d, o) := Collected(results);
      TableCount(o) == |d| && forall j :: 0 <= j < |d| ==> 2 <= |d[j]| <= 1002
    decreases |results|
  {
    if results != [] {
      var (d, o) := Collected(results[..|results| - 1]);
      CollectedTables(results[..|results| - 1]);
      match results[|results| - 1]
      case Failed(e) =>
        TableCountAppend(o, [Line(DiscordUtil.CodeBlockStr(e, None))]);
      case Fetched(status, columns, rows) =>
        TableCountAppend(o, [Line(status)]);
        TableCountAppend(o, [Line(status), Table]);
        assert [Line(status), Table][1..] == [Table];
        if rows != [] {
          var table := TableOf(columns, rows);
          assert 2 <= |table| <= 1002 by {
            if |rows| < 1000 {
              assert |table| == 1 + |rows|;
            } else {
              assert |table| == 1002;
            }
          }
          var d' := d + [table];
          assert Collected(results) == (d', o + [Line(status), Table]);
          assert TableCount([Table]) == 1 && TableCount([Line(status), Table]) == 1;
          assert TableCount(o + [Line(status), Table]) == |d'|;
          assert forall j :: 0 <= j < |d| ==> d'[j] == d[j];
          assert d'[|d|] == table;
        }
    }
  }

  /** output_len: every row and its line break. */
  function OutputLen(rows: seq<string>): (n: nat)
    ensures rows != [] ==> n > 0
  {
    if rows == [] then 0 else |rows[0]| + 1 + OutputLen(rows[1..])
  }

  lemma {:induction false} OutputLenAppend(a: seq<string>, b: seq<string>)
    ensures OutputLen(a + b) == OutputLen(a) + OutputLen(b)
  {
    if a == [] {
      assert a + b == b;
    } else {
      assert (a + b)[0] == a[0] && (a + b)[1..] == a[1..] + b;
      OutputLenAppend(a[1..], b);
    }
  }

  /** total_len: a line and its break; a table, its rows and the eight characters of its fences. */
  function TotalLen(data: seq<seq<string>>, outputs: seq<Output>): nat
    requires TableCount(outputs) == |data|
  {
    if outputs == [] then 0
    else match outputs[0]
      case Line(s) => |s| + 1 + TotalLen(data, outputs[1..])
      case Table => 4 + OutputLen(data[0]) + 4 + TotalLen(data[1..], outputs[1..])
  }

  /** Changing one table changes the total by the change in its length. */
  lemma {:induction false} TotalLenUpdate(data: seq<seq<string>>, outputs: seq<Output>, j: nat, t: seq<string>)
    requires TableCount(outputs) == |data| && j < |data|
    ensures TotalLen(data[j := t], outputs) + OutputLen(data[j]) == TotalLen(data, outputs) + OutputLen(t)
    decreases |outputs|
  {
    if outputs != [] {
      if outputs[0].Line? {
        TotalLenUpdate(data, outputs[1..], j, t);
      } else if j == 0 {
        assert data[j := t][1..] == data[1..];
      } else {
        assert data[j := t][1..] == data[1..][j - 1 := t];
        TotalLenUpdate(data[1..], outputs[1..], j - 1, t);
      }
    }
  }

  /** max(data_outputs, key=output_len): the first table of the greatest length. */
  function FirstMax(data: seq<seq<string>>): (j: nat)
    requires data != []
    ensures j < |data|
    ensures forall i :: 0 <= i < |data| ==> OutputLen(data[i]) <= OutputLen(data[j])
    ensures forall i :: 0 <= i < j ==> OutputLen(data[i]) < OutputLen(data[j])
  {
    if |data| == 1 then 0
    else
      var j := FirstMax(data[..|data| - 1]);
      if OutputLen(data[|data| - 1]) > OutputLen(data[j]) then |data| - 1 else j
  }

  predicate AnyRows(data: seq<seq<string>>)
  {
    exists j :: 0 <= j < |data| && data[j] != []
  }

  predicate EndsMarked(t: seq<string>)
  {
    t != [] && t[|t| - 1] == "..."
  }

  /**
   * One shrinking step as written: a marked table loses the row before the
   * marker (pop(-2), which fails on a table that is only the marker), any
   * other table loses its last row and gains the marker.
   */
  function Shrink(t: seq<string>): (r: Option<seq<string>>)
    requires t != []
    ensures r.None? <==> t == ["..."]
    ensures r.Some? ==> EndsMarked(r.value)
  {
    if EndsMarked(t) then
      if |t| < 2 then None else Some(t[..|t| - 2] + ["..."])
    else Some(t[..|t| - 1] + ["..."])
  }

  /** What a step takes from the estimate. */
  lemma ShrinkLen(t: seq<string>)
    requires t != [] && t != ["..."]
    ensures EndsMarked(t) ==> OutputLen(Shrink(t).value) + |t[|t| - 2]| + 1 == OutputLen(t)
    ensures !EndsMarked(t) ==> OutputLen(Shrink(t).value) + |t[|t| - 1]| + 1 == OutputLen(t) + 4
  {
    if EndsMarked(t) {
      assert t == t[..|t| - 2] + [t[|t| - 2]] + ["..."];
      OutputLenAppend(t[..|t| - 2] + [t[|t| - 2]], ["..."]);
      OutputLenAppend(t[..|t| - 2], [t[|t| - 2]]);
      OutputLenAppend(t[..|t| - 2], ["..."]);
    } else {
      assert t == t[..|t| - 1] + [t[|t| - 1]];
      OutputLenAppend(t[..|t| - 1], [t[|t| - 1]]);
      OutputLenAppend(t[..|t| - 1], ["..."]);
    }
  }

  /** Rows left to drop, plus one for a table not yet marked. */
  function Weight(t: seq<string>): nat
  {
    |t| + if EndsMarked(t) then 0 else 1
  }

  function Measure(data: seq<seq<string>>): nat
  {
    if data == [] then 0 else Weight(data[0]) + Measure(data[1..])
  }

  lemma {:induction false} MeasureUpdate(data: seq<seq<string>>, j: nat, t: seq<string>)
    requires j < |data|
    ensures Measure(data[j := t]) + Weight(data[j]) == Measure(data) + Weight(t)
    decreases |data|
  {
    if j == 0 {
      assert data[j := t][1..] == data[1..];
    } else {
      assert data[j := t][1..] == data[1..][j - 1 := t];
      MeasureUpdate(data[1..], j - 1, t);
    }
  }

  lemma ShrinkWeight(t: seq<string>)
    requires t != [] && t != ["..."]
    ensures Weight(Shrink(t).value) < Weight(t)
  {
  }

  /** The longest table is not empty while some table has rows. */
  lemma FirstMaxHasRows(data: seq<seq<string>>)
    requires AnyRows(data)
    ensures data[FirstMax(data)] != []
  {
    var j :| 0 <= j < |data| && data[j] != [];
    assert OutputLen(data[j]) > 0;
  }

  /**
   * The shrinking loop as written: None is the IndexError of pop(-2) on a
   * table that is only the marker.
   */
  function ShrinkAllAsWritten(data: seq<seq<string>>, total: int): Option<seq<seq<string>>>
    decreases Measure(data)
  {
    if !(total > 2000 && AnyRows(data)) then Some(data)
    else
      FirstMaxHasRows(data);
      var j := FirstMax(data);
      match Shrink(data[j])
      case None => None
      case Some(t) =>
        MeasureUpdate(data, j, t);
        ShrinkWeight(data[j]);
        ShrinkAllAsWritten(data[j := t], ShrunkTotal(data[j], total))
  }

  /**
   * The estimate after a step on t: the removed row and its line break go,
   * and the marker's four characters come when t was not yet marked.
   */
  function ShrunkTotal(t: seq<string>, total: int): int
    requires t != [] && t != ["..."]
  {
    if EndsMarked(t) then total - (|t[|t| - 2]| + 1) else total + 4 - (|t[|t| - 1]| + 1)
  }

  /**
   * A status line of 2001 characters beside a two-row table: the table is
   * marked, then loses its column line, and the next pop(-2) fails.
   */
  lemma ShrinkFailsOnLongLines()
    ensures var data, outputs := [["a", "b"]], [Line(seq(2001, i => 'x')), Table];
      TableCount(outputs) == |data| && TotalLen(data, outputs) == 2014
      && ShrinkAllAsWritten(data, 2014).None?
  {
    var status := seq(2001, i => 'x');
    var data := [["a", "b"]];
    var outputs := [Line(status), Table];
    assert outputs[1..] == [Table] && outputs[1..][1..] == [];
    assert TableCount(outputs[1..]) == 1;
    assert OutputLen(["a", "b"]) == 4;
    assert TotalLen(data, outputs[1..]) == 12;
    StepMarks();
    StepDropsColumns();
    StepFails();
  }

  lemma StepMarks()
    ensures ShrinkAllAsWritten([["a", "b"]], 2014) == ShrinkAllAsWritten([["a", "..."]], 2016)
  {
    var data := [["a", "b"]];
    assert data[0] != [];
    assert FirstMax(data) == 0;
    var t: seq<string> := ["a", "b"];
    assert t[1] == "b" && |t[1]| != |"..."|;
    assert !EndsMarked(t);
    assert t[..|t| - 1] + ["..."] == ["a", "..."];
    assert Shrink(t) == Some(["a", "..."]);
    assert data[0 := ["a", "..."]] == [["a", "..."]];
  }

  lemma StepDropsColumns()
    ensures ShrinkAllAsWritten([["a", "..."]], 2016) == ShrinkAllAsWritten([["..."]], 2014)
  {
    var data := [["a", "..."]];
    assert data[0] != [];
    assert FirstMax(data) == 0;
    assert EndsMarked(["a", "..."]);
    var t: seq<string> := ["a", "..."];
    assert t[1] == "..." && |t| == 2;
    assert t[..0] == [];
    assert t[..0] + ["..."] == ["..."];
    assert Shrink(t) == Some(["..."]);
    assert data[0 := ["..."]] == [["..."]];
  }

  lemma StepFails()
    ensures ShrinkAllAsWritten([["..."]], 2014).None?
  {
    var data := [["..."]];
    assert data[0] != [];
    assert FirstMax(data) == 0;
  }

  /** A table as shrunk so far: unchanged, or a prefix of its rows followed by the marker. */
  predicate TruncatedFrom(orig: seq<string>, t: seq<string>)
  {
    t == orig || exists n :: 0 <= n < |orig| && t == orig[..n] + ["..."]
  }

  lemma ShrinkTruncates(orig: seq<string>, t: seq<string>)
    requires TruncatedFrom(orig, t) && t != [] && t != ["..."]
    ensures TruncatedFrom(orig, Shrink(t).value)
  {
    if t != orig {
      var n :| 0 <= n < |orig| && t == orig[..n] + ["..."];
      assert n >= 1;
      assert t[..|t| - 2] == orig[..n - 1];
    } else if EndsMarked(t) {
      assert t[..|t| - 2] == orig[..|orig| - 2];
    }
  }

  /**
   * The shrinking loop as intended: while the estimate exceeds 2000 and
   * some table has rows, the first longest table is shrunk; the loop also
   * stops when that table is only the marker, where the loop as written
   * fails.
   */
  function ShrinkAllFixed(data: seq<seq<string>>, total: int): (r: seq<seq<string>>)
    ensures |r| == |data|
    decreases Measure(data)
  {
    if !(total > 2000 && AnyRows(data)) then data
    else
      FirstMaxHasRows(data);
      var j := FirstMax(data);
      if data[j] == ["..."] then data
      else
        var t := Shrink(data[j]).value;
        MeasureUpdate(data, j, t);
        ShrinkWeight(data[j]);
        ShrinkAllFixed(data[j := t], ShrunkTotal(data[j], total))
  }

  /**
   * Started from total_len, the intended loop keeps every table a
   * truncation of the original, and on exit the reply fits, or no table has
   * rows, or the longest table is only the marker.
   */
  lemma {:induction false} ShrinkAllFixedFacts(orig: seq<seq<string>>, data: seq<seq<string>>, outputs: seq<Output>, total: int)
    requires |orig| == |data| && forall j :: 0 <= j < |data| ==> TruncatedFrom(orig[j], data[j])
    requires TableCount(outputs) == |data| && total == TotalLen(data, outputs)
    ensures var r := ShrinkAllFixed(data, total);
      TableCount(outputs) == |r|
      && (TotalLen(r, outputs) <= 2000 || !AnyRows(r) || r[FirstMax(r)] == ["..."])
      && forall j :: 0 <= j < |r| ==> TruncatedFrom(orig[j], r[j])
    decreases Measure(data)
  {
    if total > 2000 && AnyRows(data) {
      FirstMaxHasRows(data);
      var j := FirstMax(data);
      if data[j] != ["..."] {
        var t := Shrink(data[j]).value;
        ShrinkStep(data, outputs, total);
        ShrinkTruncates(orig[j], data[j]);
        ShrinkAllFixedFacts(orig, data[j := t], outputs, ShrunkTotal(data[j], total));
      }
    }
  }

  /** One step of the intended loop keeps the estimate equal to total_len and lowers the measure. */
  lemma ShrinkStep(data: seq<seq<string>>, outputs: seq<Output>, total: int)
    requires TableCount(outputs) == |data| && total == TotalLen(data, outputs)
    requires total > 2000 && AnyRows(data) && data[FirstMax(data)] != ["..."]
    ensures data[FirstMax(data)] != []
    ensures var j := FirstMax(data); var t := Shrink(data[j]).value;
      ShrunkTotal(data[j], total) == TotalLen(data[j := t], outputs)
      && Measure(data[j := t]) < Measure(data)
      && ShrinkAllFixed(data[j := t], ShrunkTotal(data[j], total)) == ShrinkAllFixed(data, total)
  {
    FirstMaxHasRows(data);
    var j := FirstMax(data);
    var t := Shrink(data[j]).value;
    ShrinkLen(data[j]);
    MeasureUpdate(data, j, t);
    ShrinkWeight(data[j]);
    TotalLenUpdate(data, outputs, j, t);
  }

  /** Wherever the loop as written does not fail, it agrees with the intended loop. */
  lemma {:induction false} AsWrittenAgrees(data: seq<seq<string>>, total: int)
    ensures ShrinkAllAsWritten(data, total).Some? ==> ShrinkAllAsWritten(data, total).value == ShrinkAllFixed(data, total)
    decreases Measure(data)
  {
    if total > 2000 && AnyRows(data) {
      FirstMaxHasRows(data);
      var j := FirstMax(data);
      if data[j] != ["..."] {
        var t := Shrink(data[j]).value;
        MeasureUpdate(data, j, t);
        ShrinkWeight(data[j]);
        AsWrittenAgrees(data[j := t], ShrunkTotal(data[j], total));
      }
    }
  }

  /**
   * The shrinking loop, stopping when the longest table is only the marker
   * instead of failing. The estimate stays equal to total_len of the
   * current tables; on exit the reply fits, or no table has rows, or the
   * longest table is only the marker (so every table is at most that).
   */
  method ShrinkAll(data0: seq<seq<string>>, outputs: seq<Output>, total0: int) returns (data: seq<seq<string>>, total: int)
    requires TableCount(outputs) == |data0| && total0 == TotalLen(data0, outputs)
    ensures |data| == |data0| && TableCount(outputs) == |data| && total == TotalLen(data, outputs)
    ensures total <= 2000 || !AnyRows(data) || data[FirstMax(data)] == ["..."]
    ensures forall j :: 0 <= j < |data| ==> TruncatedFrom(data0[j], data[j])
    ensures data == ShrinkAllFixed(data0, total0)
  {
    data, total := data0, total0;
    while total > 2000 && AnyRows(data)
      invariant |data| == |data0| && total == TotalLen(data, outputs)
      invariant ShrinkAllFixed(data, total) == ShrinkAllFixed(data0, total0)
      decreases Measure(data)
    {
      FirstMaxHasRows(data);
      var j := FirstMax(data);
      var lst := data[j];
      if lst == ["..."] {
        break;
      }
      ShrinkStep(data, outputs, total);
      var removed;
      if EndsMarked(lst) {
        removed := lst[|lst| - 2];
      } else {
        removed := lst[|lst| - 1];
        total := total + 4;
      }
      total := total - (|removed| + 1);
      data := data[j := Shrink(lst).value];
    }
    ShrinkAllFixedFacts(data0, data0, outputs, total0);
  }

  /** The text of each output: a line as is, a table as a code block of its rows. */
  function Rendered(data: seq<seq<string>>, outputs: seq<Output>): (r: seq<string>)
    requires TableCount(outputs) == |data|
    ensures |r| == |outputs|
  {
    if outputs == [] then []
    else match outputs[0]
      case Line(s) => [s] + Rendered(data, outputs[1..])
      case Table => [DiscordUtil.CodeBlockStr(Join("\n", data[0]), None)] + Rendered(data[1..], outputs[1..])
  }

  /** sql: the reply to a list of statement outcomes. */
  method SqlReply(results: seq<StmtResult>) returns (text: string)
    ensures |text| <= 2000
    ensures var (d, o) := Collected(results);
      exists data: seq<seq<string>> ::
        |data| == |d| && TableCount(o) == |data|
        && (forall j :: 0 <= j < |data| ==> TruncatedFrom(d[j], data[j]))
        && (TotalLen(data, o) <= 2000 || !AnyRows(data) || data[FirstMax(data)] == ["..."])
        && text == Take(Join("\n", Rendered(data, o)), 2000)
    ensures var (d, o) := Collected(results);
      TableCount(o) == |d| && text == Take(Join("\n", Rendered(ShrinkAllFixed(d, TotalLen(d, o)), o)), 2000)
  {
    var data0, outputs := Collect(results);
    CollectedTables(results);
    var data, total := ShrinkAll(data0, outputs, TotalLen(data0, outputs));
    text := Take(Join("\n", Rendered(data, outputs)), 2000);
    assert |data| == |data0| && TableCount(outputs) == |data|
      && (forall j :: 0 <= j < |data| ==> TruncatedFrom(data0[j], data[j]))
      && (TotalLen(data, outputs) <= 2000 || !AnyRows(data) || data[FirstMax(data)] == ["..."]);
  }
}
