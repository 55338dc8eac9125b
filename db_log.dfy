/**
 * util/db/log.py: how a logged query shows its arguments. `log_data` is
 * either a flag (show all or none) or a collection of 1-based argument
 * positions to show; a hidden argument is written "?". The rendering of a
 * shown argument (Python's repr) is a parameter.
 */
module DbLog {
  import opened Wrappers
  import opened Text

  /** log_data: a bool, or the 1-based positions of the arguments that may be shown. */
  datatype LogData = Flag(on: bool) | Positions(shown: set<int>)

  /** The spec lambda: may the argument at 1-based position i be shown? */
  predicate Shows(log: LogData, i: int)
  {
    match log
    case Flag(on) => on
    case Positions(shown) => i in shown
  }

  /** The fields of one row: repr where shown, "?" elsewhere. */
  function Fields<T>(log: LogData, data: seq<T>, repr: T -> string): (r: seq<string>)
    ensures |r| == |data|
  {
    seq(|data|, i requires 0 <= i < |data| => if Shows(log, i + 1) then repr(data[i]) else "?")
  }

  /** filter_single: the row as "(" + comma-joined fields + ")". */
  function FilterSingle<T>(log: LogData, data: seq<T>, repr: T -> string): string
  {
    "(" + Join(",", Fields(log, data, repr)) + ")"
  }

  /**
   * The argument at 0-based position i is shown exactly when position i + 1
   * is allowed; a flag shows all arguments or none.
   */
  lemma FieldShown<T>(log: LogData, data: seq<T>, repr: T -> string, i: nat)
    requires i < |data|
    ensures Shows(log, i + 1) ==> Fields(log, data, repr)[i] == repr(data[i])
    ensures !Shows(log, i + 1) ==> Fields(log, data, repr)[i] == "?"
    ensures log == Flag(true) ==> Fields(log, data, repr)[i] == repr(data[i])
    ensures log == Flag(false) ==> Fields(log, data, repr)[i] == "?"
  {
  }

  /**
   * Hidden arguments leave no trace: two rows of the same length that agree
   * on every shown position are logged identically.
   */
  lemma HiddenArgumentsInvisible<T>(log: LogData, a: seq<T>, b: seq<T>, repr: T -> string)
    requires |a| == |b|
    requires forall i :: 0 <= i < |a| && Shows(log, i + 1) ==> repr(a[i]) == repr(b[i])
    ensures FilterSingle(log, a, repr) == FilterSingle(log, b, repr)
  {
    assert Fields(log, a, repr) == Fields(log, b, repr);
  }

  /** filter_multi: one parenthesised group per row, joined by ",". */
  function FilterMulti<T>(log: LogData, data: seq<seq<T>>, repr: T -> string): (r: string)
  {
    Join(",", seq(|data|, j requires 0 <= j < |data| => FilterSingle(log, data[j], repr)))
  }

  /** Each row of a batch is filtered as a single row would be; one row is exactly filter_single. */
  lemma FilterMultiRows<T>(log: LogData, data: seq<seq<T>>, repr: T -> string)
    ensures |data| == 1 ==> FilterMulti(log, data, repr) == FilterSingle(log, data[0], repr)
    ensures data == [] ==> FilterMulti(log, data, repr) == ""
  {
  }

  /** Redaction carries over to batches, row by row. */
  lemma HiddenBatchInvisible<T>(log: LogData, a: seq<seq<T>>, b: seq<seq<T>>, repr: T -> string)
    requires |a| == |b|
    requires forall j :: 0 <= j < |a| ==> |a[j]| == |b[j]|
    requires forall j, i :: 0 <= j < |a| && 0 <= i < |a[j]| && Shows(log, i + 1) ==> repr(a[j][i]) == repr(b[j][i])
    ensures FilterMulti(log, a, repr) == FilterMulti(log, b, repr)
  {
    forall j | 0 <= j < |a|
      ensures FilterSingle(log, a[j], repr) == FilterSingle(log, b[j], repr)
    {
      HiddenArgumentsInvisible(log, a[j], b[j], repr);
    }
    assert seq(|a|, j requires 0 <= j < |a| => FilterSingle(log, a[j], repr))
        == seq(|b|, j requires 0 <= j < |b| => FilterSingle(log, b[j], repr));
  }

  /** Python truth value of log_data: False and an empty collection are false. */
  predicate Truthy(log: LogData)
  {
    match log
    case Flag(on) => on
    case Positions(shown) => shown != {}
  }

  /** fmt_query_single */
  function FmtQuerySingle<T>(query: string, log: LogData, args: seq<T>, repr: T -> string): string
  {
    if Truthy(log) then query + " % " + FilterSingle(log, args, repr) else query
  }

  /** fmt_query_multi */
  function FmtQueryMulti<T>(query: string, log: LogData, args: seq<seq<T>>, repr: T -> string): string
  {
    if Truthy(log) then query + " % " + FilterMulti(log, args, repr) else query
  }

  /**
   * A falsy log_data logs the bare query; otherwise the query is followed by
   * " % " and the filtered arguments, so the query text is always a prefix.
   * The source promises nothing beyond this format: the shape is the whole
   * contract.
   */
  lemma FmtQueryShape<T>(query: string, log: LogData, args: seq<T>, rows: seq<seq<T>>, repr: T -> string)
    ensures !Truthy(log) ==>
      FmtQuerySingle(query, log, args, repr) == query && FmtQueryMulti(query, log, rows, repr) == query
    ensures Truthy(log) ==>
      FmtQuerySingle(query, log, args, repr) == query + " % " + FilterSingle(log, args, repr)
      && FmtQueryMulti(query, log, rows, repr) == query + " % " + FilterMulti(log, rows, repr)
    ensures query <= FmtQuerySingle(query, log, args, repr) && query <= FmtQueryMulti(query, log, rows, repr)
  {
  }

  /** An empty position collection is falsy: nothing at all is logged beyond the query. */
  lemma EmptyPositionsLogBareQuery<T>(query: string, args: seq<T>, repr: T -> string)
    ensures FmtQuerySingle(query, Positions({}), args, repr) == query
  {
  }

  /**
   * fmt_table: "schema.name" with a schema, else the bare name. The format
   * is the whole promise; the ensures read each part back by position.
   */
  function FmtTable(name: string, schema: Option<string>): (r: string)
    ensures schema.None? ==> r == name
    ensures schema.Some? ==>
      |r| == |schema.value| + 1 + |name|
      && r[..|schema.value|] == schema.value && r[|schema.value|] == '.' && r[|schema.value| + 1..] == name
  {
    if schema.Some? then schema.value + "." + name else name
  }

  /** Logging levels of the server's notices. */
  datatype Level = Debug | Info | Warning | Error

  /** severity_map, with the listener's default of INFO for anything else. */
  function SeverityLevel(severity: string): (r: Level)
  {
    if severity in {"DEBUG", "LOG"} then Debug
    else if severity in {"NOTICE", "INFO"} then Info
    else if severity == "WARNING" then Warning
    else if severity in {"ERROR", "FATAL", "PANIC"} then Error
    else Info
  }

  /** The eight PostgreSQL severities map as listed; anything else is INFO. */
  lemma SeverityLevels(severity: string)
    ensures severity !in {"DEBUG", "LOG", "NOTICE", "INFO", "WARNING", "ERROR", "FATAL", "PANIC"} ==>
      SeverityLevel(severity) == Info
    ensures SeverityLevel(severity) == Debug <==> severity == "DEBUG" || severity == "LOG"
    ensures SeverityLevel(severity) == Error <==> severity in {"ERROR", "FATAL", "PANIC"}
    ensures SeverityLevel(severity) == Warning <==> severity == "WARNING"
  {
  }
}
