/**
 * `Rails::TestRunner`: which files a run loads (`test_files`), the table of
 * test methods and their source spans (`test_methods`), which test a line
 * number selects (`find_method`) and the backtrace switch (`show_backtrace?`).
 *
 * Minitest's registry is an input: the suites, already in the order the
 * runner's shuffle put them in, each with its runnable methods and, per
 * method, the file and first line `source_location` reports and the source
 * text `method_source` returns.
 */
module Runner {
  import opened Wrappers
  import opened RubyString
  import opened RunnerOptions

  /** The glob used when neither a file nor a directory was given. */
  const DefaultPattern := "test/**/*_test.rb"

  /** The files to load: one named file, or whatever a glob matches (not expanded here). */
  datatype FileSet = Single(filename: string) | Glob(pattern: string)

  /** One runnable method of a suite, as Minitest and `method_source` describe it. */
  datatype Runnable = Runnable(name: string, file: string, startLine: int, source: string)

  /** A test suite class with its runnable methods, in their own order. */
  datatype Suite = Suite(runnableMethods: seq<Runnable>)

  /** A row of the method table: `[location, test_method, start_line, end_line]`. */
  datatype Entry = Entry(location: string, testMethod: string, startLine: int, endLine: int)

  /**
   * `source.split("\n").size`: the source's lines, trailing empty lines not
   * counted; it is 0 exactly when the source holds nothing but newlines.
   */
  function LineCount(source: string): (n: nat)
    ensures n == 0 <==> forall k :: 0 <= k < |source| ==> source[k] == '\n'
  {
    SplitEmptyIff(source, '\n');
    |Split(source, '\n')|
  }

  /** The table row of one method; its span covers `LineCount(source)` lines from `startLine`. */
  function EntryOf(m: Runnable): Entry {
    Entry(m.file, m.name, m.startLine, LineCount(m.source) + m.startLine - 1)
  }

  /** The span of a method whose source has a character other than a newline is not empty. */
  lemma SpanNotEmpty(m: Runnable)
    requires exists k :: 0 <= k < |m.source| && m.source[k] != '\n'
    ensures EntryOf(m).startLine <= EntryOf(m).endLine
  {
  }

  /** The rows of one suite's methods, in method order. */
  function Entries(ms: seq<Runnable>): (es: seq<Entry>)
    ensures |es| == |ms|
    ensures forall k :: 0 <= k < |ms| ==> es[k] == EntryOf(ms[k])
  {
    if ms == [] then [] else Entries(ms[..|ms| - 1]) + [EntryOf(ms[|ms| - 1])]
  }

  /** How many runnable methods the suites have together. */
  function MethodCount(suites: seq<Suite>): nat {
    if suites == [] then 0
    else MethodCount(suites[..|suites| - 1]) + |suites[|suites| - 1].runnableMethods|
  }

  /** The method table: every suite's rows, suite after suite. */
  function Table(suites: seq<Suite>): seq<Entry> {
    if suites == [] then []
    else Table(suites[..|suites| - 1]) + Entries(suites[|suites| - 1].runnableMethods)
  }

  /** The table has one row per runnable method of the suites. */
  lemma {:induction false} TableLength(suites: seq<Suite>)
    ensures |Table(suites)| == MethodCount(suites)
  {
    if suites != [] {
      TableLength(suites[..|suites| - 1]);
    }
  }

  /**
   * Rows come in suite-then-method order: the row of method `j` of suite `i`
   * comes right after the rows of all methods of the suites before `i`.
   */
  lemma {:induction false} TableAt(suites: seq<Suite>, i: nat, j: nat)
    requires i < |suites| && j < |suites[i].runnableMethods|
    ensures MethodCount(suites[..i]) + j < |Table(suites)|
    ensures Table(suites)[MethodCount(suites[..i]) + j] == EntryOf(suites[i].runnableMethods[j])
    decreases |suites|, 1
  {
    var n := |suites| - 1;
    if i < n {
      TableAtEarlier(suites, i, j);
    } else {
      TableLength(suites[..n]);
      assert suites[..i] == suites[..n];
      RowOfLastSuite(suites, j);
    }
  }

  lemma {:induction false} TableAtEarlier(suites: seq<Suite>, i: nat, j: nat)
    requires i < |suites| - 1 && j < |suites[i].runnableMethods|
    ensures MethodCount(suites[..i]) + j < |Table(suites)|
    ensures Table(suites)[MethodCount(suites[..i]) + j] == EntryOf(suites[i].runnableMethods[j])
    decreases |suites|, 0
  {
    var init := suites[..|suites| - 1];
    assert init[..i] == suites[..i];
    assert init[i] == suites[i];
    TableAt(init, i, j);
    RowOfEarlierSuite(suites, MethodCount(init[..i]) + j);
  }

  /** Rows of the suites before the last one keep their place when the last suite's rows are appended. */
  lemma RowOfEarlierSuite(suites: seq<Suite>, idx: nat)
    requires suites != [] && idx < |Table(suites[..|suites| - 1])|
    ensures idx < |Table(suites)| && Table(suites)[idx] == Table(suites[..|suites| - 1])[idx]
  {
  }

  /** The last suite's rows come after those of the suites before it. */
  lemma RowOfLastSuite(suites: seq<Suite>, j: nat)
    requires suites != [] && j < |suites[|suites| - 1].runnableMethods|
    ensures var front := Table(suites[..|suites| - 1]);
            |front| + j < |Table(suites)| &&
            Table(suites)[|front| + j] == EntryOf(suites[|suites| - 1].runnableMethods[j])
  {
  }

  /** Every runnable method of every suite has its row in the table. */
  lemma RowOfMethod(suites: seq<Suite>, i: nat, j: nat)
    requires i < |suites| && j < |suites[i].runnableMethods|
    ensures EntryOf(suites[i].runnableMethods[j]) in Table(suites)
  {
    TableAt(suites, i, j);
  }

  /** Every row of the table is the row of some runnable method of some suite. */
  lemma {:induction false} MethodOfRow(suites: seq<Suite>, e: Entry) returns (i: nat, j: nat)
    requires e in Table(suites)
    ensures i < |suites| && j < |suites[i].runnableMethods|
    ensures e == EntryOf(suites[i].runnableMethods[j])
  {
    var n := |suites| - 1;
    var init := suites[..n];
    var front, last := Table(init), Entries(suites[n].runnableMethods);
    assert Table(suites) == front + last;
    if e in front {
      i, j := MethodOfRow(init, e);
      assert init[i] == suites[i];
    } else {
      var k :| 0 <= k < |last| && last[k] == e;
      i, j := n, k;
    }
  }

  /** A row is in the table exactly when it is the row of some method of some suite. */
  lemma TableMembers(suites: seq<Suite>, e: Entry)
    ensures e in Table(suites) <==>
            exists i, j :: 0 <= i < |suites| && 0 <= j < |suites[i].runnableMethods| &&
                           e == EntryOf(suites[i].runnableMethods[j])
  {
    if e in Table(suites) {
      var i, j := MethodOfRow(suites, e);
    }
    if exists i, j :: 0 <= i < |suites| && 0 <= j < |suites[i].runnableMethods| &&
                      e == EntryOf(suites[i].runnableMethods[j]) {
      var i, j :| 0 <= i < |suites| && 0 <= j < |suites[i].runnableMethods| &&
                  e == EntryOf(suites[i].runnableMethods[j]);
      RowOfMethod(suites, i, j);
    }
  }

  lemma EntriesStep(ms: seq<Runnable>, j: nat)
    requires j < |ms|
    ensures Entries(ms[..j + 1]) == Entries(ms[..j]) + [EntryOf(ms[j])]
  {
    assert ms[..j + 1][..j] == ms[..j];
  }

  lemma TableStep(suites: seq<Suite>, i: nat)
    requires i < |suites|
    ensures Table(suites[..i + 1]) == Table(suites[..i]) + Entries(suites[i].runnableMethods)
  {
    assert suites[..i + 1][..i] == suites[..i];
  }

  /**
   * `test_methods`: walks the suites and, for each of their runnable
   * methods, appends its row to the table.
   */
  method TestMethods(suites: seq<Suite>) returns (methodsMap: seq<Entry>)
    ensures methodsMap == Table(suites)
  {
    methodsMap := [];
    var i := 0;
    while i < |suites|
      invariant 0 <= i <= |suites|
      invariant methodsMap == Table(suites[..i])
    {
      var ms := suites[i].runnableMethods;
      var j := 0;
      while j < |ms|
        invariant 0 <= j <= |ms|
        invariant methodsMap == Table(suites[..i]) + Entries(ms[..j])
      {
        var m := ms[j];
        var startLine := m.startLine;
        var endLine := LineCount(m.source) + startLine - 1;
        var row := Entry(m.file, m.name, startLine, endLine);
        assert row == EntryOf(ms[j]);
        EntriesStep(ms, j);
        assert methodsMap + [row] == Table(suites[..i]) + (Entries(ms[..j]) + [row]);
        methodsMap := methodsMap + [row];
        j := j + 1;
      }
      assert ms[..j] == ms;
      TableStep(suites, i);
      i := i + 1;
    }
    assert suites[..i] == suites;
  }

  /** The row names `filename` and its span, both ends included, contains `line`. */
  predicate Hit(e: Entry, filename: Option<string>, line: int) {
    filename == Some(e.location) && e.startLine <= line <= e.endLine
  }

  /** Position of the first row that is a hit; none when no row is. */
  function FirstHit(table: seq<Entry>, filename: Option<string>, line: int): (r: Option<nat>)
    ensures r.None? <==> forall k :: 0 <= k < |table| ==> !Hit(table[k], filename, line)
    ensures r.Some? ==> r.value < |table| && Hit(table[r.value], filename, line) &&
                        forall k :: 0 <= k < r.value ==> !Hit(table[k], filename, line)
  {
    if table == [] then None
    else if Hit(table[0], filename, line) then Some(0)
    else match FirstHit(table[1..], filename, line)
      case None => None
      case Some(k) => Some(k + 1)
  }

  /** The runner, built from the options `Options.parse` produced. */
  datatype TestRunner = TestRunner(options: Options) {

    /** `show_backtrace?` */
    function ShowBacktrace(): bool {
      options.backtrace
    }

    /** `test_files`: an explicit file wins, then the pattern, then the default glob. */
    function TestFiles(): FileSet {
      if options.filename.Some? then Single(options.filename.value)
      else if options.pattern.Some? then Glob(options.pattern.value)
      else Glob(DefaultPattern)
    }

    /**
     * `find_method`: an explicit name wins whatever else is set; with no
     * name and no line there is nothing to find; otherwise it is the name of
     * the first row, in table order, whose location is the file and whose
     * span contains the line, and none when no row does.
     */
    function FindMethod(suites: seq<Suite>): (r: Option<string>)
      ensures options.name.Some? ==> r == options.name
      ensures options.name.None? && options.line.None? ==> r.None?
      ensures options.name.None? && options.line.Some? ==>
                var table := Table(suites);
                (r.None? <==> forall k :: 0 <= k < |table| ==> !Hit(table[k], options.filename, options.line.value)) &&
                (r.Some? ==> exists k :: 0 <= k < |table| && Hit(table[k], options.filename, options.line.value) &&
                                         r.value == table[k].testMethod &&
                                         forall j :: 0 <= j < k ==> !Hit(table[j], options.filename, options.line.value))
    {
      if options.name.Some? then options.name
      else if options.line.None? then None
      else
        var table := Table(suites);
        match FirstHit(table, options.filename, options.line.value)
        case None => None
        case Some(k) => Some(table[k].testMethod)
    }
  }

  /**
   * Rows of one file for different methods never overlap. Rows that repeat a
   * method (one inherited by several suites) may share a span.
   */
  predicate DisjointSpans(table: seq<Entry>) {
    forall i, j :: 0 <= i < j < |table| && table[i].location == table[j].location &&
                   table[i].testMethod != table[j].testMethod ==>
      table[i].endLine < table[j].startLine || table[j].endLine < table[i].startLine
  }

  /** Two orders of the same suites give tables with the same rows. */
  lemma SameSuitesSameRows(suites: seq<Suite>, shuffled: seq<Suite>, e: Entry)
    requires forall s :: s in suites <==> s in shuffled
    ensures e in Table(suites) <==> e in Table(shuffled)
  {
    TableMembers(suites, e);
    TableMembers(shuffled, e);
    if e in Table(suites) {
      var i, j :| 0 <= i < |suites| && 0 <= j < |suites[i].runnableMethods| &&
                  e == EntryOf(suites[i].runnableMethods[j]);
      assert suites[i] in shuffled;
      var i' :| 0 <= i' < |shuffled| && shuffled[i'] == suites[i];
      assert e == EntryOf(shuffled[i'].runnableMethods[j]);
    }
    if e in Table(shuffled) {
      var i, j :| 0 <= i < |shuffled| && 0 <= j < |shuffled[i].runnableMethods| &&
                  e == EntryOf(shuffled[i].runnableMethods[j]);
      assert shuffled[i] in suites;
      var i' :| 0 <= i' < |suites| && suites[i'] == shuffled[i];
      assert e == EntryOf(suites[i'].runnableMethods[j]);
    }
  }

  /**
   * Over two tables with the same rows, the first hit names the same method
   * when the spans of different methods of one file do not overlap (every
   * hit then names the same method).
   */
  lemma FirstHitSameRows(t1: seq<Entry>, t2: seq<Entry>, filename: Option<string>, line: int)
    requires forall e :: e in t1 <==> e in t2
    requires DisjointSpans(t1)
    ensures FirstHit(t1, filename, line).None? == FirstHit(t2, filename, line).None?
    ensures FirstHit(t1, filename, line).Some? ==>
              t1[FirstHit(t1, filename, line).value].testMethod == t2[FirstHit(t2, filename, line).value].testMethod
  {
    var r1, r2 := FirstHit(t1, filename, line), FirstHit(t2, filename, line);
    if r1.Some? {
      assert t1[r1.value] in t2;
    }
    if r2.Some? {
      assert t2[r2.value] in t1;
    }
    if r1.Some? && r2.Some? {
      var m :| 0 <= m < |t1| && t1[m] == t2[r2.value];
      assert Hit(t1[m], filename, line) && Hit(t1[r1.value], filename, line);
      assert t1[m].testMethod == t1[r1.value].testMethod;
    }
  }

  /**
   * The suite shuffle does not change which method a line selects, as long
   * as the spans of different methods of one file do not overlap: any
   * reordering of the same suites selects the same method.
   */
  lemma FindMethodIgnoresSuiteOrder(runner: TestRunner, suites: seq<Suite>, shuffled: seq<Suite>)
    requires forall s :: s in suites <==> s in shuffled
    requires DisjointSpans(Table(suites))
    ensures runner.FindMethod(suites) == runner.FindMethod(shuffled)
  {
    var o := runner.options;
    if o.name.None? && o.line.Some? {
      forall e ensures e in Table(suites) <==> e in Table(shuffled) {
        SameSuitesSameRows(suites, shuffled, e);
      }
      FirstHitSameRows(Table(suites), Table(shuffled), o.filename, o.line.value);
    }
  }

  /** `m` is a runnable method of one of the suites. */
  ghost predicate Runs(suites: seq<Suite>, m: Runnable) {
    exists i, j :: 0 <= i < |suites| && 0 <= j < |suites[i].runnableMethods| &&
                   suites[i].runnableMethods[j] == m
  }

  /** Every row of a table is also a row of any table that runs at least the same methods. */
  lemma RowsOfSameMethods(suites: seq<Suite>, other: seq<Suite>, e: Entry)
    requires forall m :: Runs(suites, m) ==> Runs(other, m)
    requires e in Table(suites)
    ensures e in Table(other)
  {
    var i, j := MethodOfRow(suites, e);
    assert Runs(suites, suites[i].runnableMethods[j]);
    var i', j' :| 0 <= i' < |other| && 0 <= j' < |other[i'].runnableMethods| &&
                  other[i'].runnableMethods[j'] == suites[i].runnableMethods[j];
    RowOfMethod(other, i', j');
  }

  /**
   * Reordering the suites, or the methods within a suite, or moving methods
   * between suites, keeps the table's rows as long as the same methods run.
   */
  lemma SameMethodsSameRows(suites: seq<Suite>, shuffled: seq<Suite>, e: Entry)
    requires forall m :: Runs(suites, m) <==> Runs(shuffled, m)
    ensures e in Table(suites) <==> e in Table(shuffled)
  {
    if e in Table(suites) {
      RowsOfSameMethods(suites, shuffled, e);
    }
    if e in Table(shuffled) {
      RowsOfSameMethods(shuffled, suites, e);
    }
  }

  /**
   * Under `test_order :random` Minitest also shuffles each suite's methods;
   * that order does not change which method a line selects either, as long
   * as the spans of different methods of one file do not overlap.
   */
  lemma FindMethodIgnoresMethodOrder(runner: TestRunner, suites: seq<Suite>, shuffled: seq<Suite>)
    requires forall m :: Runs(suites, m) <==> Runs(shuffled, m)
    requires DisjointSpans(Table(suites))
    ensures runner.FindMethod(suites) == runner.FindMethod(shuffled)
  {
    var o := runner.options;
    if o.name.None? && o.line.Some? {
      forall e ensures e in Table(suites) <==> e in Table(shuffled) {
        SameMethodsSameRows(suites, shuffled, e);
      }
      FirstHitSameRows(Table(suites), Table(shuffled), o.filename, o.line.value);
    }
  }

  /** The method a bare `file:line` request selects (no name, no pattern). */
  function LineLookup(suites: seq<Suite>, file: string, line: int): Option<string> {
    TestRunner(Options(false, None, Some(file), Some(line), None)).FindMethod(suites)
  }

  /**
   * When the spans of different methods do not overlap, every line of a
   * method's span selects that method, the first and the last line included.
   */
  lemma LineInSpanSelects(suites: seq<Suite>, k: nat, line: int)
    requires k < |Table(suites)| && DisjointSpans(Table(suites))
    requires Table(suites)[k].startLine <= line <= Table(suites)[k].endLine
    ensures LineLookup(suites, Table(suites)[k].location, line) == Some(Table(suites)[k].testMethod)
  {
    var t, e := Table(suites), Table(suites)[k];
    assert Hit(t[k], Some(e.location), line);
    var r := FirstHit(t, Some(e.location), line);
    assert r.Some?;
    assert Hit(t[r.value], Some(e.location), line);
    assert t[r.value].testMethod == e.testMethod;
  }

  /**
   * For the only method of its file, a line selects it exactly when its span
   * contains the line, both ends included: the first and last lines select
   * it, the lines just before and after do not.
   */
  lemma OnlyMethodOfFile(suites: seq<Suite>, k: nat, line: int)
    requires k < |Table(suites)|
    requires forall j :: 0 <= j < |Table(suites)| && j != k ==> Table(suites)[j].location != Table(suites)[k].location
    ensures var e := Table(suites)[k];
            LineLookup(suites, e.location, line) ==
              if e.startLine <= line <= e.endLine then Some(e.testMethod) else None
  {
    var t := Table(suites);
    var f := Some(t[k].location);
    var r := FirstHit(t, f, line);
    if r.Some? {
      assert Hit(t[r.value], f, line);
      assert r.value == k;
    } else {
      assert !Hit(t[k], f, line);
    }
  }

  /**
   * The files a parsed command line loads: the default glob with no
   * argument, the directory's glob for a directory, and the expanded file
   * part of `file[:line]` otherwise.
   */
  lemma ParsedTestFiles(flags: seq<Flag>, rest: seq<string>, isDir: string -> bool, expand: string -> string)
    requires Parsed(flags, rest, isDir, expand).Success?
    ensures var files := TestRunner(Parsed(flags, rest, isDir, expand).value).TestFiles();
            (rest == [] ==> files == Glob("test/**/*_test.rb")) &&
            (rest != [] && isDir(rest[0]) ==> files == Glob(rest[0] + "/**/*_test.rb")) &&
            (rest != [] && !isDir(rest[0]) ==>
               Split(rest[0], ':') != [] && files == Single(expand(Split(rest[0], ':')[0])))
  {
  }

  /** `show_backtrace?` after parsing is true exactly when `-b` was given. */
  lemma ParsedShowBacktrace(flags: seq<Flag>, rest: seq<string>, isDir: string -> bool, expand: string -> string)
    requires Parsed(flags, rest, isDir, expand).Success?
    ensures TestRunner(Parsed(flags, rest, isDir, expand).value).ShowBacktrace() <==> BacktraceFlag in flags
  {
  }

  /**
   * After parsing, a `-n NAME` (the last one given) decides the method
   * whatever the file and line; without it and without a line part nothing
   * is selected.
   */
  lemma ParsedFindMethod(flags: seq<Flag>, rest: seq<string>, isDir: string -> bool, expand: string -> string,
                         suites: seq<Suite>, k: nat)
    requires Parsed(flags, rest, isDir, expand).Success?
    requires k < |flags| && flags[k].NameFlag? && flags[k].given.Some?
    requires forall j :: k < j < |flags| ==> !flags[j].NameFlag?
    ensures TestRunner(Parsed(flags, rest, isDir, expand).value).FindMethod(suites) == flags[k].given
  {
  }

  /** When parsing leaves no name and there is no `:line` part, no method is selected. */
  lemma ParsedNoLineNoMethod(flags: seq<Flag>, rest: seq<string>, isDir: string -> bool, expand: string -> string,
                             suites: seq<Suite>)
    requires Parsed(flags, rest, isDir, expand).Success?
    requires FlagsApplied(flags).name.None?
    requires rest == [] || isDir(rest[0]) || |Split(rest[0], ':')| < 2
    ensures TestRunner(Parsed(flags, rest, isDir, expand).value).FindMethod(suites).None?
  {
  }
}
