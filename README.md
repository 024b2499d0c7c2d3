# Rails test runner: test selection

A model of `Rails::TestRunner` from railties, the code behind
`bin/rails test [options] [file or directory]`. It covers how the command line
becomes an options record (`Options.parse`), which files a run loads
(`test_files`), the table of test methods and their source spans
(`test_methods`), which test a `file:line` request selects (`find_method`) and
the backtrace switch (`show_backtrace?`).

Files:

- `wrappers.dfy`: `Option` (Ruby's nil) and `Result` (a raised exception).
- `ruby_string.dfy` (module `RubyString`): the parts of Ruby's `String` the runner
  relies on. `Split` is `String#split` with a one-character separator other than a
  space (Ruby treats a single space as "split on runs of white space"): it cuts at
  every separator and drops trailing empty pieces. `ToI` is `String#to_i`: it skips
  leading white space, reads an optional sign and then digits, allowing single
  underscores between digits, and gives 0 when there is no number. Both come with
  round-trip lemmas: `Join`/`Pieces`, and `ToI`/`Show`.
- `options.dfy` (module `RunnerOptions`): `Options.parse`. OptionParser's flag
  recognition is outside the model. The flags it recognised arrive in command-line
  order as `Flag` values, and `Parse` applies their effects one after another to
  the defaults `{backtrace: false, name: nil}`. Then it handles the first leftover
  token. A directory becomes the pattern `dir/**/*_test.rb`. Anything else is
  split on `:`: the first piece is expanded into `filename`, and the second piece,
  if any, becomes `line` through `to_i`. `Dir.exists?` and `File.expand_path`
  are the parameters `isDir` and `expand`.
- `runner.dfy` (module `Runner`): the `TestRunner` built from the options, the
  method table and the lemmas that tie parsing to file selection and method
  lookup. Minitest's registry is an input: a sequence of suites, each with
  its runnable methods. For each method the input gives its name, its file, its
  first line and its source text. The suite sequence is taken in the order the
  shuffle produced.

The model follows the code, including these behaviours that are easy to miss:

- A non-numeric line part is not an error. `to_i` turns `file:abc` into line 0
  (`NonNumericLineArgument`).
- The argument is split at every colon, not at the last one. `a:b:c` gives the
  file `a` and the line `to_i("b")`, and the rest is dropped (`ExtraPiecesArgument`).
- `file:` and `file::` have no line (`TrailingColonsArgument`), while `file::5`
  has line 0, because its second piece is empty (`EmptySecondPieceArgument`).
- An argument made only of colons, or an empty argument, has no file part. Then
  `File.expand_path(nil)` raises a TypeError, modelled as `Failure(NilFilename)`
  (`NoFilePartArgument`).
- The line can be negative: `file:-3` has line -3 (`SecondPieceArgument` with
  `ToIShow`). It then selects no method whose span starts at line 1 or later.

## Model

| member | source | states |
|---|---|---|
| RubyString.DropTrailingEmpty | railties/lib/rails/test_unit/runner.rb:53 | the result is a prefix of the pieces, everything cut off is empty, and the result does not end in an empty piece |
| RubyString.Split | railties/lib/rails/test_unit/runner.rb:53 | no piece contains the separator and the last piece is never empty (`String#split` drops trailing empty pieces) |
| RubyString.JoinPieces | railties/lib/rails/test_unit/runner.rb:53 | joining the pieces with the separator gives back the original string |
| RubyString.PiecesJoin | railties/lib/rails/test_unit/runner.rb:53 | cutting a join of separator-free pieces gives back exactly those pieces |
| RubyString.SplitWithoutSeparator | railties/lib/rails/test_unit/runner.rb:53 | a string without a colon is one piece, or no piece when it is empty |
| RubyString.SplitAfterSeparator | railties/lib/rails/test_unit/runner.rb:53 | `f:t` with a colon-free `f` splits into `f` followed by the pieces of `t`; when `t` has no pieces, only `f` is kept, and only if it is not empty |
| RubyString.SplitEmptyIff | railties/lib/rails/test_unit/runner.rb:53 | the split is empty exactly when every character is a separator |
| RubyString.ToI | railties/lib/rails/test_unit/runner.rb:55 | a string that does not start with a digit, white space or a sign gives 0, never an error |
| RubyString.ValueShow | railties/lib/rails/test_unit/runner.rb:55 | reading the decimal notation of n gives n |
| RubyString.ToIShow | railties/lib/rails/test_unit/runner.rb:55 | `to_i` of the decimal notation of n, with or without a sign and followed by anything that cannot continue a number, gives n (or -n) |
| RunnerOptions.Applied | railties/lib/rails/test_unit/runner.rb:25-36 | `-b` sets only the backtrace switch and `-n` only the name (to its argument); neither touches filename, line or pattern |
| RunnerOptions.FlagsApplied | railties/lib/rails/test_unit/runner.rb:10-36 | after the flag blocks ran on the defaults, backtrace is set exactly when `-b` was given, name is the argument of the last `-n` (nil without one), and filename, line and pattern are unset |
| RunnerOptions.Parse | railties/lib/rails/test_unit/runner.rb:9-59 | applying the flags one by one and then handling the first leftover token gives exactly the specified outcome `Parsed` |
| RunnerOptions.WithArgument | railties/lib/rails/test_unit/runner.rb:49-56 | a successful positional argument keeps the flags' name and backtrace, and options that had no file, line or pattern come out well formed |
| RunnerOptions.ParsedWellFormed | railties/lib/rails/test_unit/runner.rb:49-57 | a successful parse never sets both pattern and filename, and sets a line only together with a filename |
| RunnerOptions.NoArgumentParsed | railties/lib/rails/test_unit/runner.rb:10-49 | with no positional argument the parse succeeds with no filename, line or pattern, backtrace set exactly when `-b` was given, and no name when no `-n` was given |
| RunnerOptions.FurtherTokensIgnored | railties/lib/rails/test_unit/runner.rb:49-56 | only the first leftover token matters: the parse of `rest` equals the parse of its first token alone |
| RunnerOptions.DirectoryArgument | railties/lib/rails/test_unit/runner.rb:50-51 | a directory argument adds exactly the pattern `dir/**/*_test.rb`: no filename, no line, and the flags' name and backtrace are kept |
| RunnerOptions.FileArgument | railties/lib/rails/test_unit/runner.rb:52-55 | a non-empty path without a colon adds its expanded form as filename and no line |
| RunnerOptions.SecondPieceArgument | railties/lib/rails/test_unit/runner.rb:53-55 | `file:second`, both colon-free and `second` non-empty, gives the expanded file and the line `to_i(second)` for every `second` (`-3`, `+3`, ` 7`, `007`, `27abc` alike) |
| RunnerOptions.SplitEmptySecondPiece | railties/lib/rails/test_unit/runner.rb:53 | `file::tail`, where `tail` has pieces, splits into `file`, an empty piece, and more |
| RunnerOptions.EmptySecondPieceArgument | railties/lib/rails/test_unit/runner.rb:53-55 | `file::tail`, where `tail` holds a character other than a colon, gives the expanded file and line 0, because the second piece is empty |
| RunnerOptions.FileLineArgument | railties/lib/rails/test_unit/runner.rb:53-55 | `file:N` gives the expanded file and exactly line N |
| RunnerOptions.ExtraPiecesArgument | railties/lib/rails/test_unit/runner.rb:53-55 | `a:b:c` gives the expanded `a` and the line `to_i(b)`; further pieces are dropped |
| RunnerOptions.TrailingColonsArgument | railties/lib/rails/test_unit/runner.rb:53-55 | `file:` (any number of trailing colons) gives the expanded file and no line |
| RunnerOptions.NonNumericLineArgument | railties/lib/rails/test_unit/runner.rb:55 | a line part that does not start like a number gives line 0, not an error |
| RunnerOptions.NoFilePartArgument | railties/lib/rails/test_unit/runner.rb:53-54 | for a non-directory argument the parse fails (`File.expand_path(nil)`) exactly when the argument consists only of colons |
| Runner.LineCount | railties/lib/rails/test_unit/runner.rb:110 | the line count of a source is 0 exactly when the source holds nothing but newlines |
| Runner.EntryOf | railties/lib/rails/test_unit/runner.rb:107-111 | no contract of its own; its span is stated by `SpanNotEmpty` and its place in the table by `TableAt` and `TableMembers` |
| Runner.SpanNotEmpty | railties/lib/rails/test_unit/runner.rb:109-110 | a method whose source has a character other than a newline has `end >= start` |
| Runner.Entries | railties/lib/rails/test_unit/runner.rb:106-112 | one row per runnable method of a suite, in method order, each with the span computed from its source |
| Runner.Table | railties/lib/rails/test_unit/runner.rb:102-115 | no contract of its own; stated by `TableLength`, `TableAt` and `TableMembers`, and built by `TestMethods` |
| Runner.TableLength | railties/lib/rails/test_unit/runner.rb:102-115 | the table has exactly as many rows as the suites have runnable methods |
| Runner.TableAt | railties/lib/rails/test_unit/runner.rb:102-115 | the row of method j of suite i comes right after the rows of all methods of the earlier suites (suite-then-method order) |
| Runner.RowOfMethod | railties/lib/rails/test_unit/runner.rb:105-111 | every runnable method of every suite has its row in the table |
| Runner.MethodOfRow | railties/lib/rails/test_unit/runner.rb:105-111 | every row of the table is the row of some runnable method of some suite |
| Runner.TableMembers | railties/lib/rails/test_unit/runner.rb:102-115 | a row is in the table exactly when it is the row of some runnable method of some suite |
| Runner.TestMethods | railties/lib/rails/test_unit/runner.rb:102-115 | the nested loops appending one row per method build exactly the table `Table(suites)` |
| Runner.FirstHit | railties/lib/rails/test_unit/runner.rb:74-77 | none exactly when no row has the file as location and the line within its inclusive span; otherwise the position of the first such row |
| Runner.TestRunner.FindMethod | railties/lib/rails/test_unit/runner.rb:71-79 | the explicit name wins whatever else is set; without a name and a line the result is nil; otherwise it is the name of the first row (table order) for the file whose inclusive span contains the line, and nil when there is none |
| Runner.LineInSpanSelects | railties/lib/rails/test_unit/runner.rb:74-78 | when the spans of different methods of one file do not overlap, every line of a method's span selects that method, its first and last lines included |
| Runner.OnlyMethodOfFile | railties/lib/rails/test_unit/runner.rb:74-78 | for the only method of its file, a line selects it exactly when start <= line <= end, so the first and last lines do and the lines just before and after do not |
| Runner.SameSuitesSameRows | railties/lib/rails/test_unit/runner.rb:104 | any reordering of the same suites gives a table with the same rows |
| Runner.FirstHitSameRows | railties/lib/rails/test_unit/runner.rb:74-77 | over tables with the same rows, where rows of one file for different methods do not overlap, the first hit names the same method |
| Runner.SameMethodsSameRows | railties/lib/rails/test_unit/runner.rb:104-105 | any two suite lists that run the same methods (suites reordered, methods within a suite reordered) give tables with the same rows |
| Runner.FindMethodIgnoresMethodOrder | railties/lib/rails/test_unit/runner.rb:104-105 | when rows of one file for different methods do not overlap, neither the order of the suites nor the order of each suite's methods changes what `find_method` returns |
| Runner.FindMethodIgnoresSuiteOrder | railties/lib/rails/test_unit/runner.rb:104 | when rows of one file for different methods do not overlap, the suite shuffle does not change which method `find_method` returns |
| Runner.TestRunner.ShowBacktrace | railties/lib/rails/test_unit/runner.rb:81-83 | no contract of its own; stated after parsing by `ParsedShowBacktrace` |
| Runner.TestRunner.TestFiles | railties/lib/rails/test_unit/runner.rb:92-100 | no contract of its own; stated after parsing by `ParsedTestFiles` |
| Runner.ParsedTestFiles | railties/lib/rails/test_unit/runner.rb:92-99 | after parsing, the files are the default glob `test/**/*_test.rb` with no argument, the directory's glob for a directory, and exactly the one expanded file otherwise |
| Runner.ParsedShowBacktrace | railties/lib/rails/test_unit/runner.rb:81-83 | `show_backtrace?` after parsing is true exactly when `-b` was given |
| Runner.ParsedFindMethod | railties/lib/rails/test_unit/runner.rb:72 | after parsing, the argument of the last `-n` is the method found, whatever file or line was given |
| Runner.ParsedNoLineNoMethod | railties/lib/rails/test_unit/runner.rb:73 | when parsing leaves no name (no `-n`, or a bare `-n` last) and there is no `:line` part, no method is selected |

## Left out

- OptionParser itself is not modelled: flag recognition, `order!`, the help text, `-h` printing usage and exiting, and unknown-option errors. The flags arrive already recognised.
- `Dir.exists?` and `File.expand_path` are parameters, and the glob expansion of `Rake::FileList` is not performed. `test_files` returns `Glob(pattern)`, not the matched files.
- `run` and `run_tests` are not modelled. They set the global `$rails_test_runner` and `require` each file, which is process state and code loading.
- The randomness of `.shuffle` is not modelled. The suites arrive in an arbitrary order, and each suite's methods arrive in an arbitrary order too (Minitest shuffles them under `test_order :random`). `FindMethodIgnoresSuiteOrder` and `FindMethodIgnoresMethodOrder` show neither order matters when the spans of different methods of one file do not overlap. Rows that repeat one method, as an inherited test does in every suite that inherits it, may share a span.
- Minitest and `method_source` introspection are not modelled. Each method's file, first line and source text are inputs.
- RubyString.ToI: does not model the `0d` decimal-radix prefix that Ruby's parser also accepts (`"0d12".to_i`), because the runner's line numbers never use it.
- `expand` is a total function, so `File.expand_path` raising ArgumentError (for `~nosuchuser/...`) is not modelled; only the nil file part fails.
- `method.source` raising `MethodSource::SourceNotFoundError` in `test_methods` (for a method whose source file cannot be read) is not modelled: every method's source text is an input.
- A Ruby hash with a key set to nil and a hash without that key are both `None`. Every reader in the runner treats them the same.
- Runner.TestRunner.ShowBacktrace and Runner.TestRunner.TestFiles carry no contract of their own. Their behaviour is stated after parsing by `ParsedShowBacktrace` and `ParsedTestFiles`.
