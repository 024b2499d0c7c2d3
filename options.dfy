/**
 * `Rails::TestRunner::Options.parse`: turns the command line of
 * `bin/rails test [options] [file or directory]` into the options record
 * the runner is built from.
 *
 * Recognising flags is the job of Ruby's OptionParser and is not modelled:
 * the flags it recognised arrive as a sequence of `Flag` values, in command
 * line order, and the tokens it left over arrive as `rest`. Whether a path
 * is an existing directory (`Dir.exists?`) and `File.expand_path` are
 * parameters.
 */
module RunnerOptions {
  import opened Wrappers
  import opened RubyString

  /** The options hash; an absent key and a nil value are both `None`. */
  datatype Options = Options(
    backtrace: bool,
    name: Option<string>,
    filename: Option<string>,
    line: Option<int>,
    pattern: Option<string>)

  /** `{ backtrace: false, name: nil }` */
  const Defaults := Options(false, None, None, None, None)

  /** What a directory argument is turned into a recursive glob with. */
  const DirectorySuffix := "/**/*_test.rb"

  /** A flag OptionParser recognised: `-n/--name [NAME]` (the name is optional) or `-b/--backtrace`. */
  datatype Flag = NameFlag(given: Option<string>) | BacktraceFlag

  /** `File.expand_path(nil)` raises a TypeError when the argument has no file part at all. */
  datatype ParseError = NilFilename

  /** The options are consistent: never both a file and a pattern, and a line only with a file. */
  predicate WellFormed(o: Options) {
    !(o.filename.Some? && o.pattern.Some?) && (o.line.Some? ==> o.filename.Some?)
  }

  /**
   * What the block OptionParser runs for one flag does to the options: `-b`
   * only sets the backtrace switch, `-n` only the name, and neither touches
   * the filename, the line or the pattern.
   */
  function Applied(o: Options, f: Flag): (r: Options)
    ensures r.filename == o.filename && r.line == o.line && r.pattern == o.pattern
    ensures f.BacktraceFlag? ==> r.backtrace && r.name == o.name
    ensures f.NameFlag? ==> r.backtrace == o.backtrace && r.name == f.given
  {
    match f
    case NameFlag(n) => o.(name := n)
    case BacktraceFlag => o.(backtrace := true)
  }

  /**
   * The options after the blocks of `flags` ran, in order, on the defaults:
   * `backtrace` is set exactly when `-b` was given, `name` is the argument of
   * the last `-n` (nil when there is none), and nothing else is set.
   */
  function FlagsApplied(flags: seq<Flag>): (o: Options)
    ensures o.filename.None? && o.line.None? && o.pattern.None?
    ensures o.backtrace <==> BacktraceFlag in flags
    ensures (forall k :: 0 <= k < |flags| ==> !flags[k].NameFlag?) ==> o.name.None?
    ensures forall k :: (0 <= k < |flags| && flags[k].NameFlag? &&
                         (forall j :: k < j < |flags| ==> !flags[j].NameFlag?)) ==> o.name == flags[k].given
  {
    if flags == [] then Defaults
    else
      var init := flags[..|flags| - 1];
      assert forall k :: 0 <= k < |init| ==> init[k] == flags[k];
      assert flags == init + [flags[|flags| - 1]];
      Applied(FlagsApplied(init), flags[|flags| - 1])
  }

  /**
   * What the positional argument `arg` adds to the options `o`: the flags'
   * name and backtrace are kept, and options that had no file, line or
   * pattern come out well formed.
   */
  function WithArgument(o: Options, arg: string, isDir: string -> bool, expand: string -> string)
    : (r: Result<Options, ParseError>)
    ensures r.Success? ==> r.value.name == o.name && r.value.backtrace == o.backtrace
    ensures r.Success? && o.filename.None? && o.line.None? && o.pattern.None? ==> WellFormed(r.value)
  {
    if isDir(arg) then Success(o.(pattern := Some(arg + DirectorySuffix)))
    else
      var pieces := Split(arg, ':');
      if pieces == [] then Failure(NilFilename)
      else Success(o.(filename := Some(expand(pieces[0])),
                      line := if |pieces| >= 2 then Some(ToI(pieces[1])) else None))
  }

  /** The outcome of `Options.parse`: the flags' effects, then the first leftover token, if any. */
  function Parsed(flags: seq<Flag>, rest: seq<string>, isDir: string -> bool, expand: string -> string)
    : Result<Options, ParseError>
  {
    var o := FlagsApplied(flags);
    if rest == [] then Success(o) else WithArgument(o, rest[0], isDir, expand)
  }

  /**
   * `Options.parse`: starts from the defaults, lets each recognised flag
   * update the options in turn, then takes one leftover token (any further
   * ones are ignored) and records it as a directory pattern or as a file
   * with an optional line.
   */
  method Parse(flags: seq<Flag>, rest: seq<string>, isDir: string -> bool, expand: string -> string)
    returns (r: Result<Options, ParseError>)
    ensures r == Parsed(flags, rest, isDir, expand)
  {
    var options := Defaults;
    var i := 0;
    while i < |flags|
      invariant 0 <= i <= |flags|
      invariant options == FlagsApplied(flags[..i])
    {
      assert flags[..i + 1][..i] == flags[..i];
      match flags[i] {
        case NameFlag(n) =>
          options := options.(name := n);
        case BacktraceFlag =>
          options := options.(backtrace := true);
      }
      i := i + 1;
    }
    assert flags[..i] == flags;
    if rest == [] {
      return Success(options);
    }
    var arg := rest[0];
    if isDir(arg) {
      options := options.(pattern := Some(arg + DirectorySuffix));
    } else {
      var pieces := Split(arg, ':');
      var first: Option<string> := if pieces == [] then None else Some(pieces[0]);
      var second: Option<string> := if |pieces| >= 2 then Some(pieces[1]) else None;
      if first.None? {
        return Failure(NilFilename);
      }
      options := options.(filename := Some(expand(first.value)));
      options := options.(line := if second.Some? then Some(ToI(second.value)) else None);
    }
    return Success(options);
  }

  /** Whatever the command line, a successful parse gives consistent options. */
  lemma ParsedWellFormed(flags: seq<Flag>, rest: seq<string>, isDir: string -> bool, expand: string -> string)
    ensures Parsed(flags, rest, isDir, expand).Success? ==> WellFormed(Parsed(flags, rest, isDir, expand).value)
  {
  }

  /**
   * With no positional argument the parse cannot fail and sets no file, line
   * or pattern: only `-b` and `-n` leave a mark.
   */
  lemma NoArgumentParsed(flags: seq<Flag>, isDir: string -> bool, expand: string -> string)
    ensures var r := Parsed(flags, [], isDir, expand);
            r.Success? && r.value.filename.None? && r.value.line.None? && r.value.pattern.None? &&
            (r.value.backtrace <==> BacktraceFlag in flags) &&
            ((forall j :: 0 <= j < |flags| ==> !flags[j].NameFlag?) ==> r.value.name.None?)
  {
  }

  /** Only the first leftover token counts: the ones after it are ignored. */
  lemma FurtherTokensIgnored(flags: seq<Flag>, rest: seq<string>, isDir: string -> bool, expand: string -> string)
    requires rest != []
    ensures Parsed(flags, rest, isDir, expand) == Parsed(flags, rest[..1], isDir, expand)
  {
    assert rest[..1][0] == rest[0];
  }

  /**
   * A directory argument becomes a recursive `*_test.rb` glob under it, with
   * no file or line; what the flags set is kept.
   */
  lemma DirectoryArgument(o: Options, dir: string, isDir: string -> bool, expand: string -> string)
    requires isDir(dir)
    ensures var r := WithArgument(o, dir, isDir, expand);
            r == Success(o.(pattern := Some(dir + "/**/*_test.rb"))) &&
            (o.filename.None? && o.line.None? ==> WellFormed(r.value))
  {
  }

  /** A non-empty path with no colon is a file and no line. */
  lemma FileArgument(o: Options, path: string, isDir: string -> bool, expand: string -> string)
    requires !isDir(path) && path != [] && ':' !in path
    ensures WithArgument(o, path, isDir, expand) == Success(o.(filename := Some(expand(path)), line := None))
  {
    SplitWithoutSeparator(path, ':');
  }

  lemma DigitsHaveNoColon(d: string)
    requires AllDigits(d)
    ensures ':' !in d
  {
    assert forall k :: 0 <= k < |d| ==> d[k] != ':';
  }

  /** `file:second` gives the expanded file and the line `to_i(second)`, whatever `second` holds. */
  lemma SecondPieceArgument(o: Options, file: string, second: string, isDir: string -> bool, expand: string -> string)
    requires ':' !in file && ':' !in second && second != []
    requires !isDir(file + ":" + second)
    ensures WithArgument(o, file + ":" + second, isDir, expand) ==
            Success(o.(filename := Some(expand(file)), line := Some(ToI(second))))
  {
    SplitAfterSeparator(file, second, ':');
    SplitWithoutSeparator(second, ':');
    assert Split(file + ":" + second, ':') == [file, second];
  }

  /** A colon in front of a string with pieces adds an empty first piece. */
  lemma LeadingColon(tail: string)
    requires Split(tail, ':') != []
    ensures Split([':'] + tail, ':') == [[]] + Split(tail, ':')
  {
    SplitAfterSeparator([], tail, ':');
    assert [] + [':'] + tail == [':'] + tail;
  }

  /** `file::tail`, where `tail` has pieces, splits into `file`, an empty piece, and more. */
  lemma SplitEmptySecondPiece(file: string, tail: string)
    requires ':' !in file && Split(tail, ':') != []
    ensures var ps := Split(file + "::" + tail, ':'); |ps| >= 2 && ps[0] == file && ps[1] == []
  {
    var arg := file + "::" + tail;
    var after := [':'] + tail;
    assert arg == file + [':'] + after;
    LeadingColon(tail);
    SplitAfterSeparator(file, after, ':');
    assert Split(arg, ':') == [file] + Split(after, ':');
  }

  /** `file::tail` has an empty second piece, so its line is 0 whatever `tail` holds. */
  lemma EmptySecondPieceArgument(o: Options, file: string, tail: string,
                                 isDir: string -> bool, expand: string -> string)
    requires ':' !in file
    requires exists k :: 0 <= k < |tail| && tail[k] != ':'
    requires !isDir(file + "::" + tail)
    ensures WithArgument(o, file + "::" + tail, isDir, expand) ==
            Success(o.(filename := Some(expand(file)), line := Some(0)))
  {
    SplitEmptyIff(tail, ':');
    SplitEmptySecondPiece(file, tail);
  }

  /** `file:N` gives the expanded file and exactly the line N. */
  lemma FileLineArgument(o: Options, file: string, n: nat, isDir: string -> bool, expand: string -> string)
    requires ':' !in file
    requires !isDir(file + ":" + Show(n))
    ensures WithArgument(o, file + ":" + Show(n), isDir, expand) ==
            Success(o.(filename := Some(expand(file)), line := Some(n)))
  {
    var digits := Show(n);
    DigitsHaveNoColon(digits);
    SecondPieceArgument(o, file, digits, isDir, expand);
    ToIShow(n, []);
    assert digits + [] == digits;
  }

  /** `a:b:c` keeps `a` as the file and reads the line from `b`; the rest is dropped. */
  lemma ExtraPiecesArgument(o: Options, file: string, second: string, tail: string,
                            isDir: string -> bool, expand: string -> string)
    requires ':' !in file && ':' !in second && second != []
    requires !isDir(file + ":" + second + ":" + tail)
    ensures WithArgument(o, file + ":" + second + ":" + tail, isDir, expand) ==
            Success(o.(filename := Some(expand(file)), line := Some(ToI(second))))
  {
    var after := second + [':'] + tail;
    var arg := file + ":" + second + ":" + tail;
    assert arg == file + [':'] + after;
    SplitAfterSeparator(second, tail, ':');
    SplitWithoutSeparator(second, ':');
    assert Split(after, ':') != [] && Split(after, ':')[0] == second;
    SplitAfterSeparator(file, after, ':');
    assert Split(arg, ':') == [file] + Split(after, ':');
  }

  /** `file:` (or `file::`) has no line: the empty pieces at the end are dropped. */
  lemma TrailingColonsArgument(o: Options, file: string, colons: string,
                               isDir: string -> bool, expand: string -> string)
    requires ':' !in file && file != []
    requires forall k :: 0 <= k < |colons| ==> colons[k] == ':'
    requires !isDir(file + ":" + colons)
    ensures WithArgument(o, file + ":" + colons, isDir, expand) ==
            Success(o.(filename := Some(expand(file)), line := None))
  {
    SplitEmptyIff(colons, ':');
    SplitAfterSeparator(file, colons, ':');
    SplitWithoutSeparator(file, ':');
    assert Split(file + ":" + colons, ':') == [file];
  }

  /** A line part that does not start like a number becomes line 0, never an error. */
  lemma NonNumericLineArgument(o: Options, file: string, second: string,
                               isDir: string -> bool, expand: string -> string)
    requires ':' !in file && ':' !in second && second != []
    requires !(IsDigit(second[0]) || IsSpace(second[0]) || second[0] == '+' || second[0] == '-')
    requires !isDir(file + ":" + second)
    ensures WithArgument(o, file + ":" + second, isDir, expand) ==
            Success(o.(filename := Some(expand(file)), line := Some(0)))
  {
    SecondPieceArgument(o, file, second, isDir, expand);
  }

  /** An argument made of colons only (or empty) leaves no file part, and expanding nil fails. */
  lemma NoFilePartArgument(o: Options, arg: string, isDir: string -> bool, expand: string -> string)
    requires !isDir(arg)
    ensures WithArgument(o, arg, isDir, expand) == Failure(NilFilename) <==>
            forall k :: 0 <= k < |arg| ==> arg[k] == ':'
  {
    SplitEmptyIff(arg, ':');
  }
}
