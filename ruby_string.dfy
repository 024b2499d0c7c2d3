/**
 * The two pieces of Ruby's String class that the test runner relies on:
 * `String#split` with a one-character separator (used for `file:line`
 * arguments and for counting the lines of a method's source) and
 * `String#to_i` (used to turn the line part into an Integer).
 */
module RubyString {

  /** Position of the first occurrence of `c` in `s`. */
  function IndexOf(s: string, c: char): (i: nat)
    requires c in s
    ensures i < |s| && s[i] == c && c !in s[..i]
  {
    if s[0] == c then 0
    else
      var i := 1 + IndexOf(s[1..], c);
      assert s[..i] == [s[0]] + s[1..][..i - 1];
      i
  }

  /** The pieces of `s` between occurrences of `sep`, empty pieces included. */
  function Pieces(s: string, sep: char): (ps: seq<string>)
    ensures |ps| >= 1
    ensures forall k :: 0 <= k < |ps| ==> sep !in ps[k]
    decreases |s|
  {
    if sep !in s then [s]
    else
      var i := IndexOf(s, sep);
      [s[..i]] + Pieces(s[i + 1..], sep)
  }

  /** Glues pieces back together with `sep` between consecutive ones. */
  function Join(ps: seq<string>, sep: char): string
    requires |ps| >= 1
  {
    if |ps| == 1 then ps[0] else ps[0] + [sep] + Join(ps[1..], sep)
  }

  /** Joining the pieces gives back the string that was cut. */
  lemma {:induction false} JoinPieces(s: string, sep: char)
    ensures Join(Pieces(s, sep), sep) == s
    decreases |s|
  {
    if sep in s {
      var i := IndexOf(s, sep);
      var rest := Pieces(s[i + 1..], sep);
      var ps := Pieces(s, sep);
      assert ps == [s[..i]] + rest;
      assert ps[1..] == rest;
      JoinPieces(s[i + 1..], sep);
      assert Join(ps, sep) == s[..i] + [sep] + s[i + 1..];
      assert s == s[..i] + [sep] + s[i + 1..];
    }
  }

  /** Cutting a joined sequence of separator-free pieces gives back those pieces. */
  lemma {:induction false} PiecesJoin(ps: seq<string>, sep: char)
    requires |ps| >= 1
    requires forall k :: 0 <= k < |ps| ==> sep !in ps[k]
    ensures Pieces(Join(ps, sep), sep) == ps
  {
    if |ps| > 1 {
      PiecesJoin(ps[1..], sep);
      PiecesAfterSeparator(ps[0], Join(ps[1..], sep), sep);
      assert ps == [ps[0]] + ps[1..];
    }
  }

  /** A separator-free prefix followed by a separator is exactly the first piece. */
  lemma PiecesAfterSeparator(f: string, t: string, sep: char)
    requires sep !in f
    ensures Pieces(f + [sep] + t, sep) == [f] + Pieces(t, sep)
  {
    var s := f + [sep] + t;
    assert s[|f|] == sep;
    assert forall k :: 0 <= k < |f| ==> s[k] == f[k];
    var i := IndexOf(s, sep);
    assert i <= |f| by {
      assert s[..i] == s[..|f|] + s[|f|..i] || i <= |f|;
    }
    assert s[..i] == f;
    assert s[i + 1..] == t;
  }

  /**
   * Removes the empty pieces at the end of `ps`: the result is a prefix of
   * `ps`, everything cut off is empty, and the result does not end in an
   * empty piece.
   */
  function DropTrailingEmpty(ps: seq<string>): (r: seq<string>)
    ensures |r| <= |ps| && r == ps[..|r|]
    ensures forall k :: |r| <= k < |ps| ==> ps[k] == []
    ensures r != [] ==> r[|r| - 1] != []
  {
    if ps == [] then []
    else
      var rest := DropTrailingEmpty(ps[1..]);
      if rest == [] && ps[0] == [] then []
      else [ps[0]] + rest
  }

  /**
   * Ruby's `s.split(sep)` for a one-character separator other than a space
   * (a single space switches Ruby to whitespace splitting, which the runner
   * never uses): the pieces between separators, with trailing empty pieces
   * removed, so that `"a::"` gives `["a"]` and `":::"` and `""` give `[]`.
   */
  function Split(s: string, sep: char): (ps: seq<string>)
    ensures forall k :: 0 <= k < |ps| ==> sep !in ps[k]
    ensures ps != [] ==> ps[|ps| - 1] != []
  {
    DropTrailingEmpty(Pieces(s, sep))
  }

  /** A string with no separator is one piece, or none when it is empty. */
  lemma SplitWithoutSeparator(s: string, sep: char)
    requires sep !in s
    ensures Split(s, sep) == if s == [] then [] else [s]
  {
  }

  /**
   * Splitting `f + sep + t`, with `f` free of separators, gives `f` followed
   * by the pieces of `t`, unless `t` has none, in which case `f` alone is
   * kept, and only when it is not empty.
   */
  lemma SplitAfterSeparator(f: string, t: string, sep: char)
    requires sep !in f
    ensures Split(f + [sep] + t, sep) ==
            if Split(t, sep) == [] then Split(f, sep) else [f] + Split(t, sep)
  {
    PiecesAfterSeparator(f, t, sep);
    var ps := [f] + Pieces(t, sep);
    assert ps[1..] == Pieces(t, sep);
  }

  /** Splitting gives no piece at all exactly when every character is a separator. */
  lemma {:induction false} SplitEmptyIff(s: string, sep: char)
    ensures Split(s, sep) == [] <==> forall k :: 0 <= k < |s| ==> s[k] == sep
    decreases |s|
  {
    if sep !in s {
      SplitWithoutSeparator(s, sep);
      if s != [] {
        assert s[0] != sep;
      }
    } else {
      var i := IndexOf(s, sep);
      var f, t := s[..i], s[i + 1..];
      assert s == f + [sep] + t;
      SplitAfterSeparator(f, t, sep);
      SplitWithoutSeparator(f, sep);
      SplitEmptyIff(t, sep);
      if Split(s, sep) == [] {
        assert f == [] && Split(t, sep) == [];
        forall k | 0 <= k < |s| ensures s[k] == sep {
          if k > i {
            assert s[k] == t[k - i - 1];
          }
        }
      } else {
        assert f != [] || Split(t, sep) != [];
        if f != [] {
          assert s[0] == f[0];
        } else {
          var k :| 0 <= k < |t| && t[k] != sep;
          assert s[k + i + 1] == t[k];
        }
      }
    }
  }

  predicate IsDigit(c: char) {
    '0' <= c <= '9'
  }

  /** The characters C's `isspace` accepts, which `to_i` skips at the front. */
  predicate IsSpace(c: char) {
    c == ' ' || c == '\t' || c == '\n' || c == '\U{0B}' || c == '\U{0C}' || c == '\r'
  }

  predicate AllDigits(d: string) {
    forall k :: 0 <= k < |d| ==> IsDigit(d[k])
  }

  function DigitValue(c: char): (v: nat)
    requires IsDigit(c)
    ensures v < 10
  {
    (c as int) - ('0' as int)
  }

  function DigitChar(v: nat): (c: char)
    requires v < 10
    ensures IsDigit(c) && DigitValue(c) == v
  {
    (('0' as int) + v) as char
  }

  /** Drops leading white space. */
  function SkipSpace(s: string): string {
    if s != [] && IsSpace(s[0]) then SkipSpace(s[1..]) else s
  }

  /**
   * The digits of the number that starts `s` (whose first character is
   * expected to be a digit), with the underscores Ruby allows between two
   * digits left out: `"1_000x"` gives `"1000"`, `"1__0"` gives `"1"`.
   */
  function NumberDigits(s: string): (d: string)
    ensures AllDigits(d)
  {
    if s != [] && IsDigit(s[0]) then [s[0]] + NumberDigits(s[1..])
    else if |s| >= 2 && s[0] == '_' && IsDigit(s[1]) then [s[1]] + NumberDigits(s[2..])
    else []
  }

  /** The digits of the leading number of `s`, empty when `s` does not start with a digit. */
  function LeadingDigits(s: string): (d: string)
    ensures AllDigits(d)
    ensures d == [] <==> (s == [] || !IsDigit(s[0]))
  {
    if s != [] && IsDigit(s[0]) then NumberDigits(s) else []
  }

  /** The value of a string of decimal digits. */
  function Value(d: string): nat
    requires AllDigits(d)
  {
    if d == [] then 0 else 10 * Value(d[..|d| - 1]) + DigitValue(d[|d| - 1])
  }

  /**
   * Ruby's `String#to_i`: skips leading white space, reads an optional sign
   * and then as many digits as follow (single underscores between digits
   * allowed). It never fails: a string with no number in front gives 0.
   */
  function ToI(s: string): (n: int)
    ensures (s == [] || !(IsDigit(s[0]) || IsSpace(s[0]) || s[0] == '+' || s[0] == '-')) ==> n == 0
  {
    var t := SkipSpace(s);
    if t != [] && t[0] == '-' then -(Value(LeadingDigits(t[1..])) as int)
    else if t != [] && t[0] == '+' then Value(LeadingDigits(t[1..]))
    else Value(LeadingDigits(t))
  }

  /** Decimal notation of a natural number, as Ruby's `Integer#to_s` writes it. */
  function Show(n: nat): (s: string)
    ensures s != [] && AllDigits(s)
    ensures s[0] == '0' ==> n == 0
  {
    if n < 10 then [DigitChar(n)] else Show(n / 10) + [DigitChar(n % 10)]
  }

  /** Reading the decimal notation of `n` gives back `n`. */
  lemma {:induction false} ValueShow(n: nat)
    ensures Value(Show(n)) == n
  {
    if n >= 10 {
      ValueShow(n / 10);
      var s := Show(n);
      assert s[..|s| - 1] == Show(n / 10);
    }
  }

  /** True when nothing at the front of `t` can continue a number: no digit, no `_digit`. */
  predicate EndsNumber(t: string) {
    t == [] || (!IsDigit(t[0]) && !(|t| >= 2 && t[0] == '_' && IsDigit(t[1])))
  }

  lemma {:induction false} NumberDigitsOfDigits(d: string, t: string)
    requires AllDigits(d) && EndsNumber(t)
    ensures NumberDigits(d + t) == d
  {
    if d == [] {
    } else {
      NumberDigitsOfDigits(d[1..], t);
      assert (d + t)[1..] == d[1..] + t;
    }
  }

  /**
   * A string that starts with a digit is read from its first character,
   * with or without a `+` or `-` in front.
   */
  lemma ToISigned(s: string)
    requires s != [] && IsDigit(s[0])
    ensures ToI(s) == Value(LeadingDigits(s))
    ensures ToI("+" + s) == Value(LeadingDigits(s))
    ensures ToI("-" + s) == -(Value(LeadingDigits(s)) as int)
  {
    var plus, minus := "+" + s, "-" + s;
    assert !IsSpace(s[0]);
    assert SkipSpace(s) == s;
    assert plus[0] == '+' && plus[1..] == s;
    assert SkipSpace(plus) == plus;
    assert minus[0] == '-' && minus[1..] == s;
    assert SkipSpace(minus) == minus;
  }

  /**
   * `to_i` reads back the decimal notation of `n`, with or without a sign,
   * and ignores whatever follows the number.
   */
  lemma ToIShow(n: nat, t: string)
    requires EndsNumber(t)
    ensures ToI(Show(n) + t) == n
    ensures ToI("+" + Show(n) + t) == n
    ensures ToI("-" + Show(n) + t) == -(n as int)
  {
    var s := Show(n);
    var u := s + t;
    var plus, minus := "+" + s + t, "-" + s + t;
    assert plus == "+" + u && minus == "-" + u;
    ToISigned(u);
    NumberDigitsOfDigits(s, t);
    assert u[0] == s[0];
    assert LeadingDigits(u) == s;
    ValueShow(n);
  }
}
