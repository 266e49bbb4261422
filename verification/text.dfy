/**
 * Text helpers the annotator relies on: Python's `str.split`/`str.join` on one
 * separator character, `str.isspace`, `str(int)`, and the blank-line filter
 * that `prettify_xml` applies to the pretty-printed document.
 */
module Text {
  import opened Wrappers

  // ---------------------------------------------------------------------------
  // Splitting and joining on one separator character
  // ---------------------------------------------------------------------------

  /** Python's split on one separator: the pieces between separators; always at least one piece. */
  function Split(s: string, sep: char): (parts: seq<string>)
    ensures |parts| >= 1
    ensures forall i :: 0 <= i < |parts| ==> sep !in parts[i]
  {
    if s == [] then [""]
    else
      var rest := Split(s[1..], sep);
      if s[0] == sep then [""] + rest
      else [[s[0]] + rest[0]] + rest[1..]
  }

  /** Python's join: the pieces with `sep` between neighbours. */
  function Join(parts: seq<string>, sep: char): string
  {
    if |parts| == 0 then ""
    else if |parts| == 1 then parts[0]
    else parts[0] + [sep] + Join(parts[1..], sep)
  }

  /** Joining the pieces of a split gives back the original text. */
  lemma {:induction false} JoinSplit(s: string, sep: char)
    ensures Join(Split(s, sep), sep) == s
  {
    if s != [] {
      var rest := Split(s[1..], sep);
      JoinSplit(s[1..], sep);
      if s[0] == sep {
        assert Split(s, sep) == [""] + rest;
        assert ([""] + rest)[1..] == rest;
      } else {
        var parts := [[s[0]] + rest[0]] + rest[1..];
        assert Split(s, sep) == parts;
        if |rest| == 1 {
          assert Join(parts, sep) == [s[0]] + rest[0];
        } else {
          assert parts[1..] == rest[1..];
          assert Join(rest, sep) == rest[0] + [sep] + Join(rest[1..], sep);
          assert Join(parts, sep) == [s[0]] + rest[0] + [sep] + Join(rest[1..], sep);
        }
        assert s == [s[0]] + s[1..];
      }
    }
  }

  /** A piece without the separator glues onto the first piece of what follows it. */
  lemma {:induction false} SplitPrefix(p: string, rest: string, sep: char)
    requires sep !in p
    ensures Split(p + rest, sep) == [p + Split(rest, sep)[0]] + Split(rest, sep)[1..]
  {
    if p != [] {
      SplitPrefix(p[1..], rest, sep);
      assert (p + rest)[1..] == p[1..] + rest;
      assert (p + rest)[0] == p[0];
      assert [p[0]] + (p[1..] + Split(rest, sep)[0]) == p + Split(rest, sep)[0];
    } else {
      assert p + rest == rest;
      var parts := Split(rest, sep);
      assert p + parts[0] == parts[0];
      assert parts == [parts[0]] + parts[1..];
    }
  }

  /** Splitting a join of separator-free pieces gives back the pieces. */
  lemma {:induction false} SplitJoin(parts: seq<string>, sep: char)
    requires |parts| >= 1
    requires forall i :: 0 <= i < |parts| ==> sep !in parts[i]
    ensures Split(Join(parts, sep), sep) == parts
  {
    if |parts| == 1 {
      SplitPrefix(parts[0], "", sep);
      assert parts[0] + "" == parts[0];
    } else {
      var tail := Join(parts[1..], sep);
      SplitJoin(parts[1..], sep);
      assert Join(parts, sep) == parts[0] + ([sep] + tail);
      SplitPrefix(parts[0], [sep] + tail, sep);
      assert ([sep] + tail)[1..] == tail;
      assert Split([sep] + tail, sep) == [""] + parts[1..];
      assert parts[0] + "" == parts[0];
      assert parts == [parts[0]] + parts[1..];
    }
  }

  /** The joined text is never shorter than its first piece and starts with it. */
  lemma JoinStartsWithFirst(parts: seq<string>, sep: char)
    requires |parts| >= 1
    ensures |Join(parts, sep)| >= |parts[0]|
    ensures Join(parts, sep)[..|parts[0]|] == parts[0]
  {
  }

  /** The joined text ends with the last character of the last piece, if that piece is non-empty. */
  lemma {:induction false} JoinEndsWithLast(parts: seq<string>, sep: char)
    requires |parts| >= 1 && |parts[|parts| - 1]| >= 1
    ensures |Join(parts, sep)| >= 1
    ensures Join(parts, sep)[|Join(parts, sep)| - 1] == parts[|parts| - 1][|parts[|parts| - 1]| - 1]
  {
    if |parts| > 1 {
      JoinEndsWithLast(parts[1..], sep);
      assert parts[1..][|parts[1..]| - 1] == parts[|parts| - 1];
    }
  }

  /** Appending an empty last piece adds one trailing separator. */
  lemma {:induction false} JoinAppendEmpty(parts: seq<string>, sep: char)
    requires |parts| >= 1
    ensures Join(parts + [""], sep) == Join(parts, sep) + [sep]
  {
    if |parts| == 1 {
      assert Join(parts + [""], sep) == parts[0] + [sep] + Join([""], sep);
    } else {
      JoinAppendEmpty(parts[1..], sep);
      assert (parts + [""])[1..] == parts[1..] + [""];
    }
  }

  // ---------------------------------------------------------------------------
  // Whitespace and the blank-line filter of prettify_xml
  // ---------------------------------------------------------------------------

  /** Python's `str.isspace` for one character. */
  predicate IsSpace(c: char)
  {
    c == ' ' || ('\t' <= c <= '\r') || ('\U{1C}' <= c <= '\U{1F}') || c == '\U{85}' || c == '\U{A0}'
    || c == '\U{1680}' || ('\U{2000}' <= c <= '\U{200A}') || c == '\U{2028}' || c == '\U{2029}'
    || c == '\U{202F}' || c == '\U{205F}' || c == '\U{3000}'
  }

  /** A line whose `strip()` is empty, so that the line is falsy. */
  predicate IsBlank(line: string)
  {
    forall i :: 0 <= i < |line| ==> IsSpace(line[i])
  }

  /** The lines that are not blank, in their order. */
  function NonBlank(lines: seq<string>): seq<string>
  {
    if lines == [] then []
    else (if IsBlank(lines[0]) then [] else [lines[0]]) + NonBlank(lines[1..])
  }

  /** The kept lines are exactly the non-blank ones. */
  lemma {:induction false} NonBlankMembers(lines: seq<string>, line: string)
    ensures line in NonBlank(lines) <==> line in lines && !IsBlank(line)
  {
    if lines != [] {
      NonBlankMembers(lines[1..], line);
      assert lines == [lines[0]] + lines[1..];
    }
  }

  /** The filter works line by line, so it keeps the order of the lines it keeps. */
  lemma {:induction false} NonBlankAppend(a: seq<string>, b: seq<string>)
    ensures NonBlank(a + b) == NonBlank(a) + NonBlank(b)
  {
    if a != [] {
      NonBlankAppend(a[1..], b);
      assert (a + b)[1..] == a[1..] + b;
    } else {
      assert a + b == b;
    }
  }

  /** Lines that are all non-blank are kept unchanged. */
  lemma {:induction false} NonBlankKeepsNonBlank(lines: seq<string>)
    requires forall i :: 0 <= i < |lines| ==> !IsBlank(lines[i])
    ensures NonBlank(lines) == lines
  {
    if lines != [] {
      NonBlankKeepsNonBlank(lines[1..]);
    }
  }

  /** The last step of `prettify_xml`: drop whitespace-only lines, rejoin, add one newline. */
  function StripBlankLines(pretty: string): string
  {
    Join(NonBlank(Split(pretty, '\n')), '\n') + "\n"
  }

  /**
   * The lines of the result are the non-blank lines of the input, in order,
   * followed by the empty remainder after the one trailing newline.
   */
  lemma StripBlankLinesLines(pretty: string)
    ensures var kept := NonBlank(Split(pretty, '\n'));
      (kept == [] ==> StripBlankLines(pretty) == "\n") &&
      (kept != [] ==> Split(StripBlankLines(pretty), '\n') == kept + [""])
  {
    var kept := NonBlank(Split(pretty, '\n'));
    if kept != [] {
      JoinAppendEmpty(kept, '\n');
      forall i | 0 <= i < |kept + [""]| ensures '\n' !in (kept + [""])[i] {
        if i < |kept| {
          NonBlankMembers(Split(pretty, '\n'), kept[i]);
        }
      }
      SplitJoin(kept + [""], '\n');
    }
  }

  /**
   * No line of the result, apart from the remainder after the final newline, is
   * blank, as long as the input had a non-blank line at all (otherwise the result
   * is the single newline "\n").
   */
  lemma StripBlankLinesHasNoBlankLine(pretty: string, i: nat)
    requires NonBlank(Split(pretty, '\n')) != []
    requires i < |Split(StripBlankLines(pretty), '\n')| - 1
    ensures !IsBlank(Split(StripBlankLines(pretty), '\n')[i])
  {
    var kept := NonBlank(Split(pretty, '\n'));
    StripBlankLinesLines(pretty);
    NonBlankMembers(Split(pretty, '\n'), kept[i]);
  }

  /** The result ends with exactly one newline. */
  lemma StripBlankLinesTrailingNewline(pretty: string)
    ensures var out := StripBlankLines(pretty);
      |out| >= 1 && out[|out| - 1] == '\n' && (|out| >= 2 ==> out[|out| - 2] != '\n')
  {
    var kept := NonBlank(Split(pretty, '\n'));
    if kept != [] {
      var last := kept[|kept| - 1];
      NonBlankMembers(Split(pretty, '\n'), last);
      assert last != [];
      JoinEndsWithLast(kept, '\n');
      assert '\n' !in last;
    }
  }

  /** Filtering an already filtered text changes nothing. */
  lemma StripBlankLinesIdempotent(pretty: string)
    ensures StripBlankLines(StripBlankLines(pretty)) == StripBlankLines(pretty)
  {
    var kept := NonBlank(Split(pretty, '\n'));
    StripBlankLinesLines(pretty);
    if kept == [] {
      assert Split("\n", '\n') == ["", ""];
      assert NonBlank(["", ""]) == [];
    } else {
      forall i | 0 <= i < |kept| ensures !IsBlank(kept[i]) {
        NonBlankMembers(Split(pretty, '\n'), kept[i]);
      }
      NonBlankAppend(kept, [""]);
      NonBlankKeepsNonBlank(kept);
      assert NonBlank([""]) == [];
      assert NonBlank(kept + [""]) == kept;
    }
  }

  // ---------------------------------------------------------------------------
  // Decimal text of integers: str(int) and its inverse
  // ---------------------------------------------------------------------------

  predicate IsDigit(c: char)
  {
    '0' <= c <= '9'
  }

  predicate AllDigits(s: string)
  {
    forall i :: 0 <= i < |s| ==> IsDigit(s[i])
  }

  function DigitChar(d: nat): (c: char)
    requires d < 10
    ensures IsDigit(c)
  {
    (('0' as int) + d) as char
  }

  function DigitValue(c: char): (d: nat)
    requires IsDigit(c)
    ensures d < 10
  {
    (c as int) - ('0' as int)
  }

  /** The decimal digits of a natural number, most significant first, without leading zeros. */
  function NatDigits(n: nat): (s: string)
    ensures |s| >= 1 && AllDigits(s)
  {
    if n < 10 then [DigitChar(n)] else NatDigits(n / 10) + [DigitChar(n % 10)]
  }

  /** Python's `str(i)` for an integer. */
  function Decimal(i: int): string
  {
    if i < 0 then "-" + NatDigits(-i) else NatDigits(i)
  }

  /** The value of a string of decimal digits. */
  function ParseNat(s: string): nat
    requires AllDigits(s)
  {
    if s == [] then 0 else ParseNat(s[..|s| - 1]) * 10 + DigitValue(s[|s| - 1])
  }

  /** Reads back an optionally negative decimal integer; the inverse of `Decimal`. */
  function ParseDecimal(s: string): Option<int>
  {
    if |s| >= 2 && s[0] == '-' && AllDigits(s[1..]) then Some(0 - ParseNat(s[1..]) as int)
    else if |s| >= 1 && AllDigits(s) then Some(ParseNat(s))
    else None
  }

  lemma {:induction false} ParseNatDigits(n: nat)
    ensures ParseNat(NatDigits(n)) == n
  {
    if n >= 10 {
      ParseNatDigits(n / 10);
      var s := NatDigits(n);
      assert s[..|s| - 1] == NatDigits(n / 10);
    }
  }

  /** `str(i)` is read back as `i`, and contains no space. */
  lemma DecimalRoundTrip(i: int)
    ensures ParseDecimal(Decimal(i)) == Some(i)
    ensures ' ' !in Decimal(i) && |Decimal(i)| >= 1
  {
    if i < 0 {
      ParseNatDigits(-i);
      assert Decimal(i)[1..] == NatDigits(-i);
    } else {
      ParseNatDigits(i);
    }
  }

  /** The decimal text of each integer, in order. */
  function Decimals(xs: seq<int>): (words: seq<string>)
    ensures |words| == |xs|
  {
    if xs == [] then [] else [Decimal(xs[0])] + Decimals(xs[1..])
  }

  /** The decimal texts of the integers, separated by single spaces. */
  function JoinInts(xs: seq<int>): string
  {
    Join(Decimals(xs), ' ')
  }

  function ParseAll(words: seq<string>): Option<seq<int>>
  {
    if words == [] then Some([])
    else match (ParseDecimal(words[0]), ParseAll(words[1..]))
      case (Some(x), Some(rest)) => Some([x] + rest)
      case _ => None
  }

  /** Reads a space-separated list of integers; the empty text is the empty list. */
  function ParseIntList(s: string): Option<seq<int>>
  {
    if s == "" then Some([]) else ParseAll(Split(s, ' '))
  }

  lemma {:induction false} DecimalsRoundTrip(xs: seq<int>)
    ensures ParseAll(Decimals(xs)) == Some(xs)
    ensures forall i :: 0 <= i < |xs| ==> ' ' !in Decimals(xs)[i] && |Decimals(xs)[i]| >= 1
  {
    if xs != [] {
      DecimalsRoundTrip(xs[1..]);
      DecimalRoundTrip(xs[0]);
      assert Decimals(xs)[1..] == Decimals(xs[1..]);
      assert xs == [xs[0]] + xs[1..];
    }
  }

  /** The space-joined decimal text of a list reads back as that list. */
  lemma IntListRoundTrip(xs: seq<int>)
    ensures ParseIntList(JoinInts(xs)) == Some(xs)
  {
    DecimalsRoundTrip(xs);
    if xs != [] {
      JoinStartsWithFirst(Decimals(xs), ' ');
      assert JoinInts(xs) != "";
      SplitJoin(Decimals(xs), ' ');
    }
  }
}
