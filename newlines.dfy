/**
 * Line-ending normalisation of `normalize_newlines` (main.py): Python's
 * `str.replace` applied twice, first CRLF to LF, then CR to LF.
 */
module Newlines {

  const CR: char := '\r'
  const LF: char := '\n'

  /** Python's `s.replace(pat, rep)`: every non-overlapping occurrence of
      `pat`, scanning left to right, is replaced by `rep`. */
  function Replace(s: string, pat: string, rep: string): string
    requires |pat| > 0
    decreases |s|
  {
    if |s| < |pat| then s
    else if s[..|pat|] == pat then rep + Replace(s[|pat|..], pat, rep)
    else [s[0]] + Replace(s[1..], pat, rep)
  }

  /** `normalize_newlines`, two replace passes exactly as written. */
  function Normalize(s: string): string
  {
    Replace(Replace(s, "\r\n", "\n"), "\r", "\n")
  }

  /** Independent reference: a single left-to-right rewrite in which a CR
      followed by LF becomes one LF and any other CR becomes LF. */
  function Rewrite(s: string): string
    decreases |s|
  {
    if s == [] then []
    else if s[0] == CR then
      if |s| > 1 && s[1] == LF then [LF] + Rewrite(s[2..]) else [LF] + Rewrite(s[1..])
    else [s[0]] + Rewrite(s[1..])
  }

  /** The characters other than CR and LF, in order. */
  function Strip(s: string): string
    decreases |s|
  {
    if s == [] then []
    else if s[0] == CR || s[0] == LF then Strip(s[1..])
    else [s[0]] + Strip(s[1..])
  }

  /** How a line is terminated. */
  datatype Ending = LineFeed | CarriageReturn | CrLf

  function EndingText(e: Ending): string
  {
    match e
    case LineFeed => "\n"
    case CarriageReturn => "\r"
    case CrLf => "\r\n"
  }

  ghost predicate IsPlainLine(line: string)
  {
    CR !in line && LF !in line
  }

  /** The text made of `lines`, each followed by the terminator `e`. */
  function Terminated(lines: seq<string>, e: Ending): string
    decreases |lines|
  {
    if lines == [] then [] else lines[0] + (EndingText(e) + Terminated(lines[1..], e))
  }

  // ---------------------------------------------------------------------
  // The second pass (replacing a one-character pattern)

  lemma ReplaceCrCons(c: char, t: string)
    ensures Replace([c] + t, "\r", "\n") == (if c == CR then [LF] else [c]) + Replace(t, "\r", "\n")
  {
    var s := [c] + t;
    assert s[..1] == [c];
    assert s[1..] == t;
  }

  /** The two passes compose to the single left-to-right rewrite. */
  lemma {:induction false} NormalizeIsRewrite(s: string)
    ensures Normalize(s) == Rewrite(s)
    decreases |s|
  {
    var a := Replace(s, "\r\n", "\n");
    if |s| < 2 {
      assert a == s;
      if s != [] {
        assert s == [s[0]] + [];
        ReplaceCrCons(s[0], []);
      }
    } else if s[..2] == "\r\n" {
      assert s[0] == CR && s[1] == LF;
      assert a == "\n" + Replace(s[2..], "\r\n", "\n");
      ReplaceCrCons(LF, Replace(s[2..], "\r\n", "\n"));
      NormalizeIsRewrite(s[2..]);
    } else {
      assert a == [s[0]] + Replace(s[1..], "\r\n", "\n");
      ReplaceCrCons(s[0], Replace(s[1..], "\r\n", "\n"));
      NormalizeIsRewrite(s[1..]);
    }
  }

  lemma NormalizeExamples()
    ensures Normalize("\r\r\n") == "\n\n"
    ensures Normalize("\n\r") == "\n\n"
  {
    assert Rewrite("\r\n") == "\n" + Rewrite([]);
    assert Rewrite("\r\r\n") == "\n" + Rewrite("\r\n");
    NormalizeIsRewrite("\r\r\n");
    assert Rewrite("\n\r") == "\n" + Rewrite("\r");
    NormalizeIsRewrite("\n\r");
  }

  // ---------------------------------------------------------------------
  // Properties of the rewrite, and hence of Normalize

  lemma {:induction false} RewriteNoCr(s: string)
    ensures CR !in Rewrite(s)
    decreases |s|
  {
    if s != [] {
      if s[0] == CR && |s| > 1 && s[1] == LF { RewriteNoCr(s[2..]); } else { RewriteNoCr(s[1..]); }
    }
  }

  lemma {:induction false} RewriteFixesPlain(s: string)
    ensures Rewrite(s) == s <==> CR !in s
    decreases |s|
  {
    if s != [] {
      if s[0] == CR {
        RewriteNoCr(s);
      } else {
        RewriteFixesPlain(s[1..]);
        assert s == [s[0]] + s[1..];
      }
    }
  }

  lemma {:induction false} RewriteShorter(s: string)
    ensures |Rewrite(s)| <= |s|
    ensures |Rewrite(s)| == 0 <==> |s| == 0
    decreases |s|
  {
    if s != [] {
      if s[0] == CR && |s| > 1 && s[1] == LF { RewriteShorter(s[2..]); } else { RewriteShorter(s[1..]); }
    }
  }

  lemma {:induction false} RewriteKeepsText(s: string)
    ensures Strip(Rewrite(s)) == Strip(s)
    decreases |s|
  {
    if s != [] {
      if s[0] == CR {
        if |s| > 1 && s[1] == LF {
          RewriteKeepsText(s[2..]);
          assert Strip(s) == Strip(s[1..]) == Strip(s[2..]);
          assert Strip([LF] + Rewrite(s[2..])) == Strip(Rewrite(s[2..])) by {
            assert ([LF] + Rewrite(s[2..]))[1..] == Rewrite(s[2..]);
          }
        } else {
          RewriteKeepsText(s[1..]);
          assert ([LF] + Rewrite(s[1..]))[1..] == Rewrite(s[1..]);
        }
      } else {
        RewriteKeepsText(s[1..]);
        assert ([s[0]] + Rewrite(s[1..]))[1..] == Rewrite(s[1..]);
      }
    }
  }

  /** The result never contains a carriage return. */
  lemma NormalizeNoCr(s: string)
    ensures CR !in Normalize(s)
  {
    NormalizeIsRewrite(s);
    RewriteNoCr(s);
  }

  /** Normalising leaves a string unchanged exactly when it has no CR. */
  lemma NormalizeFixesPlain(s: string)
    ensures Normalize(s) == s <==> CR !in s
  {
    NormalizeIsRewrite(s);
    RewriteFixesPlain(s);
  }

  lemma NormalizeIdempotent(s: string)
    ensures Normalize(Normalize(s)) == Normalize(s)
  {
    NormalizeNoCr(s);
    NormalizeFixesPlain(Normalize(s));
  }

  /** Never longer than the input, and empty only for the empty input. */
  lemma NormalizeShorter(s: string)
    ensures |Normalize(s)| <= |s|
    ensures Normalize(s) == [] <==> s == []
  {
    NormalizeIsRewrite(s);
    RewriteShorter(s);
  }

  /** Every character other than CR and LF is kept, in order. */
  lemma NormalizeKeepsText(s: string)
    ensures Strip(Normalize(s)) == Strip(s)
  {
    NormalizeIsRewrite(s);
    RewriteKeepsText(s);
  }

  // ---------------------------------------------------------------------
  // Line-ending conventions

  lemma {:induction false} RewritePlainPrefix(line: string, rest: string)
    requires IsPlainLine(line)
    ensures Rewrite(line + rest) == line + Rewrite(rest)
    decreases |line|
  {
    if line == [] {
      assert line + rest == rest;
    } else {
      assert (line + rest)[0] == line[0];
      assert (line + rest)[1..] == line[1..] + rest;
      assert IsPlainLine(line[1..]) by {
        assert forall k :: 0 <= k < |line[1..]| ==> line[1..][k] == line[k + 1];
      }
      RewritePlainPrefix(line[1..], rest);
      assert line == [line[0]] + line[1..];
    }
  }

  lemma RewriteEnding(e: Ending, rest: string)
    requires e == CarriageReturn ==> rest == [] || rest[0] != LF
    ensures Rewrite(EndingText(e) + rest) == [LF] + Rewrite(rest)
  {
    var t := EndingText(e) + rest;
    match e
    case LineFeed =>
      assert t[1..] == rest;
    case CarriageReturn =>
      assert t[1..] == rest;
    case CrLf =>
      assert t[2..] == rest;
  }

  /** A text of plain lines ended by CR or CRLF never starts with LF. */
  lemma TerminatedStart(lines: seq<string>, e: Ending)
    requires forall i :: 0 <= i < |lines| ==> IsPlainLine(lines[i])
    requires e != LineFeed
    ensures Terminated(lines, e) == [] || Terminated(lines, e)[0] != LF
  {
    if lines != [] {
      var t := Terminated(lines, e);
      assert t == lines[0] + (EndingText(e) + Terminated(lines[1..], e));
      if lines[0] != [] {
        assert t[0] == lines[0][0];
        assert lines[0][0] in lines[0];
      } else {
        assert t[0] == CR;
      }
    }
  }

  /** The rewrite splits at a boundary that does not cut a CRLF pair. */
  lemma {:induction false} RewriteConcat(x: string, y: string)
    requires x == [] || x[|x| - 1] != CR || y == [] || y[0] != LF
    ensures Rewrite(x + y) == Rewrite(x) + Rewrite(y)
    decreases |x|
  {
    if x == [] {
      assert x + y == y;
    } else {
      var xy := x + y;
      assert xy[0] == x[0];
      if x[0] == CR && |x| > 1 && x[1] == LF {
        assert xy[1] == LF && xy[2..] == x[2..] + y;
        RewriteConcat(x[2..], y);
      } else if x[0] == CR && |x| == 1 {
        assert xy[1..] == y;
      } else {
        assert |x| > 1 ==> xy[1] == x[1];
        assert xy[1..] == x[1..] + y;
        RewriteConcat(x[1..], y);
      }
    }
  }

  lemma {:induction false} TerminatedNormalizes(lines: seq<string>, e: Ending)
    requires forall i :: 0 <= i < |lines| ==> IsPlainLine(lines[i])
    ensures Rewrite(Terminated(lines, e)) == Terminated(lines, LineFeed)
    decreases |lines|
  {
    if lines != [] {
      var line, tail := lines[0], lines[1..];
      assert forall i :: 0 <= i < |tail| ==> IsPlainLine(tail[i]) by {
        assert forall i :: 0 <= i < |tail| ==> tail[i] == lines[i + 1];
      }
      var rest := Terminated(tail, e);
      TerminatedNormalizes(tail, e);
      if e != LineFeed {
        TerminatedStart(tail, e);
      }
      RewriteEnding(e, rest);
      RewritePlainPrefix(line, EndingText(e) + rest);
    }
  }

  /** Plain lines ended by `e`, then an unterminated plain last line. */
  lemma TerminatedTailNormalizes(lines: seq<string>, last: string, e: Ending)
    requires forall i :: 0 <= i < |lines| ==> IsPlainLine(lines[i])
    requires IsPlainLine(last)
    ensures Rewrite(Terminated(lines, e) + last) == Terminated(lines, LineFeed) + last
  {
    assert last != [] ==> last[0] in last;
    RewriteConcat(Terminated(lines, e), last);
    TerminatedNormalizes(lines, e);
    RewriteFixesPlain(last);
  }

  /** Two texts with the same lines, each line but the last written with one
      uniform line-ending convention (LF, CR or CRLF), normalise to the same
      string. */
  lemma ConventionsAgree(lines: seq<string>, last: string, e1: Ending, e2: Ending)
    requires forall i :: 0 <= i < |lines| ==> IsPlainLine(lines[i])
    requires IsPlainLine(last)
    ensures Normalize(Terminated(lines, e1) + last) == Normalize(Terminated(lines, e2) + last)
                                                   == Terminated(lines, LineFeed) + last
  {
    TerminatedTailNormalizes(lines, last, e1);
    TerminatedTailNormalizes(lines, last, e2);
    NormalizeIsRewrite(Terminated(lines, e1) + last);
    NormalizeIsRewrite(Terminated(lines, e2) + last);
  }

  /** Uniformity matters: a CR-terminated line followed by an empty
      LF-terminated line reads as a single CRLF. */
  lemma MixedEndingsMayMerge()
    ensures Normalize("a" + EndingText(CarriageReturn) + "" + EndingText(LineFeed)) == "a\n"
    ensures Terminated(["a", ""], LineFeed) == "a\n\n"
  {
    NormalizeIsRewrite("a\r\n");
    assert "a" + EndingText(CarriageReturn) + "" + EndingText(LineFeed) == "a\r\n";
  }
}
