/**
 * The verdict logic of `run_test` (main.py). Running the child process is
 * abstracted as a `RunOutcome`: what `communicate` handed back, or which
 * exception escaped. UTF-8 decoding is the parameter `decode`.
 */
module Executor {

  import opened Wrappers
  import opened Newlines

  newtype byte = x: int | 0 <= x < 256

  type Decoder = seq<byte> -> Option<string>

  /** One entry of the `tests` list of `student_tests.json`. */
  datatype TestCase = TestCase(name: string, input: string, output: string)

  /** How the child-process part of `run_test` ended. */
  datatype RunOutcome =
      /** `communicate` returned within the timeout; element 0 is stdout. */
    | Completed(output: seq<byte>)
      /** The first `communicate` timed out; the child was killed and a
          second `communicate` returned this (stdout, stderr) pair. */
    | TimedOut(stdout: Option<seq<byte>>, stderr: Option<seq<byte>>)
      /** `subprocess.CalledProcessError` escaped the inner block. */
    | CalledProcessFailure
      /** `subprocess.TimeoutExpired` escaped the inner block. */
    | OuterTimeout(detail: Option<seq<byte>>)
      /** Any other exception, e.g. the executable could not be started. */
    | OtherFailure

  /** Python truthiness of an optional byte string. */
  predicate Truthy(b: Option<seq<byte>>)
  {
    b.Some? && |b.value| > 0
  }

  /** After a timeout: stderr if it holds anything, otherwise stdout. */
  function TimeoutPayload(stdout: Option<seq<byte>>, stderr: Option<seq<byte>>): Option<seq<byte>>
  {
    if Truthy(stderr) then stderr else stdout
  }

  /** What the second `communicate` returns here: the child is spawned with
      a stdout pipe and no stderr pipe, so stdout is bytes and stderr `None`. */
  predicate StderrNotPiped(o: RunOutcome)
  {
    o.TimedOut? ==> o.stdout.Some? && o.stderr.None?
  }

  /** Decoding a chosen payload; `None` when the payload is missing (the
      attribute error on `None.decode`) or not valid text: both are caught
      by the generic handler. */
  function DecodePayload(decode: Decoder, payload: Option<seq<byte>>): Option<string>
  {
    match payload
    case None => None
    case Some(bytes) => decode(bytes)
  }

  /** The text the child produced, when the run got as far as decoding it. */
  function Produced(o: RunOutcome, decode: Decoder): Option<string>
  {
    match o
    case Completed(out) => DecodePayload(decode, Some(out))
    case TimedOut(out, err) => DecodePayload(decode, TimeoutPayload(out, err))
    case CalledProcessFailure => None
    case OuterTimeout(_) => None
    case OtherFailure => None
  }

  /** The verdict `run_test` returns: a called-process error fails outright;
      otherwise the normalised produced text (empty when the run failed before
      decoding) must equal the normalised expected output. */
  function Verdict(t: TestCase, o: RunOutcome, decode: Decoder): bool
  {
    !o.CalledProcessFailure? &&
    Normalize(if Produced(o, decode).Some? then Produced(o, decode).value else "") == Normalize(t.output)
  }

  /** `run_test`, following its local variables through the handlers. */
  method RunTest(t: TestCase, o: RunOutcome, decode: Decoder) returns (passed: bool)
    ensures passed == Verdict(t, o, decode)
  {
    var outputData := Normalize(t.output);
    var actualOutput := "";
    match o {
      case CalledProcessFailure =>
        return false;
      case Completed(out) =>
        var result := out;
        var text := decode(result);
        if text.Some? {
          actualOutput := Normalize(text.value);
        }
      case TimedOut(out, err) =>
        var result := if Truthy(err) then err else out;
        if result.Some? {
          var text := decode(result.value);
          if text.Some? {
            actualOutput := Normalize(text.value);
          }
        }
      case OuterTimeout(_) =>
      case OtherFailure =>
    }
    passed := actualOutput == outputData;
  }

  // ---------------------------------------------------------------------
  // What the verdict means

  /** A called-process error fails without any comparison. */
  lemma CalledProcessFails(t: TestCase, decode: Decoder)
    ensures !Verdict(t, CalledProcessFailure, decode)
  {
  }

  /** When output was produced and decoded, the test passes exactly when the
      normalised texts agree. */
  lemma ProducedVerdict(t: TestCase, o: RunOutcome, decode: Decoder, actual: string)
    requires Produced(o, decode) == Some(actual)
    ensures Verdict(t, o, decode) <==> Normalize(actual) == Normalize(t.output)
  {
  }

  /** Any other failure leaves the actual output empty, so the test passes
      exactly when the expected output is the empty string. */
  lemma FailureVerdict(t: TestCase, o: RunOutcome, decode: Decoder)
    requires !o.CalledProcessFailure? && Produced(o, decode).None?
    ensures Verdict(t, o, decode) <==> t.output == ""
  {
    NormalizeShorter(t.output);
    assert Normalize("") == "";
  }

  /** No text is captured exactly when a handler fired before decoding, the
      timeout left no payload, or the payload did not decode. */
  lemma FailureCases(o: RunOutcome, decode: Decoder)
    ensures Produced(o, decode).None? <==>
      o.CalledProcessFailure? || o.OuterTimeout? || o.OtherFailure? ||
      (o.Completed? && decode(o.output).None?) ||
      (o.TimedOut? && (TimeoutPayload(o.stdout, o.stderr).None? ||
                       decode(TimeoutPayload(o.stdout, o.stderr).value).None?))
  {
  }

  /** When stderr holds nothing, a timed-out run is judged on stdout. */
  lemma TimeoutUsesStdout(o: RunOutcome, decode: Decoder)
    requires o.TimedOut? && !Truthy(o.stderr)
    ensures Produced(o, decode) == DecodePayload(decode, o.stdout)
  {
  }

  /** In this harness stderr is not piped, so a timed-out run is judged on
      the stdout captured before the kill. */
  lemma NotPipedUsesStdout(o: RunOutcome, decode: Decoder)
    requires o.TimedOut? && StderrNotPiped(o)
    ensures Produced(o, decode) == decode(o.stdout.value)
  {
    TimeoutUsesStdout(o, decode);
  }

  /** With stderr piped and non-empty, a timed-out run is judged on stderr. */
  lemma TimeoutPrefersStderr(o: RunOutcome, decode: Decoder)
    requires o.TimedOut? && Truthy(o.stderr)
    ensures Produced(o, decode) == decode(o.stderr.value)
  {
  }

  /** A program whose output differs from the expected output only in its
      line-ending convention passes. */
  lemma LineEndingsIgnored(t: TestCase, o: RunOutcome, decode: Decoder,
                           lines: seq<string>, last: string, produced: Ending, expected: Ending)
    requires forall i :: 0 <= i < |lines| ==> IsPlainLine(lines[i])
    requires IsPlainLine(last)
    requires Produced(o, decode) == Some(Terminated(lines, produced) + last)
    requires t.output == Terminated(lines, expected) + last
    ensures Verdict(t, o, decode)
  {
    ConventionsAgree(lines, last, produced, expected);
  }

  /** Expected "a\nb" against a program printing "a\r\nb": the test passes. */
  lemma UnterminatedExample(decode: Decoder, out: seq<byte>)
    requires decode(out) == Some("a\r\nb")
    ensures Verdict(TestCase("crlf", "", "a\nb"), Completed(out), decode)
  {
    assert Terminated(["a"], CrLf) + "b" == "a\r\nb";
    assert Terminated(["a"], LineFeed) + "b" == "a\nb";
    LineEndingsIgnored(TestCase("crlf", "", "a\nb"), Completed(out), decode, ["a"], "b", CrLf, LineFeed);
  }

  /** The echo example: expected "hi\n", a program echoing its input passes
      and one printing "bye\n" fails. */
  lemma EchoExample(decode: Decoder, out: seq<byte>)
    requires decode(out) == Some("hi\n")
    ensures Verdict(TestCase("echo", "hi\n", "hi\n"), Completed(out), decode)
    ensures forall other :: decode(other) == Some("bye\n") ==>
      !Verdict(TestCase("echo", "hi\n", "hi\n"), Completed(other), decode)
  {
    NormalizeFixesPlain("hi\n");
    NormalizeFixesPlain("bye\n");
  }
}
