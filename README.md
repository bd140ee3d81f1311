# A verified model of the LocalGradescopeTesting test harness

LocalGradescopeTesting is a single Python script, `main.py`. It runs a
student's executable once per test case listed in `student_tests.json`,
feeds it the test's input and compares what it prints with the expected
output. As it goes it prints "Passed"/"Failed" for each test, then a summary
banner. This project models the script's decision logic and proves its
properties:

- `newlines.dfy` (module `Newlines`): `normalize_newlines` as two passes of
  Python's `str.replace` over strings. It is proved equal to a single
  left-to-right rewrite, and its algebraic properties are proved.
- `executor.dfy` (module `Executor`): the verdict of `run_test`. The child
  process is abstracted as a `RunOutcome`: what `communicate` returned, or
  which exception escaped. `RunTest` follows the function's local variables
  across the `try`/`except` branches. The function `Verdict` specifies it.
- `summary.dfy` (module `Summary`): the banner chosen by
  `print_tests_summary`, with the count written in decimal.
- `driver.dfy` (module `Driver`): `main`'s early returns, its loop over
  the suite in order, and its failure count.
- `wrappers.dfy` (module `Wrappers`): the `Option` type used for Python
  values that can be `None`.

External inputs become parameters:

- the argument vector `args`;
- the loaded suite, `Option<seq<TestCase>>`, with `None` when the JSON
  file could not be read;
- one `RunOutcome` per test;
- the UTF-8 decoder, a function `seq<byte> -> Option<string>` that
  returns `None` for invalid bytes.

Facts about `main.py` that shape the model:

- `main.py` decodes the child's output as UTF-8 only, with no fallback
  encoding. A decoding error is caught by the generic `except Exception`
  handler, which leaves the actual output empty.
- `run_test` returns a boolean, not a three-way verdict. A
  `CalledProcessError` returns `False`. Any other exception falls through
  to the comparison with an empty actual output, so such a test passes
  when its expected output is empty (`Executor.FailureVerdict`).
- stderr is not piped (main.py:50), so the second `communicate` returns
  `None` for stderr and the stderr preference at main.py:57 never fires
  here: the stdout captured so far is judged
  (`Executor.NotPipedUsesStdout`). The preference itself is modelled as
  written (`Executor.TimeoutPrefersStderr`, `Executor.TimeoutUsesStdout`).
- `LOCAL_GRADESCOPE_MEM_LIMIT` is read (main.py:15) but never applied.

## Model

| member | source | states |
|---|---|---|
| Newlines.NormalizeIsRewrite | main.py:23-24 | the two replace passes (CRLF to LF, then CR to LF) equal one left-to-right rewrite: a CR followed by LF becomes one LF, any other CR becomes LF, and every other character is copied |
| Newlines.NormalizeExamples | main.py:23-24 | `"\r\r\n"` and `"\n\r"` both normalise to `"\n\n"` |
| Newlines.NormalizeNoCr | main.py:24 | the normalised string contains no carriage return |
| Newlines.NormalizeFixesPlain | main.py:24 | normalising returns the string unchanged if and only if it contains no carriage return |
| Newlines.NormalizeIdempotent | main.py:24 | normalising a normalised string changes nothing |
| Newlines.NormalizeShorter | main.py:24 | the result is never longer than the input, and it is empty exactly when the input is empty |
| Newlines.NormalizeKeepsText | main.py:24 | after deleting every CR and LF, input and output are the same sequence, so all other characters are kept in order |
| Newlines.ConventionsAgree | main.py:23-24 | the same lines, each ended with LF, with CR or with CRLF throughout, and then the same unterminated last line, normalise to the same LF form |
| Newlines.MixedEndingsMayMerge | main.py:23-24 | when conventions are mixed, a CR-ended line followed by an empty LF-ended line reads as one CRLF, so one line ending is lost |
| Executor.RunTest | main.py:43-73 | the boolean `run_test` returns, computed through `actual_output` and `result` across the handlers, equals the verdict `Verdict` |
| Executor.CalledProcessFails | main.py:59-61 | a `CalledProcessError` fails the test without any comparison |
| Executor.ProducedVerdict | main.py:46-58 | when output was captured and decoded, the test passes exactly when the normalised actual text equals the normalised expected text |
| Executor.FailureCases | main.py:52-65 | no text is captured if and only if a `CalledProcessError`, an escaped timeout or another exception fired, the timeout left no payload, or the payload (normal stdout or the timeout choice) did not decode |
| Executor.FailureVerdict | main.py:48-68 | when no text was captured (and no `CalledProcessError`), the actual output stays empty, so the test passes exactly when the expected output is the empty string |
| Executor.TimeoutUsesStdout | main.py:55-57 | after a timeout with stderr `None` or empty, the stdout payload is the one decoded and judged |
| Executor.NotPipedUsesStdout | main.py:50-57 | with stderr not piped, a timed-out run is judged on the stdout captured before the kill |
| Executor.TimeoutPrefersStderr | main.py:55-57 | after a timeout, a non-empty stderr is the payload that is decoded and judged |
| Executor.LineEndingsIgnored | main.py:46-68 | when actual and expected texts consist of the same lines, each written with one uniform convention (LF, CR or CRLF), and optionally an unterminated last line, the test passes |
| Executor.UnterminatedExample | main.py:46-68 | expected `"a\nb"` against a program printing `"a\r\nb"`: the test passes |
| Executor.EchoExample | main.py:68-73 | with expected output `"hi\n"`, a run printing `"hi\n"` passes and one printing `"bye\n"` fails |
| Summary.DecimalRoundTrip | main.py:33 | the decimal rendering of the count is a non-empty string of digits, with no leading zero, that parses back to the count |
| Summary.AllPassedIffZero | main.py:29-30 | the banner is "All Tests Passed! " if and only if the failure count is 0 |
| Summary.FailedBanner | main.py:31-33 | for a positive count, the banner is the count in digits, with no leading zero, then " Test Failed!" when the count is 1 and " Tests Failed!" otherwise |
| Summary.MessageExamples | main.py:29-33 | the banners for 0, 1 and 12 failures are "All Tests Passed! ", "1 Test Failed!" and "12 Tests Failed!" |
| Driver.CountFailedBounds | main.py:104-106 | the failure count is at most the number of tests; it is 0 iff every verdict passed and equals the number of tests iff every verdict failed |
| Driver.CountFailedIsMultiplicity | main.py:104-106 | the failure count equals the number of `False` verdicts |
| Driver.Run | main.py:87-108 | wrong argument count (not 3) or no suite gives no report. Otherwise the verdicts are each test's verdict in suite order, and the failure count is the number of `False` verdicts, at most the number of tests. The banner is the one for that count |
| Driver.AllPassedIffEveryVerdict | main.py:104-108 | the run's banner is "All Tests Passed! " exactly when every test in the suite passes |
| Driver.EmptySuite | main.py:104-108 | an empty suite runs no test and ends with "All Tests Passed! " |

## Left out

- Spawning, feeding, waiting on and killing the child (main.py:50-55). This is OS process control and a wall-clock timeout. Each run is abstracted as a `RunOutcome`.
- UTF-8 encoding of the input (main.py:45) and UTF-8 decoding of the output (main.py:58) are library calls. Decoding is the `decode` parameter. The input's encoding only feeds the child, so it is not modelled.
- Loading `student_tests.json` (main.py:76-84) is file and JSON I/O. Only its result is modelled, as `Option<seq<TestCase>>`.
- Crash paths that escape `main` are not modelled. The model assumes a suite of well-formed entries whose `input` and `output` are strings with no lone surrogate. The loader lets through a `UnicodeDecodeError` for a file that is not UTF-8, a `TypeError` when the top-level JSON value is not an object, and a `KeyError` when it has no `"tests"` key (main.py:79-82). `run_test` reads the entry before its `try` (main.py:44-46), so an entry missing a key raises, and so does a non-string `input` (`.encode`, main.py:45) or `output` (`.replace`, main.py:46). A non-string `name` is only formatted into f-strings and runs normally. A lone surrogate (from a JSON `\ud800` escape) raises `UnicodeEncodeError` when encoded as `input` (main.py:45), and when a `name` or `output` holding one is printed to a strict UTF-8 stdout (main.py:69, or `print_failed_test` at main.py:38-40 called from main.py:63, 65 or 72). Such an `output` never equals a strictly decoded text, so it always reaches main.py:72. Dafny's `string` cannot hold a lone surrogate, so the model represents none of these entries, and `Driver.Run` always reports for a loaded suite.
- `CalledProcessFailure` and `OuterTimeout` stand for the handlers at main.py:59-63, which the `try` body cannot trigger: `Popen` and `communicate` do not raise `CalledProcessError`, and the only timed `communicate` is caught by the inner handler. They are modelled so that every handler is covered.
- Printing and colorama colours (main.py:4-7, 19-20, 37-40, 60, 63, 65, 69, 72). Only the banner text of `print_tests_summary` is modelled, without colour codes, the divider or surrounding newlines. The usage message is not modelled either.
- The environment variables for the timeout and memory limit (main.py:15-16) are read at startup. The timeout only affects process control, which is abstracted. The memory limit is never used.
- The exit status of the child is not part of `Completed`, because `communicate` does not check it. A crashing child is judged on its stdout like any other.
