/** The bounded output of the privileged helper: what an executor's lines become in a result. */
module HelperOutput {
  import opened Utf8

  const MAX_OUTPUT_LINES := 64
  const MAX_OUTPUT_LINE_BYTES := 4096
  const MAX_OUTPUT_BYTES := 32768
  const MAX_MESSAGE_BYTES := 512

  datatype HelperResult = HelperResult(message: string, output: seq<string>, truncated: bool)

  function TotalBytes(lines: seq<string>): nat {
    if lines == [] then 0 else |Encode(lines[0])| + TotalBytes(lines[1..])
  }

  function LineLimit(remaining: int): int {
    if MAX_OUTPUT_LINE_BYTES <= remaining then MAX_OUTPUT_LINE_BYTES else remaining
  }

  /** The first 64 lines. */
  function Considered(lines: seq<string>): seq<string> {
    if |lines| <= MAX_OUTPUT_LINES then lines else lines[..MAX_OUTPUT_LINES]
  }

  /** Line by line, each gets what the lines before it left of the total, until that is used up. */
  function BoundLines(lines: seq<string>, remaining: int): seq<string>
    decreases |lines|, 1
  {
    if lines == [] then [] else Extend(lines[0], remaining, lines[1..])
  }

  function Extend(first: string, remaining: int, rest: seq<string>): seq<string>
    decreases |rest| + 1, 0
  {
    var line := BoundText(first, LineLimit(remaining));
    var left := remaining - |Encode(line)|;
    if left <= 0 then [line] else [line] + BoundLines(rest, left)
  }

  /** The loop of `_validated_result` over the lines. */
  method BoundOutput(lines: seq<string>, total: nat) returns (output: seq<string>)
    requires total > 0
    ensures output == BoundLines(lines, total)
  {
    output := [];
    var remaining := total;
    assert lines[0..] == lines;
    for i := 0 to |lines|
      invariant remaining > 0
      invariant output + BoundLines(lines[i..], remaining) == BoundLines(lines, total)
    {
      var line := BoundText(lines[i], LineLimit(remaining));
      FirstLine(lines, i, remaining);
      Regroup(output, line, BoundLines(lines[i + 1..], remaining - |Encode(line)|));
      output := output + [line];
      remaining := remaining - |Encode(line)|;
      if remaining <= 0 { return; }
    }
    assert lines[|lines|..] == [];
  }

  /** `_validated_result`: bounds the message and the lines and reports whether that changed anything. */
  method ValidatedResult(result: HelperResult) returns (bounded: HelperResult)
    ensures bounded.output == BoundLines(Considered(result.output), MAX_OUTPUT_BYTES)
    ensures bounded.message == BoundText(result.message, MAX_MESSAGE_BYTES)
    ensures bounded.truncated <==> result.truncated || bounded.message != result.message || bounded.output != result.output
  {
    var message := BoundText(result.message, MAX_MESSAGE_BYTES);
    var output := BoundOutput(Considered(result.output), MAX_OUTPUT_BYTES);
    bounded := HelperResult(message, output, result.truncated || message != result.message || output != result.output);
  }

  lemma FirstLine(lines: seq<string>, i: nat, remaining: int)
    requires i < |lines|
    ensures BoundLines(lines[i..], remaining) == Extend(lines[i], remaining, lines[i + 1..])
  {
    var rest := lines[i..];
    assert rest[1..] == lines[i + 1..];
    assert BoundLines(rest, remaining) == Extend(rest[0], remaining, rest[1..]);
  }

  lemma Regroup(a: seq<string>, line: string, b: seq<string>)
    ensures a + ([line] + b) == (a + [line]) + b
  {
  }

  /** Kept lines are prefixes of their originals within the line limit, the total stays within bounds,
      and lines are dropped from the end only when the total is used up exactly. */
  lemma {:induction false} BoundLinesIsBounded(lines: seq<string>, remaining: nat)
    requires remaining > 0
    ensures var kept := BoundLines(lines, remaining);
            && |kept| <= |lines|
            && (forall i :: 0 <= i < |kept| ==> kept[i] <= lines[i] && |Encode(kept[i])| <= MAX_OUTPUT_LINE_BYTES)
            && TotalBytes(kept) <= remaining
            && (|kept| < |lines| ==> TotalBytes(kept) == remaining)
    decreases |lines|
  {
    if lines != [] {
      BoundTextIsLongestPrefix(lines[0], LineLimit(remaining));
      var line := BoundText(lines[0], LineLimit(remaining));
      var left := remaining - |Encode(line)|;
      var kept := BoundLines(lines, remaining);
      if left > 0 {
        BoundLinesIsBounded(lines[1..], left);
        assert kept[1..] == BoundLines(lines[1..], left);
        assert forall i :: 1 <= i < |kept| ==> kept[i] == kept[1..][i - 1] && lines[i] == lines[1..][i - 1];
      } else {
        assert kept == [line];
      }
    }
  }

  /** Every line is within its own limit, all lines fit, and the total is not used up before the last. */
  predicate FitsWhole(lines: seq<string>, remaining: int)
  {
    lines == []
    || (&& |Encode(lines[0])| <= LineLimit(remaining)
        && (|lines| == 1 || |Encode(lines[0])| < remaining)
        && FitsWhole(lines[1..], remaining - |Encode(lines[0])|))
  }

  /** Nothing is cut if and only if everything fits. */
  lemma {:induction false} UncutIffFits(lines: seq<string>, remaining: nat)
    requires remaining > 0
    ensures BoundLines(lines, remaining) == lines <==> FitsWhole(lines, remaining)
    decreases |lines|
  {
    if lines != [] {
      BoundTextIsLongestPrefix(lines[0], LineLimit(remaining));
      var line := BoundText(lines[0], LineLimit(remaining));
      var left := remaining - |Encode(line)|;
      var kept := BoundLines(lines, remaining);
      assert kept == Extend(lines[0], remaining, lines[1..]);
      assert kept == lines <==> kept[0] == lines[0] && kept[1..] == lines[1..] by {
        assert lines == [lines[0]] + lines[1..] && kept == [kept[0]] + kept[1..];
      }
      if left > 0 {
        assert kept[1..] == BoundLines(lines[1..], left);
        UncutIffFits(lines[1..], left);
      } else {
        assert kept[1..] == [];
      }
    }
  }

  /** Without recursion: no line is too long, all of them fit, and all but the last leave something over. */
  ghost predicate IsShort(lines: seq<string>, total: nat) {
    && (forall i :: 0 <= i < |lines| ==> |Encode(lines[i])| <= 4096)
    && TotalBytes(lines) <= total
    && (lines != [] ==> TotalBytes(lines[..|lines| - 1]) < total)
  }

  lemma {:induction false} ShortUnfolds(lines: seq<string>, total: nat)
    requires lines != [] && total > 0
    ensures var left := total - |Encode(lines[0])|;
            IsShort(lines, total) <==>
              && |Encode(lines[0])| <= 4096 && left >= 0 && (|lines| > 1 ==> left > 0) && IsShort(lines[1..], left)
  {
    var n, rest := |Encode(lines[0])|, lines[1..];
    assert TotalBytes(lines) == n + TotalBytes(rest);
    assert forall i :: 1 <= i < |lines| ==> lines[i] == rest[i - 1];
    if rest != [] {
      var front := lines[..|lines| - 1];
      assert front[0] == lines[0] && front[1..] == rest[..|rest| - 1];
    }
  }

  lemma {:induction false} FitsWholeIff(lines: seq<string>, total: nat)
    requires total > 0
    ensures FitsWhole(lines, total) <==> IsShort(lines, total)
    decreases |lines|
  {
    if lines != [] {
      ShortUnfolds(lines, total);
      var left := total - |Encode(lines[0])|;
      if left > 0 {
        FitsWholeIff(lines[1..], left);
      }
    }
  }

  /** A helper result is reported complete exactly when it is: at most 64 lines of at most 4096 bytes each, with
      at most 32768 bytes in all, and fewer before the last line. */
  lemma UntruncatedIffComplete(lines: seq<string>)
    ensures BoundLines(Considered(lines), MAX_OUTPUT_BYTES) == lines <==> |lines| <= 64 && IsShort(lines, 32768)
  {
    UncutIffFits(Considered(lines), MAX_OUTPUT_BYTES);
    BoundLinesIsBounded(Considered(lines), MAX_OUTPUT_BYTES);
    FitsWholeIff(lines, MAX_OUTPUT_BYTES);
  }
}
