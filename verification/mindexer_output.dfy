/**
 * Parsing the recommendation tool's standard output into index literals
 * (`parse_mindexer_output`, identical in experiments/utils.py,
 * experiments/evaluate.py and experiments/profile_workload.py).
 *
 * The output is stripped and cut into lines at '\n'. The first line that,
 * stripped, starts with ">> recommending" is the marker. Every later line
 * that, stripped, is non-empty and delimited by '{' and '}' goes through the
 * literal evaluator (`ast.literal_eval`, here the parameter `eval`); what it
 * accepts is kept in line order, what it rejects is skipped.
 */
module MindexerOutput {
  import opened Common
  import opened Text

  const Marker: string := ">> recommending"

  /** A line that, once stripped, starts with the marker text. */
  predicate IsMarkerLine(line: string) {
    StartsWith(Strip(line), Marker)
  }

  /** A stripped line that looks like an index dictionary. */
  predicate LooksLikeIndex(t: string) {
    t != [] && StartsWith(t, "{") && EndsWith(t, "}")
  }

  /**
   * What the parser makes of one line after the marker: the evaluation of
   * the stripped line when it looks like a dictionary and the evaluator
   * accepts it, and nothing (the line is skipped) otherwise.
   */
  function Pick<T>(eval: string -> Option<T>): string -> Option<T> {
    line => if LooksLikeIndex(Strip(line)) then eval(Strip(line)) else None
  }

  /** The line contributes to the result: stripped, it looks like a dictionary and the evaluator accepts it. */
  predicate Yields<T>(line: string, eval: string -> Option<T>) {
    LooksLikeIndex(Strip(line)) && eval(Strip(line)).Some?
  }

  /** The value a contributing line contributes. */
  function Value<T>(line: string, eval: string -> Option<T>): T
    requires Yields(line, eval)
  {
    eval(Strip(line)).value
  }

  /** `Pick` keeps exactly the contributing lines, with their values. */
  lemma PickYields<T>(line: string, eval: string -> Option<T>)
    ensures Pick(eval)(line).Some? <==> Yields(line, eval)
    ensures Yields(line, eval) ==> Pick(eval)(line) == Some(Value(line, eval))
  {
  }

  /** Position of the first marker line, if there is one. */
  function FindMarker(lines: seq<string>): (k: Option<nat>)
    ensures k.Some? ==> k.value < |lines|
  {
    if lines == [] then None
    else if IsMarkerLine(lines[0]) then Some(0)
    else
      match FindMarker(lines[1..])
      case None => None
      case Some(k) => Some(k + 1)
  }

  /**
   * `FindMarker` finds nothing exactly when no line is a marker line, and
   * otherwise the first marker line.
   */
  lemma {:induction false} FindMarkerSpec(lines: seq<string>)
    ensures FindMarker(lines).None? <==> forall i :: 0 <= i < |lines| ==> !IsMarkerLine(lines[i])
    ensures FindMarker(lines).Some? ==> IsMarkerLine(lines[FindMarker(lines).value])
    ensures FindMarker(lines).Some? ==> forall i :: 0 <= i < FindMarker(lines).value ==> !IsMarkerLine(lines[i])
  {
    if lines != [] && !IsMarkerLine(lines[0]) {
      FindMarkerSpec(lines[1..]);
      assert forall i :: 1 <= i < |lines| ==> lines[i] == lines[1..][i - 1];
    }
  }

  /**
   * The values `pick` finds in the lines, in line order; a line it finds
   * nothing in is skipped. The parser uses `pick == Pick(eval)`.
   */
  function Collect<T>(lines: seq<string>, pick: string -> Option<T>): (r: seq<T>)
    ensures |r| <= |lines|
  {
    if lines == [] then []
    else
      var here := if pick(lines[0]).Some? then [pick(lines[0]).value] else [];
      here + Collect(lines[1..], pick)
  }

  /**
   * The positions of the lines `Collect` keeps. Element `j` of the result
   * comes from line `Sources(lines, pick)[j]`; the positions increase, and
   * every line `pick` accepts is among them, so the result is exactly the
   * accepted values, in line order.
   */
  function Sources<T>(lines: seq<string>, pick: string -> Option<T>): (idx: seq<nat>)
    ensures |idx| == |Collect(lines, pick)|
    ensures forall j :: 0 <= j < |idx| ==> idx[j] < |lines| && pick(lines[idx[j]]).Some?
    ensures forall j :: 0 <= j < |idx| ==> Collect(lines, pick)[j] == pick(lines[idx[j]]).value
    ensures forall j, j' :: 0 <= j < j' < |idx| ==> idx[j] < idx[j']
    ensures forall i :: 0 <= i < |lines| && pick(lines[i]).Some? ==> i in idx
  {
    SourcesFromBounds(lines, pick, 0);
    SourcesFromIncreasing(lines, pick, 0);
    SourcesFromComplete(lines, pick, 0);
    SourcesFromValues(lines, pick, 0);
    assert lines[0..] == lines;
    SourcesFrom(lines, pick, 0)
  }

  /**
   * The positions of the lines the parser keeps: each element of
   * `Collect(lines, Pick(eval))` is the evaluation of a stripped line that
   * looks like a dictionary and that the evaluator accepts, the positions
   * increase, and no such line is left out.
   */
  function IndexLineSources<T>(lines: seq<string>, eval: string -> Option<T>): (idx: seq<nat>)
    ensures |idx| == |Collect(lines, Pick(eval))|
    ensures forall j :: 0 <= j < |idx| ==> idx[j] < |lines| && Yields(lines[idx[j]], eval)
    ensures forall j :: 0 <= j < |idx| ==> Collect(lines, Pick(eval))[j] == Value(lines[idx[j]], eval)
    ensures forall j, j' :: 0 <= j < j' < |idx| ==> idx[j] < idx[j']
    ensures forall i :: 0 <= i < |lines| && Yields(lines[i], eval) ==> i in idx
  {
    PickAll(lines, eval);
    Sources(lines, Pick(eval))
  }

  lemma PickAll<T>(lines: seq<string>, eval: string -> Option<T>)
    ensures forall i :: 0 <= i < |lines| ==> (Pick(eval)(lines[i]).Some? <==> Yields(lines[i], eval))
    ensures forall i :: 0 <= i < |lines| && Yields(lines[i], eval) ==> Pick(eval)(lines[i]) == Some(Value(lines[i], eval))
  {
    forall i | 0 <= i < |lines| ensures Pick(eval)(lines[i]).Some? <==> Yields(lines[i], eval) {
      PickYields(lines[i], eval);
    }
  }

  /** The positions, from `i` on, of the lines `pick` accepts. */
  function SourcesFrom<T>(lines: seq<string>, pick: string -> Option<T>, i: nat): seq<nat>
    requires i <= |lines|
    decreases |lines| - i
  {
    if i == |lines| then []
    else (if pick(lines[i]).Some? then [i] else []) + SourcesFrom(lines, pick, i + 1)
  }

  /** The positions from `i` on are in range and accepted. */
  lemma {:induction false} SourcesFromBounds<T>(lines: seq<string>, pick: string -> Option<T>, i: nat)
    requires i <= |lines|
    ensures forall j :: 0 <= j < |SourcesFrom(lines, pick, i)| ==>
      i <= SourcesFrom(lines, pick, i)[j] < |lines| && pick(lines[SourcesFrom(lines, pick, i)[j]]).Some?
    decreases |lines| - i
  {
    if i < |lines| {
      SourcesFromBounds(lines, pick, i + 1);
      var rest := SourcesFrom(lines, pick, i + 1);
      var idx := SourcesFrom(lines, pick, i);
      if pick(lines[i]).Some? {
        assert idx == [i] + rest;
        assert forall j :: 1 <= j < |idx| ==> idx[j] == rest[j - 1];
      } else {
        assert idx == rest;
      }
    }
  }

  /** The positions from `i` on increase. */
  lemma {:induction false} SourcesFromIncreasing<T>(lines: seq<string>, pick: string -> Option<T>, i: nat)
    requires i <= |lines|
    ensures forall j, j' :: 0 <= j < j' < |SourcesFrom(lines, pick, i)| ==>
      SourcesFrom(lines, pick, i)[j] < SourcesFrom(lines, pick, i)[j']
    decreases |lines| - i
  {
    if i < |lines| {
      SourcesFromIncreasing(lines, pick, i + 1);
      SourcesFromBounds(lines, pick, i + 1);
      var rest := SourcesFrom(lines, pick, i + 1);
      var idx := SourcesFrom(lines, pick, i);
      if pick(lines[i]).Some? {
        assert idx == [i] + rest;
        IncreasingCons(i, rest);
      } else {
        assert idx == rest;
      }
    }
  }

  /** Putting a smaller position in front of increasing positions keeps them increasing. */
  lemma IncreasingCons(i: nat, rest: seq<nat>)
    requires forall j :: 0 <= j < |rest| ==> i < rest[j]
    requires forall j, j' :: 0 <= j < j' < |rest| ==> rest[j] < rest[j']
    ensures forall j, j' :: 0 <= j < j' < |[i] + rest| ==> ([i] + rest)[j] < ([i] + rest)[j']
  {
    var idx := [i] + rest;
    forall j, j' | 0 <= j < j' < |idx| ensures idx[j] < idx[j'] {
      assert idx[j'] == rest[j' - 1];
      if j > 0 {
        assert idx[j] == rest[j - 1];
      }
    }
  }

  /** Every accepted position from `i` on is among them. */
  lemma {:induction false} SourcesFromComplete<T>(lines: seq<string>, pick: string -> Option<T>, i: nat)
    requires i <= |lines|
    ensures forall k :: i <= k < |lines| && pick(lines[k]).Some? ==> k in SourcesFrom(lines, pick, i)
    decreases |lines| - i
  {
    if i < |lines| {
      SourcesFromComplete(lines, pick, i + 1);
      var rest := SourcesFrom(lines, pick, i + 1);
      var here: seq<nat> := if pick(lines[i]).Some? then [i] else [];
      assert SourcesFrom(lines, pick, i) == here + rest;
      assert forall k :: k in rest ==> k in here + rest;
    }
  }

  /** The positions from `i` on supply the values collected from `lines[i..]`, one each. */
  lemma {:induction false} SourcesFromValues<T>(lines: seq<string>, pick: string -> Option<T>, i: nat)
    requires i <= |lines|
    ensures |SourcesFrom(lines, pick, i)| == |Collect(lines[i..], pick)|
    ensures forall j :: 0 <= j < |SourcesFrom(lines, pick, i)| ==>
      SourcesFrom(lines, pick, i)[j] < |lines| && pick(lines[SourcesFrom(lines, pick, i)[j]]).Some? &&
      Collect(lines[i..], pick)[j] == pick(lines[SourcesFrom(lines, pick, i)[j]]).value
    decreases |lines| - i
  {
    if i < |lines| {
      SourcesFromValues(lines, pick, i + 1);
      var rest := SourcesFrom(lines, pick, i + 1);
      var tail := Collect(lines[i + 1..], pick);
      assert lines[i..][0] == lines[i];
      assert lines[i..][1..] == lines[i + 1..];
      if pick(lines[i]).Some? {
        assert SourcesFrom(lines, pick, i) == [i] + rest;
        assert Collect(lines[i..], pick) == [pick(lines[i]).value] + tail;
      } else {
        assert SourcesFrom(lines, pick, i) == rest;
        assert Collect(lines[i..], pick) == tail;
      }
    }
  }

  /** The lines of the output after the marker, read in order; no marker means no indexes. */
  function ParseLines<T>(lines: seq<string>, eval: string -> Option<T>): (r: seq<T>)
    ensures r != [] ==> FindMarker(lines).Some?
    ensures FindMarker(lines).Some? ==> |r| <= |lines| - FindMarker(lines).value - 1
  {
    match FindMarker(lines)
    case None => []
    case Some(k) => Collect(lines[k + 1..], Pick(eval))
  }

  /** `parse_mindexer_output(output)`. */
  function Parse<T>(output: string, eval: string -> Option<T>): seq<T> {
    ParseLines(Split(Strip(output)), eval)
  }

  /**
   * The parser as the source writes it: one loop that stops at the first
   * marker line, then one loop over the lines after it that skips blank,
   * non-dictionary and rejected lines.
   */
  method ParseMindexerOutput<T>(output: string, eval: string -> Option<T>) returns (indexes: seq<T>)
    ensures indexes == Parse(output, eval)
  {
    var lines := Split(Strip(output));
    var marker := ScanForMarker(lines);
    if marker.None? {
      indexes := [];
    } else {
      indexes := EvaluateIndexLines(lines, marker.value + 1, eval);
    }
  }

  /** The first loop: the position of the first marker line, if any. */
  method ScanForMarker(lines: seq<string>) returns (marker: Option<nat>)
    ensures marker == FindMarker(lines)
  {
    marker := None;
    var i := 0;
    while i < |lines|
      invariant 0 <= i <= |lines|
      invariant marker.None?
      invariant forall j :: 0 <= j < i ==> !IsMarkerLine(lines[j])
    {
      if IsMarkerLine(lines[i]) {
        FirstMarkerAt(lines, i);
        marker := Some(i);
        break;
      }
      i := i + 1;
    }
    FindMarkerSpec(lines);
  }

  /** The second loop: evaluate the dictionary lines from `start` on, skipping the rest. */
  method EvaluateIndexLines<T>(lines: seq<string>, start: nat, eval: string -> Option<T>) returns (indexes: seq<T>)
    requires start <= |lines|
    ensures indexes == Collect(lines[start..], Pick(eval))
  {
    indexes := [];
    for j := start to |lines|
      invariant indexes == Collect(lines[start..j], Pick(eval))
    {
      CollectSnoc(lines[start..j], lines[j], Pick(eval));
      assert lines[start..j + 1] == lines[start..j] + [lines[j]];
      var line := Strip(lines[j]);
      assert Pick(eval)(lines[j]) == if LooksLikeIndex(line) then eval(line) else None;
      if line == [] {
        continue;
      }
      if !(StartsWith(line, "{") && EndsWith(line, "}")) {
        continue;
      }
      match eval(line)
      case None =>
        continue;
      case Some(v) =>
        indexes := indexes + [v];
    }
    assert lines[start..|lines|] == lines[start..];
  }

  /** The first line that is a marker line is the one `FindMarker` finds. */
  lemma FirstMarkerAt(lines: seq<string>, i: nat)
    requires i < |lines| && IsMarkerLine(lines[i])
    requires forall j :: 0 <= j < i ==> !IsMarkerLine(lines[j])
    ensures FindMarker(lines) == Some(i)
  {
    FindMarkerSpec(lines);
  }

  /** One more line adds its value when `pick` accepts it, and nothing otherwise. */
  lemma CollectSnoc<T>(xs: seq<string>, line: string, pick: string -> Option<T>)
    ensures Collect(xs + [line], pick)
         == Collect(xs, pick) + if pick(line).Some? then [pick(line).value] else []
  {
    CollectAppend(xs, [line], pick);
    assert [line][1..] == [];
  }

  /** `Collect` works line by line, so it distributes over concatenation. */
  lemma {:induction false} CollectAppend<T>(a: seq<string>, b: seq<string>, pick: string -> Option<T>)
    ensures Collect(a + b, pick) == Collect(a, pick) + Collect(b, pick)
    decreases |a|
  {
    if a == [] {
      assert a + b == b;
    } else {
      var here := if pick(a[0]).Some? then [pick(a[0]).value] else [];
      assert (a + b)[0] == a[0] && (a + b)[1..] == a[1..] + b;
      assert Collect(a + b, pick) == here + Collect(a[1..] + b, pick);
      CollectAppend(a[1..], b, pick);
      assert Collect(a, pick) == here + Collect(a[1..], pick);
    }
  }

  /** A line the evaluator rejects (or that is not a dictionary line) is skipped, not fatal. */
  lemma SkippedLine<T>(a: seq<string>, line: string, b: seq<string>, eval: string -> Option<T>)
    requires !Yields(line, eval)
    ensures Collect(a + [line] + b, Pick(eval)) == Collect(a + b, Pick(eval))
  {
    PickYields(line, eval);
    CollectAppend(a + [line], b, Pick(eval));
    CollectAppend(a, [line], Pick(eval));
    CollectAppend(a, b, Pick(eval));
  }

  /** A contributing line adds exactly its value, in its place. */
  lemma KeptLine<T>(a: seq<string>, line: string, b: seq<string>, eval: string -> Option<T>)
    requires Yields(line, eval)
    ensures Collect(a + [line] + b, Pick(eval))
         == Collect(a, Pick(eval)) + [Value(line, eval)] + Collect(b, Pick(eval))
  {
    PickYields(line, eval);
    CollectAppend(a + [line], b, Pick(eval));
    CollectSnoc(a, line, Pick(eval));
  }

  /** A marker line never looks like a dictionary, so a repeated marker contributes nothing. */
  lemma MarkerLineNeverYields<T>(line: string, eval: string -> Option<T>)
    requires IsMarkerLine(line)
    ensures !Yields(line, eval)
  {
    var t := Strip(line);
    assert t[0] == t[..|Marker|][0] == '>';
  }

  /**
   * Only the first marker counts: whatever precedes it, the result is what
   * the lines after it yield.
   */
  lemma {:induction false} FirstMarkerOnly<T>(pre: seq<string>, marker: string, post: seq<string>, eval: string -> Option<T>)
    requires forall i :: 0 <= i < |pre| ==> !IsMarkerLine(pre[i])
    requires IsMarkerLine(marker)
    ensures ParseLines(pre + [marker] + post, eval) == Collect(post, Pick(eval))
  {
    var lines := pre + [marker] + post;
    assert lines[|pre|] == marker;
    assert forall i :: 0 <= i < |pre| ==> lines[i] == pre[i];
    assert lines[|pre| + 1..] == post;
    FirstMarkerAt(lines, |pre|);
  }

  /** If no line is a marker line, nothing is recommended. */
  lemma {:induction false} NoMarkerLineGivesEmpty<T>(lines: seq<string>, eval: string -> Option<T>)
    requires forall i :: 0 <= i < |lines| ==> !StartsWith(Strip(lines[i]), Marker)
    ensures ParseLines(lines, eval) == []
  {
    FindMarkerSpec(lines);
  }

  /** An output that never mentions the marker text recommends nothing. */
  lemma NoMarkerTextGivesEmpty<T>(output: string, eval: string -> Option<T>)
    requires !Contains(output, Marker)
    ensures Parse(output, eval) == []
  {
    var lines := Split(Strip(output));
    forall i | 0 <= i < |lines| ensures !IsMarkerLine(lines[i]) {
      if IsMarkerLine(lines[i]) {
        assert Contains(Strip(lines[i]), Marker);
        ContainsStrip(lines[i], Marker);
        ContainsSplitPiece(Strip(output), i, Marker);
        ContainsStrip(output, Marker);
      }
    }
    FindMarkerSpec(lines);
  }

  /** Empty or all-whitespace output recommends nothing. */
  lemma BlankOutputGivesEmpty<T>(output: string, eval: string -> Option<T>)
    requires AllSpace(output)
    ensures Parse(output, eval) == []
  {
    StripSpec(output);
    assert Strip(output) == [];
    StripSpec([]);
    var lines := Split(Strip(output));
    assert lines == [[]];
    assert Strip(lines[0]) == [];
    assert !IsMarkerLine(lines[0]);
    FindMarkerSpec(lines);
  }

  /** Whitespace around the whole output does not change the result. */
  lemma OutputWhitespaceIrrelevant<T>(a: string, output: string, b: string, eval: string -> Option<T>)
    requires AllSpace(a) && AllSpace(b)
    ensures Parse(a + output + b, eval) == Parse(output, eval)
  {
    StripPadded(a, output, b);
  }

  /** Lines on which `pick` agrees collect to the same values. */
  lemma {:induction false} CollectAgrees<T>(l1: seq<string>, l2: seq<string>, pick: string -> Option<T>)
    requires |l1| == |l2|
    requires forall i :: 0 <= i < |l1| ==> pick(l1[i]) == pick(l2[i])
    ensures Collect(l1, pick) == Collect(l2, pick)
    decreases |l1|
  {
    if l1 != [] {
      assert pick(l1[0]) == pick(l2[0]);
      CollectAgrees(l1[1..], l2[1..], pick);
    }
  }

  /** Finding the marker looks at each line only through its stripped form. */
  lemma {:induction false} FindMarkerStripped(l1: seq<string>, l2: seq<string>)
    requires |l1| == |l2|
    requires forall i :: 0 <= i < |l1| ==> Strip(l1[i]) == Strip(l2[i])
    ensures FindMarker(l1) == FindMarker(l2)
    decreases |l1|
  {
    if l1 != [] {
      FindMarkerStripped(l1[1..], l2[1..]);
    }
  }

  /** Whitespace around any single line does not change the result. */
  lemma LineWhitespaceIrrelevant<T>(lines: seq<string>, k: nat, a: string, b: string, eval: string -> Option<T>)
    requires k < |lines| && AllSpace(a) && AllSpace(b)
    ensures ParseLines(lines[k := a + lines[k] + b], eval) == ParseLines(lines, eval)
  {
    StripPadded(a, lines[k], b);
    UpdateStripped(lines, k, a + lines[k] + b);
    ParseLinesStripped(lines[k := a + lines[k] + b], lines, eval);
  }

  /** The parser looks at each line only through its stripped form. */
  lemma ParseLinesStripped<T>(l1: seq<string>, l2: seq<string>, eval: string -> Option<T>)
    requires |l1| == |l2|
    requires forall i :: 0 <= i < |l1| ==> Strip(l1[i]) == Strip(l2[i])
    ensures ParseLines(l1, eval) == ParseLines(l2, eval)
  {
    FindMarkerStripped(l1, l2);
    match FindMarker(l2)
    case None =>
    case Some(m) =>
      PickStripped(l1, l2, eval);
      AgreesSuffix(l1, l2, m + 1, Pick(eval));
      CollectAgrees(l1[m + 1..], l2[m + 1..], Pick(eval));
  }

  /** Lines with the same stripped form are picked alike. */
  lemma PickStripped<T>(l1: seq<string>, l2: seq<string>, eval: string -> Option<T>)
    requires |l1| == |l2|
    requires forall i :: 0 <= i < |l1| ==> Strip(l1[i]) == Strip(l2[i])
    ensures forall i :: 0 <= i < |l1| ==> Pick(eval)(l1[i]) == Pick(eval)(l2[i])
  {
    forall i | 0 <= i < |l1| ensures Pick(eval)(l1[i]) == Pick(eval)(l2[i]) {
      assert Strip(l1[i]) == Strip(l2[i]);
    }
  }

  /** Replacing a line by one with the same stripped form changes no line's stripped form. */
  lemma UpdateStripped(lines: seq<string>, k: nat, x: string)
    requires k < |lines| && Strip(x) == Strip(lines[k])
    ensures forall i :: 0 <= i < |lines| ==> Strip(lines[k := x][i]) == Strip(lines[i])
  {
    forall i | 0 <= i < |lines| ensures Strip(lines[k := x][i]) == Strip(lines[i]) {
      if i != k {
        assert lines[k := x][i] == lines[i];
      }
    }
  }

  /** Lines on which `pick` agrees still agree after dropping a prefix. */
  lemma AgreesSuffix<T>(l1: seq<string>, l2: seq<string>, n: nat, pick: string -> Option<T>)
    requires |l1| == |l2| && n <= |l1|
    requires forall i :: 0 <= i < |l1| ==> pick(l1[i]) == pick(l2[i])
    ensures forall i :: 0 <= i < |l1[n..]| ==> pick(l1[n..][i]) == pick(l2[n..][i])
  {
    forall i | 0 <= i < |l1[n..]| ensures pick(l1[n..][i]) == pick(l2[n..][i]) {
      assert l1[n..][i] == l1[n + i] && l2[n..][i] == l2[n + i];
    }
  }
}
