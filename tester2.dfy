/**
 * The integer network script nn/tester_2.py: `parse_line`, `load_weights`,
 * `board_to_bitboards` and the integer part of `predict`.  The module-level
 * weight lists are arrays of a `TesterNet` object; the weight file is given
 * as its sequence of lines.
 */
module Tester2 {
  import opened Wrappers
  import opened Chess
  import opened Features
  import opened Text

  const HL1_NEURONS: nat := 16
  const OUTPUT_NEURONS: nat := 1
  const HL1_WEIGHTS: nat := 768 * 16

  // ----- parse_line -----

  /** The tokens that Python `int()` accepts, converted, in their order. */
  function IntTokens(tokens: seq<string>): (vs: seq<int>)
    ensures |vs| <= |tokens|
  {
    if tokens == [] then []
    else
      var last := tokens[|tokens| - 1];
      IntTokens(tokens[..|tokens| - 1]) + (match PyInt(last) case Some(v) => [v] case None => [])
  }

  /** Appending a token appends its value when `int()` accepts it, and nothing otherwise. */
  lemma IntTokensSnoc(ts: seq<string>, t: string)
    ensures IntTokens(ts + [t]) == IntTokens(ts) + (match PyInt(t) case Some(v) => [v] case None => [])
  {
    assert (ts + [t])[..|ts|] == ts;
  }

  /** `parse_line`: keeps, in order, the whitespace-separated tokens that are integers. */
  method ParseLine(line: string) returns (values: seq<int>)
    ensures values == IntTokens(Words(line, Python))
  {
    var tokens := Words(line, Python);
    values := [];
    for i := 0 to |tokens|
      invariant values == IntTokens(tokens[..i])
    {
      assert tokens[..i + 1] == tokens[..i] + [tokens[i]];
      IntTokensSnoc(tokens[..i], tokens[i]);
      match PyInt(tokens[i])
      case Some(v) =>
        values := values + [v];
      case None =>
    }
    assert tokens[..|tokens|] == tokens;
  }

  /** The decimal forms of a list of integers. */
  function ShowAll(vs: seq<int>): (ts: seq<string>)
    ensures |ts| == |vs|
  {
    if vs == [] then [] else ShowAll(vs[..|vs| - 1]) + [Show(vs[|vs| - 1])]
  }

  /** Integers written in decimal come back unchanged, and a token `int()` rejects adds nothing. */
  lemma IntTokensOfShown(vs: seq<int>, junk: string)
    requires PyInt(junk).None?
    ensures IntTokens(ShowAll(vs)) == vs
    ensures IntTokens(ShowAll(vs) + [junk]) == vs
  {
    ShownRoundTrip(vs);
    IntTokensSnoc(ShowAll(vs), junk);
  }

  lemma {:induction false} ShownRoundTrip(vs: seq<int>)
    ensures IntTokens(ShowAll(vs)) == vs
  {
    if vs != [] {
      var n := |vs| - 1;
      assert ShowAll(vs) == ShowAll(vs[..n]) + [Show(vs[n])];
      ShownRoundTrip(vs[..n]);
      ShownStep(ShowAll(vs[..n]), vs[n]);
      assert vs == vs[..n] + [vs[n]];
    }
  }

  lemma ShownStep(ts: seq<string>, v: int)
    ensures IntTokens(ts + [Show(v)]) == IntTokens(ts) + [v]
  {
    PyIntShow(v);
    IntTokensSnoc(ts, Show(v));
  }

  // ----- load_weights -----

  /**
   * One section's writes for one line: the k-th value goes to slot k while k
   * is below capacity; at capacity the rest of the line is dropped and the
   * counter stays at capacity.
   */
  function Fill(arr: seq<int>, idx: nat, vals: seq<int>): (r: (seq<int>, nat))
    ensures |r.0| == |arr|
    ensures r.1 == if idx >= |arr| then idx else if idx + |vals| <= |arr| then idx + |vals| else |arr|
    ensures forall j :: 0 <= j < |arr| ==> r.0[j] == if idx <= j < r.1 then vals[j - idx] else arr[j]
    decreases |vals|
  {
    if vals == [] then (arr, idx)
    else if idx < |arr| then Fill(arr[idx := vals[0]], idx + 1, vals[1..])
    else (arr, idx)
  }

  datatype Loader = Loader(section: string, idx: nat,
                           hl1Weights: seq<int>, hl1Bias: seq<int>,
                           outputWeights: seq<int>, outputBias: seq<int>)

  /** The values of one line, written to the list the current section names. */
  function LoadValues(st: Loader, vals: seq<int>): (r: Loader)
    ensures |r.hl1Weights| == |st.hl1Weights| && |r.hl1Bias| == |st.hl1Bias|
    ensures |r.outputWeights| == |st.outputWeights| && |r.outputBias| == |st.outputBias|
  {
    if st.section == "hidden_layer_1_weights" then
      var (a, k) := Fill(st.hl1Weights, st.idx, vals); st.(hl1Weights := a, idx := k)
    else if st.section == "hidden_layer_1_bias" then
      var (a, k) := Fill(st.hl1Bias, st.idx, vals); st.(hl1Bias := a, idx := k)
    else if st.section == "output_layer_weights" then
      var (a, k) := Fill(st.outputWeights, st.idx, vals); st.(outputWeights := a, idx := k)
    else if st.section == "output_layer_bias" then
      var (a, k) := Fill(st.outputBias, st.idx, vals); st.(outputBias := a, idx := k)
    else st
  }

  /** One line of the weight file. */
  function LoadLine(st: Loader, raw: string): (r: Loader)
    ensures |r.hl1Weights| == |st.hl1Weights| && |r.hl1Bias| == |st.hl1Bias|
    ensures |r.outputWeights| == |st.outputWeights| && |r.outputBias| == |st.outputBias|
  {
    var line := Strip(raw);
    if line == [] then st
    else if line[|line| - 1] == ':' then st.(section := line[..|line| - 1], idx := 0)
    else LoadValues(st, IntTokens(Words(line, Python)))
  }

  /** The loader's state after the given lines. */
  function Load(st: Loader, lines: seq<string>): (r: Loader)
    ensures |r.hl1Weights| == |st.hl1Weights| && |r.hl1Bias| == |st.hl1Bias|
    ensures |r.outputWeights| == |st.outputWeights| && |r.outputBias| == |st.outputBias|
  {
    if lines == [] then st else LoadLine(Load(st, lines[..|lines| - 1]), lines[|lines| - 1])
  }

  /** A header line (after stripping) names the section and resets the counter; nothing else changes. */
  lemma HeaderLine(st: Loader, raw: string, line: string)
    requires line == Strip(raw) && line != [] && line[|line| - 1] == ':'
    ensures LoadLine(st, raw) == st.(section := line[..|line| - 1], idx := 0)
  {
  }

  /** A line that is blank after stripping changes nothing. */
  lemma BlankLine(st: Loader, raw: string)
    requires Strip(raw) == []
    ensures LoadLine(st, raw) == st
  {
  }

  /** Any other line hands its integer tokens to the current section. */
  lemma ValueLine(st: Loader, raw: string, line: string)
    requires line == Strip(raw) && line != [] && line[|line| - 1] != ':'
    ensures LoadLine(st, raw) == LoadValues(st, IntTokens(Words(line, Python)))
  {
  }

  /** Values outside the four known sections (`output_layer_1_bias` among them) are ignored. */
  lemma IgnoredSection(st: Loader, vals: seq<int>)
    requires st.section !in {"hidden_layer_1_weights", "hidden_layer_1_bias", "output_layer_weights", "output_layer_bias"}
    ensures LoadValues(st, vals) == st
  {
  }

  /**
   * In `hidden_layer_1_weights` the k-th value of the section goes to flat
   * index k while k < 768 * 16; the counter then stays at capacity and no
   * other list changes.
   */
  lemma HiddenWeightsValues(st: Loader, vals: seq<int>)
    requires |st.hl1Weights| == HL1_WEIGHTS
    requires st.section == "hidden_layer_1_weights"
    ensures var r := LoadValues(st, vals);
            && r.section == st.section
            && r.hl1Bias == st.hl1Bias && r.outputWeights == st.outputWeights && r.outputBias == st.outputBias
            && r.idx == (if st.idx >= HL1_WEIGHTS then st.idx
                         else if st.idx + |vals| <= HL1_WEIGHTS then st.idx + |vals| else HL1_WEIGHTS)
            && forall j :: 0 <= j < HL1_WEIGHTS ==>
                 r.hl1Weights[j] == if st.idx <= j < r.idx then vals[j - st.idx] else st.hl1Weights[j]
  {
  }

  /** The four module-level weight lists. */
  class TesterNet {
    const hl1Weights: array<int>
    const hl1Bias: array<int>
    const outputWeights: array<int>
    const outputBias: array<int>

    ghost predicate Valid()
      reads this
    {
      && hl1Weights.Length == HL1_WEIGHTS && hl1Bias.Length == HL1_NEURONS
      && outputWeights.Length == HL1_NEURONS * OUTPUT_NEURONS && outputBias.Length == OUTPUT_NEURONS
      && hl1Weights != hl1Bias && hl1Weights != outputWeights && hl1Weights != outputBias
      && hl1Bias != outputWeights && hl1Bias != outputBias && outputWeights != outputBias
    }

    /** The lists as the script initialises them: all zeros. */
    constructor ()
      ensures Valid()
      ensures fresh(hl1Weights) && fresh(hl1Bias) && fresh(outputWeights) && fresh(outputBias)
      ensures forall i :: 0 <= i < HL1_WEIGHTS ==> hl1Weights[i] == 0
      ensures forall i :: 0 <= i < HL1_NEURONS ==> hl1Bias[i] == 0 && outputWeights[i] == 0
      ensures outputBias[0] == 0
    {
      hl1Weights := new int[HL1_WEIGHTS](_ => 0);
      hl1Bias := new int[HL1_NEURONS](_ => 0);
      outputWeights := new int[HL1_NEURONS * OUTPUT_NEURONS](_ => 0);
      outputBias := new int[OUTPUT_NEURONS](_ => 0);
    }

    ghost function State(section: string, idx: nat): Loader
      reads this, hl1Weights, hl1Bias, outputWeights, outputBias
    {
      Loader(section, idx, hl1Weights[..], hl1Bias[..], outputWeights[..], outputBias[..])
    }

    /** `load_weights` over the lines of the weight file. */
    method LoadWeights(lines: seq<string>)
      requires Valid()
      modifies hl1Weights, hl1Bias, outputWeights, outputBias
      ensures Valid()
      ensures var r := Load(old(State("", 0)), lines);
              && hl1Weights[..] == r.hl1Weights && hl1Bias[..] == r.hl1Bias
              && outputWeights[..] == r.outputWeights && outputBias[..] == r.outputBias
    {
      var section := "";
      var idx: nat := 0;
      ghost var init := State("", 0);
      for i := 0 to |lines|
        invariant State(section, idx) == Load(init, lines[..i])
      {
        assert lines[..i + 1][..i] == lines[..i];
        var line := Strip(lines[i]);
        if line == [] {
          continue;
        }
        if line[|line| - 1] == ':' {
          section := line[..|line| - 1];
          idx := 0;
          continue;
        }
        var values := ParseLine(line);
        if section == "hidden_layer_1_weights" {
          idx := FillArray(hl1Weights, idx, values);
        } else if section == "hidden_layer_1_bias" {
          idx := FillArray(hl1Bias, idx, values);
        } else if section == "output_layer_weights" {
          idx := FillArray(outputWeights, idx, values);
        } else if section == "output_layer_bias" {
          idx := FillArray(outputBias, idx, values);
        }
      }
      assert lines[..|lines|] == lines;
    }
  }

  /** The inner `for val in values` loop with its `break`. */
  method FillArray(a: array<int>, idx: nat, vals: seq<int>) returns (next: nat)
    modifies a
    ensures (a[..], next) == Fill(old(a[..]), idx, vals)
  {
    next := idx;
    var k := 0;
    while k < |vals|
      invariant 0 <= k <= |vals|
      invariant Fill(old(a[..]), idx, vals) == Fill(a[..], next, vals[k..])
    {
      if next < a.Length {
        a[next] := vals[k];
        next := next + 1;
        assert vals[k..][1..] == vals[k + 1..];
      } else {
        break;
      }
      k := k + 1;
    }
  }

  // ----- board_to_bitboards -----

  /** `board_to_bitboards`: sets bb[plane * 64 + square] for every piece. */
  method BoardToBitboards(board: Board) returns (bits: seq<int>)
    ensures |bits| == INPUT_NEURONS
    ensures forall k :: 0 <= k < INPUT_NEURONS ==> bits[k] == FeatureBit(board, k)
  {
    var bb := new int[INPUT_NEURONS](_ => 0);
    for square := 0 to 64
      invariant forall k :: 0 <= k < INPUT_NEURONS ==>
                  bb[k] == if k % 64 < square && OnPlane(board, k / 64, k % 64) then 1 else 0
    {
      match board.squares[square]
      case Some(piece) =>
        var plane := if piece.color == board.turn then KindIndex(piece.kind) else 6 + KindIndex(piece.kind);
        assert plane == Plane(piece, board.turn);
        assert (plane * 64 + square) / 64 == plane && (plane * 64 + square) % 64 == square;
        bb[plane * 64 + square] := 1;
      case None =>
    }
    bits := bb[..];
  }

  // ----- predict, integer part -----

  /** Sum over inputs i < n equal to 1 of hl1_weights[i * 16 + j]. */
  function ActiveWeights(input: seq<int>, w: seq<int>, j: nat, n: nat): int
    requires j < HL1_NEURONS && n <= |input| && n * HL1_NEURONS <= |w|
  {
    if n == 0 then 0
    else ActiveWeights(input, w, j, n - 1) + (if input[n - 1] == 1 then w[(n - 1) * HL1_NEURONS + j] else 0)
  }

  /** hidden[i] * output_weights[i] summed over i < n. */
  function Dot(h: seq<int>, w: seq<int>, n: nat): int
    requires n <= |h| && n <= |w|
  {
    if n == 0 then 0 else Dot(h, w, n - 1) + h[n - 1] * w[n - 1]
  }

  /**
   * Turning one input from 0 to 1 adds that input's weight row to every
   * hidden unit and changes nothing else (the incremental-update property
   * of a one-hidden-layer network without activation).
   */
  lemma {:induction false} ActivateInput(input: seq<int>, w: seq<int>, j: nat, n: nat, i: nat)
    requires j < HL1_NEURONS && n <= |input| && n * HL1_NEURONS <= |w|
    requires i < |input| && input[i] != 1
    ensures ActiveWeights(input[i := 1], w, j, n) ==
              ActiveWeights(input, w, j, n) + (if i < n then w[i * HL1_NEURONS + j] else 0)
  {
    if n > 0 {
      ActivateInput(input, w, j, n - 1, i);
    }
  }

  /** An all-zero input leaves only the biases. */
  lemma {:induction false} NoActiveInputs(input: seq<int>, w: seq<int>, j: nat, n: nat)
    requires j < HL1_NEURONS && n <= |input| && n * HL1_NEURONS <= |w|
    requires forall i :: 0 <= i < n ==> input[i] != 1
    ensures ActiveWeights(input, w, j, n) == 0
  {
    if n > 0 {
      NoActiveInputs(input, w, j, n - 1);
    }
  }

  /**
   * The integer accumulation of `predict`: the hidden units and
   * `output_sum`, before the float rescale by QUANTIZATION and EVAL_SCALE.
   * Python raises IndexError on an input shorter than 768.
   */
  method PredictSums(net: TesterNet, input: seq<int>) returns (hidden: seq<int>, outputSum: int)
    requires net.Valid()
    requires |input| >= INPUT_NEURONS
    ensures |hidden| == HL1_NEURONS
    ensures forall j :: 0 <= j < HL1_NEURONS ==>
              hidden[j] == ActiveWeights(input, net.hl1Weights[..], j, INPUT_NEURONS) + net.hl1Bias[j]
    ensures outputSum == Dot(hidden, net.outputWeights[..], HL1_NEURONS) + net.outputBias[0]
  {
    hidden := [];
    for j := 0 to HL1_NEURONS
      invariant |hidden| == j
      invariant forall m :: 0 <= m < j ==>
                  hidden[m] == ActiveWeights(input, net.hl1Weights[..], m, INPUT_NEURONS) + net.hl1Bias[m]
    {
      var currentSum := 0;
      for i := 0 to INPUT_NEURONS
        invariant currentSum == ActiveWeights(input, net.hl1Weights[..], j, i)
      {
        if input[i] == 1 {
          currentSum := currentSum + net.hl1Weights[i * HL1_NEURONS + j];
        }
      }
      hidden := hidden + [currentSum + net.hl1Bias[j]];
    }
    outputSum := 0;
    for i := 0 to HL1_NEURONS
      invariant outputSum == Dot(hidden, net.outputWeights[..], i)
    {
      outputSum := outputSum + hidden[i] * net.outputWeights[i];
    }
    outputSum := outputSum + net.outputBias[0];
  }
}
