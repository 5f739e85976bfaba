/**
 * The C++ side of the evaluation network (nn/sensenet.hpp): the board
 * encoder and the weight-file loader.  The float arithmetic of `predict`
 * and `sigmoid` is not modelled; parsed weights are values of an opaque
 * type F produced by a token parser standing for `std::stof`.
 */
module SenseNetCpp {
  import opened Wrappers
  import opened Chess
  import opened Bits
  import opened Features
  import opened Text

  const HL1_NEURONS: nat := 16
  const OUTPUT_NEURONS: nat := 1
  /** The encoder pads its output to this length. */
  const PADDED_INPUT: nat := 784

  /**
   * `boardToBitboards`: ORs one bit per piece into twelve 64-bit boards,
   * reads them back bit by bit as 0.0 / 1.0 and pads with 0.0 up to 784.
   */
  method BoardToBitboards(board: Board) returns (flat: seq<real>)
    ensures |flat| == PADDED_INPUT
    ensures forall k :: 0 <= k < INPUT_NEURONS ==> flat[k] == FeatureBit(board, k) as real
    ensures forall k :: INPUT_NEURONS <= k < PADDED_INPUT ==> flat[k] == 0.0
  {
    var boards := new nat[PLANES](_ => 0);
    forall n: nat ensures Bit(0, n) == 0 {
      ZeroHasNoBits(n);
    }
    for sq := 0 to 64
      invariant forall p :: 0 <= p < PLANES ==> boards[p] < TWO_TO_64
      invariant forall p, n :: 0 <= p < PLANES && 0 <= n < 64 ==>
                  Bit(boards[p], n) == if n < sq && OnPlane(board, p, n) then 1 else 0
    {
      match board.squares[sq]
      case Some(piece) =>
        var kindIdx := KindIndex(piece.kind);
        var plane := if piece.color == board.turn then kindIdx else kindIdx + 6;
        SetBit(boards[plane], sq);
        boards[plane] := BitOr(boards[plane], Pow2(sq));
      case None =>
    }
    flat := [];
    for p := 0 to PLANES
      invariant |flat| == 64 * p
      invariant forall k :: 0 <= k < |flat| ==> flat[k] == FeatureBit(board, k) as real
    {
      var bb := boards[p];
      for i := 0 to 64
        invariant |flat| == 64 * p + i
        invariant forall k :: 0 <= k < |flat| ==> flat[k] == FeatureBit(board, k) as real
      {
        assert (64 * p + i) / 64 == p && (64 * p + i) % 64 == i;
        flat := flat + [Bit(bb, i) as real];
      }
    }
    while |flat| < PADDED_INPUT
      invariant INPUT_NEURONS <= |flat| <= PADDED_INPUT
      invariant forall k :: 0 <= k < INPUT_NEURONS ==> flat[k] == FeatureBit(board, k) as real
      invariant forall k :: INPUT_NEURONS <= k < |flat| ==> flat[k] == 0.0
    {
      flat := flat + [0.0];
    }
  }

  // ----- loadWeights -----

  /** `parseLine`: the tokens of a line that `std::stof` accepts, in order. */
  function ParseLine<F>(line: string, stof: string -> Option<F>): seq<F>
  {
    FloatTokens(Words(line, CStream), stof)
  }

  function FloatTokens<F>(tokens: seq<string>, stof: string -> Option<F>): (vs: seq<F>)
    ensures |vs| <= |tokens|
  {
    if tokens == [] then []
    else FloatTokens(tokens[..|tokens| - 1], stof) + (match stof(tokens[|tokens| - 1]) case Some(v) => [v] case None => [])
  }

  /** When `std::stof` accepts every token, each token gives one value, in order. */
  lemma {:induction false} FloatTokensAccepted<F>(tokens: seq<string>, stof: string -> Option<F>)
    requires forall k :: 0 <= k < |tokens| ==> stof(tokens[k]).Some?
    ensures |FloatTokens(tokens, stof)| == |tokens|
    ensures forall k :: 0 <= k < |tokens| ==> FloatTokens(tokens, stof)[k] == stof(tokens[k]).value
  {
    if tokens != [] {
      FloatTokensAccepted(tokens[..|tokens| - 1], stof);
    }
  }

  lemma HiddenCell(k: nat, row: nat, col: nat)
    requires col < HL1_NEURONS
    ensures row * HL1_NEURONS + col == k <==> (row == k / HL1_NEURONS && col == k % HL1_NEURONS)
  {
  }

  /**
   * `hidden_layer_1_weights`: the k-th value goes to row k / 16, column
   * k % 16 while that row exists; every value advances the counter.
   */
  function FillHidden<F>(grid: seq<seq<F>>, idx: nat, vals: seq<F>): (r: (seq<seq<F>>, nat))
    requires IsGrid(grid, |grid|, HL1_NEURONS)
    ensures r.1 == idx + |vals| && IsGrid(r.0, |grid|, HL1_NEURONS)
    ensures forall row, col :: 0 <= row < |grid| && 0 <= col < HL1_NEURONS ==>
              r.0[row][col] == if idx <= row * HL1_NEURONS + col < idx + |vals|
                               then vals[row * HL1_NEURONS + col - idx] else grid[row][col]
    decreases |vals|
  {
    if vals == [] then (grid, idx)
    else
      var row, col := idx / HL1_NEURONS, idx % HL1_NEURONS;
      var g := if row < |grid| && col < HL1_NEURONS then grid[row := grid[row][col := vals[0]]] else grid;
      FillHidden(g, idx + 1, vals[1..])
  }

  /**
   * `output_layer_weights`: with one output neuron the k-th value goes to
   * row k, column 0 while that row exists; every value advances the counter.
   */
  function FillOutput<F>(grid: seq<seq<F>>, idx: nat, vals: seq<F>): (r: (seq<seq<F>>, nat))
    requires IsGrid(grid, |grid|, OUTPUT_NEURONS)
    ensures r.1 == idx + |vals| && IsGrid(r.0, |grid|, OUTPUT_NEURONS)
    ensures forall row :: 0 <= row < |grid| ==>
              r.0[row][0] == if idx <= row < idx + |vals| then vals[row - idx] else grid[row][0]
    decreases |vals|
  {
    if vals == [] then (grid, idx)
    else
      var row, col := idx / OUTPUT_NEURONS, idx % OUTPUT_NEURONS;
      var g := if row < |grid| && col < OUTPUT_NEURONS then grid[row := grid[row][col := vals[0]]] else grid;
      FillOutput(g, idx + 1, vals[1..])
  }

  /** The 1-D sections: the k-th value goes to slot k while k is in range; every value advances the counter. */
  function FillCapped<F>(arr: seq<F>, idx: nat, vals: seq<F>): (r: (seq<F>, nat))
    ensures |r.0| == |arr| && r.1 == idx + |vals|
    ensures forall j :: 0 <= j < |arr| ==> r.0[j] == if idx <= j < idx + |vals| then vals[j - idx] else arr[j]
    decreases |vals|
  {
    if vals == [] then (arr, idx)
    else FillCapped(if idx < |arr| then arr[idx := vals[0]] else arr, idx + 1, vals[1..])
  }

  predicate IsGrid<F>(g: seq<seq<F>>, rows: nat, cols: nat)
  {
    |g| == rows && forall r :: 0 <= r < rows ==> |g[r]| == cols
  }

  datatype Loader<F> = Loader(section: string, idx: nat,
                              hl1Weights: seq<seq<F>>, hl1Bias: seq<F>,
                              outputWeights: seq<seq<F>>, outputBias: seq<F>)
  {
    ghost predicate Shaped()
    {
      && IsGrid(hl1Weights, INPUT_NEURONS, HL1_NEURONS) && |hl1Bias| == HL1_NEURONS
      && IsGrid(outputWeights, HL1_NEURONS, OUTPUT_NEURONS) && |outputBias| == OUTPUT_NEURONS
    }
  }

  /** The values of one line, written to the vector the current section names. */
  function LoadValues<F>(st: Loader<F>, vals: seq<F>): (r: Loader<F>)
    requires st.Shaped()
    ensures r.Shaped()
  {
    if st.section == "hidden_layer_1_weights" then
      var (g, k) := FillHidden(st.hl1Weights, st.idx, vals); st.(hl1Weights := g, idx := k)
    else if st.section == "hidden_layer_1_bias" then
      var (a, k) := FillCapped(st.hl1Bias, st.idx, vals); st.(hl1Bias := a, idx := k)
    else if st.section == "output_layer_weights" then
      var (g, k) := FillOutput(st.outputWeights, st.idx, vals); st.(outputWeights := g, idx := k)
    else if st.section == "output_layer_1_bias" || st.section == "output_layer_bias" then
      var (a, k) := FillCapped(st.outputBias, st.idx, vals); st.(outputBias := a, idx := k)
    else st
  }

  /** One line as `std::getline` delivers it (no newline, nothing stripped). */
  function LoadLine<F>(st: Loader<F>, line: string, stof: string -> Option<F>): (r: Loader<F>)
    requires st.Shaped()
    ensures r.Shaped()
  {
    if line == [] then st
    else if line[|line| - 1] == ':' then st.(section := line[..|line| - 1], idx := 0)
    else LoadValues(st, ParseLine(line, stof))
  }

  function Load<F>(st: Loader<F>, lines: seq<string>, stof: string -> Option<F>): (r: Loader<F>)
    requires st.Shaped()
    ensures r.Shaped()
  {
    if lines == [] then st else LoadLine(Load(st, lines[..|lines| - 1], stof), lines[|lines| - 1], stof)
  }

  /** A line ending in ':' names the section (without the colon) and resets the counter; an empty line is skipped. */
  lemma HeaderAndBlankLines<F>(st: Loader<F>, line: string, stof: string -> Option<F>)
    requires st.Shaped()
    ensures line == [] ==> LoadLine(st, line, stof) == st
    ensures line != [] && line[|line| - 1] == ':' ==>
              LoadLine(st, line, stof) == st.(section := line[..|line| - 1], idx := 0)
  {
  }

  /**
   * In `hidden_layer_1_weights` the k-th value of the section goes to
   * hl1_weights[k / 16][k % 16] while k / 16 < 768; values past capacity are
   * dropped but still advance the counter, and no other vector changes.
   */
  lemma HiddenWeightsValues<F>(st: Loader<F>, vals: seq<F>)
    requires st.Shaped() && st.section == "hidden_layer_1_weights"
    ensures var r := LoadValues(st, vals);
            && r.section == st.section && r.idx == st.idx + |vals|
            && r.hl1Bias == st.hl1Bias && r.outputWeights == st.outputWeights && r.outputBias == st.outputBias
            && (forall k :: st.idx <= k < st.idx + |vals| && k / HL1_NEURONS < INPUT_NEURONS ==>
                  r.hl1Weights[k / HL1_NEURONS][k % HL1_NEURONS] == vals[k - st.idx])
            && (forall row, col ::
                  0 <= row < INPUT_NEURONS && 0 <= col < HL1_NEURONS && !(st.idx <= row * HL1_NEURONS + col < st.idx + |vals|) ==>
                  r.hl1Weights[row][col] == st.hl1Weights[row][col])
  {
    var r := LoadValues(st, vals);
    forall k | st.idx <= k < st.idx + |vals| && k / HL1_NEURONS < INPUT_NEURONS
      ensures r.hl1Weights[k / HL1_NEURONS][k % HL1_NEURONS] == vals[k - st.idx]
    {
      HiddenCell(k, k / HL1_NEURONS, k % HL1_NEURONS);
    }
  }

  /** The section names differ in their lengths, except the two 19-letter ones, which differ in their first letter. */
  lemma SectionLengths()
    ensures |"hidden_layer_1_weights"| == 22 && |"hidden_layer_1_bias"| == 19 && |"output_layer_weights"| == 20
    ensures |"output_layer_1_bias"| == 19 && |"output_layer_bias"| == 17
    ensures "hidden_layer_1_bias"[0] == 'h' && "output_layer_1_bias"[0] == 'o'
  {
  }

  /** `hidden_layer_1_bias` fills hl1_bias[k] while k < 16; nothing else changes. */
  lemma HiddenBiasValues<F>(st: Loader<F>, vals: seq<F>)
    requires st.Shaped() && st.section == "hidden_layer_1_bias"
    ensures LoadValues(st, vals) == st.(hl1Bias := FillCapped(st.hl1Bias, st.idx, vals).0, idx := st.idx + |vals|)
  {
  }

  /** `output_layer_weights` fills output_weights[k][0] while k < 16; nothing else changes. */
  lemma OutputWeightsValues<F>(st: Loader<F>, vals: seq<F>)
    requires st.Shaped() && st.section == "output_layer_weights"
    ensures LoadValues(st, vals) == st.(outputWeights := FillOutput(st.outputWeights, st.idx, vals).0,
                                        idx := st.idx + |vals|)
  {
    SectionLengths();
    var (g, k) := FillOutput(st.outputWeights, st.idx, vals);
    assert LoadValues(st, vals) == st.(outputWeights := g, idx := k);
  }

  /** Both spellings of the output bias section fill output_bias[k] while k < 1; nothing else changes. */
  lemma OutputBiasValues<F>(st: Loader<F>, vals: seq<F>)
    requires st.Shaped() && (st.section == "output_layer_1_bias" || st.section == "output_layer_bias")
    ensures LoadValues(st, vals) == st.(outputBias := FillCapped(st.outputBias, st.idx, vals).0, idx := st.idx + |vals|)
  {
    var s := st.section;
    assert s != "hidden_layer_1_weights" && s != "hidden_layer_1_bias" && s != "output_layer_weights";
  }

  /** Values under any other section name change nothing, not even the counter. */
  lemma UnknownSectionValues<F>(st: Loader<F>, vals: seq<F>)
    requires st.Shaped()
    requires st.section != "hidden_layer_1_weights" && st.section != "hidden_layer_1_bias"
    requires st.section != "output_layer_weights"
    requires st.section != "output_layer_1_bias" && st.section != "output_layer_bias"
    ensures LoadValues(st, vals) == st
  {
  }

  /** The global weight and bias vectors. */
  class CppNet<F> {
    const hl1Weights: array2<F>
    const hl1Bias: array<F>
    const outputWeights: array2<F>
    const outputBias: array<F>

    ghost predicate Valid()
      reads this
    {
      && hl1Weights.Length0 == INPUT_NEURONS && hl1Weights.Length1 == HL1_NEURONS
      && hl1Bias.Length == HL1_NEURONS
      && outputWeights.Length0 == HL1_NEURONS && outputWeights.Length1 == OUTPUT_NEURONS
      && outputBias.Length == OUTPUT_NEURONS
      && hl1Weights != outputWeights && hl1Bias != outputBias
    }

    /** The vectors as declared: every entry is the zero value. */
    constructor (zero: F)
      ensures Valid()
      ensures fresh(hl1Weights) && fresh(hl1Bias) && fresh(outputWeights) && fresh(outputBias)
      ensures forall r, c :: 0 <= r < INPUT_NEURONS && 0 <= c < HL1_NEURONS ==> hl1Weights[r, c] == zero
      ensures forall i :: 0 <= i < HL1_NEURONS ==> hl1Bias[i] == zero && outputWeights[i, 0] == zero
      ensures outputBias[0] == zero
    {
      hl1Weights := new F[INPUT_NEURONS, HL1_NEURONS]((_, _) => zero);
      hl1Bias := new F[HL1_NEURONS](_ => zero);
      outputWeights := new F[HL1_NEURONS, OUTPUT_NEURONS]((_, _) => zero);
      outputBias := new F[OUTPUT_NEURONS](_ => zero);
    }

    ghost function State(section: string, idx: nat): (st: Loader<F>)
      requires Valid()
      reads this, hl1Weights, hl1Bias, outputWeights, outputBias
      ensures st.Shaped()
    {
      Loader(section, idx, GridOf(hl1Weights), hl1Bias[..], GridOf(outputWeights), outputBias[..])
    }

    /** `loadWeights` over the lines of the weight file. */
    method LoadWeights(lines: seq<string>, stof: string -> Option<F>)
      requires Valid()
      modifies hl1Weights, hl1Bias, outputWeights, outputBias
      ensures Valid()
      ensures var r := Load(old(State("", 0)), lines, stof);
              && GridOf(hl1Weights) == r.hl1Weights && hl1Bias[..] == r.hl1Bias
              && GridOf(outputWeights) == r.outputWeights && outputBias[..] == r.outputBias
    {
      var section := "";
      var idx: nat := 0;
      ghost var init := State("", 0);
      for i := 0 to |lines|
        invariant State(section, idx) == Load(init, lines[..i], stof)
      {
        assert lines[..i + 1][..i] == lines[..i];
        var line := lines[i];
        if line == [] {
          continue;
        }
        if line[|line| - 1] == ':' {
          section := line[..|line| - 1];
          idx := 0;
          continue;
        }
        var values := ParseLine(line, stof);
        if section == "hidden_layer_1_weights" {
          idx := FillHiddenArray(hl1Weights, idx, values);
        } else if section == "hidden_layer_1_bias" {
          idx := FillCappedArray(hl1Bias, idx, values);
        } else if section == "output_layer_weights" {
          idx := FillOutputArray(outputWeights, idx, values);
        } else if section == "output_layer_1_bias" || section == "output_layer_bias" {
          idx := FillCappedArray(outputBias, idx, values);
        }
      }
      assert lines[..|lines|] == lines;
    }
  }

  ghost function GridOf<F>(a: array2<F>): (g: seq<seq<F>>)
    reads a
    ensures IsGrid(g, a.Length0, a.Length1)
  {
    seq(a.Length0, r requires 0 <= r < a.Length0 reads a => seq(a.Length1, c requires 0 <= c < a.Length1 reads a => a[r, c]))
  }

  /** The inner `for (float val : values)` loop of `hidden_layer_1_weights`. */
  method FillHiddenArray<F>(a: array2<F>, idx: nat, vals: seq<F>) returns (next: nat)
    requires a.Length1 == HL1_NEURONS
    modifies a
    ensures (GridOf(a), next) == FillHidden(old(GridOf(a)), idx, vals)
  {
    ghost var g0 := GridOf(a);
    next := idx;
    for k := 0 to |vals|
      invariant next == idx + k
      invariant forall r, c :: 0 <= r < a.Length0 && 0 <= c < HL1_NEURONS ==>
                  a[r, c] == if idx <= r * HL1_NEURONS + c < next then vals[r * HL1_NEURONS + c - idx] else g0[r][c]
    {
      var row := next / HL1_NEURONS;
      var col := next % HL1_NEURONS;
      if row < a.Length0 && col < HL1_NEURONS {
        a[row, col] := vals[k];
      }
      next := next + 1;
    }
    ghost var spec := FillHidden(g0, idx, vals);
    GridsEqual(GridOf(a), spec.0, a.Length0, HL1_NEURONS);
  }

  /** The inner loop of `output_layer_weights`. */
  method FillOutputArray<F>(a: array2<F>, idx: nat, vals: seq<F>) returns (next: nat)
    requires a.Length1 == OUTPUT_NEURONS
    modifies a
    ensures (GridOf(a), next) == FillOutput(old(GridOf(a)), idx, vals)
  {
    ghost var g0 := GridOf(a);
    next := idx;
    for k := 0 to |vals|
      invariant next == idx + k
      invariant forall r :: 0 <= r < a.Length0 ==>
                  a[r, 0] == if idx <= r < next then vals[r - idx] else g0[r][0]
    {
      var row := next / OUTPUT_NEURONS;
      var col := next % OUTPUT_NEURONS;
      assert row == next && col == 0;
      if row < a.Length0 && col < OUTPUT_NEURONS {
        a[row, col] := vals[k];
      }
      next := next + 1;
    }
    ghost var spec := FillOutput(g0, idx, vals);
    ghost var g := GridOf(a);
    forall r, c | 0 <= r < a.Length0 && 0 <= c < OUTPUT_NEURONS ensures g[r][c] == spec.0[r][c] {
      assert c == 0 && g[r][0] == a[r, 0];
    }
    GridsEqual(g, spec.0, a.Length0, OUTPUT_NEURONS);
  }

  lemma GridsEqual<F>(g: seq<seq<F>>, h: seq<seq<F>>, rows: nat, cols: nat)
    requires IsGrid(g, rows, cols) && IsGrid(h, rows, cols)
    requires forall r, c :: 0 <= r < rows && 0 <= c < cols ==> g[r][c] == h[r][c]
    ensures g == h
  {
    forall r | 0 <= r < rows ensures g[r] == h[r] {
      assert |g[r]| == |h[r]| == cols;
    }
  }

  /** The inner loop of a 1-D section. */
  method FillCappedArray<F>(a: array<F>, idx: nat, vals: seq<F>) returns (next: nat)
    modifies a
    ensures (a[..], next) == FillCapped(old(a[..]), idx, vals)
  {
    next := idx;
    for k := 0 to |vals|
      invariant next == idx + k
      invariant forall j :: 0 <= j < a.Length ==> a[j] == if idx <= j < next then vals[j - idx] else old(a[j])
    {
      if next < a.Length {
        a[next] := vals[k];
      }
      next := next + 1;
    }
    ghost var spec := FillCapped(old(a[..]), idx, vals);
    assert a[..] == spec.0 by {
      forall j | 0 <= j < a.Length ensures a[..][j] == spec.0[j] {
      }
    }
  }
}
