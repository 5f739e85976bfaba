# Sense: a verified model of the engine core

Sense is a small UCI chess engine with a tiny evaluation network. This
project models its core in Dafny:

- the transposition table, with its two different slot indices;
- MVV-LVA move ordering;
- the negamax search with its table move;
- the dead quiescence search;
- iterative deepening in `go`;
- the arithmetic and token handling of the `go` and `position` commands;
- the three board encoders (C++, `sensenet.py`, `tester_2.py`);
- the two weight-file loaders;
- the integer forward pass of `tester_2.py`.

The chess rules come from a library that is not part of this model. They
form a record of functions, `Search.Env`:

- a board view (64 squares and the side to move);
- legal moves, making a move, the Zobrist hash;
- the hand-crafted evaluation;
- "is this side's king attacked";
- the draw test;
- the clock question "has the budget run out at the n-th clock reading?".

Searching is written twice:

- once as mutually recursive functions (`Search.NegamaxResult`,
  `Deepening.GoSearch`, `QuiescenceSearch.QSearchResult`);
- once as imperative methods over the table object and the clock counter
  (`Search.Searcher.Negamax`, `Deepening.GoDeepen`,
  `QuiescenceSearch.QSearch`).

Each method is proved to compute exactly what its function computes. The
properties of the search are proved about the functions.

What the engine does and does not do:

- The transposition table holds no score and no bound. It stores only a
  move and the ply from the root, and is used for move ordering only.
- There is no null-move pruning, no principal-variation re-search and no
  aspiration window.
- Mate is a flat ±1000000, not offset by ply.
- The quiescence search is never called: the horizon returns the static
  evaluation.
- The draw test comes after the no-moves test, so a stalemated or mated
  position scores as such even when it is also a rule draw.
- `probe_entry` and `store_entry` pick their slots differently.
  - Probing uses the high bits, ⌊h·size/2^64⌋, which is h / 2^44 for the
    table's 2^20 slots.
  - Storing uses h mod 2^20.
  - A stored entry is found again only when these two agree;
    `TranspositionTable.StoreThenProbeMisses` exhibits a store that the next
    probe of the same key does not see.

`TT_SIZE_DEFAULT` is 16 MiB divided by the entry size. The entry is a 64-bit
key, a 4-byte move and an int, so it is 16 bytes and the table has 1048576
slots.

## Model

| member | source | states |
|---|---|---|
| TranspositionTable.TableIndex | main.cpp:181-183 | the multiply-high index ⌊h·size/2^64⌋ lies below the size for every 64-bit key |
| TranspositionTable.ProbeSlotIsHighBits | main.cpp:177-183 | for the table's size the probe slot is the key's top 20 bits, h / 2^44 |
| TranspositionTable.StoreIndex | main.cpp:195 | the store slot h % TT_SIZE_DEFAULT lies inside the table |
| TranspositionTable.ProbeIn | main.cpp:185-192 | a probe returns the entry in the probe slot exactly when that slot holds the probed key, and the empty entry otherwise |
| TranspositionTable.StoreInto | main.cpp:194-203 | a store changes no slot other than h % TT_SIZE_DEFAULT |
| TranspositionTable.StoreSlot | main.cpp:198-202 | the store slot receives the whole entry (key, depth, move) exactly when the new depth is at least the slot's depth and the slot's key differs; otherwise it is unchanged |
| TranspositionTable.StoreSameKeyKeepsTable | main.cpp:198 | storing a key that the slot already holds leaves the table unchanged, even at a greater depth |
| TranspositionTable.StoreShallowerKeepsTable | main.cpp:198 | a store shallower than the slot's entry leaves the table unchanged |
| TranspositionTable.Cleared | main.cpp:551 | the reset table has TT_SIZE_DEFAULT slots, all holding the default entry |
| TranspositionTable.ClearedIsPlaced | main.cpp:551 | in the reset table every entry sits in its own store slot |
| TranspositionTable.StorePreservesPlaced | main.cpp:194-203 | every store keeps each non-empty entry in the slot that h % TT_SIZE_DEFAULT names |
| TranspositionTable.ProbeHitMeansAlignedKey | main.cpp:181-198 | in a table built by stores, a probe hits only keys whose high-bits index equals their store index |
| TranspositionTable.StoreElsewhereInvisible | main.cpp:181-198 | when a key's two indices differ, storing it leaves the probe of that key unchanged |
| TranspositionTable.StoreThenProbeAligned | main.cpp:185-203 | when the indices agree and the store replaces the slot, the next probe returns the stored entry |
| TranspositionTable.StoreThenProbeMisses | main.cpp:181-198 | key 1 is written to slot 1, yet its next probe (slot 0) returns the default entry |
| TranspositionTable.Table.constructor | main.cpp:529 | the resized table holds TT_SIZE_DEFAULT default entries |
| TranspositionTable.Table.Reset | main.cpp:551 | `ucinewgame` refills every slot with the default entry |
| TranspositionTable.Table.Probe | main.cpp:185-192 | the probe reads the array without modifying it and returns `ProbeIn` of its contents |
| TranspositionTable.Table.Store | main.cpp:194-203 | the array's new contents are `StoreInto` of the old ones |
| MoveOrder.PieceValue | main.cpp:116-126 | values are at most 10000; only "no piece" is 0 and only the king is 10000 |
| MoveOrder.PieceValuesStrictlyIncrease | main.cpp:116-126 | pawn < knight < bishop < rook < queen < king in value |
| MoveOrder.BeforeIsRankOrder | main.cpp:129-153 | the comparator holds exactly when one move's rank is below the other's (captures by victim descending then attacker ascending, then quiet moves) |
| MoveOrder.BeforeIrreflexive | main.cpp:129-153 | no move is ordered before itself |
| MoveOrder.BeforeTransitive | main.cpp:129-153 | the comparator is transitive |
| MoveOrder.UnorderedTransitive | main.cpp:129-153 | incomparability is transitive, so the comparator is a strict weak order |
| MoveOrder.CapturesFirst | main.cpp:146-152 | a move onto an occupied square precedes a quiet move, and two quiet moves are equivalent |
| MoveOrder.CaptureOrder | main.cpp:133-145 | between captures, a more valuable victim comes first; with equal victims, the less valuable attacker comes first, in both directions |
| MoveOrder.SortMovesCorrect | main.cpp:156-167 | the sorted copy is a permutation of the moves and no move is followed by one that precedes it |
| MoveOrder.IsCaptureMove | main.cpp:20-24 | a move is a capture for `is_capture_move` exactly when its target holds a piece of the side not to move; such a target is occupied for the comparator too |
| MoveOrder.OwnPieceTargetOrderedAsCapture | main.cpp:20-24 | a target held by the mover's own piece counts as a capture for ordering but not for `is_capture_move` |
| Search.Evaluate | main.cpp:205-218 | the score is the heuristic for White to move and its negation for Black; it stays within ±INT_MAX when the heuristic does |
| Search.NoMovesScore | main.cpp:286-294 | with no legal moves: -MATE_SCORE iff the mover's king is attacked; MATE_SCORE iff only the opponent's is; 0 iff neither is |
| Search.NegamaxResult | main.cpp:272-356 | the search keeps the table's size and never moves the clock back, and with a bounded heuristic every score stays within ±INT_MAX, so negation never overflows |
| Search.Interior | main.cpp:301-348 | the move loop keeps the table's size and the clock order, and keeps the best score and alpha within ±INT_MAX |
| Search.SearchMoves | main.cpp:326-348 | the ordered loop keeps the table's size and the clock order, and keeps the scores within ±INT_MAX |
| Search.Searcher.Expired | main.cpp:276-281 | each budget check reads the clock once and answers the oracle's question for that reading |
| Search.Searcher.Negamax | main.cpp:272-356 | the imperative search returns the score, leaves the table and moves the clock exactly as `NegamaxResult` describes |
| Search.Searcher.TableMove | main.cpp:301-321 | the table move is searched, as one loop step from the initial best score -INT_MAX, exactly when the probed depth is at least the ply; otherwise nothing is searched and the table and clock are untouched |
| Search.Searcher.Children | main.cpp:301-348 | the table move then the ordered loop give exactly the state `Interior` describes |
| Search.Searcher.OrderedLoop | main.cpp:323-348 | the loop over the sorted moves gives exactly the state `SearchMoves` describes |
| Search.Searcher.Visit | main.cpp:332-344 | one child search updates best score, best move and alpha as one loop step, with `>=` for the best move |
| SearchProperties.SearchMovesBest | main.cpp:326-348 | the loop's best score is the maximum of the scores searched, and its best move is the last move attaining it |
| SearchProperties.SearchMovesVisits | main.cpp:326-348 | the loop searches a prefix of the sorted moves with the table move removed, in order |
| SearchProperties.SearchMovesAlpha | main.cpp:344-347 | alpha ends as the maximum of its start and the scores searched, and the loop stops before the end only when alpha has reached beta |
| SearchProperties.SearchMovesNoEarlyStop | main.cpp:344-347 | every move after the first was searched while alpha was still below beta |
| SearchProperties.NegamaxTerminal | main.cpp:273-299 | at depth ≤ 0 the score is `Evaluate` with no clock read; an expired budget gives 0; no moves gives `NoMovesScore`; a rule draw gives 0; none of these touches the table |
| SearchProperties.LeafOnlyReadsNoClock | main.cpp:273-281 | a call reads no clock exactly when its depth is at most 0 |
| SearchProperties.InteriorNodeResult | main.cpp:301-355 | at an interior node the score is the children's maximum and the best move attains it; the table is stored under the ply and best move exactly when the probed depth is at most the ply |
| SearchProperties.FirstScan | main.cpp:301-321 | the table move is searched, as the first searched move, exactly when the probed depth is at least the ply |
| SearchProperties.InteriorBest | main.cpp:301-348 | over the table move and the loop together, the best score is the maximum of all scores searched and the best move is the last one attaining it |
| SearchProperties.InteriorTableMove | main.cpp:301-329 | the table move comes first when the probe is deep enough and is never searched again in the loop |
| SearchProperties.InteriorOrderedMoves | main.cpp:323-348 | after the table move, the searched moves are a prefix of the sorted legal moves without it, cut short only when alpha reaches beta |
| SearchProperties.NegamaxKeepsPlaced | main.cpp:350-354 | a whole search keeps every table entry in its store slot |
| QuiescenceSearch.CapturesOf | main.cpp:245-250 | the filter keeps only capturing moves of the list, and at most as many as it had |
| QuiescenceSearch.CapturesOfAppend | main.cpp:245-250 | filtering a concatenation is filtering each part in turn, so the kept captures stay in the list's order |
| QuiescenceSearch.CapturesOfExactly | main.cpp:245-250 | a move is kept exactly when it is in the list and captures |
| QuiescenceSearch.OrderedCaptures | main.cpp:237-250 | every move in `captureMoves` is a legal capture |
| QuiescenceSearch.QSearchResult | main.cpp:220-270 | every call reads the clock at least once |
| QuiescenceSearch.QLoopWindow | main.cpp:252-269 | the capture loop returns beta or a value at least the incoming alpha, and never more than beta |
| QuiescenceSearch.QSearchScores | main.cpp:220-270 | 0 on an expired budget; beta when standing pat reaches it; 0 on a rule draw; otherwise between max(alpha, stand-pat) and beta, and exactly max(alpha, stand-pat) without captures |
| QuiescenceSearch.QSearchFailHard | main.cpp:220-270 | every score lies in [alpha, beta], except the 0 of a timeout or draw |
| QuiescenceSearch.QSearch | main.cpp:220-270 | the imperative search returns the score and moves the clock as `QSearchResult` describes |
| QuiescenceSearch.CaptureFilter | main.cpp:245-250 | the filtering loop builds exactly `CapturesOf` |
| QuiescenceSearch.CaptureLoop | main.cpp:252-269 | the capture loop with its early `return beta` computes exactly `QLoop` |
| QuiescenceSearch.CaptureStep | main.cpp:254-268 | one turn of the capture loop: it returns beta exactly when the negated child score reaches beta, and otherwise continues as `QLoop` with alpha raised to that score |
| Deepening.RootLoop | main.cpp:463-483 | a root iteration keeps the table's size and never moves the clock back |
| Deepening.RootStep | main.cpp:465-474 | one root move reads the clock once after its search and replaces the best move only on a strictly better score |
| Deepening.RootLoopFirstBest | main.cpp:463-474 | the iteration's best move is the first move attaining the maximum score, so root ties keep the earlier move |
| Deepening.RootLoopVisits | main.cpp:463-483 | an iteration searches a prefix of the legal moves in order; it is cut short only after a reading at which the budget had run out, and a completed one searched them all |
| Deepening.RootLoopCompletes | main.cpp:476-482 | with a budget that never runs out, every iteration completes |
| Deepening.RootLoopPicksRootMove | main.cpp:459-474 | the iteration's move is a legal root move, or the incoming move when there is none |
| Deepening.Deepen | main.cpp:458-501 | deepening keeps the table's size and never moves the clock back; a completed iteration reads the clock once more for its `info` line |
| Deepening.DeepenIteration | main.cpp:485-501 | a cut-short iteration is discarded and the previous move, score and depth are kept; a completed one is adopted and deepening goes on |
| Deepening.DeepenReportsLegalMove | main.cpp:450-501 | the reported move is a legal move whenever one exists, and NO_MOVE otherwise |
| Deepening.DeepenDepth | main.cpp:458-501 | the reported depth is the starting one or a depth between the first tried and `max_depth` |
| Deepening.DeepenUnlimited | main.cpp:458-501 | with a budget that never runs out, the reported depth is `max_depth` |
| Deepening.GoSearchReport | main.cpp:447-501 | `handleGo`'s search reports a legal move when there is one, a depth of 0 or in 1..max_depth, and max_depth on an unlimited budget |
| Deepening.GoDeepen | main.cpp:447-501 | the imperative iterative-deepening loop gives exactly the move, score, depth, table and clock of `GoSearch` |
| Deepening.RootIteration | main.cpp:459-483 | the imperative root loop with its `break` gives exactly `RootLoop` |
| Text.WordsAreTokens | main.cpp:405 | the words of a line are non-empty and contain no whitespace |
| Text.WordsOfUnwords | main.cpp:365-370 | tokens joined with single spaces are read back as the same tokens |
| Text.Strip | nn/tester_2.py:49 | the result is the input with only leading and trailing whitespace removed, and it is empty or neither starts nor ends with whitespace |
| Text.Stoi | main.cpp:411 | a successful `stoi` yields a 32-bit int |
| Text.ParseShow | main.cpp:411 | `stoi` reads back the decimal form of every 32-bit int |
| Text.PyIntShow | nn/tester_2.py:27 | Python `int()` reads back the decimal form of every integer |
| Uci.ExtractWord | main.cpp:405 | `ss >> token` fails exactly on a blank rest; otherwise it returns a whitespace-free token and a shorter rest, which starts with whitespace or is empty |
| Uci.ExtractWordOf | main.cpp:405 | a token followed by whitespace or the end is read back exactly |
| Uci.ExtractInt | main.cpp:407 | `ss >> max_depth` fails at the end or without digits, clamps to INT_MAX or INT_MIN out of range, and otherwise reads a 32-bit int |
| Uci.ExtractIntOf | main.cpp:407 | the decimal form of a 32-bit int is read back exactly |
| Uci.ScanGoRendered | main.cpp:404-429 | a `go` line written from depth, time and unknown items parses to the arguments those items set, starting from the defaults |
| Uci.MissingValueFails | main.cpp:409-428 | a time keyword with no value makes `stoi` fail |
| Uci.BadDepthStopsParsing | main.cpp:406-408 | `depth abc` sets the depth to 0 and ends reading, so a later `movetime` is ignored |
| Uci.ParseGo | main.cpp:404-429 | the argument loop computes exactly `ScanGo` from the defaults |
| Uci.CDiv | main.cpp:433 | C++ division truncates toward zero |
| Uci.BudgetDefault | main.cpp:394-445 | without the mover's clock or increment the budget is `movetime`, and 1500 by default |
| Uci.BudgetOwnClock | main.cpp:431-444 | once the mover's clock is given, `movetime` is ignored |
| Uci.BudgetIncrement | main.cpp:435-443 | a given increment is added to the budget computed without it |
| Uci.BudgetIgnoresOpponent | main.cpp:431-445 | the budget never depends on the opponent's clock or increment |
| Uci.BudgetMirror | main.cpp:431-445 | Black's budget is White's with the clocks swapped |
| Uci.BudgetTwentieth | main.cpp:432-434 | with wtime ≥ 0 and no increment, White's budget is wtime / 20 rounded down |
| Uci.Timed | main.cpp:476-479 | the budget has run out at a reading exactly when the elapsed milliseconds reach `max_time` |
| Uci.GoCommandReport | main.cpp:393-501 | a `go` line that parses reports a legal move when there is one and a depth of 0 or in 1..depth; one that fails leaves the table alone |
| Uci.GoDepthReached | main.cpp:404-458 | `go depth d` with a clock that stays within budget reports depth d |
| Uci.PlayMovesAppend | main.cpp:384-389 | playing two lists of moves is playing their concatenation |
| Uci.MovesAt | main.cpp:367 | the FEN tokens stop at the first `moves` token or the end |
| Uci.PositionStartpos | main.cpp:362-390 | `startpos` sets the start position, then plays the moves after `moves` |
| Uci.PositionFen | main.cpp:364-380 | `fen` sets the board to the FEN tokens joined with single spaces, then plays the moves after `moves` |
| Uci.PositionOther | main.cpp:358-390 | an empty or unknown first token keeps the board, and only plays moves after a second `moves` token |
| Uci.PositionFenLine | main.cpp:358-380 | a `position fen ... moves ...` line read through the stream sets that FEN and plays those moves |
| Uci.SpaceAfter | main.cpp:367-369 | the accumulated FEN string is empty exactly when there are no FEN tokens |
| Uci.SpaceAfterUnwords | main.cpp:365-371 | the accumulated string is the tokens joined with single spaces plus one trailing space, which `pop_back` removes |
| Uci.Engine.constructor | main.cpp:526-529 | the engine starts from the start position with a cleared table of TT_SIZE_DEFAULT entries |
| Uci.Engine.NewGame | main.cpp:548-551 | `ucinewgame` restores the start position and clears the table |
| Uci.Engine.HandlePosition | main.cpp:358-391 | the new board is `Position` of the line's tokens |
| Uci.Engine.PositionTokens | main.cpp:359-390 | the token dispatch of `handlePosition` gives exactly `Position` |
| Uci.Engine.FenPosition | main.cpp:364-381 | the FEN-joining loop and the moves loop give exactly `Position` |
| Uci.Engine.PlayAll | main.cpp:385-389 | the moves loop plays the remaining moves in order |
| Uci.Engine.HandleGo | main.cpp:393-501 | `handleGo` returns the report and leaves the table exactly as `GoCommand` describes |
| Uci.Engine.RunGo | main.cpp:431-501 | the budget and the search leave the report and table of `GoRun` |
| Bits.SetBit | nn/sensenet.py:64 | OR-ing in 1 << s (s < 64) keeps a board below 2^64, sets bit s and leaves every other bit |
| Features.Plane | nn/sensenet.hpp:164-171 | a piece lights one of 12 planes: below 6 exactly for the mover, and the plane mod 6 is its kind P,N,B,R,Q,K |
| Features.FeatureBit | nn/sensenet.hpp:177-181 | every feature is 0 or 1 |
| Features.FeatureMeaning | nn/sensenet.hpp:123-172 | feature p·64+s is 1 iff square s holds a piece of kind p mod 6 that belongs to the mover exactly when p < 6 |
| Features.OnePlanePerPiece | nn/sensenet.hpp:160-172 | an occupied square lights exactly one plane and an empty square none |
| Features.OnesCountPieces | nn/sensenet.hpp:160-182 | the number of 1s in the 768 features is the number of pieces |
| SenseNetPy.BoardToBitboards | nn/sensenet.py:14-74 | 12 boards below 2^64 whose bit n is set iff square n holds a piece of that plane; 768 values, entry k·64+i is bit i of board k, and equals the shared feature |
| SenseNetCpp.BoardToBitboards | nn/sensenet.hpp:117-187 | 784 values: the first 768 are the shared features and the last 16 are 0 |
| SenseNetCpp.FloatTokensAccepted | nn/sensenet.hpp:35-49 | when `stof` accepts every token, `parseLine` gives one value per token, in order |
| SenseNetCpp.FillHidden | nn/sensenet.hpp:78-86 | the k-th value goes to hl1_weights[k/16][k%16] while k/16 < 768; the others are dropped but advance k |
| SenseNetCpp.FillOutput | nn/sensenet.hpp:94-102 | the k-th value goes to output_weights[k][0] while k < 16; the others are dropped but advance k |
| SenseNetCpp.FillCapped | nn/sensenet.hpp:87-93 | the k-th value goes to index k while in bounds; the others are dropped but advance k |
| SenseNetCpp.HeaderAndBlankLines | nn/sensenet.hpp:68-74 | an empty line changes nothing; a line ending in ':' names the section and resets the counter |
| SenseNetCpp.HiddenWeightsValues | nn/sensenet.hpp:78-86 | in `hidden_layer_1_weights` values fill the grid by the capped rule, advance the counter by their number and change no other vector |
| SenseNetCpp.HiddenBiasValues | nn/sensenet.hpp:87-93 | in `hidden_layer_1_bias` only hl1_bias changes, by the capped rule |
| SenseNetCpp.OutputWeightsValues | nn/sensenet.hpp:94-102 | in `output_layer_weights` only output_weights changes, by the capped rule |
| SenseNetCpp.OutputBiasValues | nn/sensenet.hpp:103-109 | in `output_layer_1_bias` or `output_layer_bias` only output_bias changes, by the capped rule |
| SenseNetCpp.UnknownSectionValues | nn/sensenet.hpp:78-110 | values in any other section change nothing, not even the counter |
| SenseNetCpp.CppNet.constructor | nn/sensenet.hpp:21-25 | the four vectors start at their sizes, filled with zero |
| SenseNetCpp.CppNet.LoadWeights | nn/sensenet.hpp:56-115 | the vectors end as the loader state machine `Load` leaves them |
| SenseNetCpp.FillHiddenArray | nn/sensenet.hpp:79-86 | the in-place loop on hl1_weights computes exactly `FillHidden` |
| SenseNetCpp.FillOutputArray | nn/sensenet.hpp:95-102 | the in-place loop on output_weights computes exactly `FillOutput` |
| SenseNetCpp.FillCappedArray | nn/sensenet.hpp:88-93 | the in-place loop on a bias vector computes exactly `FillCapped` |
| Tester2.ParseLine | nn/tester_2.py:23-30 | the values are, in order, the whitespace-separated tokens that `int()` accepts |
| Tester2.IntTokensOfShown | nn/tester_2.py:23-30 | integers written in decimal are parsed back unchanged, and a rejected token adds nothing |
| Tester2.Fill | nn/tester_2.py:61-67 | values fill consecutive indices from the counter up to capacity; the counter stops at capacity and later values are dropped |
| Tester2.HeaderLine | nn/tester_2.py:53-56 | a stripped line ending in ':' names the section and resets the counter |
| Tester2.BlankLine | nn/tester_2.py:49-51 | a blank line after strip changes nothing |
| Tester2.ValueLine | nn/tester_2.py:58-91 | any other line feeds its parsed integers to the current section |
| Tester2.IgnoredSection | nn/tester_2.py:60-91 | an unknown section, `output_layer_1_bias` included, changes nothing |
| Tester2.HiddenWeightsValues | nn/tester_2.py:60-67 | in `hidden_layer_1_weights` the k-th value goes to flat index k while k < 12288, the counter stays at capacity, and no other list changes |
| Tester2.TesterNet.constructor | nn/tester_2.py:15-19 | the four lists start at their sizes, filled with 0 |
| Tester2.TesterNet.LoadWeights | nn/tester_2.py:37-92 | the lists end as the loader state machine `Load` leaves them |
| Tester2.FillArray | nn/tester_2.py:61-67 | the loop with its `break` computes exactly `Fill` |
| Tester2.BoardToBitboards | nn/tester_2.py:95-141 | 768 entries equal to the shared features: bb[p·64+s] = 1 iff s holds a piece of kind p mod 6, the mover's exactly when p < 6 |
| Tester2.ActivateInput | nn/tester_2.py:146-152 | switching one input to 1 adds exactly that input's weight to a hidden sum |
| Tester2.NoActiveInputs | nn/tester_2.py:146-152 | with no input equal to 1 a hidden sum is 0, leaving the bias |
| Tester2.PredictSums | nn/tester_2.py:144-158 | hl1_output[j] is the sum of hl1_weights[i·16+j] over inputs equal to 1 plus hl1_bias[j], and output_sum is the exact integer dot product plus output_bias[0] |
| Agreement.EncodersAgree | nn/tester_2.py:127-139 | the three encoders agree entry by entry on the 768 features, and the C++ tail is 0 |
| Agreement.FillsAgree | nn/tester_2.py:60-75 | the Python and C++ one-dimensional fills write the same values; their counters differ only past capacity |

## Left out

- The chess library (`chess.hpp`, python-chess) is not part of this model. Legal moves, making moves, hashing, attacks, draw rules, `setFen` and `uciToMove` are parameters.
- `hce_pieces` (main.cpp:27-113) is a parameter. Its proximity term goes through floating point.
- Floating point is not modelled: `predict` and `sigmoid` in C++, the final rescale in `tester_2.py`, and `std::stof`. The C++ weights are an opaque type with a `stof` oracle, and the encoders' 0.0/1.0 are reals.
- Wall-clock time is not modelled. The clock is an oracle indexed by the number of clock readings, and it is not assumed monotone.
- Console I/O is not modelled: the UCI read loop, `uci`, `isready`, `quit`, and the `info` and `bestmove` output. `go` returns its report (move, score, depth) instead of printing it.
- The `nodes` and nps counters are not modelled; they are diagnostic only.
- The empty `handleDatagen` is not modelled.
- Opening the weight files is not modelled. The loaders take the file's lines; a missing file is the empty sequence.
- datagen.py, train.py, test_eval.py, nn_to_sense_fmt.py and `get_network` are not part of this model. They are TensorFlow, numpy and subprocess code.
- The mate-in-one end-to-end example needs the chess rules, so it is not modelled.
- Uci.Engine.HandleGo: `all_legal_moves[0]` with no legal moves reads past the list in C++. The model reports NO_MOVE there.
- Uci.Budget: `max_time += winc` is unbounded here. 32-bit overflow of a huge increment is not modelled.
- Uci.ScanGo: an exception from `stoi` ends the command as a `Failure`. What the uncaught exception does to the process is not modelled.
- MoveOrder.SortMovesCorrect: `std::sort` leaves the order of equivalent moves unspecified. The model uses a stable insertion sort, and the search properties hold for that order.
- QuiescenceSearch.QSearchResult requires every legal capture to remove a piece; the recursion has no other bound. The `depth_real` argument is dropped because `evaluate` ignores it. The unused `maxScore` is dropped too.
- Text.PyInt: reads only ASCII digits and has no length limit. CPython's `int()` also accepts other Unicode decimal digits, and from 3.11 it rejects decimal strings longer than 4300 digits by default. So under those versions the round trip of `Text.PyIntShow` fails for integers of more than 4300 digits, and `Tester2.ParseLine` differs from the script on tokens with non-ASCII digits or more than 4300 digits.
- SenseNetCpp.FloatTokensAccepted: the values `stof` produces are opaque, so only their order and count are stated.
