/**
 * The UCI command handlers `handleGo` and `handlePosition`, and the engine's
 * global state they act on (the board and the transposition table).
 *
 * A command line has already lost its first word (`iss >> command`); the
 * handlers read the rest through `operator>>`.  Reading a string token skips
 * whitespace and takes the longest run without whitespace; at the end of
 * the line the read fails and the string keeps its previous value.  Reading
 * an int (libstdc++) skips whitespace, then reads `[+-]digits`; with no
 * digits it stores 0, out of range it stores INT_MAX or INT_MIN, and both
 * set the stream's failbit, after which every later read fails.
 */
module Uci {
  import opened Wrappers
  import opened Chess
  import opened Text
  import opened TranspositionTable
  import opened Search
  import opened Deepening

  // ---------------------------------------------------------------- stream reads

  /** `ss >> token`: the token and the rest of the line, or None at the end of the line. */
  function ExtractWord(s: string): (r: Option<(string, string)>)
    ensures r.None? <==> DropSpace(s, CStream) == []
    ensures r.Some? ==> IsToken(r.value.0) && |r.value.1| < |s|
    ensures r.Some? ==> DropSpace(s, CStream) == r.value.0 + r.value.1
    ensures r.Some? ==> r.value.1 == [] || IsCSpace(r.value.1[0])
  {
    var t := DropSpace(s, CStream);
    if t == [] then None
    else
      var w := TakeWord(t, CStream);
      TakeWordSplit(t);
      Some((w, t[|w|..]))
  }

  lemma TakeWordSplit(t: string)
    requires t != [] && !IsCSpace(t[0])
    ensures TakeWord(t, CStream) != [] && t == TakeWord(t, CStream) + t[|TakeWord(t, CStream)|..]
  {
    var w := TakeWord(t, CStream);
    assert t == w + t[|w|..];
  }

  /** A token followed by nothing or by whitespace is read back whole. */
  lemma ExtractWordOf(w: string, rest: string)
    requires IsToken(w) && (rest == [] || IsCSpace(rest[0]))
    ensures ExtractWord(w + rest) == Some((w, rest))
  {
    var s := w + rest;
    assert s[0] == w[0];
    assert DropSpace(s, CStream) == s;
    TakeWordOfWord(w, rest, CStream);
    assert s[|w|..] == rest;
  }

  /** Leading whitespace does not change what is read. */
  lemma ExtractWordSpace(s: string)
    ensures ExtractWord(" " + s) == ExtractWord(s)
  {
    assert (" " + s)[1..] == s;
  }

  /** What `ss >> n` does to an int `n` and to the stream. */
  datatype IntRead =
    | AtEnd                          // nothing left: n unchanged, stream failed
    | NoNumber                       // no digits: n = 0, stream failed
    | Clamped(v: int)                // out of range: n = INT_MAX or INT_MIN, stream failed
    | Number(v: int, rest: string)   // n = v, reading goes on after the digits

  function ExtractInt(s: string): (r: IntRead)
    ensures r.Clamped? ==> r.v == INT_MAX || r.v == INT_MIN
    ensures r.Number? ==> IsInt32(r.v) && |r.rest| < |s|
    ensures r == AtEnd <==> DropSpace(s, CStream) == []
    ensures r == NoNumber <==> DropSpace(s, CStream) != [] && DecimalPrefix(DropSpace(s, CStream)).None?
  {
    var t := DropSpace(s, CStream);
    if t == [] then AtEnd
    else
      match DecimalPrefix(t)
      case None => NoNumber
      case Some((v, n)) =>
        if IsInt32(v) then Number(v, t[n..])
        else if v > INT_MAX then Clamped(INT_MAX)
        else Clamped(INT_MIN)
  }

  /** A space, the canonical decimal form of an int, then nothing or whitespace: read back exactly. */
  lemma ExtractIntOf(v: int, rest: string)
    requires IsInt32(v) && (rest == [] || IsCSpace(rest[0]))
    ensures ExtractInt(" " + Show(v) + rest) == Number(v, rest)
  {
    ShowIsToken(v);
    DecimalPrefixAppend(v, rest);
    ExtractIntAfterSpace(Show(v), rest, v);
  }

  lemma ExtractIntAfterSpace(d: string, rest: string, v: int)
    requires d != [] && !IsCSpace(d[0]) && IsInt32(v)
    requires DecimalPrefix(d + rest) == Some((v, |d|))
    ensures ExtractInt(" " + d + rest) == Number(v, rest)
  {
    var u := d + rest;
    assert (" " + d + rest)[1..] == u;
    DropSpaceNone(u);
    assert u[|d|..] == rest;
  }

  /** Nothing to skip before a non-space. */
  lemma DropSpaceNone(u: string)
    requires u != [] && !IsCSpace(u[0])
    ensures DropSpace(u, CStream) == u
  {
  }

  /** The canonical decimal form is a token that starts with a sign or a digit. */
  lemma ShowIsToken(v: int)
    ensures IsToken(Show(v)) && (Show(v)[0] == '-' || IsDigit(Show(v)[0]))
  {
    var s := Show(v);
    if v < 0 {
      var d := ShowNat(-v);
      assert s == "-" + d;
      forall k | 0 <= k < |s| ensures !IsCSpace(s[k]) {
        if k > 0 {
          assert s[k] == d[k - 1];
        }
      }
    }
  }

  // ---------------------------------------------------------------- `go` arguments

  /** The locals of `handleGo` that the arguments set. */
  datatype GoArgs = GoArgs(maxDepth: int, maxTime: int, wtime: int, btime: int, winc: int, binc: int)

  /** depth 99, 1500 ms, and no clock information (-1). */
  const DEFAULT_GO: GoArgs := GoArgs(99, 1500, -1, -1, -1, -1)

  /** The keywords whose value `handleGo` reads as a token and converts with `std::stoi`. */
  predicate IsTimeKey(w: string)
  {
    w == "movetime" || w == "wtime" || w == "btime" || w == "winc" || w == "binc"
  }

  function SetTime(a: GoArgs, key: string, v: int): GoArgs
    requires IsTimeKey(key)
  {
    if key == "movetime" then a.(maxTime := v)
    else if key == "wtime" then a.(wtime := v)
    else if key == "btime" then a.(btime := v)
    else if key == "winc" then a.(winc := v)
    else a.(binc := v)
  }

  /** The value token after a keyword; at the end of the line the token variable still holds the keyword. */
  function ValueToken(key: string, s: string): (r: (string, string))
    ensures |r.1| <= |s|
  {
    match ExtractWord(s)
    case None => (key, [])
    case Some(p) => p
  }

  /**
   * `handleGo`'s `while (ss >> token)` loop from the arguments `a`: a
   * failed `std::stoi` (the exception the engine does not catch) is a
   * Failure; unknown tokens are skipped.
   */
  function ScanGo(s: string, a: GoArgs): (r: Result<GoArgs, StoiError>)
    decreases |s|
  {
    match ExtractWord(s)
    case None => Success(a)
    case Some((token, rest)) =>
      if token == "depth" then
        match ExtractInt(rest)
        case AtEnd => Success(a)
        case NoNumber => Success(a.(maxDepth := 0))
        case Clamped(v) => Success(a.(maxDepth := v))
        case Number(v, more) => ScanGo(more, a.(maxDepth := v))
      else if IsTimeKey(token) then
        var (value, more) := ValueToken(token, rest);
        match Stoi(value)
        case Failure(e) => Failure(e)
        case Success(v) => ScanGo(more, SetTime(a, token, v))
      else ScanGo(rest, a)
  }

  /** One well-formed argument of `go`. */
  datatype GoItem = Depth(n: int) | Time(key: string, v: int) | Other(w: string)

  predicate WellFormed(i: GoItem)
  {
    match i
    case Depth(n) => IsInt32(n)
    case Time(key, v) => IsTimeKey(key) && IsInt32(v)
    case Other(w) => IsToken(w) && w != "depth" && !IsTimeKey(w)
  }

  function ItemText(i: GoItem): string
  {
    match i
    case Depth(n) => "depth" + " " + Show(n)
    case Time(key, v) => key + " " + Show(v)
    case Other(w) => w
  }

  /** The arguments as they follow `go`, each after one space. */
  function Render(items: seq<GoItem>): string
  {
    if items == [] then [] else " " + ItemText(items[0]) + Render(items[1..])
  }

  function ApplyItem(i: GoItem, a: GoArgs): GoArgs
    requires WellFormed(i)
  {
    match i
    case Depth(n) => a.(maxDepth := n)
    case Time(key, v) => SetTime(a, key, v)
    case Other(_) => a
  }

  function ApplyItems(items: seq<GoItem>, a: GoArgs): GoArgs
    requires forall k :: 0 <= k < |items| ==> WellFormed(items[k])
  {
    if items == [] then a else ApplyItems(items[1..], ApplyItem(items[0], a))
  }

  lemma ScanGoItem(i: GoItem, r: string, a: GoArgs)
    requires WellFormed(i) && (r == [] || r[0] == ' ')
    ensures ScanGo(" " + ItemText(i) + r, a) == ScanGo(r, ApplyItem(i, a))
  {
    match i
    case Depth(n) => ScanGoDepthItem(n, r, a);
    case Time(key, v) => ScanGoTimeItem(key, v, r, a);
    case Other(w) => ScanGoOtherItem(w, r, a);
  }

  lemma ScanGoDepthItem(n: int, r: string, a: GoArgs)
    requires IsInt32(n) && (r == [] || r[0] == ' ')
    ensures ScanGo(" " + ItemText(Depth(n)) + r, a) == ScanGo(r, a.(maxDepth := n))
  {
    ExtractIntOf(n, r);
    ScanGoDepthWords(Show(n), n, r, a);
  }

  lemma ScanGoDepthWords(d: string, n: int, r: string, a: GoArgs)
    requires ExtractInt(" " + d + r) == Number(n, r)
    ensures ScanGo(" " + ("depth" + " " + d) + r, a) == ScanGo(r, a.(maxDepth := n))
  {
    var s := " " + ("depth" + " " + d) + r;
    var tail := " " + d + r;
    Regroup(" ", "depth", " ", d, r);
    KeywordTokens();
    WordAfterSpace("depth", tail);
    ScanGoDepthStep(s, tail, n, r, a);
  }

  lemma ScanGoTimeItem(key: string, v: int, r: string, a: GoArgs)
    requires IsTimeKey(key) && IsInt32(v) && (r == [] || r[0] == ' ')
    ensures ScanGo(" " + ItemText(Time(key, v)) + r, a) == ScanGo(r, SetTime(a, key, v))
  {
    var d := Show(v);
    assert ItemText(Time(key, v)) == key + " " + d;
    ShowIsToken(v);
    StoiShow(v);
    ScanGoTimeWords(key, d, v, r, a);
  }

  lemma ScanGoTimeWords(key: string, d: string, v: int, r: string, a: GoArgs)
    requires IsTimeKey(key) && IsToken(d) && Stoi(d) == Success(v) && (r == [] || r[0] == ' ')
    ensures ScanGo(" " + (key + " " + d) + r, a) == ScanGo(r, SetTime(a, key, v))
  {
    var s := " " + (key + " " + d) + r;
    var tail := " " + d + r;
    Regroup(" ", key, " ", d, r);
    KeywordTokens();
    WordAfterSpace(key, tail);
    WordAfterSpace(d, r);
    ScanGoTimeStep(s, key, tail, d, r, v, a);
  }

  lemma ScanGoOtherItem(w: string, r: string, a: GoArgs)
    requires WellFormed(Other(w)) && (r == [] || r[0] == ' ')
    ensures ScanGo(" " + ItemText(Other(w)) + r, a) == ScanGo(r, a)
  {
    WordAfterSpace(w, r);
    ScanGoOtherStep(" " + w + r, w, r, a);
  }

  lemma StoiShow(v: int)
    requires IsInt32(v)
    ensures Stoi(Show(v)) == Success(v)
  {
    ParseShow(v);
  }

  lemma Regroup(x: string, k: string, y: string, d: string, r: string)
    ensures x + (k + y + d) + r == x + k + (y + d + r)
  {
  }

  lemma KeywordTokens()
    ensures IsToken("depth") && IsToken("movetime") && IsToken("wtime") && IsToken("btime")
    ensures IsToken("winc") && IsToken("binc")
  {
  }

  lemma TimeKeyNotDepth(key: string)
    requires IsTimeKey(key)
    ensures key != "depth"
  {
    assert |key| != 5 || key[0] != 'd';
  }

  /** A space, a token, then nothing or whitespace: the token is read and the rest left. */
  lemma WordAfterSpace(w: string, r: string)
    requires IsToken(w) && (r == [] || IsCSpace(r[0]))
    ensures ExtractWord(" " + w + r) == Some((w, r))
  {
    assert " " + w + r == " " + (w + r);
    ExtractWordSpace(w + r);
    ExtractWordOf(w, r);
  }

  lemma ScanGoDepthStep(s: string, tail: string, v: int, more: string, a: GoArgs)
    requires ExtractWord(s) == Some(("depth", tail)) && ExtractInt(tail) == Number(v, more)
    ensures ScanGo(s, a) == ScanGo(more, a.(maxDepth := v))
  {
  }

  lemma ScanGoTimeStep(s: string, key: string, tail: string, value: string, more: string, v: int, a: GoArgs)
    requires IsTimeKey(key) && ExtractWord(s) == Some((key, tail))
    requires ExtractWord(tail) == Some((value, more)) && Stoi(value) == Success(v)
    ensures ScanGo(s, a) == ScanGo(more, SetTime(a, key, v))
  {
    TimeKeyNotDepth(key);
    assert ValueToken(key, tail) == (value, more);
  }

  lemma ScanGoOtherStep(s: string, w: string, rest: string, a: GoArgs)
    requires w != "depth" && !IsTimeKey(w) && ExtractWord(s) == Some((w, rest))
    ensures ScanGo(s, a) == ScanGo(rest, a)
  {
  }

  /** The parser reads back every well-formed list of arguments. */
  lemma {:induction false} ScanGoRendered(items: seq<GoItem>, a: GoArgs)
    requires forall k :: 0 <= k < |items| ==> WellFormed(items[k])
    ensures ScanGo(Render(items), a) == Success(ApplyItems(items, a))
    decreases |items|
  {
    if items != [] {
      var r := Render(items[1..]);
      assert r == [] || r[0] == ' ';
      ScanGoItem(items[0], r, a);
      ScanGoRendered(items[1..], ApplyItem(items[0], a));
    }
  }

  /** A time keyword at the end of the line makes `std::stoi` throw on the keyword itself. */
  lemma MissingValueFails(key: string, a: GoArgs)
    requires IsTimeKey(key)
    ensures ScanGo(" " + key, a) == Failure(InvalidArgument)
  {
    KeywordTokens();
    assert " " + key == " " + key + [];
    WordAfterSpace(key, []);
    KeywordNotNumber(key);
  }

  lemma KeywordNotNumber(key: string)
    requires IsTimeKey(key)
    ensures Stoi(key) == Failure(InvalidArgument)
  {
    assert !IsDigit(key[0]) && key[0] != '+' && key[0] != '-';
  }

  /** A non-number after `depth` sets the depth to 0 and stops the loop: `movetime 100` is never read. */
  lemma BadDepthStopsParsing()
    ensures ScanGo(" depth abc movetime 100", DEFAULT_GO) == Success(DEFAULT_GO.(maxDepth := 0))
  {
    var tail := " abc movetime 100";
    KeywordTokens();
    assert " depth abc movetime 100" == " " + "depth" + tail;
    WordAfterSpace("depth", tail);
    NotANumber(tail);
  }

  lemma NotANumber(tail: string)
    requires tail == " abc movetime 100"
    ensures ExtractInt(tail) == NoNumber
  {
    assert tail[1..] == "abc movetime 100";
    DropSpaceNone(tail[1..]);
    assert DigitRun(tail[1..]) == 0;
  }

  // ---------------------------------------------------------------- the time budget

  /** C++ `/` on int: the quotient truncated toward zero. */
  function CDiv(x: int, d: int): (q: int)
    requires d > 0
    ensures 0 <= x ==> 0 <= q * d <= x < q * d + d
    ensures x < 0 ==> q * d - d < x <= q * d <= 0
  {
    if x >= 0 then DivBounds(x, d); x / d
    else DivBounds(-x, d); -((-x) / d)
  }

  lemma DivBounds(x: nat, d: int)
    requires d > 0
    ensures 0 <= (x / d) * d <= x < (x / d) * d + d
  {
    assert x == (x / d) * d + x % d;
  }

  /** `handleGo`'s `max_time` for the side to move, after the arguments are read. */
  function Budget(a: GoArgs, side: Color): int
  {
    var (time, inc) := if side == White then (a.wtime, a.winc) else (a.btime, a.binc);
    var base := if time != -1 then CDiv(time, 20) else a.maxTime;
    if inc != -1 then base + inc else base
  }

  /** Without clock information the budget is `movetime`, or 1500 ms by default. */
  lemma BudgetDefault(a: GoArgs, side: Color)
    requires a.wtime == -1 && a.btime == -1 && a.winc == -1 && a.binc == -1
    ensures Budget(a, side) == a.maxTime
    ensures Budget(DEFAULT_GO, side) == 1500
  {
  }

  /** The mover's own remaining time overrides `movetime`. */
  lemma BudgetOwnClock(a: GoArgs, side: Color, m: int)
    requires (if side == White then a.wtime else a.btime) != -1
    ensures Budget(a.(maxTime := m), side) == Budget(a, side)
  {
  }

  /** The increment is added on top of whatever the budget is without it. */
  lemma BudgetIncrement(a: GoArgs)
    ensures a.winc != -1 ==> Budget(a, White) == Budget(a.(winc := -1), White) + a.winc
    ensures a.binc != -1 ==> Budget(a, Black) == Budget(a.(binc := -1), Black) + a.binc
  {
  }

  /** The opponent's clock fields play no part. */
  lemma BudgetIgnoresOpponent(a: GoArgs, t: int, inc: int)
    ensures Budget(a.(btime := t, binc := inc), White) == Budget(a, White)
    ensures Budget(a.(wtime := t, winc := inc), Black) == Budget(a, Black)
  {
  }

  /** The two colours are treated alike. */
  function Mirror(a: GoArgs): GoArgs
  {
    a.(wtime := a.btime, btime := a.wtime, winc := a.binc, binc := a.winc)
  }

  lemma BudgetMirror(a: GoArgs)
    ensures Budget(Mirror(a), Black) == Budget(a, White)
    ensures Budget(Mirror(a), White) == Budget(a, Black)
  {
  }

  /** With remaining time t >= 0 and no increment, the budget is the whole part of t/20. */
  lemma BudgetTwentieth(a: GoArgs)
    requires a.wtime >= 0 && a.winc == -1
    ensures 0 <= 20 * Budget(a, White) <= a.wtime < 20 * Budget(a, White) + 20
  {
  }

  // ---------------------------------------------------------------- `handleGo`

  /** The rules with the clock question "has `max_time` run out at the n-th reading?". */
  function Timed<B>(rules: Env<B>, elapsed: nat -> int, budget: int): (env: Env<B>)
    ensures forall n :: env.expired(n) <==> elapsed(n) >= budget
  {
    rules.(expired := (n: nat) => elapsed(n) >= budget)
  }

  /** What `handleGo` would print: the move, its score and the last completed depth. */
  datatype Report = Report(best: Move, eval: int, depth: int)

  /**
   * `handleGo` on the rest of the line, with `elapsed(n)` the milliseconds
   * since the search started at the n-th clock reading; the table it leaves.
   */
  function GoCommand<B(!new)>(rules: Env<B>, elapsed: nat -> int, b: B, line: string, t: seq<Entry>)
      : (r: (Result<Report, StoiError>, seq<Entry>))
    requires |t| == TT_SIZE
    ensures |r.1| == TT_SIZE
  {
    match ScanGo(line, DEFAULT_GO)
    case Failure(e) => (Failure(e), t)
    case Success(a) =>
      var (report, t') := GoRun(rules, elapsed, b, a, t);
      (Success(report), t')
  }

  /** The search `handleGo` runs once its arguments `a` are read. */
  function GoRun<B(!new)>(rules: Env<B>, elapsed: nat -> int, b: B, a: GoArgs, t: seq<Entry>): (r: (Report, seq<Entry>))
    requires |t| == TT_SIZE
    ensures |r.1| == TT_SIZE
  {
    var g := GoSearch(Timed(rules, elapsed, Budget(a, rules.view(b).turn)), b, a.maxDepth, t, 0);
    (Report(g.best, g.eval, g.depth), g.table)
  }

  /**
   * A `go` command whose arguments are read without error reports a legal
   * move when there is one, and a depth of 0 or between 1 and the
   * requested depth; one that fails leaves the table alone.
   */
  lemma GoCommandReport<B(!new)>(rules: Env<B>, elapsed: nat -> int, b: B, line: string, t: seq<Entry>)
    requires |t| == TT_SIZE
    ensures var (r, t') := GoCommand(rules, elapsed, b, line, t);
            && (r.Failure? <==> ScanGo(line, DEFAULT_GO).Failure?)
            && (r.Failure? ==> t' == t)
            && (r.Success? ==>
                  (if rules.legalMoves(b) == [] then r.value.best == NO_MOVE else r.value.best in rules.legalMoves(b))
                  && (r.value.depth == 0 || 1 <= r.value.depth <= ScanGo(line, DEFAULT_GO).value.maxDepth))
  {
    match ScanGo(line, DEFAULT_GO)
    case Failure(_) =>
    case Success(a) =>
      var env := Timed(rules, elapsed, Budget(a, rules.view(b).turn));
      GoSearchReport(env, b, a.maxDepth, t, 0);
  }

  /** `go depth d` alone, with a clock that never reaches the budget, reports depth d. */
  lemma GoDepthReached<B(!new)>(rules: Env<B>, elapsed: nat -> int, b: B, d: int, t: seq<Entry>)
    requires |t| == TT_SIZE && 1 <= d <= INT_MAX
    requires forall n :: elapsed(n) < Budget(DEFAULT_GO, rules.view(b).turn)
    ensures var (r, _) := GoCommand(rules, elapsed, b, Render([Depth(d)]), t);
            r.Success? && r.value.depth == d
  {
    ScanGoRendered([Depth(d)], DEFAULT_GO);
    var a := DEFAULT_GO.(maxDepth := d);
    assert ApplyItems([Depth(d)], DEFAULT_GO) == a;
    var env := Timed(rules, elapsed, Budget(a, rules.view(b).turn));
    GoSearchReport(env, b, d, t, 0);
  }

  /** `handleGo`'s argument loop. */
  method ParseGo(line: string) returns (r: Result<GoArgs, StoiError>)
    ensures r == ScanGo(line, DEFAULT_GO)
  {
    var a := DEFAULT_GO;
    var s := line;
    while true
      invariant ScanGo(s, a) == ScanGo(line, DEFAULT_GO)
      decreases |s|
    {
      var next := ExtractWord(s);
      if next.None? {
        return Success(a);
      }
      var (token, rest) := next.value;
      if token == "depth" {
        var n := ExtractInt(rest);
        match n
        case AtEnd => return Success(a);
        case NoNumber => return Success(a.(maxDepth := 0));
        case Clamped(v) => return Success(a.(maxDepth := v));
        case Number(v, more) =>
          a, s := a.(maxDepth := v), more;
      } else if IsTimeKey(token) {
        var (value, more) := ValueToken(token, rest);
        var v := Stoi(value);
        if v.Failure? {
          return Failure(v.error);
        }
        a, s := SetTime(a, token, v.value), more;
      } else {
        s := rest;
      }
    }
  }

  // ---------------------------------------------------------------- `position`

  /** The parts of the chess library `handlePosition` calls: `Board::setFen` and `uci::uciToMove`. */
  datatype Notation<!B> = Notation(setFen: string -> B, uciToMove: (B, string) -> Move)

  const START_FEN: string := "rnbqkbnr/pppppppp/8/8/8/8/PPPPPPPP/RNBQKBNR w KQkq - 0 1"

  /** `board.makeMove(uci::uciToMove(board, token))` for each token in turn. */
  function PlayMoves<B>(rules: Env<B>, nt: Notation<B>, b: B, ms: seq<string>): B
    decreases |ms|
  {
    if ms == [] then b else PlayMoves(rules, nt, rules.apply(b, nt.uciToMove(b, ms[0])), ms[1..])
  }

  /** Playing two lists of moves is playing the first, then the second. */
  lemma {:induction false} PlayMovesAppend<B>(rules: Env<B>, nt: Notation<B>, b: B, ms: seq<string>, ns: seq<string>)
    ensures PlayMoves(rules, nt, b, ms + ns) == PlayMoves(rules, nt, PlayMoves(rules, nt, b, ms), ns)
    decreases |ms|
  {
    if ms == [] {
      assert ms + ns == ns;
    } else {
      assert (ms + ns)[1..] == ms[1..] + ns;
      PlayMovesAppend(rules, nt, rules.apply(b, nt.uciToMove(b, ms[0])), ms[1..], ns);
    }
  }

  lemma PlayMovesStep<B>(rules: Env<B>, nt: Notation<B>, b: B, ws: seq<string>, j: nat)
    requires j < |ws|
    ensures PlayMoves(rules, nt, b, ws[j..]) == PlayMoves(rules, nt, rules.apply(b, nt.uciToMove(b, ws[j])), ws[j + 1..])
  {
    assert ws[j..][1..] == ws[j + 1..];
  }

  /** The index of the first "moves" token, or the length when there is none. */
  function MovesAt(ws: seq<string>): (k: nat)
    ensures k <= |ws| && (k < |ws| ==> ws[k] == "moves")
    ensures forall j :: 0 <= j < k ==> ws[j] != "moves"
  {
    if ws == [] || ws[0] == "moves" then 0 else 1 + MovesAt(ws[1..])
  }

  /**
   * `handlePosition` on the tokens of the rest of the line, from board
   * `cur`.  `startpos` or `fen` must come first; `fen` takes every token up
   * to `moves`, joined by single spaces.  After any other first token a
   * `moves` list in second place is still played on the current board.
   */
  function Position<B>(rules: Env<B>, nt: Notation<B>, cur: B, ws: seq<string>): B
  {
    if ws == [] then cur
    else if ws[0] == "startpos" then
      var b := nt.setFen(START_FEN);
      if |ws| > 1 && ws[1] == "moves" then PlayMoves(rules, nt, b, ws[2..]) else b
    else if ws[0] == "fen" then
      var k := MovesAt(ws[1..]);
      var b := nt.setFen(Unwords(ws[1..1 + k]));
      if 1 + k < |ws| then PlayMoves(rules, nt, b, ws[2 + k..]) else b
    else if |ws| > 1 && ws[1] == "moves" then PlayMoves(rules, nt, cur, ws[2..])
    else cur
  }

  /** `position startpos [moves ...]` */
  lemma PositionStartpos<B>(rules: Env<B>, nt: Notation<B>, cur: B, ms: seq<string>)
    ensures Position(rules, nt, cur, ["startpos"]) == nt.setFen(START_FEN)
    ensures Position(rules, nt, cur, ["startpos", "moves"] + ms) == PlayMoves(rules, nt, nt.setFen(START_FEN), ms)
  {
    assert (["startpos", "moves"] + ms)[2..] == ms;
  }

  /** `position fen <fields> [moves ...]`: the fields reach `setFen` joined by single spaces. */
  lemma PositionFen<B>(rules: Env<B>, nt: Notation<B>, cur: B, fs: seq<string>, ms: seq<string>)
    requires forall j :: 0 <= j < |fs| ==> fs[j] != "moves"
    ensures Position(rules, nt, cur, ["fen"] + fs) == nt.setFen(Unwords(fs))
    ensures Position(rules, nt, cur, ["fen"] + fs + ["moves"] + ms) == PlayMoves(rules, nt, nt.setFen(Unwords(fs)), ms)
  {
    var ws := ["fen"] + fs;
    assert ws[1..] == fs && ws[1..1 + |fs|] == fs;
    MovesAtIs(fs, |fs|);
    var vs := ["fen"] + fs + ["moves"] + ms;
    assert vs[1..] == fs + ["moves"] + ms;
    assert vs[1..1 + |fs|] == fs;
    assert vs[2 + |fs|..] == ms;
    MovesAtIs(vs[1..], |fs|);
  }

  lemma MovesAtIs(ws: seq<string>, k: nat)
    requires k <= |ws| && (k < |ws| ==> ws[k] == "moves")
    requires forall j :: 0 <= j < k ==> ws[j] != "moves"
    ensures MovesAt(ws) == k
  {
  }

  /** Any other first token leaves the board alone, unless `moves` follows it. */
  lemma PositionOther<B>(rules: Env<B>, nt: Notation<B>, cur: B, w: string, ms: seq<string>)
    requires w != "startpos" && w != "fen"
    ensures Position(rules, nt, cur, []) == cur
    ensures Position(rules, nt, cur, [w]) == cur
    ensures Position(rules, nt, cur, [w, "moves"] + ms) == PlayMoves(rules, nt, cur, ms)
  {
    assert ([w, "moves"] + ms)[2..] == ms;
  }

  /** A `position fen ... moves ...` line written with single spaces, read through the stream. */
  lemma PositionFenLine<B>(rules: Env<B>, nt: Notation<B>, cur: B, fs: seq<string>, ms: seq<string>)
    requires forall j :: 0 <= j < |fs| ==> IsToken(fs[j]) && fs[j] != "moves"
    requires forall j :: 0 <= j < |ms| ==> IsToken(ms[j])
    ensures Position(rules, nt, cur, Words(Unwords(["fen"] + fs + ["moves"] + ms), CStream))
         == PlayMoves(rules, nt, nt.setFen(Unwords(fs)), ms)
  {
    var ws := ["fen"] + fs + ["moves"] + ms;
    forall j | 0 <= j < |ws| ensures IsToken(ws[j]) {
      if j == 0 {
        assert ws[0] == "fen";
      } else if j <= |fs| {
        assert ws[j] == fs[j - 1];
      } else if j == |fs| + 1 {
        assert ws[j] == "moves";
      } else {
        assert ws[j] == ms[j - |fs| - 2];
      }
    }
    WordsOfUnwords(ws);
    PositionFen(rules, nt, cur, fs, ms);
  }

  /** The FEN string `handlePosition` builds: each token followed by a space. */
  function SpaceAfter(ws: seq<string>): (s: string)
    ensures s == [] <==> ws == []
  {
    if ws == [] then [] else SpaceAfter(ws[..|ws| - 1]) + ws[|ws| - 1] + " "
  }

  /** Popping the last character leaves the tokens joined by single spaces. */
  lemma {:induction false} SpaceAfterUnwords(ws: seq<string>)
    requires ws != []
    ensures SpaceAfter(ws) == Unwords(ws) + " "
    decreases |ws|
  {
    if |ws| > 1 {
      var init := ws[..|ws| - 1];
      SpaceAfterUnwords(init);
      UnwordsSnoc(init, ws[|ws| - 1]);
      assert init + [ws[|ws| - 1]] == ws;
    } else {
      assert SpaceAfter(ws) == SpaceAfter([]) + ws[0] + " ";
    }
  }

  lemma {:induction false} UnwordsSnoc(ws: seq<string>, w: string)
    requires ws != []
    ensures Unwords(ws + [w]) == Unwords(ws) + " " + w
    decreases |ws|
  {
    var vs := ws + [w];
    assert vs[0] == ws[0] && vs[1..] == ws[1..] + [w];
    if |ws| > 1 {
      UnwordsSnoc(ws[1..], w);
    } else {
      assert vs[1..] == [w];
    }
  }

  // ---------------------------------------------------------------- the engine's globals

  /** The global `board` and `transposition_table`, with the chess library they are used through. */
  class Engine<B(!new)> {
    const rules: Env<B>
    const nt: Notation<B>
    const tt: Table
    var board: B

    ghost predicate Valid()
      reads this, tt
    {
      tt.Valid()
    }

    /** `main`'s set-up: the start position and a table of `TT_SIZE` empty slots. */
    constructor (rules: Env<B>, nt: Notation<B>)
      ensures Valid() && fresh(tt) && fresh(tt.slots)
      ensures this.rules == rules && this.nt == nt
      ensures board == nt.setFen(START_FEN) && tt.Contents() == Cleared()
    {
      this.rules := rules;
      this.nt := nt;
      board := nt.setFen(START_FEN);
      tt := new Table();
    }

    /** `ucinewgame`: the start position, and every slot back to the empty entry. */
    method NewGame()
      requires Valid()
      modifies this`board, tt.slots
      ensures Valid() && board == nt.setFen(START_FEN) && tt.Contents() == Cleared()
    {
      board := nt.setFen(START_FEN);
      tt.Reset();
    }

    /** `handlePosition` on the rest of the line. */
    method HandlePosition(line: string)
      modifies this`board
      ensures board == Position(rules, nt, old(board), Words(line, CStream))
    {
      var ws := Words(line, CStream);
      PositionTokens(ws);
    }

    /** `handlePosition`, reading the tokens one at a time. */
    method PositionTokens(ws: seq<string>)
      modifies this`board
      ensures board == Position(rules, nt, old(board), ws)
    {
      var i := 0;
      var token := "";
      if i < |ws| {
        token, i := ws[i], i + 1;
      }
      if token == "startpos" {
        board := nt.setFen(START_FEN);
      } else if token == "fen" {
        FenPosition(ws);
        return;
      }
      if i < |ws| {
        token, i := ws[i], i + 1;
      }
      if token == "moves" {
        PlayAll(ws, i);
      }
    }

    /** The `fen` branch: join the fields up to `moves`, drop the last space, set up, play the moves. */
    method FenPosition(ws: seq<string>)
      requires ws != [] && ws[0] == "fen"
      modifies this`board
      ensures board == Position(rules, nt, old(board), ws)
    {
      var fen := "";
      var token := "fen";
      var i := 1;
      while true
        invariant 1 <= i <= |ws|
        invariant forall j :: 1 <= j < i ==> ws[j] != "moves"
        invariant fen == SpaceAfter(ws[1..i])
        invariant token == if i == 1 then "fen" else ws[i - 1]
        decreases |ws| - i
      {
        if i == |ws| {
          break;
        }
        token, i := ws[i], i + 1;
        if token == "moves" {
          break;
        }
        assert ws[1..i][..i - 2] == ws[1..i - 1];
        fen := fen + token + " ";
      }
      ghost var fields := if token == "moves" then ws[1..i - 1] else ws[1..i];
      ghost var k := |fields|;
      assert fen == SpaceAfter(fields);
      assert ws[1..][..k] == fields;
      MovesAtIs(ws[1..], k);
      if fen != [] {
        SpaceAfterUnwords(fields);
        fen := fen[..|fen| - 1];
      }
      assert fen == Unwords(ws[1..1 + k]);
      board := nt.setFen(fen);
      if token == "moves" {
        assert i == 2 + k;
        PlayAll(ws, i);
      }
    }

    /** `while (ss >> token) board.makeMove(uci::uciToMove(board, token))` from token `i`. */
    method PlayAll(ws: seq<string>, i: nat)
      requires i <= |ws|
      modifies this`board
      ensures board == PlayMoves(rules, nt, old(board), ws[i..])
    {
      for j := i to |ws|
        invariant PlayMoves(rules, nt, board, ws[j..]) == PlayMoves(rules, nt, old(board), ws[i..])
      {
        PlayMovesStep(rules, nt, board, ws, j);
        board := rules.apply(board, nt.uciToMove(board, ws[j]));
      }
    }

    /** `handleGo` on the rest of the line; `elapsed(n)` is the n-th clock reading, in ms since the start. */
    method HandleGo(line: string, elapsed: nat -> int) returns (r: Result<Report, StoiError>)
      requires Valid()
      modifies tt.slots
      ensures Valid()
      ensures (r, tt.Contents()) == GoCommand(rules, elapsed, board, line, old(tt.Contents()))
    {
      var args := ParseGo(line);
      if args.Failure? {
        return Failure(args.error);
      }
      var report := RunGo(args.value, elapsed);
      return Success(report);
    }

    /** The time budget, then iterative deepening on a searcher over the engine's table. */
    method RunGo(a: GoArgs, elapsed: nat -> int) returns (report: Report)
      requires Valid()
      modifies tt.slots
      ensures Valid()
      ensures (report, tt.Contents()) == GoRun(rules, elapsed, board, a, old(tt.Contents()))
    {
      var maxTime := a.maxTime;
      if rules.view(board).turn == White {
        if a.wtime != -1 {
          maxTime := CDiv(a.wtime, 20);
        }
        if a.winc != -1 {
          maxTime := maxTime + a.winc;
        }
      } else {
        if a.btime != -1 {
          maxTime := CDiv(a.btime, 20);
        }
        if a.binc != -1 {
          maxTime := maxTime + a.binc;
        }
      }
      assert maxTime == Budget(a, rules.view(board).turn);
      var s := new Searcher(Timed(rules, elapsed, maxTime), tt);
      var best, eval, depth := GoDeepen(s, board, a.maxDepth);
      report := Report(best, eval, depth);
    }
  }
}
