/** The line loop and the running statistics of tools/aggregate_trace.cpp.  Parsing a line is a
    parameter; sums are exact. */
module AggregateTrace {
  import opened Common

  datatype Key = Key(cat: string, name: string)

  datatype Sample = Sample(key: Key, dur: Int)

  type Int = x: int | -0x8000_0000 <= x < 0x8000_0000

  /** Parsing as a partial function: the lines that hold a sample, and the sample. */
  type Parser = imap<string, Sample>

  // ---------- Running statistics ----------

  datatype Stats = Stats(count: nat, sum: int, sumSq: int, min: Int, max: Int)

  const NO_STATS := Stats(0, 0, 0, 0x7FFF_FFFF, -0x8000_0000)

  /** The result of an `int` multiplication, which wraps around when it overflows. */
  function Wrapped(x: int): (r: Int) {
    var y := x % 0x1_0000_0000;
    if y < 0x8000_0000 then y else y - 0x1_0000_0000
  }

  lemma {:induction false} WrappedExact(x: int)
    ensures -0x8000_0000 <= Wrapped(x) < 0x8000_0000 && (x - Wrapped(x)) % 0x1_0000_0000 == 0
  {
  }

  /** `Stats::add`. */
  function Add(s: Stats, dur: Int): Stats {
    Stats(s.count + 1, s.sum + dur, s.sumSq + Wrapped(Square(dur)),
          if dur < s.min then dur else s.min, if dur > s.max then dur else s.max)
  }

  function Square(x: int): nat {
    if x < 0 then (-x) * (-x) else x * x
  }

  function Summary(durs: seq<Int>): Stats {
    if |durs| == 0 then NO_STATS else Add(Summary(durs[..|durs| - 1]), durs[|durs| - 1])
  }

  function Sum(durs: seq<Int>): int {
    if |durs| == 0 then 0 else Sum(durs[..|durs| - 1]) + durs[|durs| - 1]
  }

  function SumOfSquares(durs: seq<Int>): nat {
    if |durs| == 0 then 0 else SumOfSquares(durs[..|durs| - 1]) + Square(durs[|durs| - 1])
  }

  /** The square of a duration is right exactly up to 46340. */
  lemma {:induction false} SquareFits(dur: Int)
    ensures Wrapped(Square(dur)) == Square(dur) <==> -46340 <= dur <= 46340
  {
    var x: int := dur;
    if -46340 <= x <= 46340 {
      SquareGrows(if x < 0 then -x else x, 46340);
    } else {
      SquareGrows(46341, if x < 0 then -x else x);
    }
    WrappedFits(Square(dur));
  }

  lemma {:induction false} SquareGrows(x: nat, y: nat)
    requires x <= y
    ensures x * x <= y * y
  {
    assert x * x <= x * y <= y * y;
  }

  lemma {:induction false} WrappedFits(x: nat)
    ensures Wrapped(x) <= x && (Wrapped(x) == x <==> x < 0x8000_0000)
  {
  }

  function Lowest(durs: seq<Int>): Int {
    if |durs| == 0 then 0x7FFF_FFFF
    else
      var before, last := Lowest(durs[..|durs| - 1]), durs[|durs| - 1];
      if last < before then last else before
  }

  function Highest(durs: seq<Int>): Int {
    if |durs| == 0 then -0x8000_0000
    else
      var before, last := Highest(durs[..|durs| - 1]), durs[|durs| - 1];
      if last > before then last else before
  }

  /** The sum of what `int` multiplication makes of the squares. */
  function WrappedSquares(durs: seq<Int>): int {
    if |durs| == 0 then 0 else WrappedSquares(durs[..|durs| - 1]) + Wrapped(Square(durs[|durs| - 1]))
  }

  lemma {:induction false} SummaryIs(durs: seq<Int>)
    ensures Summary(durs) == Stats(|durs|, Sum(durs), WrappedSquares(durs), Lowest(durs), Highest(durs))
  {
    if |durs| == 0 {
    } else {
      SummaryIs(durs[..|durs| - 1]);
    }
  }

  /** The lowest and the highest are members and bound all members. */
  lemma {:induction false} BoundsExact(durs: seq<Int>)
    requires |durs| > 0
    ensures Lowest(durs) in durs && Highest(durs) in durs
    ensures forall k | 0 <= k < |durs| :: Lowest(durs) <= durs[k] <= Highest(durs)
  {
    var init, last := durs[..|durs| - 1], durs[|durs| - 1];
    assert durs == init + [last];
    if |init| > 0 {
      BoundsExact(init);
      forall k | 0 <= k < |durs| ensures Lowest(durs) <= durs[k] <= Highest(durs) {
        if k < |init| {
          assert durs[k] == init[k];
        }
      }
    } else {
      assert Lowest(init) == 0x7FFF_FFFF && Highest(init) == -0x8000_0000;
    }
  }

  /** Count and sum are exact; minimum and maximum are members and bound all. */
  lemma {:induction false} SummaryExact(durs: seq<Int>)
    requires |durs| > 0
    ensures var s := Summary(durs);
            && s.count == |durs| && s.sum == Sum(durs)
            && s.min in durs && s.max in durs
            && (forall k | 0 <= k < |durs| :: s.min <= durs[k] <= s.max)
  {
    SummaryIs(durs);
    BoundsExact(durs);
  }

  /** The mean lies between minimum and maximum. */
  lemma {:induction false} MeanInRange(durs: seq<Int>)
    requires |durs| > 0
    ensures var s := Summary(durs); s.min * s.count <= s.sum <= s.max * s.count
  {
    SummaryIs(durs);
    BoundsExact(durs);
    SumInRange(durs, Lowest(durs), Highest(durs));
  }

  lemma {:induction false} SumInRange(durs: seq<Int>, low: int, high: int)
    requires forall k | 0 <= k < |durs| :: low <= durs[k] <= high
    ensures low * |durs| <= Sum(durs) <= high * |durs|
  {
    if |durs| == 0 {
    } else {
      SumInRange(durs[..|durs| - 1], low, high);
      var n := |durs| - 1;
      assert low * (n + 1) == low * n + low && high * (n + 1) == high * n + high;
    }
  }

  predicate AllSquaresFit(durs: seq<Int>) {
    forall k | 0 <= k < |durs| :: -46340 <= durs[k] <= 46340
  }

  /** When all squares fit, the number under the square root of the deviation is never negative. */
  lemma {:induction false} VarianceNotNegative(durs: seq<Int>)
    requires AllSquaresFit(durs)
    ensures Summary(durs).sumSq == SumOfSquares(durs)
    ensures Summary(durs).count * Summary(durs).sumSq >= Summary(durs).sum * Summary(durs).sum
  {
    SummaryIs(durs);
    WrappedSquaresExact(durs);
    CauchySchwarz(durs);
  }

  /** The sum of squares is right if and only if each of them is: what overflows only gets smaller. */
  lemma {:induction false} SquaresExact(durs: seq<Int>)
    ensures Summary(durs).sumSq == SumOfSquares(durs) <==> AllSquaresFit(durs)
  {
    SummaryIs(durs);
    WrappedSquaresExact(durs);
  }

  lemma {:induction false} WrappedSquaresExact(durs: seq<Int>)
    ensures WrappedSquares(durs) <= SumOfSquares(durs)
    ensures WrappedSquares(durs) == SumOfSquares(durs) <==> AllSquaresFit(durs)
  {
    if |durs| == 0 {
    } else {
      var init, last := durs[..|durs| - 1], durs[|durs| - 1];
      WrappedSquaresExact(init);
      WrappedFits(Square(last));
      SquareFits(last);
      assert durs == init + [last];
      assert AllSquaresFit(durs) <==> AllSquaresFit(init) && -46340 <= last <= 46340;
    }
  }

  lemma {:induction false} CauchySchwarz(durs: seq<Int>)
    ensures |durs| * SumOfSquares(durs) >= Sum(durs) * Sum(durs)
  {
    if |durs| == 0 {
    } else {
      var init := durs[..|durs| - 1];
      CauchySchwarz(init);
      OneMore(|init|, SumOfSquares(init), Sum(init), durs[|durs| - 1]);
      if |init| == 0 {
        assert Sum(init) == 0 && SumOfSquares(init) == 0;
      }
    }
  }

  lemma {:induction false} OneMore(n: nat, q: nat, s: int, d: int)
    requires n * q >= s * s && (n == 0 ==> q == 0 && s == 0)
    ensures (n + 1) * (q + Square(d)) >= (s + d) * (s + d)
  {
    assert Square(d) == d * d;
    if n > 0 {
      var rest := q - 2 * s * d + n * (d * d);
      assert n * rest == n * q - s * s + (s - n * d) * (s - n * d) by {
        assert n * (2 * s * d) == 2 * (s * (n * d));
        assert n * (n * (d * d)) == (n * d) * (n * d);
      }
      SquareNotNegative(s - n * d);
      if rest < 0 {
        NegativeProduct(n, rest);
      }
      assert (n + 1) * (q + d * d) == n * q + q + n * (d * d) + d * d;
      assert (s + d) * (s + d) == s * s + 2 * s * d + d * d;
    }
  }

  lemma {:induction false} NegativeProduct(n: int, x: int)
    requires n > 0 && x < 0
    ensures n * x < 0
  {
  }

  lemma {:induction false} SquareNotNegative(x: int)
    ensures x * x >= 0
  {
  }

  /** One longer duration can make it negative. */
  lemma {:induction false} LongDurationOverflows()
    ensures var s := Summary([46341, 46341]); s.count * s.sumSq < s.sum * s.sum
  {
    var durs: seq<Int> := [46341, 46341];
    assert durs[..1] == [46341] && durs[..1][..0] == [];
    assert Wrapped(Square(46341)) == -2147479015;
    assert Summary(durs[..1]) == Add(NO_STATS, 46341);
    assert Summary(durs) == Add(Add(NO_STATS, 46341), 46341);
  }

  // ---------- Lines ----------

  /** The position of the first line feed, or the length. */
  function Newline(text: string): (n: nat)
    ensures n <= |text|
  {
    if |text| == 0 || text[0] == '\n' then 0 else 1 + Newline(text[1..])
  }

  lemma {:induction false} NewlineIs(text: string, n: nat)
    requires n <= |text| && (n < |text| ==> text[n] == '\n') && forall k | 0 <= k < n :: text[k] != '\n'
    ensures Newline(text) == n
  {
    if n == 0 {
    } else {
      NewlineIs(text[1..], n - 1);
    }
  }

  lemma {:induction false} NewlineExact(text: string)
    ensures Newline(text) < |text| ==> text[Newline(text)] == '\n'
    ensures forall k | 0 <= k < Newline(text) :: text[k] != '\n'
  {
    if |text| > 0 && text[0] != '\n' {
      NewlineExact(text[1..]);
      assert forall k | 1 <= k < Newline(text) :: text[k] == text[1..][k - 1];
    }
  }

  /** The complete lines of a text, and what follows the last of them. */
  function Lines(text: string): seq<string> {
    var n := Newline(text);
    if n == |text| then [] else [text[..n]] + Lines(text[n + 1..])
  }

  function Rest(text: string): string {
    var n := Newline(text);
    if n == |text| then text else Rest(text[n + 1..])
  }

  function Strip(line: string): string {
    if |line| > 0 && line[|line| - 1] == '\r' then line[..|line| - 1] else line
  }

  /** What line number `i` contributes. */
  function Line(parse: Parser, line: string, i: nat): Option<Sample> {
    var stripped := Strip(line);
    if (i == 0 && stripped == "[") || stripped == "]" || stripped == "" then None
    else if stripped in parse then Some(parse[stripped]) else None
  }

  /** One carriage return at the end is dropped, and nothing else. */
  lemma {:induction false} StripExact(line: string)
    ensures Strip(line + "\r") == line
    ensures (line == "" || line[|line| - 1] != '\r') ==> Strip(line) == line
  {
    assert (line + "\r")[..|line|] == line;
  }

  /** A closing bracket and an empty line hold no sample, nor does an opening bracket on the first line;
      any other line holds what it parses to.  A carriage return behind it makes no difference. */
  lemma {:induction false} LineExact(parse: Parser, line: string, i: nat)
    requires line == "" || line[|line| - 1] != '\r'
    ensures Line(parse, line + "\r", i) == Line(parse, line, i)
    ensures line == "]" || line == "" || (line == "[" && i == 0) ==> Line(parse, line, i) == None
    ensures line != "]" && line != "" && (line != "[" || i > 0) ==>
              Line(parse, line, i) == if line in parse then Some(parse[line]) else None
    ensures Tail(parse, "[") == if "[" in parse then Some(parse["["]) else None
  {
    StripExact(line);
  }

  function With(samples: seq<Sample>, more: Option<Sample>): seq<Sample> {
    match more
    case None => samples
    case Some(s) => samples + [s]
  }

  function Samples(parse: Parser, lines: seq<string>): seq<Sample> {
    if |lines| == 0 then []
    else With(Samples(parse, lines[..|lines| - 1]), Line(parse, lines[|lines| - 1], |lines| - 1))
  }

  /** The last line if it has no line feed; only here is a bracket on the first line parsed. */
  function Tail(parse: Parser, rest: string): Option<Sample> {
    if rest == "" then None else Line(parse, rest, 1)
  }

  function AllSamples(parse: Parser, text: string): seq<Sample> {
    With(Samples(parse, Lines(text)), Tail(parse, Rest(text)))
  }

  type Table = map<Key, Stats>

  function Count(table: Table, sample: Sample): Table {
    table[sample.key := Add(if sample.key in table then table[sample.key] else NO_STATS, sample.dur)]
  }

  function CountAny(table: Table, more: Option<Sample>): Table {
    match more
    case None => table
    case Some(s) => Count(table, s)
  }

  function Tabled(samples: seq<Sample>): Table {
    if |samples| == 0 then map[] else Count(Tabled(samples[..|samples| - 1]), samples[|samples| - 1])
  }

  /** The durations of one key, in order. */
  function DursOf(samples: seq<Sample>, key: Key): seq<Int> {
    if |samples| == 0 then []
    else
      var before, last := DursOf(samples[..|samples| - 1], key), samples[|samples| - 1];
      if last.key == key then before + [last.dur] else before
  }

  /** The table has exactly the keys that occur, each with the summary of its durations. */
  lemma {:induction false} TableExact(samples: seq<Sample>, key: Key)
    ensures key in Tabled(samples) <==> |DursOf(samples, key)| > 0
    ensures key in Tabled(samples) ==> Tabled(samples)[key] == Summary(DursOf(samples, key))
  {
    if |samples| == 0 {
    } else {
      TableExact(samples[..|samples| - 1], key);
      var before, last := DursOf(samples[..|samples| - 1], key), samples[|samples| - 1];
      assert (before + [last.dur])[..|before|] == before;
    }
  }

  // ---------- Chunks ----------

  lemma {:induction false} NewlineInPrefix(x: string, y: string)
    ensures Newline(x) < |x| ==> Newline(x + y) == Newline(x)
  {
    NewlineExact(x);
    if Newline(x) < |x| {
      NewlineIs(x + y, Newline(x));
    }
  }

  /** The first line, and what the lines after it are. */
  lemma {:induction false} FirstLine(text: string, n: nat)
    requires n == Newline(text)
    ensures if n == |text| then Lines(text) == [] && Rest(text) == text
            else Lines(text) == [text[..n]] + Lines(text[n + 1..]) && Rest(text) == Rest(text[n + 1..])
  {
  }

  /** Reading more text completes lines behind the ones there are. */
  lemma {:induction false} MoreText(x: string, y: string)
    ensures Lines(x + y) == Lines(x) + Lines(Rest(x) + y)
    ensures Rest(x + y) == Rest(Rest(x) + y)
  {
    var n, t := Newline(x), x + y;
    FirstLine(x, n);
    if n == |x| {
      assert [] + Lines(t) == Lines(t);
    } else {
      var line, tail := x[..n], x[n + 1..];
      NewlineInPrefix(x, y);
      FirstLine(t, n);
      assert t[..n] == line && t[n + 1..] == tail + y;
      MoreText(tail, y);
      OneBefore(line, Lines(tail), Lines(Rest(tail) + y));
    }
  }

  lemma {:induction false} OneBefore(line: string, lines: seq<string>, more: seq<string>)
    ensures [line] + (lines + more) == ([line] + lines) + more
  {
  }

  /** `more` are the lines still to come, starting at `pos`, and `last` what follows them. */
  predicate ToCome(text: string, pos: nat, more: seq<string>, last: string) {
    pos <= |text| && Lines(text[pos..]) == more && Rest(text[pos..]) == last
  }

  lemma {:induction false} NextLine(text: string, pos: nat, newline: nat, more: seq<string>, last: string)
    requires ToCome(text, pos, more, last)
    requires pos <= newline <= |text| && newline - pos == Newline(text[pos..])
    ensures newline == |text| ==> more == [] && text[pos..] == last
    ensures newline < |text| ==> more != [] && more[0] == text[pos..newline] && ToCome(text, newline + 1, more[1..], last)
  {
    var rest := text[pos..];
    FirstLine(rest, newline - pos);
    if newline < |text| {
      assert rest[..newline - pos] == text[pos..newline] && rest[newline - pos + 1..] == text[newline + 1..];
    }
  }

  lemma {:induction false} TakeLine(lines: seq<string>, more: seq<string>, all: seq<string>)
    requires lines + more == all && more != []
    ensures (lines + [more[0]]) + more[1..] == all
  {
  }

  function Concat(chunks: seq<string>): string {
    if |chunks| == 0 then "" else Concat(chunks[..|chunks| - 1]) + chunks[|chunks| - 1]
  }

  class Aggregator {
    const parse: Parser
    var statsMap: Table
    var firstLine: bool
    var leftover: string
    ghost var seen: string

    /** Everything read so far is split as if it had been read at once. */
    ghost predicate Valid()
      reads this
    {
      && leftover == Rest(seen) && (firstLine <==> Lines(seen) == [])
      && statsMap == Tabled(Samples(parse, Lines(seen)))
    }

    constructor (p: Parser)
      ensures Valid() && parse == p && seen == ""
    {
      parse := p;
      statsMap, firstLine, leftover, seen := map[], true, "", "";
    }

    method AddSample(line: string)
      modifies this`statsMap
      ensures statsMap == if line in parse then Count(old(statsMap), parse[line]) else old(statsMap)
    {
      if line in parse {
        var sample := parse[line];
        var s := if sample.key in statsMap then statsMap[sample.key] else NO_STATS;
        statsMap := statsMap[sample.key := Add(s, sample.dur)];
      }
    }

    /** One complete line. */
    method DoLine(raw: string, ghost lines: seq<string>)
      requires (firstLine <==> lines == []) && statsMap == Tabled(Samples(parse, lines))
      modifies this`statsMap, this`firstLine
      ensures !firstLine && statsMap == Tabled(Samples(parse, lines + [raw]))
    {
      OneMoreLine(parse, lines, raw);
      assert Tabled(Samples(parse, lines + [raw])) == CountAny(statsMap, Line(parse, raw, |lines|));
      var line := Chomp(raw);
      if firstLine {
        firstLine := false;
        if line == "[" {
          return;
        }
      }
      if line == "]" || line == "" {
        return;
      }
      AddSample(line);
    }

    /** The complete lines of the text; returns where the rest begins. */
    method DoLines(text: string, ghost before: seq<string>, ghost all: seq<string>, ghost last: string) returns (pos: nat)
      requires (firstLine <==> before == []) && statsMap == Tabled(Samples(parse, before))
      requires ToCome(text, 0, all, last)
      modifies this`statsMap, this`firstLine
      ensures firstLine <==> before + all == []
      ensures statsMap == Tabled(Samples(parse, before + all))
      ensures pos <= |text| && text[pos..] == last
    {
      pos := 0;
      ghost var lines, more := before, all;
      var found := true;
      while found
        invariant if found then ToCome(text, pos, more, last) else more == [] && pos <= |text| && text[pos..] == last
        invariant lines + more == before + all
        invariant (firstLine <==> lines == []) && statsMap == Tabled(Samples(parse, lines))
        decreases if found then |text| - pos + 1 else 0
      {
        var line;
        pos, found, line := NextIn(text, pos, more, last);
        if found {
          DoLine(line, lines);
          TakeLine(lines, more, before + all);
          lines, more := lines + [line], more[1..];
        }
      }
      assert lines + [] == lines == before + all;
    }

    /** One chunk of the decompressed text. */
    method NextChunk(chunk: string)
      requires Valid()
      modifies this
      ensures Valid() && seen == old(seen) + chunk
    {
      leftover := leftover + chunk;
      MoreText(seen, chunk);
      assert leftover[0..] == leftover;
      var pos := DoLines(leftover, Lines(seen), Lines(leftover), Rest(leftover));
      leftover := leftover[pos..];
      seen := seen + chunk;
    }

    /** What is left when the input ends. */
    method Finish()
      requires Valid()
      modifies this`statsMap
      ensures statsMap == Tabled(AllSamples(parse, seen))
    {
      OneMoreSample(Samples(parse, Lines(seen)), Tail(parse, leftover));
      if leftover != "" {
        var line := Chomp(leftover);
        if line != "]" && line != "" {
          AddSample(line);
        }
      }
    }
  }

  /** The next line of the text, if it is complete. */
  method NextIn(text: string, pos: nat, ghost more: seq<string>, ghost last: string)
      returns (next: nat, found: bool, line: string)
    requires ToCome(text, pos, more, last)
    ensures !found ==> more == [] && next == pos <= |text| && text[pos..] == last
    ensures found ==> pos < next && more != [] && more[0] == line && ToCome(text, next, more[1..], last)
  {
    var newline := FindNewline(text, pos);
    NextLine(text, pos, newline, more, last);
    if newline == |text| {
      return pos, false, "";
    }
    return newline + 1, true, text[pos..newline];
  }

  /** A line without its carriage return. */
  method Chomp(raw: string) returns (line: string)
    ensures line == Strip(raw)
  {
    line := raw;
    if |line| > 0 && line[|line| - 1] == '\r' {
      line := line[..|line| - 1];
    }
  }

  method FindNewline(text: string, pos: nat) returns (n: nat)
    requires pos <= |text|
    ensures pos <= n <= |text| && n - pos == Newline(text[pos..])
  {
    n := pos;
    while n < |text| && text[n] != '\n'
      invariant pos <= n <= |text| && forall k | pos <= k < n :: text[k] != '\n'
    {
      n := n + 1;
    }
    NewlineIs(text[pos..], n - pos);
  }

  lemma {:induction false} OneMoreSample(samples: seq<Sample>, more: Option<Sample>)
    ensures Tabled(With(samples, more)) == CountAny(Tabled(samples), more)
  {
    match more
    case None =>
    case Some(s) => assert (samples + [s])[..|samples|] == samples;
  }

  lemma {:induction false} OneMoreLine(parse: Parser, lines: seq<string>, line: string)
    ensures Samples(parse, lines + [line]) == With(Samples(parse, lines), Line(parse, line, |lines|))
    ensures Tabled(Samples(parse, lines + [line])) == CountAny(Tabled(Samples(parse, lines)), Line(parse, line, |lines|))
  {
    assert (lines + [line])[..|lines|] == lines;
    OneMoreSample(Samples(parse, lines), Line(parse, line, |lines|));
  }

  /** However the text is cut into chunks, the table is that of the whole text split once. */
  method Aggregate(parse: Parser, chunks: seq<string>) returns (table: Table)
    ensures table == Tabled(AllSamples(parse, Concat(chunks)))
  {
    var a := new Aggregator(parse);
    var i := 0;
    while i < |chunks|
      invariant 0 <= i <= |chunks| && a.Valid() && fresh(a) && a.parse == parse && a.seen == Concat(chunks[..i])
    {
      a.NextChunk(chunks[i]);
      assert chunks[..i + 1][..i] == chunks[..i];
      i := i + 1;
    }
    assert chunks[..i] == chunks;
    a.Finish();
    table := a.statsMap;
  }

  /** A missing last line feed makes no difference, provided a lone bracket does not parse. */
  lemma {:induction false} LastNewlineIrrelevant(parse: Parser, text: string)
    requires "[" !in parse
    ensures AllSamples(parse, text + "\n") == AllSamples(parse, text)
  {
    var lines, rest := Lines(text), Rest(text);
    MoreText(text, "\n");
    RestHasNoNewline(text);
    OnlyLine(rest);
    OneMoreLine(parse, lines, rest);
    assert Line(parse, rest, |lines|) == Tail(parse, rest);
  }

  lemma {:induction false} OnlyLine(line: string)
    requires Newline(line) == |line|
    ensures Lines(line + "\n") == [line] && Rest(line + "\n") == ""
  {
    var text := line + "\n";
    NewlineExact(line);
    NewlineIs(text, |line|);
    FirstLine(text, |line|);
    assert text[..|line|] == line && text[|line| + 1..] == "";
    FirstLine("", 0);
  }

  lemma {:induction false} RestHasNoNewline(text: string)
    ensures Newline(Rest(text)) == |Rest(text)|
  {
    var n := Newline(text);
    if n < |text| {
      RestHasNoNewline(text[n + 1..]);
    }
  }
}
