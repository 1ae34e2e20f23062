/** The positions table as the metrics pass reads it: rows of cell texts,
    the side markers in the market cell, the leverage written `<n>x`, and
    the reduction of the rows into sums, counts and leverage lists. */
module Positions {
  import opened Text
  import opened Values
  import opened Lists

  /** The cell texts (`innerText`) of one `tbody tr`, in column order. */
  type Row = seq<string>

  /** The rows of the positions table's body, in document order. */
  type Table = seq<Row>

  datatype Side = Long | Short

  /** The side markers: the side is written on its own line under the
      symbol in the market cell. */
  const LongMarker: string := "\nlong"
  const ShortMarker: string := "\nshort"

  /** The market cell as the metrics pass reads it: trimmed, then
      lower-cased. */
  function MarketText(cell: string): string {
    ToLower(Trim(cell))
  }

  /** The side the metrics pass gives a row: long is tested first, so a
      cell carrying both markers counts as long. */
  function MetricsSide(cell: string): (r: Option<Side>)
    ensures r == Some(Long) <==> Contains(MarketText(cell), LongMarker)
    ensures r == Some(Short) <==> !Contains(MarketText(cell), LongMarker)
                                  && Contains(MarketText(cell), ShortMarker)
    ensures r == None <==> !Contains(MarketText(cell), LongMarker)
                           && !Contains(MarketText(cell), ShortMarker)
  {
    var t := MarketText(cell);
    if Contains(t, LongMarker) then Some(Long)
    else if Contains(t, ShortMarker) then Some(Short)
    else None
  }

  // ---------------------------------------------------------------------
  // Leverage: the first match of /(\d+(\.\d+)?)x/

  /** When a match of `/(\d+(\.\d+)?)x/` starts at `i`, the end of its
      capture group (the index of the `x`). The digit runs are maximal: a
      shorter run would leave a digit where the pattern needs `.` or `x`,
      so backtracking never finds another match at the same start. */
  function CaptureEndAt(s: string, i: nat): (r: Option<nat>)
    requires i <= |s|
    ensures r.Some? ==> i < r.value < |s| && s[r.value] == 'x' && IsDigit(s[i])
  {
    var k := DigitRun(s[i..]);
    if k == 0 then None
    else
      var j := i + k;
      if j < |s| && s[j] == 'x' then Some(j)
      else if j + 1 < |s| && s[j] == '.' && IsDigit(s[j + 1]) then
        var m := DigitRun(s[j + 1..]);
        if j + 1 + m < |s| && s[j + 1 + m] == 'x' then Some(j + 1 + m) else None
      else None
  }

  /** The leftmost match at or after `from`: its start and the end of its
      capture group. */
  function FirstCapture(s: string, from: nat): (r: Option<(nat, nat)>)
    requires from <= |s|
    ensures r.Some? ==> from <= r.value.0 <= |s| && CaptureEndAt(s, r.value.0) == Some(r.value.1)
    ensures r.Some? ==> forall k :: from <= k < r.value.0 ==> CaptureEndAt(s, k).None?
    ensures r.None? ==> forall k :: from <= k <= |s| ==> CaptureEndAt(s, k).None?
    decreases |s| - from
  {
    match CaptureEndAt(s, from)
    case Some(e) => Some((from, e))
    case None => if from == |s| then None else FirstCapture(s, from + 1)
  }

  /** `levMatch ? parseFloat(levMatch[1]) : 0` on the market text. */
  function Leverage(marketText: string): (r: real)
    ensures r >= 0.0
    ensures FirstCapture(marketText, 0).None? ==> r == 0.0
  {
    match FirstCapture(marketText, 0)
    case None => 0.0
    case Some(m) =>
      CaptureIsNumber(marketText, m.0, m.1);
      ParseFloatOrZero(marketText[m.0..m.1])
  }

  /** A capture starts with a digit, so `parseFloat` reads it as a
      non-negative number. */
  lemma CaptureIsNumber(s: string, i: nat, e: nat)
    requires i <= |s| && CaptureEndAt(s, i) == Some(e)
    ensures ParseFloatOrZero(s[i..e]) >= 0.0
  {
    var t := s[i..e];
    assert t[0] == s[i] && IsDigit(t[0]);
    assert TrimStart(t) == t;
    assert StartsNumber(t);
  }

  lemma {:induction false} NoCaptureInDigitFree(s: string, from: nat, k: nat)
    requires from <= k <= |s|
    requires forall j :: from <= j < |s| ==> !IsDigit(s[j])
    ensures CaptureEndAt(s, k).None?
  {
    if k < |s| {
      assert !IsDigit(s[k..][0]);
    }
  }

  /** In a market text whose only digits are a leverage `<w>x` at the end,
      the leverage read is the number `w` denotes: `btc\nlong 10x` has
      leverage 10. */
  lemma LeverageAtEnd(prefix: string, w: string)
    requires forall j :: 0 <= j < |prefix| ==> !IsDigit(prefix[j])
    requires w != [] && AllDigits(w)
    ensures Leverage(prefix + w + "x") == DigitsValue(w) as real
  {
    var s := prefix + w + "x";
    var i := |prefix|;
    CaptureOfDigits(prefix, w);
    forall k | 0 <= k < i
      ensures CaptureEndAt(s, k).None?
    {
      assert s[k..][0] == prefix[k];
    }
    FirstCaptureFinds(s, 0, i);
    assert s[i..i + |w|] == w;
    ParseFloatDigits(w);
  }

  lemma CaptureOfDigits(prefix: string, w: string)
    requires w != [] && AllDigits(w)
    ensures CaptureEndAt(prefix + w + "x", |prefix|) == Some(|prefix| + |w|)
  {
    var s := prefix + w + "x";
    assert s[|prefix|..] == w + "x";
    DigitRunStops(w, "x");
  }

  /** A plain digit string reads as the number it denotes. */
  lemma ParseFloatDigits(w: string)
    requires w != [] && AllDigits(w)
    ensures ParseFloatOrZero(w) == DigitsValue(w) as real
  {
    assert TrimStart(w) == w;
    var lit := Literal(false, w, "", false, "");
    ReadDigits(w);
    PlainMagnitude(lit);
  }

  lemma ReadDigits(w: string)
    requires w != [] && AllDigits(w)
    ensures ReadLiteral(w) == Some(Literal(false, w, "", false, ""))
  {
    ReadUnsignedPlain(w, "");
    assert w + "" == w;
    assert SignLength(w) == 0;
    assert w[0..] == w;
  }

  /** The search returns the first start that has a match. */
  lemma {:induction false} FirstCaptureFinds(s: string, from: nat, i: nat)
    requires from <= i <= |s| && CaptureEndAt(s, i).Some?
    requires forall k :: from <= k < i ==> CaptureEndAt(s, k).None?
    ensures FirstCapture(s, from) == Some((i, CaptureEndAt(s, i).value))
    decreases i - from
  {
    if from < i {
      FirstCaptureFinds(s, from + 1, i);
    }
  }

  // ---------------------------------------------------------------------
  // Row extraction and reduction

  /** One sided row as the metrics pass sees it: its side, the value of
      its third cell (signed, no absolute value) and its leverage. */
  datatype Position = Position(side: Side, value: real, leverage: real)

  /** A row with fewer than three cells, or without a side marker, is
      skipped. */
  function RowPosition(row: Row): (r: Option<Position>)
    ensures r.Some? <==> |row| >= 3 && MetricsSide(row[0]).Some?
    ensures r.Some? ==> r.value.side == MetricsSide(row[0]).value
                        && r.value.value == ParseUSD(row[2])
                        && r.value.leverage >= 0.0
  {
    if |row| < 3 then None
    else match MetricsSide(row[0])
      case None => None
      case Some(side) => Some(Position(side, ParseUSD(row[2]), Leverage(MarketText(row[0]))))
  }

  /** The sided rows of the table, in table order. */
  function Extract(t: Table): seq<Position> {
    if t == [] then []
    else Extract(t[..|t| - 1]) + (match RowPosition(t[|t| - 1])
                                  case None => []
                                  case Some(p) => [p])
  }

  /** Sum of the values of the positions on `side`. */
  function SideSum(ps: seq<Position>, side: Side): real {
    if ps == [] then 0.0
    else SideSum(ps[..|ps| - 1], side) + (if ps[|ps| - 1].side == side then ps[|ps| - 1].value else 0.0)
  }

  /** Number of positions on `side`. */
  function SideCount(ps: seq<Position>, side: Side): nat {
    if ps == [] then 0
    else SideCount(ps[..|ps| - 1], side) + (if ps[|ps| - 1].side == side then 1 else 0)
  }

  /** Leverages of the positions on `side` that reported a non-zero one,
      in table order. */
  function SideLeverages(ps: seq<Position>, side: Side): seq<real> {
    if ps == [] then []
    else SideLeverages(ps[..|ps| - 1], side)
         + (if ps[|ps| - 1].side == side && ps[|ps| - 1].leverage != 0.0 then [ps[|ps| - 1].leverage] else [])
  }

  /** The accumulators of the metrics pass. */
  datatype Tally = Tally(longSum: real, shortSum: real, longCount: nat, shortCount: nat,
                         longLevs: seq<real>, shortLevs: seq<real>)

  ghost predicate Summarises(tally: Tally, ps: seq<Position>) {
    && tally.longSum == SideSum(ps, Long) && tally.shortSum == SideSum(ps, Short)
    && tally.longCount == SideCount(ps, Long) && tally.shortCount == SideCount(ps, Short)
    && tally.longLevs == SideLeverages(ps, Long) && tally.shortLevs == SideLeverages(ps, Short)
  }

  lemma ExtractStep(t: Table, i: nat)
    requires i < |t|
    ensures Extract(t[..i + 1]) == Extract(t[..i]) + (match RowPosition(t[i])
                                                     case None => []
                                                     case Some(p) => [p])
  {
    assert t[..i + 1][..i] == t[..i];
  }

  /** One row's contribution to the accumulators. */
  function Add(tally: Tally, p: Position): Tally {
    var lev := if p.leverage != 0.0 then [p.leverage] else [];
    match p.side
    case Long => tally.(longSum := tally.longSum + p.value, longCount := tally.longCount + 1,
                        longLevs := tally.longLevs + lev)
    case Short => tally.(shortSum := tally.shortSum + p.value, shortCount := tally.shortCount + 1,
                         shortLevs := tally.shortLevs + lev)
  }

  lemma AddSummarises(tally: Tally, ps: seq<Position>, p: Position)
    requires Summarises(tally, ps)
    ensures Summarises(Add(tally, p), ps + [p])
  {
    assert (ps + [p])[..|ps|] == ps;
  }

  /** The `rows.forEach` loop of `injectMetrics`: every sided row adds its
      signed value to its side's sum and one to its side's count, and its
      leverage to its side's list when the leverage is not zero. */
  method Aggregate(t: Table) returns (tally: Tally)
    ensures tally.longSum == SideSum(Extract(t), Long)
    ensures tally.shortSum == SideSum(Extract(t), Short)
    ensures tally.longCount == SideCount(Extract(t), Long)
    ensures tally.shortCount == SideCount(Extract(t), Short)
    ensures tally.longLevs == SideLeverages(Extract(t), Long)
    ensures tally.shortLevs == SideLeverages(Extract(t), Short)
  {
    tally := Tally(0.0, 0.0, 0, 0, [], []);
    var i := 0;
    while i < |t|
      invariant i <= |t|
      invariant Summarises(tally, Extract(t[..i]))
    {
      ExtractStep(t, i);
      var o := RowPosition(t[i]);
      if o.Some? {
        assert Extract(t[..i + 1]) == Extract(t[..i]) + [o.value];
        AddSummarises(tally, Extract(t[..i]), o.value);
        tally := Add(tally, o.value);
      } else {
        assert Extract(t[..i + 1]) == Extract(t[..i]) + [];
        assert Extract(t[..i]) + [] == Extract(t[..i]);
      }
      i := i + 1;
    }
    assert t[..|t|] == t;
  }

  /** Every sided row is counted on exactly one side. */
  lemma {:induction false} CountsCoverPositions(ps: seq<Position>)
    ensures SideCount(ps, Long) + SideCount(ps, Short) == |ps|
  {
    if ps != [] {
      CountsCoverPositions(ps[..|ps| - 1]);
    }
  }

  /** The leverage lists hold only positive values: a zero leverage is
      never pushed and a leverage is never negative. */
  lemma {:induction false} LeveragesPositive(ps: seq<Position>, side: Side)
    requires forall k :: 0 <= k < |ps| ==> ps[k].leverage >= 0.0
    ensures forall k :: 0 <= k < |SideLeverages(ps, side)| ==> SideLeverages(ps, side)[k] > 0.0
    ensures |SideLeverages(ps, side)| <= SideCount(ps, side)
  {
    if ps != [] {
      LeveragesPositive(ps[..|ps| - 1], side);
    }
  }

  lemma {:induction false} ExtractLeverages(t: Table)
    ensures forall k :: 0 <= k < |Extract(t)| ==> Extract(t)[k].leverage >= 0.0
  {
    if t != [] {
      ExtractLeverages(t[..|t| - 1]);
    }
  }

  /** The reduction is a fold over the rows: the table split anywhere
      extracts to the two halves' positions, one after the other. */
  lemma {:induction false} ExtractAppend(a: Table, b: Table)
    ensures Extract(a + b) == Extract(a) + Extract(b)
    decreases |b|
  {
    if b == [] {
      assert a + b == a;
    } else {
      var b' := b[..|b| - 1];
      assert (a + b)[..|a + b| - 1] == a + b';
      ExtractAppend(a, b');
    }
  }

  /** The sums are additive over the positions. */
  lemma {:induction false} SideSumAppend(p: seq<Position>, q: seq<Position>, side: Side)
    ensures SideSum(p + q, side) == SideSum(p, side) + SideSum(q, side)
    decreases |q|
  {
    if q == [] {
      assert p + q == p;
    } else {
      assert (p + q)[..|p + q| - 1] == p + q[..|q| - 1];
      SideSumAppend(p, q[..|q| - 1], side);
    }
  }

  // ---------------------------------------------------------------------
  // tableHasData

  /** The row has at least three cells and its third parses to a positive
      value. */
  predicate RowHasData(row: Row) {
    |row| >= 3 && ParseUSD(row[2]) > 0.0
  }

  /** `tableHasData(table)`: some row has a strictly positive value. The
      scan stops at the first such row. */
  method TableHasData(t: Table) returns (found: bool)
    ensures found <==> exists i :: 0 <= i < |t| && RowHasData(t[i])
  {
    found := AnyMatch(t, RowHasData);
  }
}
