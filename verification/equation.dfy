/** `buildTradingViewEquationFromTable` (release 1.8): the positions with
    the largest notionals, as a product of `SYMBOL^weight` factors whose
    absolute weights add up to one. */
module Equation {
  import opened Text
  import opened Values
  import opened Symbols
  import opened Positions
  import opened Lists

  /** A row that qualifies for the equation. */
  datatype Candidate = Candidate(symbol: string, side: Side, notional: real)

  /** One factor of the equation before formatting. */
  datatype Term = Term(symbol: string, exponent: real)

  /** The most factors a TradingView equation accepts. */
  const MaxTerms: nat := 10

  function Abs(x: real): (r: real)
    ensures r >= 0.0 && (r == x || r == -x)
  {
    if x < 0.0 then -x else x
  }

  /** The builder reads the market cell lower-cased but not trimmed, and a
      cell with both markers counts as short. Rows with fewer than three
      cells, without a marker, or with a zero notional are skipped. */
  function RowCandidate(row: Row): (r: Option<Candidate>)
    ensures r.Some? <==> |row| >= 3
                         && (Contains(ToLower(row[0]), LongMarker) || Contains(ToLower(row[0]), ShortMarker))
                         && ParseUSD(row[2]) != 0.0
    ensures r.Some? ==> r.value.notional > 0.0 && r.value.notional == Abs(ParseUSD(row[2]))
    ensures r.Some? ==> (r.value.side == Short <==> Contains(ToLower(row[0]), ShortMarker))
    ensures r.Some? ==> r.value.symbol == NormalizeToUSDT(row[0])
  {
    if |row| < 3 then None
    else
      var lower := ToLower(row[0]);
      var isLong := Contains(lower, LongMarker);
      var isShort := Contains(lower, ShortMarker);
      if !isLong && !isShort then None
      else
        var notional := Abs(ParseUSD(row[2]));
        if !(notional > 0.0) then None
        else Some(Candidate(NormalizeToUSDT(row[0]), if isShort then Short else Long, notional))
  }

  /** The qualifying rows, in table order. */
  function Candidates(t: Table): (cs: seq<Candidate>)
    ensures |cs| <= |t| && |cs| == Qualifying(t, RowCandidate)
    ensures forall i :: 0 <= i < |cs| ==> cs[i].notional > 0.0
    ensures forall c :: c in cs <==> exists i :: 0 <= i < |t| && RowCandidate(t[i]) == Some(c)
  {
    var cs := Collect(t, RowCandidate);
    assert forall i :: 0 <= i < |cs| ==> cs[i].notional > 0.0 by {
      forall i | 0 <= i < |cs|
        ensures cs[i].notional > 0.0
      {
        assert cs[i] in cs;
        var j :| 0 <= j < |t| && RowCandidate(t[j]) == Some(cs[i]);
      }
    }
    cs
  }

  /** The filter pushes one candidate per qualifying row, in table order:
      a row appended to the table appends its candidate, if any. */
  lemma CandidatesAppend(t: Table, row: Row)
    ensures Candidates([]) == []
    ensures Candidates(t + [row]) == Candidates(t) + (match RowCandidate(row)
                                                     case None => []
                                                     case Some(c) => [c])
  {
    CollectAppend(t, [row], RowCandidate);
    assert [row][1..] == [];
  }

  // ---------------------------------------------------------------------
  // `positions.sort((a, b) => b.notional - a.notional)`: a stable sort,
  // largest notional first

  ghost predicate SortedDesc(s: seq<Candidate>) {
    forall i, j :: 0 <= i < j < |s| ==> s[i].notional >= s[j].notional
  }

  /** `x` placed after every element whose notional is at least its own. */
  function Insert(s: seq<Candidate>, x: Candidate): (r: seq<Candidate>)
    ensures |r| == |s| + 1
    ensures multiset(r) == multiset(s) + multiset{x}
  {
    if s == [] then [x]
    else
      assert s == [s[0]] + s[1..];
      if s[0].notional >= x.notional then [s[0]] + Insert(s[1..], x)
      else [x] + s
  }

  lemma {:induction false} InsertSorted(s: seq<Candidate>, x: Candidate)
    requires SortedDesc(s)
    ensures SortedDesc(Insert(s, x))
  {
    if s != [] && s[0].notional >= x.notional {
      InsertSorted(s[1..], x);
      var r := Insert(s[1..], x);
      forall k | 0 <= k < |r|
        ensures s[0].notional >= r[k].notional
      {
        assert r[k] in multiset(r);
        assert r[k] in multiset(s[1..]) || r[k] == x;
        if r[k] != x {
          var j :| 0 <= j < |s[1..]| && s[1..][j] == r[k];
          assert s[1 + j] == r[k];
        }
      }
    }
  }

  /** The stable sort by descending notional. */
  function SortDesc(xs: seq<Candidate>): (r: seq<Candidate>)
    ensures |r| == |xs| && multiset(r) == multiset(xs)
  {
    if xs == [] then []
    else
      assert xs == xs[..|xs| - 1] + [xs[|xs| - 1]];
      Insert(SortDesc(xs[..|xs| - 1]), xs[|xs| - 1])
  }

  lemma {:induction false} SortDescSorted(xs: seq<Candidate>)
    ensures SortedDesc(SortDesc(xs))
  {
    if xs != [] {
      SortDescSorted(xs[..|xs| - 1]);
      InsertSorted(SortDesc(xs[..|xs| - 1]), xs[|xs| - 1]);
    }
  }

  /** The elements with notional `v`, in order. */
  function Tied(s: seq<Candidate>, v: real): seq<Candidate> {
    if s == [] then [] else (if s[0].notional == v then [s[0]] else []) + Tied(s[1..], v)
  }

  lemma {:induction false} TiedAppend(a: seq<Candidate>, b: seq<Candidate>, v: real)
    ensures Tied(a + b, v) == Tied(a, v) + Tied(b, v)
  {
    if a == [] {
      assert a + b == b;
    } else {
      var ab := a + b;
      assert ab[0] == a[0];
      assert ab[1..] == a[1..] + b;
      TiedAppend(a[1..], b, v);
      assert Tied(ab, v) == (if a[0].notional == v then [a[0]] else []) + Tied(a[1..] + b, v);
    }
  }

  lemma {:induction false} TiedNoneBelow(s: seq<Candidate>, v: real)
    requires SortedDesc(s) && (s == [] || s[0].notional < v)
    ensures Tied(s, v) == []
  {
    if s != [] {
      TiedNoneBelow(s[1..], v);
    }
  }

  lemma {:induction false} InsertTied(s: seq<Candidate>, x: Candidate, v: real)
    requires SortedDesc(s)
    ensures Tied(Insert(s, x), v) == Tied(s, v) + (if x.notional == v then [x] else [])
  {
    if s == [] {
      TiedSingle(x, v);
    } else if s[0].notional >= x.notional {
      SortedTail(s);
      InsertTied(s[1..], x, v);
      InsertAfter(s, x, v);
    } else {
      TiedCons(x, s, v);
      if x.notional == v {
        TiedNoneBelow(s, v);
      }
    }
  }

  /** The step of `InsertTied` where `x` goes past the head. */
  lemma InsertAfter(s: seq<Candidate>, x: Candidate, v: real)
    requires s != [] && s[0].notional >= x.notional
    requires Tied(Insert(s[1..], x), v) == Tied(s[1..], v) + (if x.notional == v then [x] else [])
    ensures Tied(Insert(s, x), v) == Tied(s, v) + (if x.notional == v then [x] else [])
  {
    assert Insert(s, x) == [s[0]] + Insert(s[1..], x);
    TiedCons(s[0], Insert(s[1..], x), v);
    TiedCons(s[0], s[1..], v);
    assert [s[0]] + s[1..] == s;
  }

  lemma SortedTail(s: seq<Candidate>)
    requires s != [] && SortedDesc(s)
    ensures SortedDesc(s[1..])
  {
    forall i, j | 0 <= i < j < |s| - 1
      ensures s[1..][i].notional >= s[1..][j].notional
    {
      assert s[1..][i] == s[i + 1] && s[1..][j] == s[j + 1];
    }
  }

  lemma TiedCons(c: Candidate, s: seq<Candidate>, v: real)
    ensures Tied([c] + s, v) == (if c.notional == v then [c] else []) + Tied(s, v)
  {
    assert ([c] + s)[1..] == s;
  }

  lemma TiedSingle(x: Candidate, v: real)
    ensures Tied([x], v) == if x.notional == v then [x] else []
  {
    assert [x][1..] == [];
  }

  lemma StableStep(init: seq<Candidate>, sorted: seq<Candidate>, x: Candidate, v: real)
    requires sorted == SortDesc(init)
    requires Tied(sorted, v) == Tied(init, v)
    ensures Tied(Insert(sorted, x), v) == Tied(init + [x], v)
  {
    SortDescSorted(init);
    InsertTied(sorted, x, v);
    TiedAppend(init, [x], v);
    TiedSingle(x, v);
  }

  /** The sort is stable: positions with equal notionals keep their table
      order. */
  lemma {:induction false} SortStable(xs: seq<Candidate>, v: real)
    ensures Tied(SortDesc(xs), v) == Tied(xs, v)
  {
    if xs != [] {
      var init := xs[..|xs| - 1];
      var x := xs[|xs| - 1];
      var sorted := SortDesc(init);
      assert xs == init + [x];
      assert SortDesc(xs) == Insert(sorted, x);
      SortStable(init, v);
      StableStep(init, sorted, x, v);
    }
  }

  // ---------------------------------------------------------------------
  // `.slice(0, 10)`, the weights and the terms

  /** The ten largest positions (fewer when there are fewer). */
  function Top(cs: seq<Candidate>): (top: seq<Candidate>)
    ensures |top| == if |cs| < MaxTerms then |cs| else MaxTerms
    ensures top == SortDesc(cs)[..|top|]
  {
    var sorted := SortDesc(cs);
    if |sorted| <= MaxTerms then sorted else sorted[..MaxTerms]
  }

  /** Every position kept is at least as large as every position dropped,
      and the kept ones come largest first. */
  lemma TopKeepsLargest(cs: seq<Candidate>)
    ensures SortedDesc(Top(cs))
    ensures forall i, j :: 0 <= i < |Top(cs)| <= j < |cs| ==> Top(cs)[i].notional >= SortDesc(cs)[j].notional
    ensures multiset(Top(cs)) <= multiset(cs)
  {
    SortDescSorted(cs);
    var sorted := SortDesc(cs);
    var top := Top(cs);
    assert sorted == top + sorted[|top|..];
    assert multiset(sorted) == multiset(top) + multiset(sorted[|top|..]);
  }

  function NotionalSum(s: seq<Candidate>): real {
    if s == [] then 0.0 else NotionalSum(s[..|s| - 1]) + s[|s| - 1].notional
  }

  lemma {:induction false} NotionalSumBounds(s: seq<Candidate>)
    requires forall i :: 0 <= i < |s| ==> s[i].notional > 0.0
    ensures s != [] ==> NotionalSum(s) > 0.0
    ensures forall i :: 0 <= i < |s| ==> s[i].notional <= NotionalSum(s)
  {
    if s != [] {
      NotionalSumBounds(s[..|s| - 1]);
    }
  }

  /** `reduce(…) || 1`: the sum of the kept notionals, or 1 when it is 0. */
  function Denominator(top: seq<Candidate>): (d: real)
    ensures d != 0.0
  {
    var s := NotionalSum(top);
    if s == 0.0 then 1.0 else s
  }

  /** `p.notional / sumAbs`, negated for a short. */
  function Weight(p: Candidate, total: real): real
    requires total != 0.0
  {
    var w := p.notional / total;
    if p.side == Short then -w else w
  }

  function Weigh(top: seq<Candidate>, total: real): (ts: seq<Term>)
    requires total != 0.0
    ensures |ts| == |top|
  {
    seq(|top|, i requires 0 <= i < |top| => Term(top[i].symbol, Weight(top[i], total)))
  }

  /** The terms for a list of qualifying positions. */
  function TermsOf(cs: seq<Candidate>): (ts: seq<Term>)
    ensures |ts| == if |cs| < MaxTerms then |cs| else MaxTerms
  {
    var top := Top(cs);
    Weigh(top, Denominator(top))
  }

  /** The terms of the equation before formatting, largest first. */
  function Terms(t: Table): (ts: seq<Term>)
    ensures |ts| <= MaxTerms
    ensures ts == [] <==> Candidates(t) == []
    ensures |ts| == if |Candidates(t)| < MaxTerms then |Candidates(t)| else MaxTerms
    ensures |ts| == if Qualifying(t, RowCandidate) < MaxTerms then Qualifying(t, RowCandidate) else MaxTerms
  {
    TermsOf(Candidates(t))
  }

  function AbsWeightSum(ts: seq<Term>): real {
    if ts == [] then 0.0 else AbsWeightSum(ts[..|ts| - 1]) + Abs(ts[|ts| - 1].exponent)
  }

  lemma {:induction false} AbsWeightSumScales(top: seq<Candidate>, total: real)
    requires total > 0.0
    requires forall i :: 0 <= i < |top| ==> top[i].notional > 0.0
    ensures AbsWeightSum(Weigh(top, total)) == NotionalSum(top) / total
  {
    if top != [] {
      var init := top[..|top| - 1];
      var p := top[|top| - 1];
      AbsWeightSumScales(init, total);
      var ts := Weigh(top, total);
      assert ts[..|top| - 1] == Weigh(init, total);
      assert Abs(ts[|top| - 1].exponent) == p.notional / total;
      DivideSum(NotionalSum(init), p.notional, total);
    }
  }

  lemma DivideSum(a: real, b: real, c: real)
    requires c != 0.0
    ensures a / c + b / c == (a + b) / c
  {
  }

  /** The kept positions all qualify. */
  lemma TopPositive(cs: seq<Candidate>)
    requires forall i :: 0 <= i < |cs| ==> cs[i].notional > 0.0
    ensures forall i :: 0 <= i < |Top(cs)| ==> Top(cs)[i].notional > 0.0
  {
    var top := Top(cs);
    TopKeepsLargest(cs);
    forall i | 0 <= i < |top|
      ensures top[i].notional > 0.0
    {
      assert top[i] in multiset(top);
      assert top[i] in multiset(cs);
    }
  }

  /** The position weights: with any position at all, the absolute
      exponents add up to 1 (a total exposure of one times equity), each
      lies in (0, 1], and an exponent is positive exactly for a long. */
  lemma WeightsNormalised(cs: seq<Candidate>)
    requires cs != []
    requires forall i :: 0 <= i < |cs| ==> cs[i].notional > 0.0
    ensures AbsWeightSum(TermsOf(cs)) == 1.0
    ensures forall i :: 0 <= i < |TermsOf(cs)| ==> 0.0 < Abs(TermsOf(cs)[i].exponent) <= 1.0
    ensures forall i :: 0 <= i < |TermsOf(cs)| ==> (TermsOf(cs)[i].exponent > 0.0 <==> Top(cs)[i].side == Long)
  {
    var top := Top(cs);
    TopPositive(cs);
    NotionalSumBounds(top);
    var total := NotionalSum(top);
    assert Denominator(top) == total;
    WeighNormalised(top, total);
  }

  /** Weighing positive notionals by their own sum. */
  lemma {:induction false} WeighNormalised(top: seq<Candidate>, total: real)
    requires top != []
    requires forall i :: 0 <= i < |top| ==> top[i].notional > 0.0
    requires total == NotionalSum(top)
    ensures total > 0.0
    ensures AbsWeightSum(Weigh(top, total)) == 1.0
    ensures forall i :: 0 <= i < |top| ==> 0.0 < Abs(Weigh(top, total)[i].exponent) <= 1.0
    ensures forall i :: 0 <= i < |top| ==> (Weigh(top, total)[i].exponent > 0.0 <==> top[i].side == Long)
  {
    NotionalSumBounds(top);
    AbsWeightSumScales(top, total);
    SelfQuotient(total);
    forall i | 0 <= i < |top|
      ensures 0.0 < Abs(Weigh(top, total)[i].exponent) <= 1.0
      ensures Weigh(top, total)[i].exponent > 0.0 <==> top[i].side == Long
    {
      WeightInUnit(top[i], total);
    }
  }

  lemma SelfQuotient(x: real)
    requires x != 0.0
    ensures x / x == 1.0
  {
  }

  /** The same for the equation built from a table. */
  lemma TableWeightsNormalised(t: Table)
    requires Candidates(t) != []
    ensures AbsWeightSum(Terms(t)) == 1.0
    ensures forall i :: 0 <= i < |Terms(t)| ==> 0.0 < Abs(Terms(t)[i].exponent) <= 1.0
  {
    WeightsNormalised(Candidates(t));
  }

  lemma WeightInUnit(p: Candidate, total: real)
    requires 0.0 < p.notional <= total
    ensures 0.0 < Abs(Weight(p, total)) <= 1.0
    ensures Weight(p, total) > 0.0 <==> p.side == Long
  {
    var w := p.notional / total;
    assert 0.0 < w <= 1.0;
  }

  // ---------------------------------------------------------------------
  // Formatting

  /** `${symbol}^${exp.toFixed(4)}`, with the number formatting left
      abstract as `fixed4`. */
  function TermText(term: Term, fixed4: real -> string): (s: string)
    ensures s != [] && '^' in s
  {
    term.symbol + "^" + fixed4(term.exponent)
  }

  /** `terms.join("*")`. */
  function Join(parts: seq<string>): (s: string)
    ensures parts == [] ==> s == []
    ensures |parts| == 1 ==> s == parts[0]
  {
    if parts == [] then []
    else if |parts| == 1 then parts[0]
    else Join(parts[..|parts| - 1]) + "*" + parts[|parts| - 1]
  }

  /** Joining non-empty parts gives the empty text only for no parts. */
  lemma {:induction false} JoinEmpty(parts: seq<string>)
    requires forall i :: 0 <= i < |parts| ==> parts[i] != []
    ensures Join(parts) == [] <==> parts == []
  {
    if |parts| > 1 {
      JoinEmpty(parts[..|parts| - 1]);
    }
  }

  function Texts(ts: seq<Term>, fixed4: real -> string): (parts: seq<string>)
    ensures |parts| == |ts|
    ensures forall i :: 0 <= i < |ts| ==> parts[i] == TermText(ts[i], fixed4)
  {
    seq(|ts|, i requires 0 <= i < |ts| => TermText(ts[i], fixed4))
  }

  /** The equation text: the joined terms, and exactly `""` when no row
      qualifies. */
  function EquationText(t: Table, fixed4: real -> string): (s: string)
    ensures s == [] <==> Candidates(t) == []
  {
    var parts := Texts(Terms(t), fixed4);
    JoinEmpty(parts);
    Join(parts)
  }

  /** `buildTradingViewEquationFromTable(table)`: None when there is no
      table (the function throws), otherwise the equation text. */
  function Build(table: Option<Table>, fixed4: real -> string): (r: Option<string>)
    ensures r.None? <==> table.None?
    ensures table.Some? ==> (r.value == [] <==> Candidates(table.value) == [])
  {
    match table
    case None => None
    case Some(t) => Some(EquationText(t, fixed4))
  }
}
