/** `getPortfolioValue`: the equity figure read from the host page's
    account panel. The panel is a list of rows; each row is the list of
    its `span` elements in document order. */
module Portfolio {
  import opened Text
  import opened Values
  import opened Versions
  import opened Lists

  /** A `span` element: its class list and its `innerText`. */
  datatype Span = Span(classes: set<string>, text: string)

  /** One `div.flex.w-full.items-center.justify-between` row of the panel. */
  type PanelRow = seq<Span>

  /** A compound selector `span.c1.c2…`: the classes a span must carry. */
  type Selector = set<string>

  /** The span matches at least one selector of a selector list. */
  predicate MatchesAny(sp: Span, sels: seq<Selector>) {
    exists j | 0 <= j < |sels| :: sels[j] <= sp.classes
  }

  /** The first span at or after `from`, other than the one at `skip`,
      that matches the selector list (`skip` is -1 when no span is
      excluded). */
  function FirstMatch(spans: seq<Span>, sels: seq<Selector>, skip: int, from: nat): (r: Option<nat>)
    requires from <= |spans|
    ensures r.Some? ==> from <= r.value < |spans| && r.value != skip && MatchesAny(spans[r.value], sels)
    ensures r.Some? ==> forall k :: from <= k < r.value && k != skip ==> !MatchesAny(spans[k], sels)
    ensures r.None? ==> forall k :: from <= k < |spans| && k != skip ==> !MatchesAny(spans[k], sels)
    decreases |spans| - from
  {
    if from == |spans| then None
    else if from != skip && MatchesAny(spans[from], sels) then Some(from)
    else FirstMatch(spans, sels, skip, from + 1)
  }

  /** `row.querySelector(list)`: the first span in document order matching
      any selector of the list. */
  function QueryFirst(spans: seq<Span>, sels: seq<Selector>): Option<nat> {
    FirstMatch(spans, sels, -1, 0)
  }

  const TextXs: string := "text-xs"
  const Gray3: string := "text-gray-3"
  const Gray0: string := "text-gray-0"
  const Underline: string := "underline"

  /** The caption selector list: `span.text-xs.text-gray-3,
      span.text-xs.text-gray-3.underline`, and in release 1.8 also
      `span.text-xs`. */
  function LabelSelectors(v: Version): seq<Selector> {
    var base := [{TextXs, Gray3}, {TextXs, Gray3, Underline}];
    match v
    case V1_3 => base
    case V1_8 => base + [{TextXs}]
  }

  /** The value selector list: `span.text-xs.text-gray-0`, and in release
      1.8 also `span.text-xs`. */
  function ValueSelectors(v: Version): seq<Selector> {
    match v
    case V1_3 => [{TextXs, Gray0}]
    case V1_8 => [{TextXs, Gray0}, {TextXs}]
  }

  /** The caption test on the trimmed, lower-cased caption text. Release 1.3
      also compares with two exact labels, which the substring tests
      already cover. */
  predicate IsEquityLabel(v: Version, labelText: string) {
    var l := ToLower(Trim(labelText));
    match v
    case V1_3 => l == "portfolio value:" || l == "perps equity:" || Contains(l, "portfolio") || Contains(l, "equity")
    case V1_8 => Contains(l, "portfolio") || Contains(l, "equity")
  }

  lemma PrefixContains(l: string, p: string)
    requires |p| <= |l| && l[..|p|] == p
    ensures Contains(l, p)
  {
    assert OccursAt(l, p, 0);
  }

  /** The two releases accept the same labels. */
  lemma LabelTestsAgree(labelText: string)
    ensures IsEquityLabel(V1_3, labelText) <==> IsEquityLabel(V1_8, labelText)
  {
    var l := ToLower(Trim(labelText));
    if l == "portfolio value:" {
      PrefixContains(l, "portfolio");
    } else if l == "perps equity:" {
      assert l[6..12] == "equity";
      assert OccursAt(l, "equity", 6);
    }
  }

  /** The caption span of a row: the first span of the label selector
      list, when its text passes the label test. */
  function Caption(v: Version, row: PanelRow): (r: Option<nat>)
    ensures r.Some? ==> r.value < |row| && IsEquityLabel(v, row[r.value].text)
                        && QueryFirst(row, LabelSelectors(v)) == r
    ensures r.None? ==> var q := QueryFirst(row, LabelSelectors(v));
                        q.None? || !IsEquityLabel(v, row[q.value].text)
  {
    match QueryFirst(row, LabelSelectors(v))
    case None => None
    case Some(c) => if IsEquityLabel(v, row[c].text) then Some(c) else None
  }

  /** Where a row's value is read in the code as written: the first span
      of the value selector list, once the row has a caption. */
  function ValueSpanAsWritten(v: Version, row: PanelRow): (r: Option<nat>)
    ensures r.Some? ==> r.value < |row| && Caption(v, row).Some?
  {
    match Caption(v, row)
    case None => None
    case Some(_) => QueryFirst(row, ValueSelectors(v))
  }

  /** A span carries `text-xs` exactly when it matches the release 1.8
      caption list, and exactly when it matches the release 1.8 value list. */
  lemma TextXsMatches(sp: Span)
    ensures MatchesAny(sp, LabelSelectors(V1_8)) <==> TextXs in sp.classes
    ensures MatchesAny(sp, ValueSelectors(V1_8)) <==> TextXs in sp.classes
  {
    var ls := LabelSelectors(V1_8);
    var vs := ValueSelectors(V1_8);
    if TextXs in sp.classes {
      assert ls[2] <= sp.classes;
      assert vs[1] <= sp.classes;
    }
  }

  /** Two selector lists that accept the same spans pick the same span. */
  lemma {:induction false} SameMatchesSameFirst(spans: seq<Span>, a: seq<Selector>, b: seq<Selector>, from: nat)
    requires from <= |spans|
    requires forall k :: from <= k < |spans| ==> (MatchesAny(spans[k], a) <==> MatchesAny(spans[k], b))
    ensures FirstMatch(spans, a, -1, from) == FirstMatch(spans, b, -1, from)
    decreases |spans| - from
  {
    if from < |spans| {
      SameMatchesSameFirst(spans, a, b, from + 1);
    }
  }

  /** In release 1.8 as written, the value span is the caption span
      itself: both selector lists reduce to "the first `span.text-xs`". */
  lemma ValueIsCaptionAsWritten(row: PanelRow)
    requires Caption(V1_8, row).Some?
    ensures ValueSpanAsWritten(V1_8, row) == Caption(V1_8, row)
  {
    forall k | 0 <= k < |row|
      ensures MatchesAny(row[k], LabelSelectors(V1_8)) <==> MatchesAny(row[k], ValueSelectors(V1_8))
    {
      TextXsMatches(row[k]);
    }
    SameMatchesSameFirst(row, LabelSelectors(V1_8), ValueSelectors(V1_8), 0);
  }

  /** Where a row's value is read, as each release intends: release 1.3
      as written; release 1.8 prefers a `text-gray-0` span and otherwise
      falls back to a `text-xs` span, but never takes the caption span. */
  function ValueSpan(v: Version, row: PanelRow): (r: Option<nat>)
    ensures r.Some? ==> r.value < |row| && Caption(v, row).Some?
    ensures v == V1_8 && r.Some? ==> r.value != Caption(v, row).value
  {
    match Caption(v, row)
    case None => None
    case Some(c) =>
      match v
      case V1_3 => QueryFirst(row, ValueSelectors(V1_3))
      case V1_8 =>
        match FirstMatch(row, [{TextXs, Gray0}], c, 0)
        case Some(j) => Some(j)
        case None => FirstMatch(row, [{TextXs}], c, 0)
  }

  /** A `text-gray-3` caption before which no span carries `text-xs` is
      the caption of its row, in both releases. */
  lemma CaptionAt(v: Version, row: PanelRow, c: nat)
    requires c < |row| && {TextXs, Gray3} <= row[c].classes
    requires forall k :: 0 <= k < c ==> TextXs !in row[k].classes
    requires IsEquityLabel(v, row[c].text)
    ensures Caption(v, row) == Some(c)
  {
    GrayCaptionFirst(v, row, c);
  }

  lemma GrayCaptionFirst(v: Version, row: PanelRow, c: nat)
    requires c < |row| && {TextXs, Gray3} <= row[c].classes
    requires forall k :: 0 <= k < c ==> TextXs !in row[k].classes
    ensures QueryFirst(row, LabelSelectors(v)) == Some(c)
  {
    var ls := LabelSelectors(v);
    assert ls[0] <= row[c].classes;
    FirstMatchAt(row, ls, -1, 0, c);
  }

  /** Release 1.3 reads the first `span.text-xs.text-gray-0` of a row
      whose first `text-gray-3` caption passes the label test, whatever
      other spans come before either. */
  lemma OldMarkupRead(row: PanelRow, c: nat, value: nat)
    requires c < |row| && MatchesAny(row[c], LabelSelectors(V1_3))
    requires forall k :: 0 <= k < c ==> !MatchesAny(row[k], LabelSelectors(V1_3))
    requires IsEquityLabel(V1_3, row[c].text)
    requires value < |row| && {TextXs, Gray0} <= row[value].classes
    requires forall k :: 0 <= k < value ==> !({TextXs, Gray0} <= row[k].classes)
    ensures ValueSpan(V1_3, row) == Some(value)
  {
    FirstMatchAt(row, LabelSelectors(V1_3), -1, 0, c);
    assert ValueSelectors(V1_3)[0] <= row[value].classes;
    FirstMatchAt(row, ValueSelectors(V1_3), -1, 0, value);
  }

  /** Release 1.3 passes over a plain `text-xs` span before the caption:
      in a row `other`, caption, amount it reads the amount span. */
  lemma OldMarkupSkipsPlainSpan(other: string, caption: string, amount: string)
    requires IsEquityLabel(V1_3, caption)
    ensures ValueSpan(V1_3, [Span({TextXs}, other), Span({TextXs, Gray3}, caption), Span({TextXs, Gray0}, amount)])
            == Some(2)
  {
    var row := [Span({TextXs}, other), Span({TextXs, Gray3}, caption), Span({TextXs, Gray0}, amount)];
    var ls := LabelSelectors(V1_3);
    assert ls[0] <= row[1].classes;
    assert Gray3 !in row[0].classes && Gray0 !in row[0].classes && Gray0 !in row[1].classes;
    OldMarkupRead(row, 1, 2);
  }

  /** On release 1.3 markup — a `text-gray-3` caption and a separate
      `text-gray-0` value — the corrected release 1.8 lookup reads the same
      span as release 1.3. */
  lemma CorrectedAgreesOnOldMarkup(row: PanelRow, c: nat, value: nat)
    requires c < |row| && {TextXs, Gray3} <= row[c].classes
    requires forall k :: 0 <= k < c ==> TextXs !in row[k].classes
    requires IsEquityLabel(V1_3, row[c].text)
    requires value < |row| && {TextXs, Gray0} <= row[value].classes
    requires forall k :: 0 <= k < value ==> Gray0 !in row[k].classes
    requires Gray0 !in row[c].classes
    ensures ValueSpan(V1_8, row) == ValueSpan(V1_3, row) == Some(value)
  {
    GrayCaptionFirst(V1_3, row, c);
    OldMarkupRead(row, c, value);
    LabelTestsAgree(row[c].text);
    CaptionAt(V1_8, row, c);
    var g := [{TextXs, Gray0}];
    assert g[0] <= row[value].classes;
    FirstMatchAt(row, g, c, 0, value);
  }

  /** The search finds the first eligible span. */
  lemma {:induction false} FirstMatchAt(spans: seq<Span>, sels: seq<Selector>, skip: int, from: nat, i: nat)
    requires from <= i < |spans| && i != skip && MatchesAny(spans[i], sels)
    requires forall k :: from <= k < i && k != skip ==> !MatchesAny(spans[k], sels)
    ensures FirstMatch(spans, sels, skip, from) == Some(i)
    decreases i - from
  {
    if from < i {
      FirstMatchAt(spans, sels, skip, from + 1, i);
    }
  }

  /** `getPortfolioValue()`: 0 without the panel; otherwise the value of
      the first row whose caption passes the test and that has a value
      span, and 0 when no row does. */
  function PortfolioValue(v: Version, panel: Option<seq<PanelRow>>): (r: real)
    ensures panel.None? ==> r == 0.0
  {
    match panel
    case None => 0.0
    case Some(rows) =>
      match FirstReading(rows, row => ValueSpan(v, row), 0)
      case None => 0.0
      case Some(p) => ParseUSD(rows[p.0][p.1].text)
  }

  /** The first readable row wins, whatever the rows after it hold. */
  lemma FirstRowWins(v: Version, rows: seq<PanelRow>, i: nat)
    requires i < |rows| && ValueSpan(v, rows[i]).Some?
    requires forall k :: 0 <= k < i ==> ValueSpan(v, rows[k]).None?
    ensures PortfolioValue(v, Some(rows)) == ParseUSD(rows[i][ValueSpan(v, rows[i]).value].text)
  {
    FirstReadingAt(rows, row => ValueSpan(v, row), 0, i);
  }

  /** Without a readable row the value is 0. */
  lemma NoReadableRow(v: Version, rows: seq<PanelRow>)
    requires forall k :: 0 <= k < |rows| ==> ValueSpan(v, rows[k]).None?
    ensures PortfolioValue(v, Some(rows)) == 0.0
  {
    FirstReadingNone(rows, row => ValueSpan(v, row), 0);
  }

  // ---------------------------------------------------------------------
  // The release 1.8 lookup as written

  /** `getPortfolioValue()` of release 1.8 as written. */
  function PortfolioValueAsWritten(panel: Option<seq<PanelRow>>): (r: real)
    ensures panel.None? ==> r == 0.0
  {
    match panel
    case None => 0.0
    case Some(rows) => FirstValueAsWritten(rows)
  }

  function FirstValueAsWritten(rows: seq<PanelRow>): real {
    if rows == [] then 0.0
    else match ValueSpanAsWritten(V1_8, rows[0])
      case Some(j) => ParseUSD(rows[0][j].text)
      case None => FirstValueAsWritten(rows[1..])
  }

  /** The panel row of the host page: a grey caption and the amount
      beside it. */
  function EquityRow(caption: string, amount: string): PanelRow {
    [Span({TextXs, Gray3}, caption), Span({TextXs, Gray0}, amount)]
  }

  /** On the host page's own markup, release 1.8 as written reads the
      caption's text as the amount. */
  lemma AsWrittenReadsCaption(caption: string, amount: string)
    requires IsEquityLabel(V1_8, caption)
    ensures PortfolioValueAsWritten(Some([EquityRow(caption, amount)])) == ParseUSD(caption)
  {
    var row := EquityRow(caption, amount);
    CaptionAt(V1_8, row, 0);
    ValueIsCaptionAsWritten(row);
    assert [row][1..] == [];
  }

  /** On the same markup both releases as intended read the amount. */
  lemma IntendedReadsAmount(v: Version, caption: string, amount: string)
    requires IsEquityLabel(v, caption)
    ensures PortfolioValue(v, Some([EquityRow(caption, amount)])) == ParseUSD(amount)
  {
    var row := EquityRow(caption, amount);
    LabelTestsAgree(caption);
    CorrectedAgreesOnOldMarkup(row, 0, 1);
    FirstRowWins(v, [row], 0);
  }

  /** The discrepancy: with a caption that starts with a word, release 1.8
      as written reports a zero portfolio value however large the amount
      beside it, so every portfolio multiple and the net leverage print as
      zero … */
  lemma AsWrittenReportsZero(caption: string, amount: string)
    requires IsEquityLabel(V1_8, caption)
    requires (IsLower(caption[0]) || IsUpper(caption[0])) && caption[0] != 'x' && caption[0] != 'X'
    ensures PortfolioValueAsWritten(Some([EquityRow(caption, amount)])) == 0.0
  {
    AsWrittenReadsCaption(caption, amount);
    ParseUSDNoNumber(caption);
  }

  /** … where the intended lookup reports the amount: `$1234.5` beside
      the caption gives 1234.5. */
  lemma IntendedReportsAmount(caption: string, d: Decimal)
    requires IsEquityLabel(V1_8, caption)
    requires d.whole != []
    ensures PortfolioValue(V1_8, Some([EquityRow(caption, "$" + Render(d))])) == DecimalValue(d)
  {
    var amount := "$" + Render(d);
    IntendedReadsAmount(V1_8, caption, amount);
    ParseUSDRendered(d, "$", "");
    assert "$" + Render(d) + "" == amount;
  }

  /** The host page's caption `Portfolio Value:` passes the test. */
  lemma PortfolioLabelAccepted()
    ensures IsEquityLabel(V1_8, "Portfolio Value:")
  {
    var s := "Portfolio Value:";
    assert TrimStart(s) == s;
    assert TrimEnd(s) == s;
    var l := ToLower(s);
    assert l[..9] == "portfolio";
    PrefixContains(l, "portfolio");
  }
}
