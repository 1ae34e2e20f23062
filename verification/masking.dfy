/** The per-row value masking of the injected rows: a page-wide map from
    row id to "masked", a value span that shows either its real text or
    asterisks, and the click that flips it. Both releases share it. */
module Masking {

  /** What a masked value span shows. */
  const MaskText: string := "******"

  /** `maskedRows`: row id to masked; an id never clicked is absent. */
  type Store = map<string, bool>

  /** `!!maskedRows[id]`: an absent id reads as unmasked. */
  function IsMasked(store: Store, id: string): (m: bool)
    ensures m <==> id in store && store[id]
  {
    id in store && store[id]
  }

  /** The value span of one injected row: its id, the real text kept in
      `data-real`, the `data-masked` flag and the text on screen. */
  datatype ValueSpan = ValueSpan(id: string, realText: string, masked: bool, shown: string)

  /** A span shows what its flag says: asterisks when masked, the real text
      otherwise. */
  predicate Consistent(span: ValueSpan) {
    span.shown == if span.masked then MaskText else span.realText
  }

  /** `applyMask(span, realText, isMasked)`: sets the flag and the text
      together, so the span is consistent afterwards whatever it was. */
  function ApplyMask(span: ValueSpan, isMasked: bool): (r: ValueSpan)
    ensures Consistent(r)
    ensures r.masked == isMasked
    ensures r.id == span.id && r.realText == span.realText
  {
    span.(masked := isMasked, shown := if isMasked then MaskText else span.realText)
  }

  /** The value span `formatRow(label, value, id)` creates: masked exactly
      when the store says the id is masked. */
  function Create(store: Store, id: string, value: string): (span: ValueSpan)
    ensures Consistent(span) && span.id == id && span.realText == value
    ensures span.masked <==> id in store && store[id]
  {
    ApplyMask(ValueSpan(id, value, false, ""), IsMasked(store, id))
  }

  /** A click on a value span: the store records the opposite of the flag
      the span carries (not of the store's own entry), and the span is
      redrawn with it. */
  function Click(store: Store, span: ValueSpan): (r: (Store, ValueSpan))
    ensures r.1.masked == !span.masked && Consistent(r.1)
    ensures r.1.id == span.id && r.1.realText == span.realText
    ensures r.0.Keys == store.Keys + {span.id}
    ensures IsMasked(r.0, span.id) == r.1.masked
    ensures forall other :: other != span.id ==> IsMasked(r.0, other) == IsMasked(store, other)
  {
    var store' := store[span.id := !span.masked];
    (store', ApplyMask(span, store'[span.id]))
  }

  /** The span text flips between the real value and asterisks. */
  lemma ClickFlipsText(store: Store, span: ValueSpan)
    requires Consistent(span)
    ensures Click(store, span).1.shown == if span.masked then span.realText else MaskText
  {
  }

  /** Two clicks restore the span exactly, and leave the stored state the
      span started with. */
  lemma TwoClicksRestore(store: Store, span: ValueSpan)
    requires Consistent(span)
    ensures var (s1, span1) := Click(store, span);
            var (s2, span2) := Click(s1, span1);
            span2 == span && IsMasked(s2, span.id) == span.masked
  {
  }

  /** A span created from the store and clicked flips the store's state for
      its id. */
  lemma ClickFlipsStore(store: Store, id: string, value: string)
    ensures var span := Create(store, id, value);
            IsMasked(Click(store, span).0, id) == !IsMasked(store, id)
  {
  }

  /** A row created again after a click (the next metrics pass) shows the
      state the click left: the mask survives re-injection. */
  lemma RecreatedRowInherits(store: Store, span: ValueSpan)
    ensures var (store', span') := Click(store, span);
            Create(store', span.id, span.realText) == span'
  {
  }

  /** Clicks on other rows never change a row's stored state. */
  lemma {:induction false} OtherClicksKeepState(store: Store, spans: seq<ValueSpan>, id: string)
    requires forall i :: 0 <= i < |spans| ==> spans[i].id != id
    ensures IsMasked(ClickAll(store, spans), id) == IsMasked(store, id)
    decreases |spans|
  {
    if spans != [] {
      OtherClicksKeepState(Click(store, spans[0]).0, spans[1..], id);
    }
  }

  /** The store after clicking each span of a list in turn. */
  function ClickAll(store: Store, spans: seq<ValueSpan>): Store
    decreases |spans|
  {
    if spans == [] then store else ClickAll(Click(store, spans[0]).0, spans[1..])
  }
}
