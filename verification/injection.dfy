/** One metrics pass on the summary container: every child an earlier pass
    tagged `data-injected="ls-info"` is removed, then a fixed set of rows is
    appended. */
module Injection {
  import opened Text
  import opened Versions
  import opened Masking
  import opened Preview

  /** A child of the summary container. */
  datatype Child =
    | Host(name: string)                             // the page's own rows
    | Line(id: string, caption: string, span: ValueSpan)  // `formatRow`
    | EquationRow(id: string, preview: Preview)      // `formatCopyEquationRow`

  /** Carries `data-injected="ls-info"`. */
  predicate Tagged(c: Child) {
    !c.Host?
  }

  /** The ids and captions of the five value rows. */
  const LineIds: seq<string> := ["ls-line-1", "ls-line-2", "ls-line-3", "ls-line-4", "ls-line-5"]
  const Captions: seq<string> :=
    ["Long vs Short:", "L/S Ratio:", "Long vs Portfolio:", "Short vs Portfolio:", "Net Leverage:"]
  const EquationId: string := "ls-line-tv"

  /** The children a pass keeps: the untagged ones, in their order. */
  function Untagged(cs: seq<Child>): (r: seq<Child>)
    ensures |r| <= |cs|
    ensures forall i :: 0 <= i < |r| ==> !Tagged(r[i]) && r[i] in cs
    ensures forall i :: 0 <= i < |cs| && !Tagged(cs[i]) ==> cs[i] in r
    ensures |r| + TaggedCount(cs) == |cs|
    decreases |cs|
  {
    if cs == [] then []
    else (if Tagged(cs[0]) then [] else [cs[0]]) + Untagged(cs[1..])
  }

  /** The number of tagged children. */
  function TaggedCount(cs: seq<Child>): nat
    decreases |cs|
  {
    if cs == [] then 0 else (if Tagged(cs[0]) then 1 else 0) + TaggedCount(cs[1..])
  }

  /** The ids of the tagged children, in order. */
  function TaggedIds(cs: seq<Child>): seq<string>
    decreases |cs|
  {
    if cs == [] then []
    else (if Tagged(cs[0]) then [cs[0].id] else []) + TaggedIds(cs[1..])
  }

  /** The rows one pass appends; `values` are the five formatted figures
      (the formatting is left abstract). Each value span takes its masked
      state from the store; the equation row starts closed and uncached. */
  function NewRows(v: Version, store: Store, values: seq<string>): (rows: seq<Child>)
    requires |values| == |LineIds|
    ensures |rows| == InjectedRowCount(v)
    ensures forall i :: 0 <= i < |rows| ==> Tagged(rows[i])
    ensures forall i :: 0 <= i < |LineIds| ==>
              rows[i] == Line(LineIds[i], Captions[i], Create(store, LineIds[i], values[i]))
    ensures v == V1_8 ==> rows[|LineIds|] == EquationRow(EquationId, Fresh)
  {
    var lines := seq(|LineIds|, i requires 0 <= i < |LineIds| =>
                       Line(LineIds[i], Captions[i], Create(store, LineIds[i], values[i])));
    match v
    case V1_3 => lines
    case V1_8 => lines + [EquationRow(EquationId, Fresh)]
  }

  /** `injectMetrics` on the container: `None` when there is no container
      (nothing happens). Without a table the pass stops after the removal. */
  function Inject(v: Version, store: Store, container: Option<seq<Child>>, tablePresent: bool,
                  values: seq<string>): (r: Option<seq<Child>>)
    requires |values| == |LineIds|
    ensures r.Some? <==> container.Some?
    ensures r.Some? ==> Untagged(r.value) == Untagged(container.value)
    ensures r.Some? ==> TaggedCount(r.value) == if tablePresent then InjectedRowCount(v) else 0
  {
    match container
    case None => None
    case Some(cs) =>
      var kept := Untagged(cs);
      var rows := if tablePresent then NewRows(v, store, values) else [];
      UntaggedIdempotent(cs);
      UntaggedAppend(kept, rows);
      AllTagged(rows);
      TaggedCountAppend(kept, rows);
      NoneTagged(kept);
      AllTaggedCount(rows);
      Some(kept + rows)
  }

  lemma {:induction false} UntaggedAppend(a: seq<Child>, b: seq<Child>)
    ensures Untagged(a + b) == Untagged(a) + Untagged(b)
    decreases |a|
  {
    if a == [] {
      assert a + b == b;
    } else {
      assert (a + b)[1..] == a[1..] + b;
      UntaggedAppend(a[1..], b);
    }
  }

  lemma {:induction false} TaggedCountAppend(a: seq<Child>, b: seq<Child>)
    ensures TaggedCount(a + b) == TaggedCount(a) + TaggedCount(b)
    decreases |a|
  {
    if a == [] {
      assert a + b == b;
    } else {
      assert (a + b)[1..] == a[1..] + b;
      TaggedCountAppend(a[1..], b);
    }
  }

  lemma {:induction false} TaggedIdsAppend(a: seq<Child>, b: seq<Child>)
    ensures TaggedIds(a + b) == TaggedIds(a) + TaggedIds(b)
    decreases |a|
  {
    if a == [] {
      assert a + b == b;
    } else {
      assert (a + b)[1..] == a[1..] + b;
      TaggedIdsAppend(a[1..], b);
    }
  }

  /** Removing the tagged children twice is removing them once. */
  lemma {:induction false} UntaggedIdempotent(cs: seq<Child>)
    ensures Untagged(Untagged(cs)) == Untagged(cs)
    decreases |cs|
  {
    if cs != [] {
      UntaggedIdempotent(cs[1..]);
      UntaggedAppend(if Tagged(cs[0]) then [] else [cs[0]], Untagged(cs[1..]));
      if !Tagged(cs[0]) {
        assert [cs[0]][1..] == [];
      }
    }
  }

  lemma {:induction false} AllTagged(cs: seq<Child>)
    requires forall i :: 0 <= i < |cs| ==> Tagged(cs[i])
    ensures Untagged(cs) == []
    decreases |cs|
  {
    if cs != [] {
      AllTagged(cs[1..]);
    }
  }

  lemma {:induction false} AllTaggedCount(cs: seq<Child>)
    requires forall i :: 0 <= i < |cs| ==> Tagged(cs[i])
    ensures TaggedCount(cs) == |cs|
    decreases |cs|
  {
    if cs != [] {
      AllTaggedCount(cs[1..]);
    }
  }

  lemma {:induction false} NoneTagged(cs: seq<Child>)
    requires forall i :: 0 <= i < |cs| ==> !Tagged(cs[i])
    ensures TaggedCount(cs) == 0 && TaggedIds(cs) == [] && Untagged(cs) == cs
    decreases |cs|
  {
    if cs != [] {
      NoneTagged(cs[1..]);
      assert cs == [cs[0]] + cs[1..];
    }
  }

  /** After a pass with a table the tagged children are exactly the new
      rows, in order, whatever the container held before: repeated passes
      never accumulate duplicates. */
  lemma PassLeavesFreshRows(v: Version, store: Store, cs: seq<Child>, values: seq<string>)
    requires |values| == |LineIds|
    ensures var r := Inject(v, store, Some(cs), true, values).value;
            r == Untagged(cs) + NewRows(v, store, values)
            && TaggedIds(r) == TaggedIds(NewRows(v, store, values))
  {
    var kept := Untagged(cs);
    var rows := NewRows(v, store, values);
    TaggedIdsAppend(kept, rows);
    NoneTagged(kept);
  }

  /** The ids a pass leaves, in order: the five line ids, then the
      equation row's in release 1.8. */
  lemma NewRowIds(v: Version, store: Store, values: seq<string>)
    requires |values| == |LineIds|
    ensures TaggedIds(NewRows(v, store, values)) ==
              LineIds + (if v == V1_8 then [EquationId] else [])
  {
    var rows := NewRows(v, store, values);
    var expected := LineIds + (if v == V1_8 then [EquationId] else []);
    AllTaggedIds(rows);
    forall i | 0 <= i < |rows|
      ensures rows[i].id == expected[i]
    {
      if i < |LineIds| {
        assert rows[i].id == LineIds[i];
      }
    }
  }

  lemma {:induction false} AllTaggedIds(cs: seq<Child>)
    requires forall i :: 0 <= i < |cs| ==> Tagged(cs[i])
    ensures |TaggedIds(cs)| == |cs|
    ensures forall i :: 0 <= i < |cs| ==> Tagged(cs[i]) && TaggedIds(cs)[i] == cs[i].id
    decreases |cs|
  {
    if cs != [] {
      AllTaggedIds(cs[1..]);
      assert TaggedIds(cs) == [cs[0].id] + TaggedIds(cs[1..]);
    }
  }

  /** A second pass over the same page state changes nothing. */
  lemma PassIdempotent(v: Version, store: Store, container: Option<seq<Child>>, tablePresent: bool,
                       values: seq<string>)
    requires |values| == |LineIds|
    ensures var once := Inject(v, store, container, tablePresent, values);
            Inject(v, store, once, tablePresent, values) == once
  {
    if container.Some? {
      var cs := container.value;
      var kept := Untagged(cs);
      var rows := if tablePresent then NewRows(v, store, values) else [];
      UntaggedAppend(kept, rows);
      UntaggedIdempotent(cs);
      AllTagged(rows);
      assert Untagged(kept + rows) == kept;
    }
  }

  /** A pass keeps the masks the user set: each value row shows asterisks
      exactly when its id is masked in the store. */
  lemma PassKeepsMasks(v: Version, store: Store, values: seq<string>, i: nat)
    requires |values| == |LineIds| && i < |LineIds|
    ensures var row := NewRows(v, store, values)[i];
            row.span.shown == if IsMasked(store, LineIds[i]) then MaskText else values[i]
  {
  }
}
