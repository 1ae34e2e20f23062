/** When a metrics pass runs: a bounded poll for the table and its data, a
    single mutation observer on the table once they are there, and a
    per-frame check that re-polls after a client-side move to a trade
    route. Both releases behave alike. Timers and frames are modelled as
    explicit steps on a state record. */
module Controller {
  import opened Text
  import opened Positions
  import opened Lists

  /** `maxTries`: how many retries the poll makes. */
  const MaxTries: nat := 40

  /** The script's globals: the retry counter, the table the observer
      watches (at most one observer exists; `None` before the first
      attach), and the last href seen. */
  datatype Controller = Controller(attempt: nat, observed: Option<nat>, lastHref: string)

  /** What one poll does. */
  datatype Action = Inject | Retry | GiveUp

  predicate Valid(c: Controller) {
    c.attempt <= MaxTries
  }

  function Start(href: string): (c: Controller)
    ensures Valid(c) && c.attempt == 0 && c.observed.None?
  {
    Controller(0, None, href)
  }

  /** `waitForDomAndData` given whether table, container and data are all
      there: inject and (re)attach the observer to `table`, or schedule a
      retry while retries remain, or give up. The counter only grows, and
      only on a retry. */
  function Poll(c: Controller, ready: bool, table: nat): (r: (Controller, Action))
    ensures r.1 == Inject <==> ready
    ensures r.1 == Retry <==> !ready && c.attempt < MaxTries
    ensures r.1 == Retry ==> r.0.attempt == c.attempt + 1
    ensures r.1 != Retry ==> r.0.attempt == c.attempt
    ensures r.1 == Inject ==> r.0.observed == Some(table)
    ensures r.1 != Inject ==> r.0.observed == c.observed
    ensures r.0.lastHref == c.lastHref
    ensures Valid(c) ==> Valid(r.0)
  {
    if ready then (c.(observed := Some(table)), Inject)
    else if c.attempt < MaxTries then (c.(attempt := c.attempt + 1), Retry)
    else (c, GiveUp)
  }

  /** The readiness test of the poll: a table with data and a container. */
  method PollPage(c: Controller, table: Option<Table>, tableId: nat, containerPresent: bool)
    returns (r: Controller, action: Action)
    ensures action == Inject <==>
              table.Some? && containerPresent && exists i :: 0 <= i < |table.value| && RowHasData(table.value[i])
    ensures action == Retry ==> r.attempt == c.attempt + 1 && c.attempt < MaxTries
    ensures action != Retry ==> r.attempt == c.attempt
    ensures Valid(c) ==> Valid(r)
  {
    var ready := false;
    if table.Some? && containerPresent {
      ready := TableHasData(table.value);
    }
    var p := Poll(c, ready, tableId);
    r, action := p.0, p.1;
  }

  /** `/\/trade(\/|$|\?)/` matched at `i`: "/trade" followed by a slash, a
      question mark or the end of the path. */
  predicate TradeAt(path: string, i: nat) {
    i + 6 <= |path| && path[i..i + 6] == "/trade"
    && (i + 6 == |path| || path[i + 6] == '/' || path[i + 6] == '?')
  }

  /** The regular expression's test: a match anywhere in the path. */
  function TradeFrom(path: string, from: nat): (b: bool)
    requires from <= |path|
    ensures b <==> exists i :: from <= i <= |path| && TradeAt(path, i)
    decreases |path| - from
  {
    if TradeAt(path, from) then true
    else if from == |path| then false
    else TradeFrom(path, from + 1)
  }

  function IsTradeRoute(path: string): (b: bool)
    ensures b <==> exists i :: 0 <= i <= |path| && TradeAt(path, i)
  {
    TradeFrom(path, 0)
  }

  /** The route test recognises a trade path, its sub-paths and a trade
      path followed by a query, wherever it sits in the path. */
  lemma {:induction false} TradeRoutes(prefix: string, rest: string)
    requires rest == [] || rest[0] == '/' || rest[0] == '?'
    ensures IsTradeRoute(prefix + "/trade" + rest)
  {
    var path := prefix + "/trade" + rest;
    assert path[|prefix|..|prefix| + 6] == "/trade";
    assert TradeAt(path, |prefix|);
  }

  /** A longer segment name such as "/trades" is not a trade route. */
  lemma LongerSegmentExcluded()
    ensures !IsTradeRoute("/trades")
    ensures IsTradeRoute("/trades/trade")
  {
    assert TradeAt("/trades/trade", 7);
  }

  /** A path with no "/trade" in it is never a trade route. */
  lemma NoTradeRoute(path: string)
    requires !Contains(path, "/trade")
    ensures !IsTradeRoute(path)
  {
    if IsTradeRoute(path) {
      var i :| 0 <= i <= |path| && TradeAt(path, i);
      assert OccursAt(path, "/trade", i);
    }
  }

  /** One animation frame of `checkUrlChange`: a new href is remembered,
      and asks for a poll exactly when the new path is a trade route. The
      retry counter is never reset, so polls started by later moves share
      the forty retries with the first. */
  function Frame(c: Controller, href: string, pathname: string): (r: (Controller, bool))
    ensures r.1 <==> href != c.lastHref && IsTradeRoute(pathname)
    ensures r.0.lastHref == href
    ensures r.0.attempt == c.attempt && r.0.observed == c.observed
  {
    if href != c.lastHref then (c.(lastHref := href), IsTradeRoute(pathname)) else (c, false)
  }

  /** A change inside table `table`: the observer's callback runs a metrics
      pass exactly when the observer is attached to that table. The
      callback touches neither the counter nor the href. */
  function Mutation(c: Controller, table: nat): (r: (Controller, bool))
    ensures r.0 == c
    ensures r.1 <==> c.observed == Some(table)
  {
    (c, c.observed == Some(table))
  }

  /** No mutation starts a pass before the first injection attached the
      observer. */
  lemma NoPassBeforeAttach(href: string, table: nat)
    ensures !Mutation(Start(href), table).1
  {
  }

  /** After an injection only the table it was attached to drives passes:
      the previous observer is gone. */
  lemma ObserverFollowsLastInject(c: Controller, table: nat, other: nat)
    ensures var c' := Poll(c, true, table).0;
            Mutation(c', other).1 <==> other == table
  {
  }

  /** An event of the page: a poll (from the first call, a timer or a frame
      check), a frame, or a change inside a table. */
  datatype Event =
    | PollEvent(ready: bool, table: nat)
    | FrameEvent(href: string, pathname: string)
    | MutationEvent(table: nat)

  function StepOnce(c: Controller, e: Event): Controller {
    match e
    case PollEvent(ready, table) => Poll(c, ready, table).0
    case FrameEvent(href, pathname) => Frame(c, href, pathname).0
    case MutationEvent(table) => Mutation(c, table).0
  }

  /** The state after a run of events. */
  function Run(c: Controller, es: seq<Event>): Controller
    decreases |es|
  {
    if es == [] then c else Run(StepOnce(c, es[0]), es[1..])
  }

  /** The number of retries a run schedules. */
  function Retries(c: Controller, es: seq<Event>): nat
    decreases |es|
  {
    if es == [] then 0
    else
      var more := if es[0].PollEvent? && Poll(c, es[0].ready, es[0].table).1 == Retry then 1 else 0;
      more + Retries(StepOnce(c, es[0]), es[1..])
  }

  /** However polls and route changes interleave, the counter never passes
      forty and never goes down, and every retry is counted in it: a page
      session schedules at most forty retries in all. */
  lemma {:induction false} RunBounded(c: Controller, es: seq<Event>)
    requires Valid(c)
    ensures Valid(Run(c, es))
    ensures Run(c, es).attempt == c.attempt + Retries(c, es)
    ensures Retries(c, es) <= MaxTries - c.attempt
    decreases |es|
  {
    if es != [] {
      RunBounded(StepOnce(c, es[0]), es[1..]);
    }
  }
}
