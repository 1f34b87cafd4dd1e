/**
 * The per-request context of gk/context.go and the cursor that drives the
 * handler chain through it.
 *
 * A handler is an arbitrary Go closure in gk; here it is a script of
 * the few things a handler can do to the context: do some work of its own
 * (`Mark`, recorded in a ghost trace), call `Next`, call `Fail`, or write a
 * status. The functions `NextSpec`, `LoopSpec` and `RunSpec` give the meaning
 * of `Next` on a snapshot of the context; the class `Context` is proved against
 * them, and the lemmas state what the Go code promises about them.
 */
module Dispatch {

  /** What a handler does, in order. */
  datatype Step =
    | Mark(tag: int)     // work of the handler itself
    | CallNext           // c.Next()
    | Fail(code: int)    // c.Fail(code, err)
    | Respond(code: int) // c.JSON(code, obj), of which only the status is kept

  type Handler = seq<Step>

  /** What can be observed of a run: a handler entered, a handler's own work, a Fail. */
  datatype Event = Enter(pos: int) | Marked(tag: int) | Aborted(code: int)

  /** The part of a context the dispatch changes: the cursor, the status, and the events so far. */
  datatype Cursor = Cursor(index: int, status: int, trace: seq<Event>)

  /** The request fields a context copies (context.go lines 41-42). */
  datatype Request = Request(path: string, verb: string)

  /** How far the cursor is from the end of the list; the measure that makes re-entrant Next terminate. */
  function Left(n: int, i: int): nat {
    if i < n then n - i else 0
  }

  // ---------------------------------------------------------------------------
  // The meaning of Next (context.go lines 47-53)

  /** Next: move the cursor on by one, then run handlers while the cursor is inside the list. */
  function NextSpec(hs: seq<Handler>, c: Cursor): (r: Cursor)
    requires c.index >= -1
    ensures r.index >= c.index + 1 && r.index >= |hs|
    decreases Left(|hs|, c.index + 1), 2
  {
    LoopSpec(hs, c.(index := c.index + 1))
  }

  /** The for loop of Next: run the handler at the cursor, then move the cursor on. */
  function LoopSpec(hs: seq<Handler>, c: Cursor): (r: Cursor)
    requires c.index >= 0
    ensures r.index >= c.index && r.index >= |hs|
    decreases Left(|hs|, c.index), 1
  {
    if c.index < |hs| then
      var after := RunSpec(hs, c.index, 0, c.(trace := c.trace + [Enter(c.index)]));
      LoopSpec(hs, after.(index := after.index + 1))
    else
      c
  }

  /** The handler at pos, from its step k on. */
  function RunSpec(hs: seq<Handler>, pos: int, k: nat, c: Cursor): (r: Cursor)
    requires 0 <= pos < |hs| && k <= |hs[pos]| && c.index >= pos
    ensures r.index >= pos
    decreases Left(|hs|, pos + 1), 3, |hs[pos]| - k
  {
    if k == |hs[pos]| then c
    else match hs[pos][k]
      case Mark(tag) => RunSpec(hs, pos, k + 1, c.(trace := c.trace + [Marked(tag)]))
      case CallNext => RunSpec(hs, pos, k + 1, NextSpec(hs, c))
      case Fail(code) => RunSpec(hs, pos, k + 1, FailSpec(hs, code, c))
      case Respond(code) => RunSpec(hs, pos, k + 1, c.(status := code))
  }

  /** Fail: the cursor jumps to the end of the list and the status is the failure code (context.go lines 56-59). */
  function FailSpec(hs: seq<Handler>, code: int, c: Cursor): (r: Cursor)
    ensures r.index >= |hs| && r.status == code && c.trace < r.trace
  {
    Cursor(|hs|, code, c.trace + [Aborted(code)])
  }

  // ---------------------------------------------------------------------------
  // Order of the handlers entered

  /** Every handler entered in ev sits at a position in [lo, hi). */
  ghost predicate EntersWithin(ev: seq<Event>, lo: int, hi: int) {
    forall i :: 0 <= i < |ev| && ev[i].Enter? ==> lo <= ev[i].pos < hi
  }

  /** Handlers are entered at strictly increasing positions, so each at most once. */
  ghost predicate EntersIncrease(ev: seq<Event>) {
    forall i, j :: 0 <= i < j < |ev| && ev[i].Enter? && ev[j].Enter? ==> ev[i].pos < ev[j].pos
  }

  /** No handler is entered after a Fail. */
  ghost predicate NoEnterAfterFail(ev: seq<Event>) {
    forall i, j :: 0 <= i < j < |ev| && ev[i].Aborted? ==> !ev[j].Enter?
  }

  ghost predicate Orderly(ev: seq<Event>, lo: int, hi: int) {
    EntersWithin(ev, lo, hi) && EntersIncrease(ev) && NoEnterAfterFail(ev)
  }

  /** Only the handlers' own work: no handler entered and no Fail. */
  ghost predicate OnlyMarks(ev: seq<Event>) {
    forall i :: 0 <= i < |ev| ==> ev[i].Marked?
  }

  lemma MarksThen(a: seq<Event>, b: seq<Event>, lo: int, hi: int)
    requires OnlyMarks(a) && Orderly(b, lo, hi)
    ensures Orderly(a + b, lo, hi)
  {
    var ev := a + b;
    forall i | |a| <= i < |ev|
      ensures ev[i] == b[i - |a|]
    {
    }
  }

  lemma EnterThen(pos: int, b: seq<Event>, lo: int, hi: int)
    requires lo <= pos < hi && Orderly(b, pos + 1, hi)
    ensures Orderly([Enter(pos)] + b, lo, hi)
  {
    var ev := [Enter(pos)] + b;
    forall i | 1 <= i < |ev|
      ensures ev[i] == b[i - 1]
    {
    }
  }

  /** What follows enters no handler (its lower bound is past its upper one). */
  lemma ThenSilent(a: seq<Event>, b: seq<Event>, lo: int, hi: int, lo': int, hi': int)
    requires Orderly(a, lo, hi) && EntersWithin(b, lo', hi') && hi' <= lo'
    ensures Orderly(a + b, lo, hi)
  {
    var ev := a + b;
    forall i | |a| <= i < |ev|
      ensures ev[i] == b[i - |a|] && !ev[i].Enter?
    {
    }
  }

  /**
   * Within one call of Next, handlers are entered at strictly increasing
   * positions after the cursor, each inside the list, and none after a Fail
   * (context.go lines 48-52): the index only moves forward across handler
   * invocations, so even re-entrant calls run each handler at most once.
   */
  lemma {:induction false} NextEntersInOrder(hs: seq<Handler>, c: Cursor)
    requires c.index >= -1
    ensures var r := NextSpec(hs, c);
            c.trace <= r.trace && Orderly(r.trace[|c.trace|..], c.index + 1, |hs|)
    decreases Left(|hs|, c.index + 1), 2
  {
    LoopEntersInOrder(hs, c.(index := c.index + 1));
  }

  lemma {:induction false} LoopEntersInOrder(hs: seq<Handler>, c: Cursor)
    requires c.index >= 0
    ensures var r := LoopSpec(hs, c);
            c.trace <= r.trace && Orderly(r.trace[|c.trace|..], c.index, |hs|)
    decreases Left(|hs|, c.index), 1
  {
    var n := |hs|;
    var r := LoopSpec(hs, c);
    if c.index < n {
      var i := c.index;
      var c0 := c.(trace := c.trace + [Enter(i)]);
      var after := RunSpec(hs, i, 0, c0);
      var c2 := after.(index := after.index + 1);
      RunEntersInOrder(hs, i, 0, c0);
      LoopEntersInOrder(hs, c2);
      var own := after.trace[|c0.trace|..];
      var rest := r.trace[|after.trace|..];
      assert r.trace[|c.trace|..] == [Enter(i)] + (own + rest);
      if OnlyMarks(own) {
        MarksThen(own, rest, i + 1, n);
      } else {
        assert rest == [];
        assert own + rest == own;
      }
      EnterThen(i, own + rest, i, n);
    } else {
      assert r.trace[|c.trace|..] == [];
    }
  }

  /** What RunEntersInOrder states about the handler at pos from step k on. */
  ghost predicate RunOrderly(hs: seq<Handler>, pos: int, k: nat, c: Cursor)
    requires 0 <= pos < |hs| && k <= |hs[pos]| && c.index >= pos
  {
    var r := RunSpec(hs, pos, k, c);
    c.trace <= r.trace && Orderly(r.trace[|c.trace|..], c.index + 1, |hs|) &&
    (c.index >= |hs| || !OnlyMarks(r.trace[|c.trace|..]) ==> r.index >= |hs|)
  }

  lemma {:induction false} RunEntersInOrder(hs: seq<Handler>, pos: int, k: nat, c: Cursor)
    requires 0 <= pos < |hs| && k <= |hs[pos]| && c.index >= pos
    ensures RunOrderly(hs, pos, k, c)
    decreases Left(|hs|, pos + 1), 3, |hs[pos]| - k
  {
    if k == |hs[pos]| {
      assert RunSpec(hs, pos, k, c).trace[|c.trace|..] == [];
    } else {
      match hs[pos][k]
      case Mark(tag) =>
        RunEntersInOrder(hs, pos, k + 1, c.(trace := c.trace + [Marked(tag)]));
        MarkStepOrderly(hs, pos, k, c, tag);
      case CallNext =>
        NextEntersInOrder(hs, c);
        RunEntersInOrder(hs, pos, k + 1, NextSpec(hs, c));
        NextStepOrderly(hs, pos, k, c);
      case Fail(code) =>
        RunEntersInOrder(hs, pos, k + 1, FailSpec(hs, code, c));
        FailStepOrderly(hs, pos, k, c, code);
      case Respond(code) =>
        RunEntersInOrder(hs, pos, k + 1, c.(status := code));
    }
  }

  lemma MarkStepOrderly(hs: seq<Handler>, pos: int, k: nat, c: Cursor, tag: int)
    requires 0 <= pos < |hs| && k < |hs[pos]| && c.index >= pos && hs[pos][k] == Mark(tag)
    requires RunOrderly(hs, pos, k + 1, c.(trace := c.trace + [Marked(tag)]))
    ensures RunOrderly(hs, pos, k, c)
  {
    var c1 := c.(trace := c.trace + [Marked(tag)]);
    var r := RunSpec(hs, pos, k, c);
    var rest := r.trace[|c1.trace|..];
    assert r.trace[|c.trace|..] == [Marked(tag)] + rest;
    MarksThen([Marked(tag)], rest, c.index + 1, |hs|);
  }

  lemma NextStepOrderly(hs: seq<Handler>, pos: int, k: nat, c: Cursor)
    requires 0 <= pos < |hs| && k < |hs[pos]| && c.index >= pos && hs[pos][k] == CallNext
    requires var c1 := NextSpec(hs, c);
             c.trace <= c1.trace && Orderly(c1.trace[|c.trace|..], c.index + 1, |hs|)
    requires RunOrderly(hs, pos, k + 1, NextSpec(hs, c))
    ensures RunOrderly(hs, pos, k, c)
  {
    var c1 := NextSpec(hs, c);
    var r := RunSpec(hs, pos, k, c);
    var first := c1.trace[|c.trace|..];
    var rest := r.trace[|c1.trace|..];
    assert r.trace[|c.trace|..] == first + rest;
    ThenSilent(first, rest, c.index + 1, |hs|, c1.index + 1, |hs|);
  }

  lemma FailStepOrderly(hs: seq<Handler>, pos: int, k: nat, c: Cursor, code: int)
    requires 0 <= pos < |hs| && k < |hs[pos]| && c.index >= pos && hs[pos][k] == Fail(code)
    requires RunOrderly(hs, pos, k + 1, FailSpec(hs, code, c))
    ensures RunOrderly(hs, pos, k, c)
  {
    var c1 := FailSpec(hs, code, c);
    var r := RunSpec(hs, pos, k, c);
    var rest := r.trace[|c1.trace|..];
    assert r.trace[|c.trace|..] == [Aborted(code)] + rest;
    ThenSilent([Aborted(code)], rest, c.index + 1, |hs|, |hs| + 1, |hs|);
  }

  /** On a fresh context, the first handler Next runs is handlers[0] (context.go lines 43 and 48). */
  lemma FreshContextEntersFirstHandler(hs: seq<Handler>, status: int)
    requires |hs| > 0
    ensures var r := NextSpec(hs, Cursor(-1, status, []));
            |r.trace| > 0 && r.trace[0] == Enter(0)
  {
    var c0 := Cursor(0, status, [Enter(0)]);
    var after := RunSpec(hs, 0, 0, c0);
    var r := LoopSpec(hs, after.(index := after.index + 1));
    var start := Cursor(0, status, []);
    assert start.(trace := start.trace + [Enter(0)]) == c0;
    assert LoopSpec(hs, start) == r;
    assert NextSpec(hs, Cursor(-1, status, [])) == r;
    RunEntersInOrder(hs, 0, 0, c0);
    LoopEntersInOrder(hs, after.(index := after.index + 1));
    assert after.trace[0] == Enter(0);
  }

  /**
   * Once a call of Next has returned, the cursor is past the list, so a
   * further call only moves the cursor and runs nothing (context.go lines 48-52).
   */
  lemma NextAgainRunsNothing(hs: seq<Handler>, c: Cursor)
    requires c.index >= -1
    ensures var r := NextSpec(hs, c);
            r.index >= |hs| && NextSpec(hs, r) == r.(index := r.index + 1)
  {
  }

  // ---------------------------------------------------------------------------
  // Every handler is run

  /** No handler of the list calls Fail. */
  ghost predicate NoFail(hs: seq<Handler>) {
    forall i, k :: 0 <= i < |hs| && 0 <= k < |hs[i]| ==> !hs[i][k].Fail?
  }

  /** Every position in [lo, hi) is entered in ev. */
  ghost predicate EntersAll(ev: seq<Event>, lo: int, hi: int) {
    forall p :: lo <= p < hi ==> Enter(p) in ev
  }

  lemma EntersAllBefore(a: seq<Event>, b: seq<Event>, lo: int, hi: int)
    requires EntersAll(a, lo, hi)
    ensures EntersAll(a + b, lo, hi)
  {
    forall p | lo <= p < hi
      ensures Enter(p) in a + b
    {
      var j :| 0 <= j < |a| && a[j] == Enter(p);
      assert (a + b)[j] == Enter(p);
    }
  }

  lemma EntersAllAfter(a: seq<Event>, b: seq<Event>, lo: int, hi: int)
    requires EntersAll(b, lo, hi)
    ensures EntersAll(a + b, lo, hi)
  {
    forall p | lo <= p < hi
      ensures Enter(p) in a + b
    {
      var j :| 0 <= j < |b| && b[j] == Enter(p);
      assert (a + b)[|a| + j] == Enter(p);
    }
  }

  lemma EnterThenAll(pos: int, b: seq<Event>, hi: int)
    requires EntersAll(b, pos + 1, hi)
    ensures EntersAll([Enter(pos)] + b, pos, hi)
  {
    assert ([Enter(pos)] + b)[0] == Enter(pos);
    EntersAllAfter([Enter(pos)], b, pos + 1, hi);
  }

  /**
   * When no handler fails, one call of Next enters every handler after the
   * cursor: the loop of context.go lines 48-52 is a single pass over the rest
   * of the list, and a handler that calls Next itself continues that pass.
   */
  lemma {:induction false} NextEntersAll(hs: seq<Handler>, c: Cursor)
    requires c.index >= -1 && NoFail(hs)
    ensures var r := NextSpec(hs, c);
            c.trace <= r.trace && EntersAll(r.trace[|c.trace|..], c.index + 1, |hs|)
    decreases Left(|hs|, c.index + 1), 2
  {
    LoopEntersAll(hs, c.(index := c.index + 1));
  }

  lemma {:induction false} LoopEntersAll(hs: seq<Handler>, c: Cursor)
    requires c.index >= 0 && NoFail(hs)
    ensures var r := LoopSpec(hs, c);
            c.trace <= r.trace && EntersAll(r.trace[|c.trace|..], c.index, |hs|)
    decreases Left(|hs|, c.index), 1
  {
    if c.index < |hs| {
      var i := c.index;
      var c0 := c.(trace := c.trace + [Enter(i)]);
      var after := RunSpec(hs, i, 0, c0);
      var c2 := after.(index := after.index + 1);
      RunEntersAll(hs, i, 0, c0);
      LoopEntersAll(hs, c2);
      LoopStepCovers(c.trace, i, after.trace, LoopSpec(hs, c2).trace, |hs|, after.index == i);
    } else {
      assert LoopSpec(hs, c).trace[|c.trace|..] == [];
    }
  }

  /**
   * The trace arithmetic of LoopEntersAll: Enter(i), then the handler's own
   * run, then the rest of the loop. Either the run or the rest covers the
   * positions after i.
   */
  lemma LoopStepCovers(t: seq<Event>, i: int, ta: seq<Event>, tr: seq<Event>, n: int, stayed: bool)
    requires t + [Enter(i)] <= ta <= tr
    requires stayed ==> EntersAll(tr[|ta|..], i + 1, n)
    requires !stayed ==> EntersAll(ta[|t| + 1..], i + 1, n)
    ensures t <= tr && EntersAll(tr[|t|..], i, n)
  {
    var own := ta[|t| + 1..];
    var rest := tr[|ta|..];
    assert tr[|t|..] == [Enter(i)] + (own + rest);
    if stayed {
      EntersAllAfter(own, rest, i + 1, n);
    } else {
      EntersAllBefore(own, rest, i + 1, n);
    }
    EnterThenAll(i, own + rest, n);
  }

  /**
   * What RunEntersAll states about the handler at pos from step k on: either
   * it leaves the cursor where it found it, or it has moved the cursor past the
   * list and entered every handler after the cursor on the way.
   */
  ghost predicate RunCovers(hs: seq<Handler>, pos: int, k: nat, c: Cursor)
    requires 0 <= pos < |hs| && k <= |hs[pos]| && c.index >= pos
  {
    var r := RunSpec(hs, pos, k, c);
    c.trace <= r.trace &&
    (r.index == c.index || (r.index >= |hs| && EntersAll(r.trace[|c.trace|..], c.index + 1, |hs|)))
  }

  lemma {:induction false} RunEntersAll(hs: seq<Handler>, pos: int, k: nat, c: Cursor)
    requires 0 <= pos < |hs| && k <= |hs[pos]| && c.index >= pos && NoFail(hs)
    ensures RunCovers(hs, pos, k, c)
    decreases Left(|hs|, pos + 1), 3, |hs[pos]| - k
  {
    if k == |hs[pos]| {
      assert RunSpec(hs, pos, k, c) == c;
    } else {
      match hs[pos][k]
      case Mark(tag) =>
        RunEntersAll(hs, pos, k + 1, c.(trace := c.trace + [Marked(tag)]));
        MarkStepCovers(hs, pos, k, c, tag);
      case CallNext =>
        NextEntersAll(hs, c);
        RunEntersAll(hs, pos, k + 1, NextSpec(hs, c));
        NextStepCovers(hs, pos, k, c);
      case Fail(code) =>
        assert false;
      case Respond(code) =>
        RunEntersAll(hs, pos, k + 1, c.(status := code));
    }
  }

  lemma MarkStepCovers(hs: seq<Handler>, pos: int, k: nat, c: Cursor, tag: int)
    requires 0 <= pos < |hs| && k < |hs[pos]| && c.index >= pos && hs[pos][k] == Mark(tag)
    requires RunCovers(hs, pos, k + 1, c.(trace := c.trace + [Marked(tag)]))
    ensures RunCovers(hs, pos, k, c)
  {
    var c1 := c.(trace := c.trace + [Marked(tag)]);
    var r := RunSpec(hs, pos, k, c);
    var rest := r.trace[|c1.trace|..];
    assert r.trace[|c.trace|..] == [Marked(tag)] + rest;
    if r.index != c.index {
      EntersAllAfter([Marked(tag)], rest, c.index + 1, |hs|);
    }
  }

  lemma NextStepCovers(hs: seq<Handler>, pos: int, k: nat, c: Cursor)
    requires 0 <= pos < |hs| && k < |hs[pos]| && c.index >= pos && hs[pos][k] == CallNext
    requires var c1 := NextSpec(hs, c);
             c.trace <= c1.trace && EntersAll(c1.trace[|c.trace|..], c.index + 1, |hs|)
    requires RunCovers(hs, pos, k + 1, NextSpec(hs, c))
    ensures RunCovers(hs, pos, k, c)
  {
    var c1 := NextSpec(hs, c);
    var r := RunSpec(hs, pos, k, c);
    var first := c1.trace[|c.trace|..];
    var rest := r.trace[|c1.trace|..];
    assert r.trace[|c.trace|..] == first + rest;
    EntersAllBefore(first, rest, c.index + 1, |hs|);
  }

  // ---------------------------------------------------------------------------
  // The onion order of middlewares

  /** A handler that only does its own work, one Mark per tag. */
  function MarkSteps(tags: seq<int>): (h: Handler)
    ensures |h| == |tags|
  {
    if tags == [] then [] else [Mark(tags[0])] + MarkSteps(tags[1..])
  }

  /** The step at j of MarkSteps(tags) marks tags[j]. */
  lemma {:induction false} MarkStepsAt(tags: seq<int>, j: int)
    requires 0 <= j < |tags|
    ensures MarkSteps(tags)[j] == Mark(tags[j])
    decreases |tags|
  {
    if j > 0 {
      MarkStepsAt(tags[1..], j - 1);
    }
  }

  /** The events that MarkSteps(tags) leaves in the trace. */
  function MarkEvents(tags: seq<int>): (ev: seq<Event>)
    ensures |ev| == |tags|
  {
    if tags == [] then [] else [Marked(tags[0])] + MarkEvents(tags[1..])
  }

  /** A middleware: work before c.Next(), then work after it. */
  datatype Layer = Layer(before: seq<int>, after: seq<int>)

  function Around(l: Layer): Handler {
    MarkSteps(l.before) + [CallNext] + MarkSteps(l.after)
  }

  /** The middlewares in order, then a terminal handler that does not call Next. */
  function Chain(layers: seq<Layer>, last: seq<int>): (hs: seq<Handler>)
    ensures |hs| == |layers| + 1 && hs[|layers|] == MarkSteps(last)
    ensures forall j :: 0 <= j < |layers| ==> hs[j] == Around(layers[j])
  {
    if layers == [] then [MarkSteps(last)] else [Around(layers[0])] + Chain(layers[1..], last)
  }

  /**
   * The expected order from middleware i on: enter it, its before-work, everything
   * deeper, then its after-work.
   */
  function OnionTrace(layers: seq<Layer>, last: seq<int>, i: nat): seq<Event>
    requires i <= |layers|
    decreases |layers| - i
  {
    if i == |layers| then [Enter(i)] + MarkEvents(last)
    else [Enter(i)] + MarkEvents(layers[i].before) + OnionTrace(layers, last, i + 1) + MarkEvents(layers[i].after)
  }

  /** A run of Mark steps only adds their events to the trace. */
  lemma {:induction false} RunMarks(hs: seq<Handler>, pos: int, k: nat, c: Cursor, tags: seq<int>)
    requires 0 <= pos < |hs| && k + |tags| <= |hs[pos]| && c.index >= pos
    requires forall j :: 0 <= j < |tags| ==> hs[pos][k + j] == Mark(tags[j])
    ensures RunSpec(hs, pos, k, c) == RunSpec(hs, pos, k + |tags|, c.(trace := c.trace + MarkEvents(tags)))
    decreases |tags|
  {
    if tags != [] {
      assert hs[pos][k + 0] == Mark(tags[0]);
      var c1 := c.(trace := c.trace + [Marked(tags[0])]);
      assert RunSpec(hs, pos, k, c) == RunSpec(hs, pos, k + 1, c1);
      var rest := tags[1..];
      forall j | 0 <= j < |rest|
        ensures hs[pos][k + 1 + j] == Mark(rest[j])
      {
        assert hs[pos][k + (j + 1)] == Mark(tags[j + 1]);
      }
      RunMarks(hs, pos, k + 1, c1, rest);
      assert MarkEvents(tags) == [Marked(tags[0])] + MarkEvents(rest);
      assert c1.trace + MarkEvents(rest) == c.trace + MarkEvents(tags);
    } else {
      assert c.(trace := c.trace + MarkEvents(tags)) == c;
    }
  }

  /**
   * Middlewares that do work, call Next, then do more work nest like an onion
   * (context.go lines 47-53): started just before middleware i, Next produces
   * OnionTrace(i), leaves the status alone, and ends one step past the list for
   * every middleware still unwinding, since each of their loops moves the cursor
   * once more.
   */
  lemma {:induction false} Onion(layers: seq<Layer>, last: seq<int>, i: nat, c: Cursor)
    requires i <= |layers| && c.index == i - 1
    ensures var hs := Chain(layers, last);
            NextSpec(hs, c) == Cursor(|hs| + |layers| - i, c.status, c.trace + OnionTrace(layers, last, i))
    decreases |layers| - i
  {
    if i == |layers| {
      OnionInnermost(Chain(layers, last), layers, last, c);
    } else {
      var hs := Chain(layers, last);
      var c2 := c.(index := i, trace := c.trace + [Enter(i)] + MarkEvents(layers[i].before));
      Onion(layers, last, i + 1, c2);
      OnionLayer(hs, layers, last, i, c);
    }
  }

  /** The terminal handler: entered, does its work, and the cursor moves past the list. */
  lemma OnionInnermost(hs: seq<Handler>, layers: seq<Layer>, last: seq<int>, c: Cursor)
    requires |hs| == |layers| + 1 && hs[|layers|] == MarkSteps(last) && c.index == |layers| - 1
    ensures NextSpec(hs, c) == Cursor(|hs|, c.status, c.trace + OnionTrace(layers, last, |layers|))
  {
    var i := |layers|;
    var c1 := c.(index := i, trace := c.trace + [Enter(i)]);
    var c2 := c1.(trace := c1.trace + MarkEvents(last));
    var r := c2.(index := i + 1);
    NextRunsFollowing(hs, c, i);
    RunOnlyMarks(hs, i, last, c1);
    assert LoopSpec(hs, r) == r;
    assert NextSpec(hs, c) == r;
    assert r.trace == c.trace + OnionTrace(layers, last, i) by {
      OnionInnermostTrace(layers, last, c.trace);
    }
  }

  /** A handler that only does its own work adds its events and leaves the cursor where it was. */
  lemma RunOnlyMarks(hs: seq<Handler>, i: int, tags: seq<int>, c: Cursor)
    requires 0 <= i < |hs| && hs[i] == MarkSteps(tags) && c.index >= i
    ensures RunSpec(hs, i, 0, c) == c.(trace := c.trace + MarkEvents(tags))
  {
    var c2 := c.(trace := c.trace + MarkEvents(tags));
    forall j | 0 <= j < |tags|
      ensures hs[i][0 + j] == Mark(tags[j])
    {
      MarkStepsAt(tags, j);
    }
    RunMarks(hs, i, 0, c, tags);
    assert RunSpec(hs, i, |tags|, c2) == c2;
  }

  /**
   * Trace regrouping for the innermost layer of OnionTrace. It only moves
   * parentheses; it is a separate lemma so that the proof of OnionTrace stays
   * cheap for the solver.
   */
  lemma OnionInnermostTrace(layers: seq<Layer>, last: seq<int>, t: seq<Event>)
    ensures t + [Enter(|layers|)] + MarkEvents(last) == t + OnionTrace(layers, last, |layers|)
  {
    Regroup(t, [Enter(|layers|)], MarkEvents(last), [], []);
    assert [Enter(|layers|)] + MarkEvents(last) + [] + [] == [Enter(|layers|)] + MarkEvents(last);
  }

  /** A middleware does its before-work, calls Next, then does its after-work. */
  lemma RunAround(hs: seq<Handler>, i: int, l: Layer, c: Cursor)
    requires 0 <= i < |hs| && hs[i] == Around(l) && c.index >= i
    ensures var inner := NextSpec(hs, c.(trace := c.trace + MarkEvents(l.before)));
            RunSpec(hs, i, 0, c) == inner.(trace := inner.trace + MarkEvents(l.after))
  {
    var h := hs[i];
    var b := |l.before|;
    var c2 := c.(trace := c.trace + MarkEvents(l.before));
    var inner := NextSpec(hs, c2);
    var c3 := inner.(trace := inner.trace + MarkEvents(l.after));
    forall j | 0 <= j < b
      ensures h[0 + j] == Mark(l.before[j])
    {
      MarkStepsAt(l.before, j);
    }
    RunMarks(hs, i, 0, c, l.before);
    assert h[b] == CallNext;
    assert RunSpec(hs, i, b, c2) == RunSpec(hs, i, b + 1, inner);
    forall j | 0 <= j < |l.after|
      ensures h[b + 1 + j] == Mark(l.after[j])
    {
      MarkStepsAt(l.after, j);
      assert h[b + 1 + j] == MarkSteps(l.after)[j];
    }
    RunMarks(hs, i, b + 1, inner, l.after);
    assert RunSpec(hs, i, b + 1 + |l.after|, c3) == c3;
  }

  /**
   * One turn of Next's loop: the handler after the cursor is entered and run, and
   * the loop goes on from one past wherever that run left the cursor.
   */
  lemma NextRunsFollowing(hs: seq<Handler>, c: Cursor, i: int)
    requires i == c.index + 1 && 0 <= i < |hs|
    ensures var after := RunSpec(hs, i, 0, c.(index := i, trace := c.trace + [Enter(i)]));
            NextSpec(hs, c) == LoopSpec(hs, after.(index := after.index + 1))
  {
    assert c.(index := i).(trace := c.trace + [Enter(i)]) == c.(index := i, trace := c.trace + [Enter(i)]);
  }

  /** Middleware i, given what Next does from middleware i + 1 on. */
  lemma OnionLayer(hs: seq<Handler>, layers: seq<Layer>, last: seq<int>, i: nat, c: Cursor)
    requires |hs| == |layers| + 1 && i < |layers| && hs[i] == Around(layers[i]) && c.index == i - 1
    requires var c2 := c.(index := i, trace := c.trace + [Enter(i)] + MarkEvents(layers[i].before));
             NextSpec(hs, c2) == Cursor(|hs| + |layers| - (i + 1), c2.status, c2.trace + OnionTrace(layers, last, i + 1))
    ensures NextSpec(hs, c) == Cursor(|hs| + |layers| - i, c.status, c.trace + OnionTrace(layers, last, i))
  {
    var l := layers[i];
    var c1 := c.(index := i, trace := c.trace + [Enter(i)]);
    var c2 := c.(index := i, trace := c.trace + [Enter(i)] + MarkEvents(l.before));
    var inner := NextSpec(hs, c2);
    NextRunsFollowing(hs, c, i);
    assert c1.(trace := c1.trace + MarkEvents(l.before)) == c2;
    RunAround(hs, i, l, c1);
    OnionTraceRegroup(layers, last, i, c.trace, inner.trace);
  }

  /**
   * The trace arithmetic of OnionLayer: only associativity of concatenation,
   * kept apart so that the proof of OnionLayer stays cheap for the solver.
   */
  lemma OnionTraceRegroup(layers: seq<Layer>, last: seq<int>, i: nat, t: seq<Event>, inner: seq<Event>)
    requires i < |layers|
    requires inner == t + [Enter(i)] + MarkEvents(layers[i].before) + OnionTrace(layers, last, i + 1)
    ensures inner + MarkEvents(layers[i].after) == t + OnionTrace(layers, last, i)
  {
    var e := [Enter(i)];
    var mb := MarkEvents(layers[i].before);
    var d := OnionTrace(layers, last, i + 1);
    var ma := MarkEvents(layers[i].after);
    assert OnionTrace(layers, last, i) == e + mb + d + ma;
    Regroup(t, e, mb, d, ma);
  }

  /** Associativity over five pieces, proved once so that its callers need not unfold it. */
  lemma Regroup(t: seq<Event>, e: seq<Event>, mb: seq<Event>, d: seq<Event>, ma: seq<Event>)
    ensures t + e + mb + d + ma == t + (e + mb + d + ma)
  {
    var lhs := t + e + mb + d + ma;
    var rhs := t + (e + mb + d + ma);
    assert |lhs| == |rhs|;
    forall j | 0 <= j < |lhs|
      ensures lhs[j] == rhs[j]
    {
      if j >= |t| {
        assert rhs[j] == (e + mb + d + ma)[j - |t|];
      }
    }
  }

  /**
   * Middlewares A and B around a handler H: A's before-work, B's before-work, H,
   * B's after-work, A's after-work.
   */
  lemma TwoMiddlewaresNest()
    ensures var hs := Chain([Layer([1], [5]), Layer([2], [4])], [3]);
            var r := NextSpec(hs, Cursor(-1, 0, []));
            r.trace == [Enter(0), Marked(1), Enter(1), Marked(2), Enter(2), Marked(3), Marked(4), Marked(5)] &&
            r.status == 0
  {
    var layers := [Layer([1], [5]), Layer([2], [4])];
    Onion(layers, [3], 0, Cursor(-1, 0, []));
    assert OnionTrace(layers, [3], 2) == [Enter(2), Marked(3)];
    assert OnionTrace(layers, [3], 1) == [Enter(1), Marked(2), Enter(2), Marked(3), Marked(4)];
  }

  /**
   * A Fail in the second of three handlers (context.go lines 50 and 56-58): the
   * third handler never runs and the status is the failure code, but the rest of
   * the failing handler (its Next enters nothing) and the after-work of the
   * middleware around it still run.
   */
  lemma FailSkipsLaterHandlers()
    ensures var hs := [Around(Layer([1], [5])), [Mark(2), Fail(401), CallNext, Mark(4)], MarkSteps([3])];
            NextSpec(hs, Cursor(-1, 0, [])) ==
              Cursor(6, 401, [Enter(0), Marked(1), Enter(1), Marked(2), Aborted(401), Marked(4), Marked(5)])
  {
    var hs := [Around(Layer([1], [5])), [Mark(2), Fail(401), CallNext, Mark(4)], MarkSteps([3])];
    var e := [Enter(0), Marked(1), Enter(1), Marked(2), Aborted(401)];
    var failed := Cursor(3, 401, e);
    assert RunSpec(hs, 1, 0, Cursor(1, 0, [Enter(0), Marked(1), Enter(1)])) == RunSpec(hs, 1, 2, failed);
    assert NextSpec(hs, failed) == failed.(index := 4);
    assert RunSpec(hs, 1, 3, failed.(index := 4)) == Cursor(4, 401, e + [Marked(4)]);
    var before := Cursor(0, 0, [Enter(0)] + MarkEvents([1]));
    assert before == Cursor(0, 0, [Enter(0), Marked(1)]);
    NextRunsFollowing(hs, before, 1);
    assert NextSpec(hs, before) == Cursor(5, 401, e + [Marked(4)]);
    var start := Cursor(0, 0, [Enter(0)]);
    assert start.(trace := start.trace + MarkEvents([1])) == before;
    RunAround(hs, 0, Layer([1], [5]), start);
    assert MarkEvents([5]) == [Marked(5)];
    var after := Cursor(5, 401, e + [Marked(4)] + [Marked(5)]);
    assert RunSpec(hs, 0, 0, start) == after;
    var blank := Cursor(-1, 0, []);
    assert blank.(index := 0, trace := blank.trace + [Enter(0)]) == start;
    NextRunsFollowing(hs, blank, 0);
    assert LoopSpec(hs, after.(index := 6)) == after.(index := 6);
    assert e + [Marked(4)] + [Marked(5)] == [Enter(0), Marked(1), Enter(1), Marked(2), Aborted(401), Marked(4), Marked(5)];
  }

  // ---------------------------------------------------------------------------
  // The context

  /** A request's context (context.go lines 15-34); the writer, the request and the engine pointer are left out. */
  class Context {
    const Path: string
    const Method: string
    var Params: map<string, string>
    var StatusCode: int
    var handlers: seq<Handler>
    var index: int
    ghost var trace: seq<Event>

    /** newContext (context.go lines 37-45): the cursor starts before the first handler. */
    constructor (req: Request)
      ensures Path == req.path && Method == req.verb
      ensures index == -1 && handlers == [] && Params == map[] && StatusCode == 0 && trace == []
    {
      Path := req.path;
      Method := req.verb;
      Params := map[];
      StatusCode := 0;
      handlers := [];
      index := -1;
      trace := [];
    }

    ghost function Snapshot(): Cursor
      reads this
    {
      Cursor(index, StatusCode, trace)
    }

    /** Next (context.go lines 47-53). A handler may call Next again; the inner call moves the same cursor. */
    method Next()
      requires index >= -1
      modifies this
      ensures Snapshot() == NextSpec(handlers, old(Snapshot()))
      ensures handlers == old(handlers) && Params == old(Params)
      decreases Left(|handlers|, index + 1), 2
    {
      index := index + 1;
      var n := |handlers|;
      while index < n
        invariant handlers == old(handlers) && Params == old(Params) && n == |handlers|
        invariant index >= old(index) + 1
        invariant LoopSpec(handlers, Snapshot()) == NextSpec(handlers, old(Snapshot()))
        decreases Left(n, index)
      {
        Invoke(index);
        index := index + 1;
      }
    }

    /** c.handlers[c.index](c): run the script of the handler at pos (context.go line 51). */
    method Invoke(pos: int)
      requires 0 <= pos < |handlers| && index >= pos
      modifies this
      ensures handlers == old(handlers) && Params == old(Params)
      ensures Snapshot() == RunSpec(handlers, pos, 0, old(Snapshot()).(trace := old(trace) + [Enter(pos)]))
      decreases Left(|handlers|, pos + 1), 4
    {
      trace := trace + [Enter(pos)];
      ghost var start := Snapshot();
      var steps := handlers[pos];
      for k := 0 to |steps|
        invariant handlers == old(handlers) && Params == old(Params) && index >= pos
        invariant RunSpec(handlers, pos, k, Snapshot()) == RunSpec(handlers, pos, 0, start)
      {
        match steps[k]
        case Mark(tag) =>
          trace := trace + [Marked(tag)];
        case CallNext =>
          Next();
        case Fail(code) =>
          Fail(code, "");
        case Respond(code) =>
          JSON(code);
      }
    }

    /** Fail (context.go lines 56-59): skip the handlers not yet run and answer with code. */
    method Fail(code: int, err: string)
      modifies this
      ensures Snapshot() == FailSpec(handlers, code, old(Snapshot()))
      ensures index == |handlers| && StatusCode == code && trace == old(trace) + [Aborted(code)]
      ensures handlers == old(handlers) && Params == old(Params)
    {
      index := |handlers|;
      trace := trace + [Aborted(code)];
      JSON(code);
    }

    /** JSON (context.go lines 95-103), kept only as the status it records; the body is left out. */
    method JSON(code: int)
      modifies this
      ensures StatusCode == code
      ensures index == old(index) && trace == old(trace) && handlers == old(handlers) && Params == old(Params)
    {
      Status(code);
    }

    /** Status (context.go lines 77-80): records the status code; the header write is left out. */
    method Status(code: int)
      modifies this
      ensures StatusCode == code
      ensures index == old(index) && trace == old(trace) && handlers == old(handlers) && Params == old(Params)
    {
      StatusCode := code;
    }

    /** Param (context.go lines 61-64): the route parameter, or "" when the route has none of that name. */
    function Param(key: string): (value: string)
      reads this
      ensures key in Params ==> value == Params[key]
      ensures key !in Params ==> value == ""
    {
      if key in Params then Params[key] else ""
    }
  }
}
