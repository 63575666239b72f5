/**
 * The originator's sequence counter across power cuts. Taking a number, saving it, handing the
 * PDU to the beacon ring and putting it on the air are separate steps, and the power may go
 * between any two of them; what is in the settings survives, everything else is lost.
 */
module MeshSequence {
  import opened Bytes
  import opened MeshNode
  import opened Replay

  /** `taken` is the number next_seq has handed out and not saved yet, `waiting` those of the
      PDUs in the ring, `aired` the history of what reached the air. */
  datatype Counter = Counter(
    mySeq: nat, saved: Option<nat>, taken: Option<nat>, built: Option<nat>, waiting: seq<nat>, aired: seq<nat>)

  datatype Event = Take | Save | Queue | Fail | Air | Cut

  /** One step. `wrap` is what storing a number in sixteen bits does to it; the identity gives
      the unbounded numbers the proof speaks of. */
  function Step(c: Counter, e: Event, wrap: nat -> nat): Counter {
    match e
    case Take =>
      if c.taken.None? && c.built.None? then c.(taken := Some(c.mySeq), mySeq := wrap(c.mySeq + 1)) else c
    case Save =>
      if c.taken.Some? then c.(saved := c.taken, built := c.taken, taken := None) else c
    case Queue =>
      if c.built.Some? then
        c.(built := None, waiting := if |c.waiting| < TXRING_SLOTS then c.waiting + [c.built.value] else c.waiting)
      else c
    case Fail => c.(built := None)
    case Air =>
      if c.waiting != [] then c.(aired := c.aired + [c.waiting[0]], waiting := c.waiting[1..]) else c
    case Cut => Boot(c.saved, c.aired, wrap)
  }

  function Boot(saved: Option<nat>, aired: seq<nat>, wrap: nat -> nat): Counter {
    Counter(if saved.Some? then wrap(saved.value + 1) else SEQ_FIRST, saved, None, None, [], aired)
  }

  function Run(c: Counter, es: seq<Event>, wrap: nat -> nat): Counter
    decreases |es|
  {
    if es == [] then c else Run(Step(c, es[0], wrap), es[1..], wrap)
  }

  function U16Of(n: nat): nat { n % U16 }
  function Same(n: nat): nat { n }

  /** The machine as built boots exactly where a boot resumes. */
  lemma BootResumes(saved: Option<nat>)
    ensures Boot(saved, [], U16Of).mySeq == Resume(saved)
    ensures saved.None? ==> Resume(saved) == 1024
    ensures saved.Some? && saved.value < U16 ==>
      Resume(saved) == if saved.value == 65535 then 0 else saved.value + 1
  {
  }

  // ---- the sixteen-bit machine is the unbounded one, reduced ----

  function Wrapped(s: seq<nat>): (r: seq<nat>)
    ensures |r| == |s| && forall i :: 0 <= i < |s| ==> r[i] == s[i] % U16
  {
    seq(|s|, i requires 0 <= i < |s| => s[i] % U16)
  }

  function WrappedNumber(o: Option<nat>): Option<nat> { if o.Some? then Some(o.value % U16) else None }

  function Reduce(c: Counter): Counter {
    Counter(c.mySeq % U16, WrappedNumber(c.saved), WrappedNumber(c.taken), WrappedNumber(c.built),
            Wrapped(c.waiting), Wrapped(c.aired))
  }

  lemma NextWraps(n: nat)
    ensures (n % U16 + 1) % U16 == (n + 1) % U16
  {
  }

  lemma StepReduces(c: Counter, e: Event)
    ensures Step(Reduce(c), e, U16Of) == Reduce(Step(c, e, Same))
  {
    NextWraps(c.mySeq);
    if c.saved.Some? { NextWraps(c.saved.value); }
    match e
    case Queue =>
      if c.built.Some? {
        assert Wrapped(c.waiting + [c.built.value]) == Wrapped(c.waiting) + [c.built.value % U16];
      }
    case Air =>
      if c.waiting != [] {
        assert Wrapped(c.waiting)[1..] == Wrapped(c.waiting[1..]);
        assert Wrapped(c.aired + [c.waiting[0]]) == Wrapped(c.aired) + [c.waiting[0] % U16];
      }
    case _ =>
  }

  lemma {:induction false} RunReduces(c: Counter, es: seq<Event>)
    ensures Run(Reduce(c), es, U16Of) == Reduce(Run(c, es, Same))
    decreases |es|
  {
    hide Step, Reduce;
    if es != [] {
      StepReduces(c, es[0]);
      RunReduces(Step(c, es[0], Same), es[1..]);
    }
  }

  // ---- unbounded numbers only ever go up ----

  predicate Increasing(s: seq<nat>) { forall i, j :: 0 <= i < j < |s| ==> s[i] < s[j] }

  /** The number every number in flight is bounded by. */
  function Last(c: Counter): int { if c.saved.Some? then c.saved.value else SEQ_FIRST - 1 }

  /** Strictly increasing, above `low` and at most `high`. */
  predicate Climbs(s: seq<nat>, low: int, high: int) {
    Increasing(s) && forall k :: 0 <= k < |s| ==> low < s[k] <= high
  }

  /** Nothing waits or was aired that is not saved, in order, above `first`. */
  predicate Inv(c: Counter, first: int) {
    && first <= Last(c)
    && Climbs(c.aired + c.waiting, first, if c.built.Some? then Last(c) - 1 else Last(c))
    && (c.built.Some? ==> c.taken.None? && c.built == c.saved && first < c.built.value)
    && c.mySeq == Last(c) + (if c.taken.Some? then 2 else 1)
    && (c.taken.Some? ==> c.taken.value == Last(c) + 1)
  }

  lemma ClimbOn(s: seq<nat>, low: int, high: int, n: nat, k: nat)
    requires Climbs(s, low, high)
    ensures low < n && high < n ==> Climbs(s + [n], low, n)
    ensures k <= |s| ==> Climbs(s[..k], low, high)
    ensures Climbs(s, low, high + 1)
  {
  }

  lemma StepKeepsInv(c: Counter, e: Event, first: int)
    requires Inv(c, first)
    ensures Inv(Step(c, e, Same), first)
    ensures Last(Step(c, e, Same)) == Last(c) + if e == Save && c.taken.Some? then 1 else 0
  {
    hide Climbs;
    var c', s := Step(c, e, Same), c.aired + c.waiting;
    var high := if c.built.Some? then Last(c) - 1 else Last(c);
    ClimbOn(s, first, high, 0, |c.aired|);
    match e
    case Air =>
      if c.waiting != [] { assert c'.aired + c'.waiting == s; }
    case Queue =>
      if c.built.Some? {
        ClimbOn(s, first, high, c.built.value, 0);
        if |c.waiting| < TXRING_SLOTS { assert c'.aired + c'.waiting == s + [c.built.value]; }
      }
    case Cut =>
      assert c'.aired + c'.waiting == s[..|c.aired|];
      if c.built.Some? { ClimbOn(s[..|c.aired|], first, high, 0, 0); }
    case _ =>
  }

  function Saves(es: seq<Event>): nat { if es == [] then 0 else (if es[0] == Save then 1 else 0) + Saves(es[1..]) }

  lemma {:induction false} RunKeepsInv(c: Counter, es: seq<Event>, first: int)
    requires Inv(c, first)
    ensures Inv(Run(c, es, Same), first)
    ensures Last(Run(c, es, Same)) <= Last(c) + Saves(es)
    decreases |es|
  {
    hide Inv, Step, Last;
    if es != [] {
      StepKeepsInv(c, es[0], first);
      RunKeepsInv(Step(c, es[0], Same), es[1..], first);
    }
  }

  /** What reached the air, as unbounded numbers. */
  function Aired(saved: Option<nat>, es: seq<Event>): seq<nat> { Run(Boot(saved, [], Same), es, Same).aired }

  /** Whatever was saved when the tag first booted, and wherever the power is cut: the numbers
      that reach the air strictly increase, lie above everything saved before, and what the
      sixteen-bit machine sends is exactly those numbers modulo 65536. */
  lemma AirNumbersIncrease(saved: Option<nat>, es: seq<Event>)
    requires saved.Some? ==> saved.value < U16
    ensures Increasing(Aired(saved, es))
    ensures forall k :: 0 <= k < |Aired(saved, es)| ==>
      (if saved.Some? then saved.value else SEQ_FIRST - 1) < Aired(saved, es)[k]
    ensures Run(Boot(saved, [], U16Of), es, U16Of).aired == Wrapped(Aired(saved, es))
  {
    hide Run, Step;
    var c := Boot(saved, [], Same);
    RunKeepsInv(c, es, Last(c));
    var d := Run(c, es, Same);
    assert forall k :: 0 <= k < |d.aired| ==> d.aired[k] == (d.aired + d.waiting)[k];
    RunReduces(c, es);
    assert Reduce(c) == Boot(saved, [], U16Of);
  }

  lemma AiredSpan(saved: Option<nat>, es: seq<Event>, i: nat, j: nat)
    requires i < j < |Aired(saved, es)|
    ensures 0 < Aired(saved, es)[j] - Aired(saved, es)[i] < Saves(es)
  {
    hide Run, Step, Saves;
    var c := Boot(saved, [], Same);
    RunKeepsInv(c, es, Last(c));
    var d := Run(c, es, Same);
    assert d.aired[i] == (d.aired + d.waiting)[i] && d.aired[j] == (d.aired + d.waiting)[j];
  }

  lemma FarApart(a: nat, b: nat)
    requires a < b && a % U16 == b % U16
    ensures b - a >= U16
  {
  }

  /** A sixteen-bit number is only ever sent again once the counter has gone all the way
      round, however often the power was cut; and until half of that, every later PDU is the
      newer one by the comparison its receivers make. */
  lemma NoNumberTwice(saved: Option<nat>, es: seq<Event>, i: nat, j: nat)
    requires saved.Some? ==> saved.value < U16
    ensures var air := Run(Boot(saved, [], U16Of), es, U16Of).aired;
      i < j < |air| ==>
        && (air[i] == air[j] ==> Saves(es) > U16)
        && (Saves(es) <= U16 / 2 ==> Serial(air[j], air[i]) > 0)
  {
    hide Run, Saves, Serial;
    AirNumbersIncrease(saved, es);
    var u := Aired(saved, es);
    if i < j < |u| {
      AiredSpan(saved, es, i, j);
      if u[i] % U16 == u[j] % U16 { FarApart(u[i], u[j]); }
      if Saves(es) <= U16 / 2 { SerialIsDifference(u[j], u[i]); }
    }
  }
}
