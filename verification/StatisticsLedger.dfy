/**
 * What each statistic counts, over whole runs: boots, refreshes, refreshes of the running firmware,
 * energy; what the clock goes on from after a reset; and how long a snapshot stays good.
 */
module StatisticsLedger {
  import opened Bytes
  import opened Statistics

  predicate IsBoot(e: Event) { e.WarmBoot? || e.ColdBoot? }

  function Boots(es: seq<Event>): nat {
    if es == [] then 0 else (if IsBoot(es[0]) then 1 else 0) + Boots(es[1..])
  }

  function Refreshes(es: seq<Event>): nat {
    if es == [] then 0 else (if es[0].Refresh? then 1 else 0) + Refreshes(es[1..])
  }

  /** The firmware running after the events. */
  function BuildAfter(build: int, es: seq<Event>): int
    decreases |es|
  {
    if es == [] then build else BuildAfter(if IsBoot(es[0]) then es[0].build else build, es[1..])
  }

  /** Refreshes since the firmware last changed, `was` of them before the events. */
  function RefreshesSince(build: int, was: nat, es: seq<Event>): nat
    decreases |es|
  {
    if es == [] then was
    else if IsBoot(es[0]) then
      RefreshesSince(es[0].build, if es[0].build == build then was else 0, es[1..])
    else RefreshesSince(build, if es[0].Refresh? then was + 1 else was, es[1..])
  }

  /** Energy adds up, and starts over from the estimate of a newer model. */
  function EnergyAfter(total: nat, ver: nat, es: seq<Event>): (nat, nat)
    decreases |es|
  {
    if es == [] then (total, ver)
    else
      match es[0]
      case Energy(delta) => EnergyAfter(total + delta, ver, es[1..])
      case AdoptModel(v, estimate) =>
        if v > ver then EnergyAfter(estimate, v, es[1..]) else EnergyAfter(total, ver, es[1..])
      case _ => EnergyAfter(total, ver, es[1..])
  }

  /** While the RAM survives, every statistic is exactly the count of what happened. */
  lemma {:induction false} CountersCount(d: Device, es: seq<Event>)
    requires Inv(d) && forall j :: 0 <= j < |es| ==> Stamped(es[j]) && !es[j].ColdBoot?
    ensures var r := Run(d, es).live;
      && r.boots == d.live.boots + Boots(es)
      && r.refreshes == d.live.refreshes + Refreshes(es)
      && r.sinceFw == RefreshesSince(d.build, d.live.sinceFw, es)
      && (r.energy, r.energyVer) == EnergyAfter(d.live.energy, d.live.energyVer, es)
      && Run(d, es).build == r.lastBuild == BuildAfter(d.build, es)
    decreases |es|
  {
    if es != [] {
      StepKeepsInv(d, es[0]);
      CountersCount(Step(d, es[0]), es[1..]);
    }
  }

  // ---- the clock ----

  /** Between resets the clock runs on from where it was last set. */
  function ClockAfter(clock: int, es: seq<Event>): int
    decreases |es|
  {
    if es == [] then clock
    else
      match es[0]
      case Pass(dt) => ClockAfter(clock + dt, es[1..])
      case SetClock(t) => ClockAfter(t, es[1..])
      case _ => ClockAfter(clock, es[1..])
  }

  lemma {:induction false} ClockRuns(d: Device, es: seq<Event>)
    requires forall j :: 0 <= j < |es| ==> !IsBoot(es[j])
    ensures Run(d, es).clock == ClockAfter(d.clock, es)
    decreases |es|
  {
    if es != [] { ClockRuns(Step(d, es[0]), es[1..]); }
  }

  lemma {:induction false} WallStays(d: Device, es: seq<Event>)
    requires forall j :: 0 <= j < |es| ==> !IsBoot(es[j]) && es[j] != Tick && es[j] != Save
    ensures Run(d, es).live.wall == d.live.wall
    decreases |es|
  {
    if es != [] { WallStays(Step(d, es[0]), es[1..]); }
  }

  /** A reset takes the clock up again from the last tick or save, unless the firmware is newer than
      that: then it keeps what the boot has set. */
  lemma ClockResumes(d: Device, e: Event, es: seq<Event>, build: int, clock: int)
    requires e == Tick || e == Save
    requires forall j :: 0 <= j < |es| ==> !IsBoot(es[j]) && es[j] != Tick && es[j] != Save
    ensures var r := Step(Run(Step(d, e), es), WarmBoot(build, clock));
      && r.clock == (if d.clock > build then d.clock else clock)
      && r.up == 0 && Reading(r) == Reading(d)
  {
    WallStays(Step(d, e), es);
    ResetCostsSinceTick(d, es, e, build, clock);
  }

  // ---- the snapshot ----

  /** A snapshot is kept as it was saved through anything but another save, and can be restored for
      exactly as long as no other firmware has booted. */
  lemma {:induction false} SnapshotLasts(d: Device, rec: Record, es: seq<Event>)
    requires Inv(d) && d.flash == Some(Snapshot(rec, false))
    requires forall j :: 0 <= j < |es| ==> Stamped(es[j]) && es[j] != Save
    ensures var f := Run(d, es).flash;
      && f.Some? && f.value.rec == rec
      && (Restorable(f) <==> forall j :: 0 <= j < |es| && IsBoot(es[j]) ==> es[j].build == d.build)
    decreases |es|
  {
    if es != [] {
      var d' := Step(d, es[0]);
      StepKeepsInv(d, es[0]);
      assert forall j :: 0 <= j < |es[1..]| ==> es[1..][j] == es[j + 1];
      if IsBoot(es[0]) && es[0].build != d.build {
        SpentStays(d', es[1..]);
        assert !(IsBoot(es[0]) ==> es[0].build == d.build);
      } else {
        SnapshotLasts(d', rec, es[1..]);
        assert forall j :: 1 <= j < |es| ==> es[j] == es[1..][j - 1];
      }
    }
  }

  lemma {:induction false} SpentStays(d: Device, es: seq<Event>)
    requires d.flash.Some? && d.flash.value.consumed && forall j :: 0 <= j < |es| ==> es[j] != Save
    ensures Run(d, es).flash == d.flash
    decreases |es|
  {
    if es != [] { SpentStays(Step(d, es[0]), es[1..]); }
  }

  /** What is saved is the record as it reads at that moment. */
  lemma SaveTakesTheReading(d: Device)
    requires Inv(d)
    ensures var r := Step(d, Save);
      && r.flash == Some(Snapshot(d.live.(uptime := Reading(d), wall := d.clock), false))
      && r.live == r.flash.value.rec && Inv(r) && Reading(r) == Reading(d)
  {
  }
}
