/**
 * Statistics that survive resets. The live record sits in retained RAM, sealed with a checksum;
 * flash holds at most one snapshot of it. A warm reset keeps the RAM, a power cut does not, and
 * either may start a different firmware.
 */
module Statistics {
  import opened Bytes

  /** Build stamps are never zero; zero means no firmware on record. */
  datatype Record = Record(
    uptime: nat, wall: int, lastBuild: int, boots: nat, updates: nat,
    refreshes: nat, sinceFw: nat, energy: nat, energyVer: nat)

  const ZERO := Record(0, 0, 0, 0, 0, 0, 0, 0, 0)

  /** The flash copy; once consumed it is kept for reading out but never restored. */
  datatype Snapshot = Snapshot(rec: Record, consumed: bool)

  /** A running device: its record, the uptime the session started from and the seconds since,
      the wall clock, the running firmware's stamp, and what flash holds. */
  datatype Device = Device(live: Record, base: nat, up: nat, clock: int, build: int, flash: Option<Snapshot>)

  datatype Event =
    | Pass(dt: nat)
    | SetClock(t: int)
    | Tick
    | Refresh
    | Energy(delta: nat)
    | AdoptModel(ver: nat, total: nat)
    | Save
    | WarmBoot(build: int, clock: int)
    | ColdBoot(build: int, clock: int)

  /** refresh_live_locked */
  function Rolled(d: Device): Record { d.live.(uptime := d.base + d.up, wall := d.clock) }

  predicate Restorable(flash: Option<Snapshot>) { flash.Some? && !flash.value.consumed }

  /** What a boot starts from: the RAM if it survived, else an unspent snapshot, else nothing. */
  function Origin(ram: Option<Record>, flash: Option<Snapshot>): Record {
    if ram.Some? then ram.value else if Restorable(flash) then flash.value.rec else ZERO
  }

  predicate RealUpdate(r: Record, build: int) { r.lastBuild != build && r.lastBuild != 0 }

  function Booted(r: Record, build: int): Record {
    var r1 := if r.lastBuild == build then r
              else r.(updates := r.updates + (if r.lastBuild != 0 then 1 else 0), lastBuild := build, sinceFw := 0);
    r1.(boots := r1.boots + 1)
  }

  /** persist_init and persist_post_settings as one step. */
  function Boot(ram: Option<Record>, flash: Option<Snapshot>, build: int, clock: int): Device {
    var r := Origin(ram, flash);
    Device(Booted(r, build), r.uptime, 0, if r.wall > build then r.wall else clock, build,
           if RealUpdate(r, build) && Restorable(flash) then Some(flash.value.(consumed := true)) else flash)
  }

  function Step(d: Device, e: Event): Device {
    match e
    case Pass(dt) => d.(up := d.up + dt, clock := d.clock + dt)
    case SetClock(t) => d.(clock := t)
    case Tick => d.(live := Rolled(d))
    case Refresh => d.(live := d.live.(refreshes := d.live.refreshes + 1, sinceFw := d.live.sinceFw + 1))
    case Energy(delta) => d.(live := d.live.(energy := d.live.energy + delta))
    case AdoptModel(ver, total) =>
      if d.live.energyVer < ver then d.(live := d.live.(energy := total, energyVer := ver)) else d
    case Save => d.(live := Rolled(d), flash := Some(Snapshot(Rolled(d), false)))
    case WarmBoot(build, clock) => Boot(Some(d.live), d.flash, build, clock)
    case ColdBoot(build, clock) => Boot(None, d.flash, build, clock)
  }

  function Run(d: Device, es: seq<Event>): Device
    decreases |es|
  {
    if es == [] then d else Run(Step(d, es[0]), es[1..])
  }

  predicate Stamped(e: Event) {
    match e
    case WarmBoot(build, _) => build != 0
    case ColdBoot(build, _) => build != 0
    case _ => true
  }

  /** Every counter of a is at most that of b. */
  predicate NoMore(a: Record, b: Record) {
    a.uptime <= b.uptime && a.boots <= b.boots && a.updates <= b.updates && a.refreshes <= b.refreshes
  }

  /** A snapshot that may still be restored is of the running firmware, knows of every firmware
      change the live record has counted, and is ahead of it in nothing. */
  predicate Inv(d: Device) {
    && d.build != 0 && d.live.lastBuild == d.build
    && d.live.uptime <= d.base + d.up
    && d.live.sinceFw <= d.live.refreshes
    && (Restorable(d.flash) ==>
          && d.flash.value.rec.lastBuild == d.live.lastBuild
          && d.flash.value.rec.updates == d.live.updates
          && d.flash.value.rec.sinceFw <= d.flash.value.rec.refreshes
          && NoMore(d.flash.value.rec, d.live))
  }

  /** A device whose RAM holds nothing and whose flash is empty, spent or from a stamped build. */
  lemma FirstBoot(flash: Option<Snapshot>, build: int, clock: int)
    requires build != 0
    requires Restorable(flash)
         ==> flash.value.rec.lastBuild != 0 && flash.value.rec.sinceFw <= flash.value.rec.refreshes
    ensures Inv(Boot(None, flash, build, clock))
  {
  }

  lemma StepKeepsInv(d: Device, e: Event)
    requires Inv(d) && Stamped(e)
    ensures Inv(Step(d, e))
  {
  }

  lemma {:induction false} RunKeepsInv(d: Device, es: seq<Event>)
    requires Inv(d) && forall j :: 0 <= j < |es| ==> Stamped(es[j])
    ensures Inv(Run(d, es))
    decreases |es|
  {
    hide Inv, Step;
    if es != [] {
      StepKeepsInv(d, es[0]);
      RunKeepsInv(Step(d, es[0]), es[1..]);
    }
  }

  lemma StepCountsUp(d: Device, e: Event)
    requires Inv(d) && !e.ColdBoot?
    ensures NoMore(d.live, Step(d, e).live)
  {
  }

  /** While the RAM survives, through any number of resets and firmware changes, no counter
      ever goes back. */
  lemma {:induction false} CountersNeverGoBack(d: Device, es: seq<Event>)
    requires Inv(d) && forall j :: 0 <= j < |es| ==> Stamped(es[j]) && !es[j].ColdBoot?
    ensures NoMore(d.live, Run(d, es).live)
    decreases |es|
  {
    hide Inv, Step;
    if es != [] {
      StepKeepsInv(d, es[0]);
      StepCountsUp(d, es[0]);
      CountersNeverGoBack(Step(d, es[0]), es[1..]);
    }
  }

  /** After a power cut the counters are exactly the unspent snapshot's, or zero, plus this
      boot; with a snapshot no firmware change that was counted is forgotten or counted again,
      and a snapshot that has been carried over a firmware change is never restored. */
  lemma PowerCutFallsBack(d: Device, es: seq<Event>, build: int, clock: int)
    requires Inv(d) && (forall j :: 0 <= j < |es| ==> Stamped(es[j])) && build != 0
    ensures var before := Run(d, es);
      var after := Step(before, ColdBoot(build, clock)).live;
      if Restorable(before.flash) then
        var snap := before.flash.value.rec;
        && after.uptime == snap.uptime && after.refreshes == snap.refreshes && after.boots == snap.boots + 1
        && after.updates == before.live.updates + (if build != before.build then 1 else 0)
        && after.sinceFw == (if build != before.build then 0 else snap.sinceFw)
        && after.energy == snap.energy && after.energyVer == snap.energyVer && after.wall == snap.wall
        && NoMore(snap, before.live)
        && (build != before.build ==> !Restorable(Step(before, ColdBoot(build, clock)).flash))
      else after == ZERO.(lastBuild := build, boots := 1)
  {
    RunKeepsInv(d, es);
  }

  // ---- the update counter means what it says ----

  /** Boots into a firmware other than the one running before, while the record was carried. */
  function Changes(d: Device, es: seq<Event>): nat
    decreases |es|
  {
    if es == [] then 0
    else
      var d' := Step(d, es[0]);
      (if (es[0].WarmBoot? || es[0].ColdBoot?) && es[0].build != d.build then 1 else 0) + Changes(d', es[1..])
  }

  predicate Carried(d: Device, e: Event) { e.ColdBoot? ==> Restorable(d.flash) }

  predicate AllCarried(d: Device, es: seq<Event>)
    decreases |es|
  {
    es == [] || (Carried(d, es[0]) && AllCarried(Step(d, es[0]), es[1..]))
  }

  lemma StepCountsChanges(d: Device, e: Event)
    requires Inv(d) && Stamped(e) && Carried(d, e)
    ensures Step(d, e).live.updates ==
      d.live.updates + if (e.WarmBoot? || e.ColdBoot?) && e.build != d.build then 1 else 0
  {
  }

  /** As long as each power cut finds a snapshot to fall back to, every change of firmware is
      counted exactly once, whether the RAM or the snapshot carried the record over it. */
  lemma {:induction false} EveryUpdateCountedOnce(d: Device, es: seq<Event>)
    requires Inv(d) && AllCarried(d, es) && forall j :: 0 <= j < |es| ==> Stamped(es[j])
    ensures Run(d, es).live.updates == d.live.updates + Changes(d, es)
    decreases |es|
  {
    hide Inv, Step, Carried;
    if es != [] {
      StepKeepsInv(d, es[0]);
      StepCountsChanges(d, es[0]);
      EveryUpdateCountedOnce(Step(d, es[0]), es[1..]);
    }
  }

  // ---- the uptime adds up ----

  /** persist_uptime_sec */
  function Reading(d: Device): nat { d.base + d.up }

  function Elapsed(es: seq<Event>): nat {
    if es == [] then 0 else (if es[0].Pass? then es[0].dt else 0) + Elapsed(es[1..])
  }

  /** Between resets the reading grows by exactly the time that passes, whatever else goes on. */
  lemma {:induction false} UptimeAddsUp(d: Device, es: seq<Event>)
    requires forall j :: 0 <= j < |es| ==> !es[j].WarmBoot? && !es[j].ColdBoot?
    ensures Reading(Run(d, es)) == Reading(d) + Elapsed(es)
    decreases |es|
  {
    if es != [] { UptimeAddsUp(Step(d, es[0]), es[1..]); }
  }

  /** A reset costs the reading exactly what passed since the last tick or save, and one right
      after either costs nothing. */
  lemma ResetCostsSinceTick(d: Device, es: seq<Event>, e: Event, build: int, clock: int)
    requires e == Tick || e == Save
    requires forall j :: 0 <= j < |es| ==>
      !es[j].WarmBoot? && !es[j].ColdBoot? && es[j] != Tick && es[j] != Save
    ensures Reading(Step(Run(Step(d, e), es), WarmBoot(build, clock))) == Reading(d)
  {
    StoredStays(Step(d, e), es);
  }

  lemma {:induction false} StoredStays(d: Device, es: seq<Event>)
    requires forall j :: 0 <= j < |es| ==>
      !es[j].WarmBoot? && !es[j].ColdBoot? && es[j] != Tick && es[j] != Save
    ensures Run(d, es).live.uptime == d.live.uptime
    decreases |es|
  {
    if es != [] { StoredStays(Step(d, es[0]), es[1..]); }
  }

  // ---- in place ----

  const MAGIC := 0x5052_5331

  /** The 80-byte block, in RAM or in flash. */
  datatype Block = Block(magic: nat, crc: nat, rec: Record, consumed: bool)

  /** The checksum of everything behind it; nothing is assumed about it. */
  type Checksum = (Record, bool) -> nat

  predicate Sealed(b: Block, crc: Checksum) { b.magic == MAGIC && b.crc == crc(b.rec, b.consumed) }

  class Persist {
    const crc32: Checksum
    var rd: Block
    var ramWasValid: bool
    var sessionBase: nat
    var flashCopy: Block
    var flashCopyValid: bool
    var settings: Option<Block>
    var uptime: nat
    var clock: int
    var build: int

    /** Running: the record sealed and live, and the copy of flash in step with flash. */
    ghost predicate Running()
      reads this
    {
      && Sealed(rd, crc32) && !rd.consumed && Loaded()
    }

    ghost predicate Loaded()
      reads this
    {
      && flashCopyValid == settings.Some? && (settings.Some? ==> flashCopy == settings.value)
    }

    function FlashBlobOk(): bool
      reads this
    {
      flashCopyValid && Sealed(flashCopy, crc32)
    }

    ghost function Flash(): Option<Snapshot>
      reads this
    {
      if FlashBlobOk() then Some(Snapshot(flashCopy.rec, flashCopy.consumed)) else None
    }

    ghost function View(): Device
      reads this
    {
      Device(rd.rec, sessionBase, uptime, clock, build, Flash())
    }

    /** The boots of a tag: whatever the RAM holds and whatever is stored in flash. */
    constructor (crc32: Checksum, ram: Block, settings: Option<Block>, firmware: int, bootClock: int)
      ensures Running() && this.crc32 == crc32
      ensures View() == Boot(if Sealed(ram, crc32) then Some(ram.rec) else None,
                             if settings.Some? && Sealed(settings.value, crc32)
                             then Some(Snapshot(settings.value.rec, settings.value.consumed)) else None,
                             firmware, bootClock)
    {
      this.crc32, this.settings := crc32, settings;
      rd, ramWasValid, sessionBase := ram, false, 0;
      flashCopy, flashCopyValid := Block(0, 0, ZERO, false), false;
      uptime, clock, build := 0, bootClock, firmware;
      new;
      Init();
      LoadSettings();
      PostSettings();
    }

    method Reseal()
      modifies this`rd
      ensures rd == old(rd).(magic := MAGIC, crc := crc32(old(rd).rec, old(rd).consumed))
      ensures Sealed(rd, crc32)
    {
      rd := rd.(magic := MAGIC, crc := crc32(rd.rec, rd.consumed));
    }

    /** persist_init: whatever the RAM holds, it is a sealed record afterwards. */
    method Init()
      modifies this`rd, this`ramWasValid, this`sessionBase
      ensures Sealed(rd, crc32) && ramWasValid == Sealed(old(rd), crc32)
      ensures ramWasValid ==> rd == old(rd) && sessionBase == rd.rec.uptime
      ensures !ramWasValid ==> rd.rec == ZERO && !rd.consumed && sessionBase == 0
    {
      ramWasValid := Sealed(rd, crc32);
      if ramWasValid {
        sessionBase := rd.rec.uptime;
      } else {
        rd := Block(0, 0, ZERO, false);
        sessionBase := 0;
      }
      Reseal();
    }

    /** settings_load */
    method LoadSettings()
      modifies this`flashCopy, this`flashCopyValid
      ensures Loaded()
    {
      flashCopyValid := settings.Some?;
      if settings.Some? {
        flashCopy := settings.value;
      }
    }

    /** RAM was lost but flash holds an unspent snapshot: go on from that. */
    method Recover()
      requires Sealed(rd, crc32) && (!ramWasValid ==> rd.rec == ZERO) && sessionBase == rd.rec.uptime
      modifies this`rd, this`sessionBase
      ensures rd.rec == Origin(if ramWasValid then Some(old(rd.rec)) else None, Flash())
      ensures !rd.consumed && sessionBase == rd.rec.uptime
    {
      if !ramWasValid && FlashBlobOk() && !flashCopy.consumed {
        rd := flashCopy;
        sessionBase := rd.rec.uptime;
      }
      rd := rd.(consumed := false);
    }

    /** Detect a firmware change and count the boot. */
    method CountBoot() returns (realUpdate: bool)
      modifies this`rd
      ensures rd.rec == Booted(old(rd.rec), build) && rd.consumed == old(rd.consumed)
      ensures realUpdate == RealUpdate(old(rd.rec), build)
    {
      realUpdate := false;
      if rd.rec.lastBuild != build {
        if rd.rec.lastBuild != 0 {
          rd := rd.(rec := rd.rec.(updates := rd.rec.updates + 1));
          realUpdate := true;
        }
        rd := rd.(rec := rd.rec.(lastBuild := build, sinceFw := 0));
      }
      rd := rd.(rec := rd.rec.(boots := rd.rec.boots + 1));
    }

    /** The snapshot has been carried over a firmware change: mark it spent. */
    method MarkConsumed()
      requires Loaded() && Restorable(Flash())
      modifies this`flashCopy, this`settings
      ensures Loaded() && Flash() == Some(old(Flash()).value.(consumed := true))
    {
      flashCopy := flashCopy.(consumed := true);
      flashCopy := flashCopy.(crc := crc32(flashCopy.rec, flashCopy.consumed));
      settings := Some(flashCopy);
    }

    method PostSettings()
      requires Sealed(rd, crc32) && Loaded() && (!ramWasValid ==> rd.rec == ZERO) && sessionBase == rd.rec.uptime
      requires uptime == 0
      modifies this`rd, this`sessionBase, this`clock, this`flashCopy, this`settings
      ensures Running()
      ensures View() == Boot(if ramWasValid then Some(old(rd.rec)) else None, old(Flash()), build, old(clock))
    {
      hide Booted, Sealed;
      Recover();
      if rd.rec.wall > build {
        clock := rd.rec.wall;
      }
      var realUpdate := CountBoot();
      Reseal();
      if realUpdate && FlashBlobOk() && !flashCopy.consumed {
        MarkConsumed();
      }
    }

    /** A reset with the RAM intact. */
    method ResetWarm(firmware: int, bootClock: int)
      requires Running()
      modifies this
      ensures Running() && View() == Step(old(View()), WarmBoot(firmware, bootClock))
    {
      uptime, clock, build := 0, bootClock, firmware;
      Init();
      LoadSettings();
      PostSettings();
    }

    /** A power cut: the RAM comes back as anything that is not a sealed record. */
    method ResetCold(junk: Block, firmware: int, bootClock: int)
      requires Running() && !Sealed(junk, crc32)
      modifies this
      ensures Running() && View() == Step(old(View()), ColdBoot(firmware, bootClock))
    {
      uptime, clock, build := 0, bootClock, firmware;
      rd := junk;
      Init();
      LoadSettings();
      PostSettings();
    }

    method RefreshLive()
      modifies this`rd
      ensures rd == old(rd).(rec := Rolled(old(View())))
    {
      rd := rd.(rec := rd.rec.(uptime := sessionBase + uptime, wall := clock));
    }

    method DoTick()
      requires Running()
      modifies this`rd
      ensures Running() && View() == Step(old(View()), Tick)
    {
      RefreshLive();
      Reseal();
    }

    method AddRefresh()
      requires Running()
      modifies this`rd
      ensures Running() && View() == Step(old(View()), Refresh)
    {
      rd := rd.(rec := rd.rec.(refreshes := rd.rec.refreshes + 1, sinceFw := rd.rec.sinceFw + 1));
      Reseal();
    }

    method AddEnergy(delta: nat)
      requires Running()
      modifies this`rd
      ensures Running() && View() == Step(old(View()), Energy(delta))
    {
      if delta == 0 {
        return;
      }
      rd := rd.(rec := rd.rec.(energy := rd.rec.energy + delta));
      Reseal();
    }

    method AdoptEnergyModel(ver: nat, total: nat) returns (adopted: bool)
      requires Running()
      modifies this`rd
      ensures Running() && View() == Step(old(View()), AdoptModel(ver, total))
      ensures adopted == (old(rd.rec.energyVer) < ver)
    {
      adopted := false;
      if rd.rec.energyVer < ver {
        rd := rd.(rec := rd.rec.(energy := total, energyVer := ver));
        Reseal();
        adopted := true;
      }
    }

    /** persist_save_to_flash, the write succeeding. */
    method SaveToFlash()
      requires Running()
      modifies this`rd, this`settings, this`flashCopy, this`flashCopyValid
      ensures Running() && View() == Step(old(View()), Save)
    {
      RefreshLive();
      Reseal();
      var snap := rd.(consumed := false);
      snap := snap.(crc := crc32(snap.rec, snap.consumed));
      settings := Some(snap);
      flashCopy := snap;
      flashCopyValid := true;
    }
  }
}
