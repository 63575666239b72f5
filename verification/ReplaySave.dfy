/**
 * When the replay list reaches the settings: at once after a quiet time, otherwise by a deferred
 * write that a timer hands to the mesh thread. Over any receptions, writes and power cuts, a
 * number is handled twice only if the power went before its first handling was written.
 */
module ReplaySave {
  import opened Bytes
  import opened Replay

  const SAVE_MIN_S := 10

  /** What is in the settings, when it was put there, whether the list has changed since, and
      when the pending timer goes off. */
  datatype Saver = Saver(blob: Option<bytes>, savedS: nat, dirty: bool, due: Option<nat>)

  /** rpl_save_now */
  function SaveNow(v: Saver, rpl: seq<Ent>, now: nat): Saver
    requires WellFormed(rpl)
  {
    v.(blob := Some(Export(rpl, BLOB_MAX)), savedS := now, dirty := false)
  }

  /** Whether a commit is written before its handler runs. */
  predicate AtOnce(v: Saver, now: nat) { v.savedS == 0 || now - v.savedS >= SAVE_MIN_S }

  /** What mesh_handle_pdu does about a commit that has left the list as `rpl`; a timer that is
      pending already is left to it. */
  function OnCommit(v: Saver, rpl: seq<Ent>, now: nat): Saver
    requires WellFormed(rpl)
  {
    if AtOnce(v, now) then SaveNow(v, rpl, now)
    else v.(dirty := true, due := if v.due.Some? then v.due else Some(now + SAVE_MIN_S))
  }

  /** The mesh thread of one node, and the history of one source. `since` is the time of the first
      commit that is not written, `late` that the timer found the job queue full; `list` is the
      list as it was last written; `high` and `kept` are the numbers behind the sixteen bits that
      the list and the written list hold of the source. `done` are the numbers of the source that
      were handled, those from `written` on not written yet, and `lost` those the power cut off
      before they were. */
  datatype Keeper = Keeper(rpl: seq<Ent>, v: Saver, queued: bool, clock: nat, since: nat, late: bool,
                           list: seq<Ent>, high: int, kept: int,
                           done: seq<int>, written: nat, lost: set<nat>)

  /** Heard: a PDU with a right MAC. Fire: the timer goes off, and its job finds room or not. */
  datatype Event = Heard(c: Accepted) | Fire(full: bool, now: nat) | Job(now: nat) | Cut

  /** The list goes to the settings. */
  function Written(k: Keeper, now: nat): Keeper
    requires WellFormed(k.rpl)
  {
    k.(v := SaveNow(k.v, k.rpl, now), list := k.rpl, kept := k.high, written := |k.done|)
  }

  /** The highest number after handling n. */
  function Higher(k: Keeper, src: bytes, n: int): int {
    if Present(k.rpl, src) then Max(k.high, n) else n
  }

  /** A commit, with the run of its handler recorded for the source that is watched. */
  function Handled(k: Keeper, c: Accepted, src: bytes): Keeper
    requires WellFormed(k.rpl) && |c.src| == 3
  {
    CommitFits(k.rpl, c.src, c.n % U16, c.now);
    var own := c.src == src;
    var k' := k.(rpl := Commit(k.rpl, c.src, c.n % U16, c.now), clock := c.now,
                 high := if own then Higher(k, src, c.n) else k.high,
                 done := if own then k.done + [c.n] else k.done);
    if AtOnce(k.v, c.now) then Written(k', c.now)
    else k'.(v := OnCommit(k.v, k'.rpl, c.now), since := if k.v.dirty then k.since else c.now,
             late := k.late && k.v.due.Some?)
  }

  function Step(k: Keeper, e: Event, src: bytes): (k': Keeper)
    requires WellFormed(k.rpl) && (e.Heard? ==> |e.c.src| == 3)
    ensures WellFormed(k'.rpl)
  {
    match e
    case Heard(c) =>
      CommitFits(k.rpl, c.src, c.n % U16, c.now);
      if Check(k.rpl, c.src, c.n % U16, c.now) then Handled(k, c, src) else k.(clock := c.now)
    case Fire(full, now) =>
      if k.v.due.None? then k.(clock := now)
      else if full then k.(v := k.v.(due := Some(now + 1)), clock := now, late := true)
      else k.(v := k.v.(due := None), queued := true, clock := now, late := false)
    case Job(now) =>
      (if k.queued && k.v.dirty then Written(k, now) else k).(queued := false, clock := now)
    case Cut =>
      var rpl := if k.v.blob.Some? then Import(k.v.blob.value) else Repeat(UNUSED, SLOTS);
      ImportFits(k.v.blob);
      k.(rpl := rpl, v := Saver(k.v.blob, 0, false, None), queued := false, clock := 0, late := false,
         high := k.kept, written := |k.done|, lost := k.lost + Unwritten(k))
  }

  function Unwritten(k: Keeper): set<nat> { set i: nat | i < |k.done| && Between(k.written, i, |k.done|) }

  predicate Between(a: nat, i: nat, b: nat) { a <= i < b }

  function Run(k: Keeper, es: seq<Event>, src: bytes): Keeper
    requires WellFormed(k.rpl) && forall i :: 0 <= i < |es| && es[i].Heard? ==> |es[i].c.src| == 3
    decreases |es|
  {
    if es == [] then k else Run(Step(k, es[0], src), es[1..], src)
  }

  predicate Present(r: seq<Ent>, src: bytes) { Find(r, src, 0) < |r| }

  lemma ImportFits(blob: Option<bytes>)
    ensures WellFormed(if blob.Some? then Import(blob.value) else Repeat(UNUSED, SLOTS))
  {
    if blob.Some? && Understood(blob.value) {
      var b := blob.value;
      var n := Min((|b| - 1) / 5, SLOTS);
      forall i | 0 <= i < n ensures |Import(b)[i].src| == 3 && Import(b)[i].seqNo < U16 {
        EntryFits(b, i);
      }
    }
  }

  lemma CommitFits(r: seq<Ent>, src: bytes, s: nat, now: nat)
    requires WellFormed(r) && |src| == 3 && s < U16
    ensures WellFormed(Commit(r, src, s, now))
  {
    hide Victim, Age;
    var k := Find(r, src, 0);
    if k < |r| { AcceptKeepsSource(r[k], s, now); }
  }

  // ---- nothing that is written is handled again ----

  /** No number is handled twice, but for one whose first handling was lost. */
  predicate Once(done: seq<int>, lost: set<nat>) {
    forall i: nat, j: nat :: i < j < |done| && done[i] == done[j] ==> i in lost
  }

  /** `acc` is what the list refuses of the source, `kept` what it refused when it was written. */
  ghost predicate Inv(k: Keeper, src: bytes, acc: iset<int>, kept: iset<int>) {
    && WellFormed(k.rpl) && ListHolds(k.rpl, src, k.high, acc)
    && (if k.v.blob.Some? then
          WellFormed(k.list) && k.v.blob == Some(Export(k.list, BLOB_MAX)) && ListHolds(k.list, src, k.kept, kept)
        else kept == iset{})
    && kept <= acc
    && k.written <= |k.done|
    && Refused(k.done[..k.written], k.lost, kept) && Refused(k.done, k.lost, acc)
    && Once(k.done, k.lost)
  }

  ghost predicate Refused(done: seq<int>, lost: set<nat>, acc: iset<int>) {
    forall i: nat :: i < |done| && i !in lost ==> done[i] in acc
  }

  ghost predicate ListHolds(r: seq<Ent>, src: bytes, high: int, acc: iset<int>) {
    Unique(r) && if Present(r, src) then Knows(r, src, high, acc) else acc == iset{}
  }

  /** The source's own numbers find its entry live and in range, and others do not evict it. */
  predicate Steady(k: Keeper, e: Event, src: bytes)
    requires WellFormed(k.rpl) && (e.Heard? ==> |e.c.src| == 3)
  {
    e.Heard? && Present(k.rpl, src) ==>
      if e.c.src == src then
        !Expired(k.rpl[Find(k.rpl, src, 0)], e.c.now) && -0x8000 < e.c.n - k.high < 0x8000
      else Present(Step(k, e, src).rpl, src)
  }

  predicate SteadyRun(k: Keeper, es: seq<Event>, src: bytes)
    requires WellFormed(k.rpl) && forall i :: 0 <= i < |es| && es[i].Heard? ==> |es[i].c.src| == 3
    decreases |es|
  {
    es == [] || (Steady(k, es[0], src) && SteadyRun(Step(k, es[0], src), es[1..], src))
  }

  /** What the list holds after a commit, and that the number was not in it before. */
  lemma CommitHolds(r: seq<Ent>, c: Accepted, src: bytes, high: int, acc: iset<int>)
    requires WellFormed(r) && ListHolds(r, src, high, acc) && Check(r, c.src, c.n % U16, c.now)
    requires Present(r, src) ==>
      if c.src == src then !Expired(r[Find(r, src, 0)], c.now) && -0x8000 < c.n - high < 0x8000
      else Present(Commit(r, c.src, c.n % U16, c.now), src)
    ensures var r' := Commit(r, c.src, c.n % U16, c.now);
      if c.src == src then
        c.n !in acc && ListHolds(r', src, if Present(r, src) then Max(high, c.n) else c.n, acc + iset{c.n})
      else ListHolds(r', src, high, acc)
  {
    hide Means, Commit, Fresh, Expired;
    CommitUnique(r, c.src, c.n % U16, c.now);
    if Present(r, src) {
      CommitKnows(r, src, high, acc, c);
      if c.src == src {
        FreshIsUnseen(r[Find(r, src, 0)], high, acc, c.n);
        MeansTop(r[Find(r, src, 0)], high, acc);
      }
    } else if c.src == src {
      FirstKnown(r, src, c.n, c.now);
      assert acc + iset{c.n} == iset{c.n};
    } else {
      AbsentStays(r, c.src, c.n % U16, c.now, src);
    }
  }

  /** What the rebuilt list holds. */
  lemma RebuiltHolds(r: seq<Ent>, src: bytes, high: int, acc: iset<int>) returns (acc': iset<int>)
    requires WellFormed(r) && ListHolds(r, src, high, acc)
    ensures acc <= acc' && ListHolds(Import(Export(r, BLOB_MAX)), src, high, acc')
  {
    hide Import, Export, Used;
    var r' := Import(Export(r, BLOB_MAX));
    ImportUnique(r);
    if Present(r, src) {
      FindAfterImport(r, src);
      ImportedEntryMeans(src, high);
      acc' := iset x: int | AtMost(x, high);
    } else {
      acc' := acc;
      forall i | 0 <= i < |r'| ensures !(r'[i].used && r'[i].src == src) {
        ImportOfExport(r, i);
        if i < |Used(r, 0)| { UsedMembers(r, 0, Used(r, 0)[i]); }
      }
    }
  }

  lemma OnceMore(done: seq<int>, lost: set<nat>, n: int, acc: iset<int>)
    requires Once(done, lost) && Refused(done, lost, acc) && n !in acc
    ensures Once(done + [n], lost) && Refused(done + [n], lost, acc + iset{n})
  {
  }

  lemma LossRefuses(done: seq<int>, written: nat, lost: set<nat>, more: set<nat>, kept: iset<int>)
    requires written <= |done| && Refused(done[..written], lost, kept)
    requires forall i: nat :: written <= i < |done| ==> i in more
    ensures Refused(done, lost + more, kept) && Refused(done[..|done|], lost + more, kept)
  {
    assert done[..|done|] == done;
    forall i: nat | i < |done| && i !in lost + more ensures done[i] in kept {
      assert done[..written][i] in kept;
    }
  }

  lemma WrittenKeepsInv(k: Keeper, now: nat, src: bytes, acc: iset<int>, kept: iset<int>)
    requires Inv(k, src, acc, kept)
    ensures Inv(Written(k, now), src, acc, acc)
  {
    hide ListHolds, WellFormed, Export, Once;
    assert k.done[..|k.done|] == k.done;
  }

  lemma HandledKeepsInv(k: Keeper, c: Accepted, src: bytes, acc: iset<int>, kept: iset<int>)
    returns (acc': iset<int>, kept': iset<int>)
    requires Inv(k, src, acc, kept) && |c.src| == 3 && Steady(k, Event.Heard(c), src)
    requires Check(k.rpl, c.src, c.n % U16, c.now)
    ensures Inv(Handled(k, c, src), src, acc', kept') && acc <= acc' && kept <= kept'
  {
    hide ListHolds, Commit, Check, Export, WellFormed, Expired, Present, Once;
    acc', kept' := acc, kept;
    CommitHolds(k.rpl, c, src, k.high, acc);
    CommitFits(k.rpl, c.src, c.n % U16, c.now);
    if c.src == src {
      OnceMore(k.done, k.lost, c.n, acc);
      assert (k.done + [c.n])[..k.written] == k.done[..k.written];
      acc' := acc + iset{c.n};
    }
    if AtOnce(k.v, c.now) { kept' := acc'; }
  }

  /** Every event keeps both lists exact. What the list in the settings refuses, it goes on refusing;
      so does the one in memory, but for a power cut, which leaves it what is in the settings. */
  lemma StepKeepsInv(k: Keeper, e: Event, src: bytes, acc: iset<int>, kept: iset<int>)
    returns (acc': iset<int>, kept': iset<int>)
    requires Inv(k, src, acc, kept) && (e.Heard? ==> |e.c.src| == 3) && Steady(k, e, src)
    ensures Inv(Step(k, e, src), src, acc', kept')
    ensures kept <= kept' && kept <= acc' && (!e.Cut? ==> acc <= acc')
  {
    hide ListHolds, Check, Export, Import, WellFormed, Handled, Present;
    acc', kept' := acc, kept;
    match e
    case Heard(c) =>
      if Check(k.rpl, c.src, c.n % U16, c.now) {
        acc', kept' := HandledKeepsInv(k, c, src, acc, kept);
      }
    case Fire(_, _) =>
    case Job(_) =>
      if k.queued && k.v.dirty {
        kept' := acc;
        WrittenKeepsInv(k, e.now, src, acc, kept);
      }
    case Cut =>
      LossRefuses(k.done, k.written, k.lost, Unwritten(k), kept);
      if k.v.blob.Some? {
        acc' := RebuiltHolds(k.list, src, k.kept, kept);
      } else {
        acc' := iset{};
        EmptyHolds(src, k.kept);
      }
  }

  lemma EmptyHolds(src: bytes, high: int)
    ensures ListHolds(Repeat(UNUSED, SLOTS), src, high, iset{})
  {
  }

  lemma {:induction false} RunKeepsInv(k: Keeper, es: seq<Event>, src: bytes, acc: iset<int>, kept: iset<int>)
    returns (acc': iset<int>, kept': iset<int>)
    requires Inv(k, src, acc, kept) && forall i :: 0 <= i < |es| && es[i].Heard? ==> |es[i].c.src| == 3
    requires SteadyRun(k, es, src)
    ensures Inv(Run(k, es, src), src, acc', kept') && kept <= kept'
    decreases |es|
  {
    hide Step, Steady, ListHolds, Once, Refused, WellFormed, Export;
    if es == [] {
      return acc, kept;
    }
    acc', kept' := StepKeepsInv(k, es[0], src, acc, kept);
    acc', kept' := RunKeepsInv(Step(k, es[0], src), es[1..], src, acc', kept');
  }

  /** A tag that has written no list and heard nothing. */
  predicate Start(k: Keeper) {
    && k.rpl == Repeat(UNUSED, SLOTS) && k.v == Saver(None, 0, false, None) && !k.queued
    && k.done == [] && k.written == 0 && k.lost == {}
  }

  /** Over any receptions, timers, writes and power cuts, each number of a source that stays live
      and in range is handled once; a second time only if the power went before the first
      handling was in the settings. */
  lemma HandledOnceUnlessLost(k: Keeper, es: seq<Event>, src: bytes)
    requires Start(k) && forall i :: 0 <= i < |es| && es[i].Heard? ==> |es[i].c.src| == 3
    requires SteadyRun(k, es, src)
    ensures Once(Run(k, es, src).done, Run(k, es, src).lost)
  {
    hide SteadyRun, Run, Once, ListHolds;
    EmptyHolds(src, k.high);
    assert Once(k.done, k.lost) by { NothingTwice(); }
    var _, _ := RunKeepsInv(k, es, src, iset{}, iset{});
  }

  lemma NothingTwice()
    ensures Once([], {})
  {
  }

  // ---- nothing waits for its write without a timer ----

  function TimeOf(e: Event): nat {
    match e
    case Heard(c) => c.now
    case Fire(_, now) => now
    case Job(now) => now
    case Cut => 0
  }

  predicate InTime(k: Keeper, e: Event) { e.Cut? || TimeOf(e) >= k.clock }

  /** A commit that is not written yet has a job on its way or a timer set, for at most ten
      seconds after the first such commit unless the job queue was found full. */
  predicate Scheduled(k: Keeper) {
    && (k.v.due.Some? && !k.late ==> k.v.due.value <= k.clock + 10)
    && (k.v.dirty && !k.queued ==>
          k.v.due.Some? && (k.late || k.v.due.value <= k.since + 10))
    && (!k.v.dirty ==> k.written == |k.done|)
  }

  lemma StepKeepsScheduled(k: Keeper, e: Event, src: bytes)
    requires WellFormed(k.rpl) && (e.Heard? ==> |e.c.src| == 3)
    requires Scheduled(k) && InTime(k, e)
    ensures Scheduled(Step(k, e, src))
  {
    hide Commit, Check, Export, Import, WellFormed, Present;
  }

  predicate InTimeRun(k: Keeper, es: seq<Event>, src: bytes)
    requires WellFormed(k.rpl) && forall i :: 0 <= i < |es| && es[i].Heard? ==> |es[i].c.src| == 3
    decreases |es|
  {
    es == [] || (InTime(k, es[0]) && InTimeRun(Step(k, es[0], src), es[1..], src))
  }

  /** In every run, what is not in the settings yet is on its way there. */
  lemma {:induction false} EveryCommitScheduled(k: Keeper, es: seq<Event>, src: bytes)
    requires WellFormed(k.rpl) && forall i :: 0 <= i < |es| && es[i].Heard? ==> |es[i].c.src| == 3
    requires Scheduled(k) && InTimeRun(k, es, src)
    ensures Scheduled(Run(k, es, src))
    decreases |es|
  {
    hide Scheduled, Step, InTime;
    if es != [] {
      StepKeepsScheduled(k, es[0], src);
      EveryCommitScheduled(Step(k, es[0], src), es[1..], src);
    }
  }

  // ---- what comes after a quiet time is safe at once ----

  /** A number is in the settings before its handler runs exactly when nothing was written for ten
      seconds, or not at all since the boot; otherwise it waits. */
  lemma QuietIsWrittenAtOnce(k: Keeper, c: Accepted, src: bytes)
    requires WellFormed(k.rpl) && |c.src| == 3 && Check(k.rpl, c.src, c.n % U16, c.now)
    ensures var k' := Step(k, Event.Heard(c), src);
      if k.v.savedS == 0 || c.now - k.v.savedS >= 10 then
        !k'.v.dirty && k'.v.blob == Some(Export(k'.rpl, BLOB_MAX)) && k'.written == |k'.done| && k'.v.savedS == c.now
      else k'.v.dirty && k'.v.blob == k.v.blob && k'.written == k.written && k'.v.due.Some?
    ensures Step(k, Event.Heard(c), src).done == if c.src == src then k.done + [c.n] else k.done
  {
    hide Commit, Check, Export, Import, WellFormed, Present;
  }

  lemma StepLosesUnwritten(k: Keeper, e: Event, src: bytes)
    requires WellFormed(k.rpl) && (e.Heard? ==> |e.c.src| == 3) && k.written <= |k.done|
    ensures var k' := Step(k, e, src);
      && k.written <= k'.written <= |k'.done| && k.done <= k'.done
      && forall i: nat :: i < k.written && i in k'.lost ==> i in k.lost
  {
    hide Commit, Check, Export, Import, WellFormed, Present;
  }

  /** What is in the settings is lost in no run: so a number heard after a quiet time is handled
      once for good, whenever the power goes. */
  lemma {:induction false} WrittenIsNeverLost(k: Keeper, es: seq<Event>, src: bytes, i: nat)
    requires WellFormed(k.rpl) && forall i :: 0 <= i < |es| && es[i].Heard? ==> |es[i].c.src| == 3
    requires i < k.written <= |k.done|
    ensures |k.done| <= |Run(k, es, src).done| && Run(k, es, src).done[i] == k.done[i]
    ensures i in Run(k, es, src).lost ==> i in k.lost
    decreases |es|
  {
    hide Step, WellFormed;
    if es != [] {
      StepLosesUnwritten(k, es[0], src);
      WrittenIsNeverLost(Step(k, es[0], src), es[1..], src, i);
    }
  }
}
