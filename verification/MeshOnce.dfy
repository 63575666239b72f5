/**
 * A flood is handled at most once by every node: no node runs or relays the same number of the
 * same source twice, while that source stays in its replay list.
 */
module MeshOnce {
  import opened Bytes
  import opened Cmac
  import opened MeshFleet
  import opened MeshNode
  import opened MeshPdu
  import opened Replay

  /** How often a number of a source occurs in a list. */
  function Times(s: seq<Label>, src: bytes, n: nat): nat {
    if s == [] then 0 else (if s[0].src == src && s[0].n == n then 1 else 0) + Times(s[1..], src, n)
  }

  lemma {:induction false} TimesGrows(s: seq<Label>, l: Label, src: bytes, n: nat)
    ensures Times(s + [l], src, n) == Times(s, src, n) + if l.src == src && l.n == n then 1 else 0
  {
    if s == [] {
      assert [l][1..] == [];
    } else {
      assert (s + [l])[1..] == s[1..] + [l];
      TimesGrows(s[1..], l, src, n);
    }
  }

  predicate Listed(s: seq<Label>, src: bytes, n: int) {
    exists j :: 0 <= j < |s| && s[j].src == src && s[j].n == n
  }

  lemma {:induction false} ListedTimes(s: seq<Label>, src: bytes, n: nat)
    ensures Listed(s, src, n) <==> Times(s, src, n) > 0
  {
    if s != [] {
      ListedTimes(s[1..], src, n);
      if Listed(s, src, n) {
        var j :| 0 <= j < |s| && s[j].src == src && s[j].n == n;
        if j > 0 { assert s[1..][j - 1] == s[j]; }
      }
    }
  }

  /** The numbers of a source that a node has handled. */
  ghost function Numbers(s: seq<Label>, src: bytes): iset<int> { iset n: int | Listed(s, src, n) }

  lemma NumbersGrow(s: seq<Label>, l: Label, src: bytes)
    ensures Numbers(s + [l], src) == if l.src == src then Numbers(s, src) + iset{l.n} else Numbers(s, src)
  {
    var t := s + [l];
    assert t[|s|] == l;
    forall n | Listed(s, src, n) ensures Listed(t, src, n) {
      var j :| 0 <= j < |s| && s[j].src == src && s[j].n == n;
      assert t[j] == s[j];
    }
    if l.src == src { assert Listed(t, src, l.n); }
  }

  ghost predicate Exactly(e: Ent, acc: iset<int>) { exists high :: Means(e, high, acc) }

  /** The replay list holds of a source exactly what the node has handled. */
  ghost predicate Remembers(r: seq<Ent>, done: seq<Label>, src: bytes) {
    var k := Find(r, src, 0);
    if Numbers(done, src) == iset{} then k == |r| else k < |r| && Exactly(r[k], Numbers(done, src))
  }

  /** What a site keeps about one number of one source. */
  ghost predicate Inv(s: Site, src: bytes, n: nat) {
    && |s.node.rpl| == SLOTS && Unique(s.node.rpl)
    && (src != s.node.id ==> Remembers(s.node.rpl, s.done, src))
    && (src == s.node.id ==> forall x :: x in Numbers(s.done, src) ==> x < s.next)
    && Times(s.done, src, n) <= 1
    && Times(s.sent, src, n) + Times(s.waiting, src, n) <= Times(s.done, src, n)
  }

  // ---- one commit ----

  lemma FirstCommit(r: seq<Ent>, src: bytes, n: nat, now: nat)
    requires |r| == SLOTS && Unique(r) && Find(r, src, 0) == |r|
    ensures var r' := Commit(r, src, n % U16, now);
      Find(r', src, 0) < |r'| && Exactly(r'[Find(r', src, 0)], iset{n as int})
  {
    hide Means, Commit;
    FirstKnown(r, src, n, now);
  }

  /** Committing an unseen number of a known, live source adds it to what the entry stands for;
      a number already there does not pass the check. */
  lemma NextCommit(r: seq<Ent>, src: bytes, n: nat, now: nat, high: int, acc: iset<int>)
    requires |r| == SLOTS && Unique(r) && Find(r, src, 0) < |r|
    requires var e := r[Find(r, src, 0)];
      Means(e, high, acc) && !Expired(e, now) && -0x8000 < n - high < 0x8000
    ensures Check(r, src, n % U16, now) ==> n as int !in acc
    ensures var r' := Commit(r, src, n % U16, now);
      Find(r', src, 0) < |r'| && Exactly(r'[Find(r', src, 0)], acc + iset{n as int})
  {
    hide Means, Accept, Fresh;
    var k := Find(r, src, 0);
    FreshIsUnseen(r[k], high, acc, n);
    AcceptKeepsMeaning(r[k], high, acc, n, now);
    AcceptKeepsSource(r[k], n % U16, now);
    MeansTop(r[k], high, acc);
    var r' := Commit(r, src, n % U16, now);
    CommitUnique(r, src, n % U16, now);
    FindUsed(r', k);
    assert Means(r'[k], Max(high, n), acc + iset{n as int});
  }

  // ---- one delivery ----

  /** The side condition on a delivery that would be let through: a number of the tracked source
      finds its entry live and is within half the number space of the highest there, and a
      number of another source does not push the tracked one out of the list. */
  ghost predicate Steady(s: Site, pdu: bytes, l: Label, mac: bool, now: nat, src: bytes)
    requires |s.node.rpl| == SLOTS
  {
    Admits(s.node, pdu, mac, now) ==>
      var r := s.node.rpl;
      var k := Find(r, src, 0);
      k < |r| ==>
        if l.src == src then
          !Expired(r[k], now)
          && forall high :: Means(r[k], high, Numbers(s.done, src)) ==> -0x8000 < l.n - high < 0x8000
        else Find(Commit(r, l.src, l.n % U16, now), src, 0) < |r|
  }

  lemma HeardRemembers(r: seq<Ent>, done: seq<Label>, l: Label, now: nat, src: bytes)
    requires |r| == SLOTS && Unique(r) && Remembers(r, done, src) && l.src == src
    requires Check(r, src, l.n % U16, now)
    requires Find(r, src, 0) < |r| ==>
      && !Expired(r[Find(r, src, 0)], now)
      && forall high :: Means(r[Find(r, src, 0)], high, Numbers(done, src)) ==> -0x8000 < l.n - high < 0x8000
    ensures Remembers(Commit(r, src, l.n % U16, now), done + [l], src)
    ensures l.n as int !in Numbers(done, src)
  {
    hide Commit, Check, Means, Expired, Numbers;
    var acc := Numbers(done, src);
    NumbersGrow(done, l, src);
    assert l.n as int in acc + iset{l.n as int};
    if acc == iset{} {
      FirstCommit(r, src, l.n, now);
      assert acc + iset{l.n as int} == iset{l.n as int};
    } else {
      var high :| Means(r[Find(r, src, 0)], high, acc);
      NextCommit(r, src, l.n, now, high, acc);
    }
  }

  lemma OtherRemembers(r: seq<Ent>, done: seq<Label>, l: Label, now: nat, src: bytes)
    requires |r| == SLOTS && Unique(r) && Remembers(r, done, src) && l.src != src
    requires Find(r, src, 0) < |r| ==> Find(Commit(r, l.src, l.n % U16, now), src, 0) < |r|
    ensures Remembers(Commit(r, l.src, l.n % U16, now), done + [l], src)
  {
    hide Commit, Exactly, Numbers;
    NumbersGrow(done, l, src);
    if Find(r, src, 0) == |r| {
      AbsentStays(r, l.src, l.n % U16, now, src);
    } else {
      CommitEvictsTheLongestSilent(r, l.src, l.n % U16, now, src);
    }
  }

  /** What a delivery that gets through changes. */
  lemma ArrivedState(s: Site, pdu: bytes, l: Label, mac: bool, now: nat)
    requires |s.node.rpl| == SLOTS && Genuine(pdu, l) && Admits(s.node, pdu, mac, now)
    ensures var s' := Arrived(s, pdu, l, mac, now);
      && s'.node.rpl == Commit(s.node.rpl, l.src, l.n % U16, now) && s'.node.id == s.node.id
      && s'.done == s.done + [l] && s'.sent == s.sent && s'.next == s.next
      && (s'.waiting == s.waiting || s'.waiting == s.waiting + [l.(hops := l.hops + 1)])
      && l.src != s.node.id && Check(s.node.rpl, l.src, l.n % U16, now)
  {
    hide Parse, Commit, Check, SetTtl, ForMe;
  }

  lemma CountsKept(s: Site, l: Label, src: bytes, n: nat, waiting: seq<Label>)
    requires Times(s.done, src, n) <= 1
    requires Times(s.sent, src, n) + Times(s.waiting, src, n) <= Times(s.done, src, n)
    requires waiting == s.waiting || waiting == s.waiting + [l.(hops := l.hops + 1)]
    requires l.src == src ==> l.n as int !in Numbers(s.done, src)
    ensures Times(s.done + [l], src, n) <= 1
    ensures Times(s.sent, src, n) + Times(waiting, src, n) <= Times(s.done + [l], src, n)
  {
    hide Times, Listed;
    TimesGrows(s.done, l, src, n);
    TimesGrows(s.waiting, l.(hops := l.hops + 1), src, n);
    ListedTimes(s.done, src, n);
  }

  /** A delivery that gets through was not handled before, and keeps everything. */
  lemma ArrivedKeeps(s: Site, pdu: bytes, l: Label, mac: bool, now: nat, src: bytes, n: nat)
    requires Inv(s, src, n) && Genuine(pdu, l) && Steady(s, pdu, l, mac, now, src)
    ensures Inv(Arrived(s, pdu, l, mac, now), src, n)
  {
    hide Parse, Commit, Check, Means, Expired, Numbers, Remembers, Hear, Genuine, Times, Unique;
    if Admits(s.node, pdu, mac, now) {
      var r := s.node.rpl;
      ArrivedState(s, pdu, l, mac, now);
      NumbersGrow(s.done, l, src);
      CommitUnique(r, l.src, l.n % U16, now);
      if src != s.node.id {
        if l.src == src {
          HeardRemembers(r, s.done, l, now, src);
        } else {
          OtherRemembers(r, s.done, l, now, src);
        }
      }
      CountsKept(s, l, src, n, Arrived(s, pdu, l, mac, now).waiting);
    }
  }

  lemma OriginatedKeeps(s: Site, pdu: bytes, src: bytes, n: nat)
    requires Inv(s, src, n)
    ensures Inv(Originated(s, pdu), src, n)
  {
    hide Parse, Times, Listed, Unique, Exactly;
    var l := Label(s.node.id, s.next, 0);
    NumbersGrow(s.done, l, src);
    TimesGrows(s.done, l, src, n);
    TimesGrows(s.waiting, l.(hops := 1), src, n);
    ListedTimes(s.done, src, n);
    assert src == s.node.id ==> s.next as int !in Numbers(s.done, src);
  }

  lemma TransmittedKeeps(s: Site, src: bytes, n: nat)
    requires Inv(s, src, n) && s.node.tx != [] && s.waiting != []
    ensures Inv(Transmitted(s), src, n)
  {
    hide Unique, Remembers, Numbers;
    TimesGrows(s.sent, s.waiting[0], src, n);
  }

  // ---- whole runs ----

  ghost predicate FleetInv(fl: Fleet, src: bytes, n: nat) {
    forall i :: 0 <= i < |fl.sites| ==> Inv(fl.sites[i], src, n)
  }

  /** The side condition on one step: only deliveries are concerned. */
  ghost predicate SteadyStep(fl: Fleet, e: Event, src: bytes)
    requires Ok(fl) && Enabled(fl, e)
  {
    e.Arrive? ==>
      var copy := fl.air[e.copy];
      CopyOk(fl, copy) && SiteOk(fl.sites[copy.to])
      && Steady(fl.sites[copy.to], copy.pdu, copy.tag, e.mac, e.now, src)
  }

  ghost predicate SteadyRun(fl: Fleet, es: seq<Event>, reach: nat, src: bytes, c: Cipher, key: bytes)
    requires IsCipher(c) && Ok(fl) && CanRun(fl, es, reach, c, key)
    decreases |es|
  {
    es == [] || (
      SteadyStep(fl, es[0], src) && (
        StepKeepsOk(fl, es[0], c, key);
        SteadyRun(Step(fl, es[0], c, key), es[1..], reach, src, c, key)))
  }

  lemma StepKeepsInv(fl: Fleet, e: Event, c: Cipher, key: bytes, src: bytes, n: nat)
    requires IsCipher(c) && Ok(fl) && Enabled(fl, e) && FleetInv(fl, src, n) && SteadyStep(fl, e, src)
    ensures FleetInv(Step(fl, e, c, key), src, n)
  {
    hide IsCipher, Inv, Originated, Arrived, Transmitted, Steady, Signed, Fields.Ok, Genuine;
    match e
    case Originate(i, f) => OriginatedKeeps(fl.sites[i], Signed(c, key, TTL_DEFAULT, f), src, n);
    case Transmit(i, _) =>
      SiteRing(fl.sites[i]);
      TransmittedKeeps(fl.sites[i], src, n);
    case Arrive(k, mac, now) =>
      var copy := fl.air[k];
      ArrivedKeeps(fl.sites[copy.to], copy.pdu, copy.tag, mac, now, src, n);
    case Lose(_) =>
  }

  lemma {:induction false} RunKeepsInv(fl: Fleet, es: seq<Event>, reach: nat, c: Cipher, key: bytes, src: bytes, n: nat)
    requires IsCipher(c) && Ok(fl) && CanRun(fl, es, reach, c, key)
    requires FleetInv(fl, src, n) && SteadyRun(fl, es, reach, src, c, key)
    ensures FleetInv(Run(fl, es, reach, c, key), src, n)
    decreases |es|
  {
    hide IsCipher, FleetInv, SteadyStep, Step, Ok, Enabled;
    if es != [] {
      StepKeepsInv(fl, es[0], c, key, src, n);
      StepKeepsOk(fl, es[0], c, key);
      RunKeepsInv(Step(fl, es[0], c, key), es[1..], reach, c, key, src, n);
    }
  }

  /** Transmissions of one number by the whole fleet. */
  function Sends(sites: seq<Site>, src: bytes, n: nat): nat {
    if sites == [] then 0 else Times(sites[0].sent, src, n) + Sends(sites[1..], src, n)
  }

  lemma {:induction false} SendsAtMostOneEach(sites: seq<Site>, src: bytes, n: nat)
    requires forall i :: 0 <= i < |sites| ==> Times(sites[i].sent, src, n) <= 1
    ensures Sends(sites, src, n) <= |sites|
  {
    hide Times;
    if sites != [] { SendsAtMostOneEach(sites[1..], src, n); }
  }

  /** A fleet that has heard nothing from a source yet. */
  predicate Unheard(fl: Fleet, src: bytes) {
    && fl.air == []
    && forall i :: 0 <= i < |fl.sites| ==>
      var s := fl.sites[i];
      && s.done == [] && s.sent == [] && s.waiting == [] && s.node.tx == []
      && |s.node.rpl| == SLOTS && Find(s.node.rpl, src, 0) == SLOTS
  }

  ghost predicate AllUnique(fl: Fleet) { forall i :: 0 <= i < |fl.sites| ==> Unique(fl.sites[i].node.rpl) }

  /** In any run, on any topology, with copies arriving late, twice, out of order or not at
      all, every node handles a number of the source at most once and puts it on the air at
      most once, so that a broadcast costs at most one transmission per node. */
  lemma AtMostOnce(fl: Fleet, es: seq<Event>, reach: nat, c: Cipher, key: bytes, src: bytes, n: nat)
    requires IsCipher(c) && Ok(fl) && CanRun(fl, es, reach, c, key)
    requires Unheard(fl, src) && AllUnique(fl) && SteadyRun(fl, es, reach, src, c, key)
    ensures var end := Run(fl, es, reach, c, key);
      && (forall i {:trigger end.sites[i]} :: 0 <= i < |end.sites| ==>
            Times(end.sites[i].sent, src, n) <= Times(end.sites[i].done, src, n) <= 1)
      && Sends(end.sites, src, n) <= |end.sites|
  {
    hide IsCipher, CanRun, Run, SteadyRun, Unique;
    forall i | 0 <= i < |fl.sites| ensures Inv(fl.sites[i], src, n) {
      assert Numbers(fl.sites[i].done, src) == iset{};
    }
    RunKeepsInv(fl, es, reach, c, key, src, n);
    var end := Run(fl, es, reach, c, key);
    forall i | 0 <= i < |end.sites|
      ensures Times(end.sites[i].sent, src, n) <= Times(end.sites[i].done, src, n) <= 1
    {
      assert Inv(end.sites[i], src, n);
    }
    SendsAtMostOneEach(end.sites, src, n);
  }
}
