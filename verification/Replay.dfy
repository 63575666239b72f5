/**
 * The replay list: per source the highest sequence number accepted and a bitmap of the 32 at
 * and below it, in eight slots, with a week's expiry. Numbers on the wire are 16 bits and
 * compared as serial numbers (section 3.2 of RFC 1982); proofs speak of the unbounded numbers
 * behind them.
 */
module Replay {
  import opened Bytes
  import opened Window

  const SLOTS := 8
  const EXPIRE_S := 7 * 24 * 3600
  const U16 := 0x1_0000
  const U32 := 0x1_0000_0000
  const ALL_SEEN: bitmap := 0xFFFF_FFFF

  datatype Ent = Ent(src: bytes, used: bool, seqNo: nat, win: bitmap, lastS: nat)

  const UNUSED := Ent([0, 0, 0], false, 0, 0, 0)

  /** (int16_t)(a - b) */
  function Serial(a: int, b: int): int {
    var d := (a - b) % U16;
    if d < U16 / 2 then d else d - U16
  }

  /** Seconds of silence, in the 32-bit arithmetic of the uptime. */
  function Age(now: int, lastS: int): nat { (now - lastS) % U32 }

  predicate Expired(e: Ent, now: int) { Age(now, e.lastS) >= EXPIRE_S }

  /** First slot in use for a source; |r| when there is none. */
  function Find(r: seq<Ent>, src: bytes, i: nat): (k: nat)
    requires i <= |r|
    ensures i <= k <= |r|
    ensures k < |r| ==> r[k].used && r[k].src == src
    ensures forall j :: i <= j < k ==> !(r[j].used && r[j].src == src)
    decreases |r| - i
  {
    if i == |r| then i else if r[i].used && r[i].src == src then i else Find(r, src, i + 1)
  }

  /** Whether a live entry lets a number through. */
  predicate Fresh(e: Ent, s: nat) {
    var d := Serial(s, e.seqNo);
    d > 0 || (-d < WINDOW && Clear(e.win, -d))
  }

  /** mesh_rpl_check */
  predicate Check(r: seq<Ent>, src: bytes, s: nat, now: int) {
    var k := Find(r, src, 0);
    k == |r| || Expired(r[k], now) || Fresh(r[k], s)
  }

  /** The slot a new source gets: the first free one, else the one silent longest. */
  function Victim(r: seq<Ent>, now: int, i: nat, best: nat): (k: nat)
    requires i <= |r| && best < |r|
    ensures k < |r|
    ensures !r[k].used || (forall j :: i <= j < |r| ==> r[j].used && Age(now, r[j].lastS) <= Age(now, r[k].lastS))
    ensures r[k].used ==> Age(now, r[best].lastS) <= Age(now, r[k].lastS)
    decreases |r| - i
  {
    if i == |r| then best
    else if !r[i].used then i
    else Victim(r, now, i + 1, if Age(now, r[i].lastS) > Age(now, r[best].lastS) then i else best)
  }

  /** A live entry after accepting a number. */
  function Accept(e: Ent, s: nat, now: nat): Ent {
    var d := Serial(s, e.seqNo);
    if d > 0 then
      e.(win := With(if d >= WINDOW then 0 else ShiftUp(e.win, d), 0), seqNo := s, lastS := now)
    else if -d < WINDOW then e.(win := With(e.win, -d), lastS := now)
    else e.(lastS := now)
  }

  /** mesh_rpl_commit */
  function Commit(r: seq<Ent>, src: bytes, s: nat, now: nat): (r': seq<Ent>)
    requires |r| == SLOTS
    ensures |r'| == SLOTS
  {
    var k := Find(r, src, 0);
    if k == |r| then r[Victim(r, now, 0, 0) := Ent(src, true, s, 1, now)]
    else if Expired(r[k], now) then r[k := r[k].(seqNo := s, win := 1, lastS := now)]
    else r[k := Accept(r[k], s, now)]
  }

  // ---- one entry refines a set of unbounded numbers ----

  /** What an entry stands for: every number accepted from the source since the entry was
      made, and the highest of them. */
  ghost predicate Means(e: Ent, high: int, acc: iset<int>) {
    && e.used && e.seqNo == high % U16
    && high in acc && (forall x :: x in acc ==> x <= high)
    && forall i :: 0 <= i < WINDOW ==> (Has(e.win, i) <==> high - i in acc)
  }

  /** Within half the number space, serial comparison is comparison. */
  lemma SerialIsDifference(a: int, b: int)
    requires -0x8000 <= a - b < 0x8000
    ensures Serial(a % U16, b % U16) == a - b
  {
    assert (a % U16 - b % U16 - (a - b)) % U16 == 0;
  }

  /** The window accepts exactly the numbers above the highest, and those less than 32 below it
      that were never accepted. */
  lemma FreshIsUnseen(e: Ent, high: int, acc: iset<int>, s: int)
    requires Means(e, high, acc) && -0x8000 < s - high < 0x8000
    ensures Fresh(e, s % U16) <==> s > high || (high - s < 32 && s !in acc)
  {
    hide Has, Clear;
    SerialIsDifference(s, high);
    if 0 <= high - s < WINDOW {
      ClearTest(e.win, high - s);
      assert high - (high - s) == s;
    }
  }

  /** Accepting a number keeps the bitmap exact, across every wrap of the 16-bit number. */
  lemma AcceptKeepsMeaning(e: Ent, high: int, acc: iset<int>, s: int, now: nat)
    requires Means(e, high, acc) && -0x8000 < s - high < 0x8000
    ensures Means(Accept(e, s % U16, now), Max(high, s), acc + iset{s})
  {
    hide Has, With, ShiftUp;
    SerialIsDifference(s, high);
    var d, e' := s - high, Accept(e, s % U16, now);
    forall i | 0 <= i < WINDOW ensures Has(e'.win, i) <==> Max(high, s) - i in acc + iset{s} {
      if d > 0 {
        WithMember(if d >= WINDOW then 0 else ShiftUp(e.win, d), 0, i);
        if d >= WINDOW { Constants(i); } else { ShiftMembers(e.win, d, i); }
        assert s - i == high - (i - d);
      } else if -d < WINDOW {
        WithMember(e.win, -d, i);
        assert (high - i == s) == (i == -d);
      }
    }
  }

  lemma NewEntryMeans(src: bytes, s: int, now: nat)
    ensures Means(Ent(src, true, s % U16, 1, now), s, iset{s})
  {
    hide Has;
    forall i | 0 <= i < WINDOW ensures Has(1, i) <==> s - i in iset{s} { Constants(i); }
  }

  predicate AtMost(x: int, s: int) { x <= s }

  /** An entry read back from flash stands for everything at or below its number. */
  lemma ImportedEntryMeans(src: bytes, s: int)
    ensures Means(Ent(src, true, s % U16, ALL_SEEN, 0), s, iset x: int | AtMost(x, s))
  {
    hide Has;
    forall i | 0 <= i < WINDOW ensures Has(ALL_SEEN, i) { Constants(i); }
  }

  // ---- the list refines a memory of what was heard from whom ----

  datatype Heard = Heard(high: int, acc: iset<int>)

  ghost predicate Unique(r: seq<Ent>) {
    forall j, k :: 0 <= j < k < |r| && r[j].used && r[k].used ==> r[j].src != r[k].src
  }

  ghost predicate ListMeans(r: seq<Ent>, m: map<bytes, Heard>) {
    && Unique(r)
    && (forall k :: 0 <= k < |r| && r[k].used ==>
          r[k].src in m && Means(r[k], m[r[k].src].high, m[r[k].src].acc))
    && (forall src :: src in m ==> Find(r, src, 0) < |r|)
  }

  /** The numbers of a live source that the 16-bit comparison reads correctly. */
  ghost predicate InRange(r: seq<Ent>, m: map<bytes, Heard>, src: bytes, s: int, now: int)
    requires ListMeans(r, m)
  {
    src in m && !Expired(r[Find(r, src, 0)], now) ==> -0x8000 < s - m[src].high < 0x8000
  }

  /** mesh_rpl_check, in unbounded numbers. */
  lemma CheckIsUnseen(r: seq<Ent>, m: map<bytes, Heard>, src: bytes, s: int, now: int)
    requires ListMeans(r, m) && InRange(r, m, src, s, now)
    ensures Check(r, src, s % U16, now) <==>
      || src !in m || Expired(r[Find(r, src, 0)], now)
      || s > m[src].high || (m[src].high - s < 32 && s !in m[src].acc)
  {
    hide Means, Fresh;
    var k := Find(r, src, 0);
    if src in m && !Expired(r[k], now) {
      FreshIsUnseen(r[k], m[src].high, m[src].acc, s);
    }
  }

  /** What the list remembers after a commit. */
  ghost function Remember(r: seq<Ent>, m: map<bytes, Heard>, src: bytes, s: int, now: nat): map<bytes, Heard>
    requires |r| == SLOTS && ListMeans(r, m)
  {
    var k := Find(r, src, 0);
    if k == |r| then
      var v := Victim(r, now, 0, 0);
      (if r[v].used then m - {r[v].src} else m)[src := Heard(s, iset{s})]
    else if Expired(r[k], now) then m[src := Heard(s, iset{s})]
    else m[src := Heard(Max(m[src].high, s), m[src].acc + iset{s})]
  }

  lemma FindUsed(r: seq<Ent>, k: nat)
    requires k < |r| && r[k].used && Unique(r)
    ensures Find(r, r[k].src, 0) == k
  {
  }

  lemma SlotReplaced(r: seq<Ent>, m: map<bytes, Heard>, k: nat, e: Ent, h: Heard)
    requires ListMeans(r, m) && k < |r| && e.used && Means(e, h.high, h.acc)
    requires forall j :: 0 <= j < |r| && j != k && r[j].used ==> r[j].src != e.src
    ensures ListMeans(r[k := e], (if r[k].used then m - {r[k].src} else m)[e.src := h])
  {
    hide Means;
    var r', m' := r[k := e], (if r[k].used then m - {r[k].src} else m)[e.src := h];
    assert Unique(r');
    forall x | x in m' ensures Find(r', x, 0) < |r'| {
      var j := if x == e.src then k else Find(r, x, 0);
      assert r'[j].used && r'[j].src == x;
    }
  }

  /** Committing keeps the sources unique and every entry exact. */
  lemma CommitKeepsMeaning(r: seq<Ent>, m: map<bytes, Heard>, src: bytes, s: int, now: nat)
    requires |r| == SLOTS && ListMeans(r, m) && InRange(r, m, src, s, now)
    ensures ListMeans(Commit(r, src, s % U16, now), Remember(r, m, src, s, now))
  {
    hide Means, Accept, Victim;
    var k := Find(r, src, 0);
    NewEntryMeans(src, s, now);
    if k == |r| {
      SlotReplaced(r, m, Victim(r, now, 0, 0), Ent(src, true, s % U16, 1, now), Heard(s, iset{s}));
    } else if Expired(r[k], now) {
      SlotReplaced(r, m, k, Ent(src, true, s % U16, 1, now), Heard(s, iset{s}));
      assert (m - {src})[src := Heard(s, iset{s})] == m[src := Heard(s, iset{s})];
    } else {
      var h := Heard(Max(m[src].high, s), m[src].acc + iset{s});
      AcceptKeepsMeaning(r[k], m[src].high, m[src].acc, s, now);
      AcceptKeepsSource(r[k], s % U16, now);
      SlotReplaced(r, m, k, Accept(r[k], s % U16, now), h);
      assert (m - {src})[src := h] == m[src := h];
    }
  }

  lemma AcceptKeepsSource(e: Ent, s: nat, now: nat)
    ensures Accept(e, s, now).src == e.src && Accept(e, s, now).used == e.used
  {
  }

  lemma CommitUnique(r: seq<Ent>, src: bytes, s: nat, now: nat)
    requires |r| == SLOTS && Unique(r)
    ensures Unique(Commit(r, src, s, now))
  {
    hide Accept, Victim;
    var k := Find(r, src, 0);
    if k < |r| { AcceptKeepsSource(r[k], s, now); }
  }

  /** Another source's commit does not bring a source in. */
  lemma AbsentStays(r: seq<Ent>, from: bytes, s: nat, now: nat, src: bytes)
    requires |r| == SLOTS && Find(r, src, 0) == |r| && from != src
    ensures Find(Commit(r, from, s, now), src, 0) == |r|
  {
    hide Accept, Victim;
    var k := Find(r, from, 0);
    if k < |r| { AcceptKeepsSource(r[k], s, now); }
  }

  lemma MeansTop(e: Ent, high: int, acc: iset<int>)
    requires Means(e, high, acc)
    ensures forall x :: x in acc ==> x <= high
  {
  }

  /** A known source evicts nobody, a new one takes a free slot while there is one, and
      otherwise the one it replaces has been silent at least as long as every other. */
  lemma CommitEvictsTheLongestSilent(r: seq<Ent>, src: bytes, s: nat, now: nat, x: bytes)
    requires |r| == SLOTS && Unique(r) && s < U16
    requires Find(r, x, 0) < |r| && x != src
    ensures var r' := Commit(r, src, s, now);
      Find(r', x, 0) < |r| || (
        && Find(r, src, 0) == |r|
        && (forall j :: 0 <= j < |r| ==> r[j].used && Age(now, r[j].lastS) <= Age(now, r[Find(r, x, 0)].lastS)))
    ensures var r' := Commit(r, src, s, now);
      Find(r', x, 0) < |r| ==> r'[Find(r', x, 0)] == r[Find(r, x, 0)]
  {
    hide Accept, Age;
    var r', k := Commit(r, src, s, now), Find(r, x, 0);
    if Find(r, src, 0) < |r| { AcceptKeepsSource(r[Find(r, src, 0)], s, now); }
    if r'[k] == r[k] {
      assert Unique(r');
      FindUsed(r', k);
    } else {
      assert k == Victim(r, now, 0, 0);
    }
  }

  // ---- the persistent form ----

  const BLOB_VER: byte := 1
  const BLOB_MAX := 1 + SLOTS * 5

  /** Every field fits its wire form. */
  predicate WellFormed(r: seq<Ent>) {
    |r| == SLOTS && forall k :: 0 <= k < |r| ==> |r[k].src| == 3 && r[k].seqNo < U16
  }

  function Record(e: Ent): (b: bytes)
    requires |e.src| == 3 && e.seqNo < U16
    ensures |b| == 5
  {
    e.src + [LowByte(e.seqNo), HighByte(e.seqNo)]
  }

  function ExportFrom(r: seq<Ent>, i: nat, room: nat): (b: bytes)
    requires WellFormed(r) && i <= |r|
    ensures |b| <= room
    decreases |r| - i
  {
    if i == |r| then []
    else if !r[i].used then ExportFrom(r, i + 1, room)
    else if room < 5 then []
    else Record(r[i]) + ExportFrom(r, i + 1, room - 5)
  }

  /** mesh_rpl_export into a buffer of `cap` bytes. */
  function Export(r: seq<Ent>, cap: nat): bytes
    requires WellFormed(r)
  {
    if cap < 1 then [] else [BLOB_VER] + ExportFrom(r, 0, cap - 1)
  }

  function EntryAt(blob: bytes, i: nat): Ent
    requires 5 * i + 6 <= |blob|
  {
    var p := 1 + 5 * i;
    Ent(blob[p..p + 3], true, blob[p + 3] as int + 256 * blob[p + 4] as int, ALL_SEEN, 0)
  }

  predicate Understood(blob: bytes) { |blob| >= 1 && blob[0] == BLOB_VER && (|blob| - 1) % 5 == 0 }

  /** mesh_rpl_import: the list it leaves, empty for a blob it does not understand. */
  function Import(blob: bytes): (r: seq<Ent>)
    ensures |r| == SLOTS
  {
    if !Understood(blob) then Repeat(UNUSED, SLOTS)
    else
      var n := Min((|blob| - 1) / 5, SLOTS);
      seq(SLOTS, i requires 0 <= i < SLOTS => if i < n then EntryAt(blob, i) else UNUSED)
  }

  /** The entries in use, in slot order. */
  function Used(r: seq<Ent>, i: nat): (u: seq<Ent>)
    requires i <= |r|
    ensures |u| <= |r| - i
    ensures forall a :: 0 <= a < |u| ==> u[a].used
    decreases |r| - i
  {
    if i == |r| then [] else if r[i].used then [r[i]] + Used(r, i + 1) else Used(r, i + 1)
  }

  function Records(u: seq<Ent>): (b: bytes)
    requires forall a :: 0 <= a < |u| ==> |u[a].src| == 3 && u[a].seqNo < U16
    ensures |b| == 5 * |u|
  {
    if u == [] then [] else Record(u[0]) + Records(u[1..])
  }

  lemma {:induction false} UsedMembers(r: seq<Ent>, i: nat, e: Ent)
    requires i <= |r|
    ensures e in Used(r, i) <==> e.used && e in r[i..]
    decreases |r| - i
  {
    if i < |r| {
      UsedMembers(r, i + 1, e);
      assert r[i..] == [r[i]] + r[i + 1..];
    }
  }

  lemma {:induction false} UsedUnique(r: seq<Ent>, i: nat)
    requires i <= |r| && Unique(r)
    ensures Unique(Used(r, i))
    decreases |r| - i
  {
    if i < |r| {
      UsedUnique(r, i + 1);
      var w := Used(r, i + 1);
      forall a | 0 <= a < |w| && r[i].used ensures w[a].src != r[i].src {
        UsedMembers(r, i + 1, w[a]);
        var j :| 0 <= j < |r[i + 1..]| && r[i + 1..][j] == w[a];
        assert r[i + 1 + j] == w[a];
      }
    }
  }

  lemma {:induction false} ExportIsRecords(r: seq<Ent>, i: nat, room: nat)
    requires WellFormed(r) && i <= |r| && room >= 5 * (|r| - i)
    ensures forall a :: 0 <= a < |Used(r, i)| ==> |Used(r, i)[a].src| == 3 && Used(r, i)[a].seqNo < U16
    ensures ExportFrom(r, i, room) == Records(Used(r, i))
    decreases |r| - i
  {
    hide Record;
    if i < |r| {
      if r[i].used {
        ExportIsRecords(r, i + 1, room - 5);
        assert Used(r, i)[1..] == Used(r, i + 1);
      } else {
        ExportIsRecords(r, i + 1, room);
      }
    }
  }

  lemma {:induction false} RecordsAt(u: seq<Ent>, a: nat)
    requires forall a :: 0 <= a < |u| ==> |u[a].src| == 3 && u[a].seqNo < U16
    requires a < |u|
    ensures Records(u)[5 * a..5 * a + 5] == Record(u[a])
  {
    hide Record;
    if a > 0 {
      RecordsAt(u[1..], a - 1);
      assert Records(u)[5 * a..5 * a + 5] == Records(u[1..])[5 * (a - 1)..5 * (a - 1) + 5];
    }
  }

  lemma RecordReads(e: Ent, blob: bytes, i: nat)
    requires |e.src| == 3 && e.seqNo < U16 && 5 * i + 6 <= |blob|
    requires blob[1 + 5 * i..6 + 5 * i] == Record(e)
    ensures EntryAt(blob, i) == Ent(e.src, true, e.seqNo, ALL_SEEN, 0)
  {
    hide HighByte, LowByte;
    SplitJoin(e.seqNo);
    var w := blob[1 + 5 * i..6 + 5 * i];
    assert blob[1 + 5 * i..4 + 5 * i] == w[..3];
    assert w[3] == blob[4 + 5 * i] && w[4] == blob[5 + 5 * i];
  }

  /** Reading back what was written gives the sources in use, with their numbers and with
      everything at or below them closed. */
  lemma ImportOfExport(r: seq<Ent>, i: nat)
    requires WellFormed(r) && i < SLOTS
    ensures Import(Export(r, BLOB_MAX))[i] ==
      if i < |Used(r, 0)| then Ent(Used(r, 0)[i].src, true, Used(r, 0)[i].seqNo, ALL_SEEN, 0) else UNUSED
  {
    hide Record, EntryAt, ExportFrom, Records, Used;
    var u, blob := Used(r, 0), Export(r, BLOB_MAX);
    ExportIsRecords(r, 0, BLOB_MAX - 1);
    assert blob[1..] == Records(u);
    assert |blob| - 1 == 5 * |u|;
    assert Understood(blob) && Min((|blob| - 1) / 5, SLOTS) == |u|;
    if i < |u| {
      RecordsAt(u, i);
      assert blob[1 + 5 * i..6 + 5 * i] == Records(u)[5 * i..5 * i + 5];
      RecordReads(u[i], blob, i);
    }
  }

  /** The blob byte by byte: version 1, then five bytes for each source in use, the number with its
      low byte first. */
  lemma BlobOnTheWire(r: seq<Ent>, i: nat)
    requires WellFormed(r) && i < |Used(r, 0)|
    ensures var b, e := Export(r, BLOB_MAX), Used(r, 0)[i];
      && |b| == 1 + 5 * |Used(r, 0)| && b[0] == 1
      && b[1 + 5 * i..4 + 5 * i] == e.src && b[4 + 5 * i] as int + 256 * b[5 + 5 * i] as int == e.seqNo
  {
    hide EntryAt, ExportFrom, Records, Used, LowByte, HighByte;
    var u, b := Used(r, 0), Export(r, BLOB_MAX);
    ExportIsRecords(r, 0, BLOB_MAX - 1);
    RecordsAt(u, i);
    SplitJoin(u[i].seqNo);
    assert b[1..] == Records(u);
    assert b[1 + 5 * i..6 + 5 * i] == Records(u)[5 * i..5 * i + 5];
    var w := b[1 + 5 * i..6 + 5 * i];
    assert b[1 + 5 * i..4 + 5 * i] == w[..3];
    assert w[3] == b[4 + 5 * i] && w[4] == b[5 + 5 * i];
  }

  /** A buffer too small for all sources gets as many whole records as fit, from the first on. */
  lemma {:induction false} SmallBuffer(r: seq<Ent>, i: nat, room: nat)
    requires WellFormed(r) && i <= |r|
    ensures forall a :: 0 <= a < |Used(r, i)| ==> |Used(r, i)[a].src| == 3 && Used(r, i)[a].seqNo < U16
    ensures ExportFrom(r, i, room) == Records(Used(r, i)[..Min(|Used(r, i)|, room / 5)])
    decreases |r| - i
  {
    hide Record;
    if i < |r| {
      if r[i].used {
        var u := Used(r, i);
        assert u[1..] == Used(r, i + 1);
        SmallBuffer(r, i + 1, if room < 5 then room else room - 5);
        if room >= 5 {
          var m := Min(|u|, room / 5);
          assert u[..m][1..] == u[1..][..m - 1];
        }
      } else {
        SmallBuffer(r, i + 1, room);
      }
    }
  }

  /** What any byte string at all is read back as. */
  lemma BlobReads(blob: bytes, i: nat)
    requires i < 8
    ensures |Import(blob)| == 8
    ensures var e := Import(blob)[i];
      && (e.used <==> |blob| >= 6 + 5 * i && blob[0] == 1 && |blob| % 5 == 1)
      && (e.used ==> e.src == blob[1 + 5 * i..4 + 5 * i] && e.lastS == 0
                     && e.seqNo == blob[4 + 5 * i] as int + 256 * blob[5 + 5 * i] as int)
  {
    if Understood(blob) {
      assert (|blob| - 1) / 5 > i <==> |blob| >= 6 + 5 * i;
    }
  }

  lemma FindAfterImport(r: seq<Ent>, src: bytes)
    requires WellFormed(r) && Unique(r) && Find(r, src, 0) < |r|
    ensures var r' := Import(Export(r, BLOB_MAX));
      var k := Find(r', src, 0);
      k < |r'| && r'[k] == Ent(src, true, r[Find(r, src, 0)].seqNo, ALL_SEEN, 0)
  {
    hide Import, Export, Used;
    var u, r', e := Used(r, 0), Import(Export(r, BLOB_MAX)), r[Find(r, src, 0)];
    assert e in r[0..];
    UsedMembers(r, 0, e);
    UsedUnique(r, 0);
    var a :| 0 <= a < |u| && u[a] == e;
    ImportOfExport(r, a);
    var k := Find(r', src, 0);
    ImportOfExport(r, k);
  }

  /** After a reboot, until the source's silence has lasted a week of the new uptime, the
      rebuilt list lets through exactly the numbers above the saved one: in particular nothing
      the exported list refused. */
  lemma RebuiltListRefuses(r: seq<Ent>, src: bytes, s: nat, now: nat, later: nat)
    requires WellFormed(r) && Unique(r) && later < 7 * 24 * 3600
    ensures Find(r, src, 0) < |r| ==>
      (Check(Import(Export(r, BLOB_MAX)), src, s, later) <==> Serial(s, r[Find(r, src, 0)].seqNo) > 0)
    ensures !Check(r, src, s, now) ==> !Check(Import(Export(r, BLOB_MAX)), src, s, later)
  {
    hide Import, Export, Has, Clear;
    if Find(r, src, 0) < |r| {
      FindAfterImport(r, src);
      var d := Serial(s, r[Find(r, src, 0)].seqNo);
      if 0 <= -d < WINDOW {
        ClearTest(ALL_SEEN, -d);
        Constants(-d);
      }
    }
  }

  // ---- the rebuilt list in use ----

  lemma ImportUnique(r: seq<Ent>)
    requires WellFormed(r) && Unique(r)
    ensures Unique(Import(Export(r, BLOB_MAX)))
  {
    hide Import, Export, Used;
    UsedUnique(r, 0);
    var r' := Import(Export(r, BLOB_MAX));
    forall j, k | 0 <= j < k < |r'| && r'[j].used && r'[k].used ensures r'[j].src != r'[k].src {
      ImportOfExport(r, j);
      ImportOfExport(r, k);
    }
  }

  /** A PDU accepted after the reboot, with the number behind its sixteen bits. */
  datatype Accepted = Accepted(src: bytes, n: int, now: nat)

  function After(r: seq<Ent>, cs: seq<Accepted>): (r': seq<Ent>)
    requires |r| == SLOTS
    ensures |r'| == SLOTS
    decreases |cs|
  {
    if cs == [] then r else After(Commit(r, cs[0].src, cs[0].n % U16, cs[0].now), cs[1..])
  }

  function HighAfter(high: int, cs: seq<Accepted>, src: bytes): int
    decreases |cs|
  {
    if cs == [] then high
    else HighAfter(if cs[0].src == src then Max(high, cs[0].n) else high, cs[1..], src)
  }

  /** When a source was last accepted; `was` if it was not. */
  function LastHeard(cs: seq<Accepted>, src: bytes, was: nat): nat
    decreases |cs|
  {
    if cs == [] then was else LastHeard(cs[1..], src, if cs[0].src == src then cs[0].now else was)
  }

  /** A commit stamps the source's entry with its time, whether the source is new, expired, ahead,
      or behind, and no other entry. */
  lemma CommitStamps(r: seq<Ent>, src: bytes, s: nat, now: nat, x: bytes)
    requires |r| == SLOTS && Unique(r)
    ensures var r' := Commit(r, src, s, now);
      && Find(r', src, 0) < |r'| && r'[Find(r', src, 0)].lastS == now
      && (x != src && Find(r', x, 0) < |r'| ==>
            Find(r, x, 0) < |r| && r'[Find(r', x, 0)].lastS == r[Find(r, x, 0)].lastS)
  {
    hide Victim;
    var k := Find(r, src, 0);
    var r', v := Commit(r, src, s, now), if k == |r| then Victim(r, now, 0, 0) else k;
    CommitUnique(r, src, s, now);
    assert r'[v].used && r'[v].src == src && r'[v].lastS == now;
    FindUsed(r', v);
    var j := Find(r', x, 0);
    if x != src && j < |r'| {
      assert r'[j] == r[j];
      FindUsed(r, j);
    }
  }

  /** So, over any PDUs accepted, the stamp of a listed source is the time it was last accepted. */
  lemma {:induction false} AfterStamps(r: seq<Ent>, cs: seq<Accepted>, src: bytes, was: nat)
    requires |r| == SLOTS && Unique(r)
    requires Find(r, src, 0) < |r| ==> r[Find(r, src, 0)].lastS == was
    ensures var r' := After(r, cs);
      Unique(r') && (Find(r', src, 0) < |r'| ==> r'[Find(r', src, 0)].lastS == LastHeard(cs, src, was))
    decreases |cs|
  {
    hide Commit, Unique;
    if cs != [] {
      var c := cs[0];
      CommitUnique(r, c.src, c.n % U16, c.now);
      CommitStamps(r, c.src, c.n % U16, c.now, src);
      AfterStamps(Commit(r, c.src, c.n % U16, c.now), cs[1..], src, if c.src == src then c.now else was);
    }
  }

  /** Times of one uptime, none later than `now`. */
  predicate UpTo(cs: seq<Accepted>, now: nat) {
    now < U32 && forall j :: 0 <= j < |cs| ==> cs[j].now <= now
  }

  lemma {:induction false} HeardUpTo(cs: seq<Accepted>, src: bytes, was: nat, now: nat)
    requires UpTo(cs, now) && was <= now
    ensures LastHeard(cs, src, was) <= now
    decreases |cs|
  {
    if cs != [] {
      assert forall j :: 0 <= j < |cs[1..]| ==> cs[1..][j] == cs[j + 1];
      HeardUpTo(cs[1..], src, if cs[0].src == src then cs[0].now else was, now);
    }
  }

  lemma AgeIsDifference(now: nat, lastS: nat)
    requires lastS <= now < U32
    ensures Age(now, lastS) == now - lastS
  {
  }

  /** What the list holds after an uptime's PDUs. */
  function Grown(cs: seq<Accepted>): (r: seq<Ent>)
    ensures |r| == SLOTS
  {
    After(Repeat(UNUSED, SLOTS), cs)
  }

  lemma GrownStamps(cs: seq<Accepted>, src: bytes)
    ensures Unique(Grown(cs))
    ensures var r := Grown(cs);
      Find(r, src, 0) < |r| ==> r[Find(r, src, 0)].lastS == LastHeard(cs, src, 0)
  {
    hide After, LastHeard;
    AfterStamps(Repeat(UNUSED, SLOTS), cs, src, 0);
  }

  /** A listed source expires a week after it was last accepted. */
  lemma ExpiryByTime(cs: seq<Accepted>, src: bytes, now: nat)
    requires UpTo(cs, now)
    ensures var r := Grown(cs);
      Find(r, src, 0) < |r| ==>
        (Expired(r[Find(r, src, 0)], now) <==> now - LastHeard(cs, src, 0) >= 7 * 24 * 3600)
  {
    hide Age, LastHeard, Grown;
    GrownStamps(cs, src);
    HeardUpTo(cs, src, 0, now);
    AgeIsDifference(now, LastHeard(cs, src, 0));
  }

  /** A source loses its place only to a new one, only from a full list, and only when no other
      listed source was last accepted before it. */
  lemma EvictionByTime(cs: seq<Accepted>, c: Accepted, x: bytes, y: bytes)
    requires UpTo(cs, c.now)
    ensures var r := Grown(cs);
      var r' := Commit(r, c.src, c.n % U16, c.now);
      Find(r, x, 0) < |r| && Find(r', x, 0) == |r'| ==>
        && Find(r, c.src, 0) == |r| && (forall j :: 0 <= j < |r| ==> r[j].used)
        && (Find(r, y, 0) < |r| ==> LastHeard(cs, x, 0) <= LastHeard(cs, y, 0))
  {
    hide Age, LastHeard, Grown, Commit;
    var r := Grown(cs);
    var r' := Commit(r, c.src, c.n % U16, c.now);
    GrownStamps(cs, x);
    GrownStamps(cs, y);
    HeardUpTo(cs, x, 0, c.now);
    HeardUpTo(cs, y, 0, c.now);
    AgeIsDifference(c.now, LastHeard(cs, x, 0));
    AgeIsDifference(c.now, LastHeard(cs, y, 0));
    CommitStamps(r, c.src, c.n % U16, c.now, x);
    if Find(r, x, 0) < |r| && Find(r', x, 0) == |r'| {
      CommitEvictsTheLongestSilent(r, c.src, c.n % U16, c.now, x);
    }
  }

  /** The source stays: its own numbers find the entry live and are in range of the highest, and
      those of others do not evict it. */
  predicate Stays(r: seq<Ent>, high: int, cs: seq<Accepted>, src: bytes)
    requires |r| == SLOTS
    decreases |cs|
  {
    cs == [] || (
      var c, k := cs[0], Find(r, src, 0);
      var r' := Commit(r, c.src, c.n % U16, c.now);
      && k < |r|
      && (if c.src == src then !Expired(r[k], c.now) && -0x8000 < c.n - high < 0x8000 else Find(r', src, 0) < |r'|)
      && Stays(r', if c.src == src then Max(high, c.n) else high, cs[1..], src))
  }

  /** The list holds exactly these numbers of the source. */
  ghost predicate Knows(r: seq<Ent>, src: bytes, high: int, acc: iset<int>) {
    |r| == SLOTS && Unique(r) && Find(r, src, 0) < |r| && Means(r[Find(r, src, 0)], high, acc)
  }

  /** The first number of a source. */
  lemma FirstKnown(r: seq<Ent>, src: bytes, n: int, now: nat)
    requires |r| == SLOTS && Unique(r) && Find(r, src, 0) == |r|
    ensures Knows(Commit(r, src, n % U16, now), src, n, iset{n})
  {
    hide Means, Victim, Age;
    var r', v := Commit(r, src, n % U16, now), Victim(r, now, 0, 0);
    CommitUnique(r, src, n % U16, now);
    NewEntryMeans(src, n, now);
    FindUsed(r', v);
  }

  lemma CommitKnows(r: seq<Ent>, src: bytes, high: int, acc: iset<int>, c: Accepted)
    requires Knows(r, src, high, acc)
    requires c.src == src ==> !Expired(r[Find(r, src, 0)], c.now) && -0x8000 < c.n - high < 0x8000
    requires c.src != src ==> Find(Commit(r, c.src, c.n % U16, c.now), src, 0) < |r|
    ensures c.src == src ==> Knows(Commit(r, src, c.n % U16, c.now), src, Max(high, c.n), acc + iset{c.n})
    ensures c.src != src ==> Knows(Commit(r, c.src, c.n % U16, c.now), src, high, acc)
  {
    hide Means, Accept, Victim, Age;
    var k := Find(r, src, 0);
    CommitUnique(r, c.src, c.n % U16, c.now);
    if c.src == src {
      AcceptKeepsMeaning(r[k], high, acc, c.n, c.now);
      AcceptKeepsSource(r[k], c.n % U16, c.now);
      FindUsed(Commit(r, src, c.n % U16, c.now), k);
    } else {
      CommitEvictsTheLongestSilent(r, c.src, c.n % U16, c.now, src);
    }
  }

  lemma {:induction false} AfterKnows(r: seq<Ent>, src: bytes, high: int, acc: iset<int>, cs: seq<Accepted>)
    returns (acc': iset<int>)
    requires Knows(r, src, high, acc) && Stays(r, high, cs, src)
    ensures acc <= acc' && high <= HighAfter(high, cs, src)
    ensures Knows(After(r, cs), src, HighAfter(high, cs, src), acc')
    decreases |cs|
  {
    hide Knows, Commit, Expired;
    KnownList(r, src, high, acc);
    if cs == [] {
      return acc;
    }
    var c := cs[0];
    CommitKnows(r, src, high, acc, c);
    if c.src == src {
      acc' := AfterKnows(Commit(r, src, c.n % U16, c.now), src, Max(high, c.n), acc + iset{c.n}, cs[1..]);
    } else {
      acc' := AfterKnows(Commit(r, c.src, c.n % U16, c.now), src, high, acc, cs[1..]);
    }
  }

  lemma KnownList(r: seq<Ent>, src: bytes, high: int, acc: iset<int>)
    requires Knows(r, src, high, acc)
    ensures |r| == SLOTS && Find(r, src, 0) < |r|
  {
  }

  /** What a list refused before the reboot stays refused afterwards: over any PDUs accepted
      since, while the source stays in the list, live and in range, no number at or below the
      saved one is ever let through again. */
  lemma RefusedForGood(r: seq<Ent>, src: bytes, saved: int, cs: seq<Accepted>, s: int, now: nat)
    requires WellFormed(r) && Unique(r) && Find(r, src, 0) < |r| && r[Find(r, src, 0)].seqNo == saved % U16
    requires Stays(Import(Export(r, BLOB_MAX)), saved, cs, src) && s <= saved
    requires HighAfter(saved, cs, src) - s < 0x8000
    ensures var end := After(Import(Export(r, BLOB_MAX)), cs);
      var k := Find(end, src, 0);
      k < |end| && (!Expired(end[k], now) ==> !Check(end, src, s % U16, now))
  {
    hide Import, Export, Means, Commit, Fresh, Expired, Stays, HighAfter, After;
    var r' := Import(Export(r, BLOB_MAX));
    FindAfterImport(r, src);
    ImportUnique(r);
    ImportedEntryMeans(src, saved);
    var acc := AfterKnows(r', src, saved, (iset x: int | AtMost(x, saved)), cs);
    var end := After(r', cs);
    assert AtMost(s, saved);
    FreshIsUnseen(end[Find(end, src, 0)], HighAfter(saved, cs, src), acc, s);
  }

  // ---- the list in place ----

  class ReplayList {
    const e: array<Ent>

    ghost predicate Valid()
      reads this, e
    {
      e.Length == SLOTS && WellFormed(e[..])
    }

    constructor ()
      ensures Valid() && fresh(e) && e[..] == Repeat(UNUSED, SLOTS)
    {
      e := new Ent[SLOTS](_ => UNUSED);
    }

    /** rpl_find: the slot, or SLOTS. */
    method RplFind(src: bytes) returns (k: nat)
      requires Valid()
      ensures k == Find(e[..], src, 0)
    {
      for i := 0 to SLOTS
        invariant Find(e[..], src, i) == Find(e[..], src, 0)
      {
        if e[i].used && e[i].src == src {
          return i;
        }
      }
      return SLOTS;
    }

    /** mesh_rpl_check only reads. */
    method CheckSeq(src: bytes, s: nat, now: nat) returns (ok: bool)
      requires Valid()
      ensures ok == Check(e[..], src, s, now)
    {
      hide Clear;
      var k := RplFind(src);
      if k == SLOTS {
        return true;
      }
      if Expired(e[k], now) {
        return true;
      }
      var d := Serial(s, e[k].seqNo);
      if d > 0 {
        return true;
      }
      if -d >= WINDOW {
        return false;
      }
      return Clear(e[k].win, -d);
    }

    method PickVictim(now: nat) returns (v: nat)
      requires Valid()
      ensures v == Victim(e[..], now, 0, 0)
    {
      hide Age;
      v := 0;
      for i := 0 to SLOTS
        invariant v < SLOTS && Victim(e[..], now, i, v) == Victim(e[..], now, 0, 0)
      {
        if !e[i].used {
          return i;
        }
        if Age(now, e[i].lastS) > Age(now, e[v].lastS) {
          v := i;
        }
      }
    }

    /** mesh_rpl_commit */
    method CommitSeq(src: bytes, s: nat, now: nat)
      requires Valid() && |src| == 3 && s < U16
      modifies e
      ensures Valid() && e[..] == Commit(old(e[..]), src, s, now)
    {
      hide ShiftUp, With, Victim, Age;
      var k := RplFind(src);
      if k == SLOTS {
        var v := PickVictim(now);
        e[v] := Ent(src, true, s, 1, now);
        return;
      }
      if Expired(e[k], now) {
        e[k] := e[k].(seqNo := s, win := 1, lastS := now);
        return;
      }
      var d := Serial(s, e[k].seqNo);
      if d > 0 {
        e[k] := e[k].(win := if d >= WINDOW then 0 else ShiftUp(e[k].win, d));
        e[k] := e[k].(win := With(e[k].win, 0), seqNo := s);
      } else if -d < WINDOW {
        e[k] := e[k].(win := With(e[k].win, -d));
      }
      e[k] := e[k].(lastS := now);
    }

    method Reset()
      requires Valid()
      modifies e
      ensures Valid() && e[..] == Repeat(UNUSED, SLOTS)
    {
      for i := 0 to SLOTS
        invariant forall j :: 0 <= j < i ==> e[j] == UNUSED
        invariant Valid()
      {
        e[i] := UNUSED;
      }
    }

    /** mesh_rpl_export: the bytes it writes, at most `cap`. */
    method ExportBlob(cap: nat) returns (blob: bytes)
      requires Valid()
      ensures blob == Export(e[..], cap) && |blob| <= cap
    {
      hide Record;
      if cap < 1 {
        return [];
      }
      ghost var r, whole := e[..], Export(e[..], cap);
      blob := [BLOB_VER];
      for i := 0 to SLOTS
        invariant |blob| <= cap
        invariant blob + ExportFrom(r, i, cap - |blob|) == whole
      {
        assert e[i] == r[i];
        if e[i].used {
          if |blob| + 5 > cap {
            return;
          }
          var record := Record(e[i]);
          ghost var rest := ExportFrom(r, i + 1, cap - |blob| - 5);
          assert blob + (record + rest) == blob + record + rest;
          blob := blob + record;
        }
      }
    }

    /** mesh_rpl_import replaces the whole list; false leaves it empty. */
    method ImportBlob(blob: bytes) returns (ok: bool)
      requires Valid()
      modifies e
      ensures Valid() && e[..] == Import(blob) && ok == Understood(blob)
    {
      hide EntryAt;
      Reset();
      if !Understood(blob) {
        return false;
      }
      var n := (|blob| - 1) / 5;
      if n > SLOTS {
        n := SLOTS;
      }
      for i := 0 to n
        invariant Valid()
        invariant forall j :: 0 <= j < i ==> e[j] == EntryAt(blob, j)
        invariant forall j :: i <= j < SLOTS ==> e[j] == UNUSED
      {
        EntryFits(blob, i);
        e[i] := EntryAt(blob, i);
      }
      return true;
    }
  }

  lemma EntryFits(blob: bytes, i: nat)
    requires 5 * i + 6 <= |blob|
    ensures |EntryAt(blob, i).src| == 3 && EntryAt(blob, i).seqNo < U16
  {
  }
}
