/**
 * Commands on their way from the radio to the thread that runs them. Two slots go round: free,
 * being filled with a text line or an opcode payload, ready, running, free again. The receive
 * thread works byte by byte; the command thread takes and finishes slots whenever it likes; a
 * disconnect may come between any two bytes.
 */
module CommandQueue {
  import opened Bytes

  const DEPTH := 2
  const BUF := 256
  const OPC_MAGIC: byte := 0xA5
  const NEWLINE: byte := 10
  const RETURN: byte := 13

  type Id = s: nat | s < DEPTH

  datatype Slot = Slot(isOpcode: bool, opcode: byte, line: bytes)

  /** What a handler is given. */
  datatype Command = Text(line: bytes) | Opcode(op: byte, args: bytes)

  datatype OpcState = OpcNone | WantOp | WantLen | WantPayload

  /** `ran` and `inlined` are the commands run so far by the command thread and by the receive
      thread, `busy` the number of BUSY replies. */
  datatype Queue = Queue(
    free: seq<Id>, ready: seq<Id>, rx: Option<Id>, opc: Option<Id>, running: Option<Id>,
    slots: seq<Slot>, rxLen: nat, discard: bool,
    opcState: OpcState, opcOp: byte, opcLen: nat, opcIdx: nat,
    streaming: bool, ran: seq<Command>, inlined: seq<Command>, busy: nat)

  predicate Sized(q: Queue) {
    |q.slots| == DEPTH && forall i :: 0 <= i < DEPTH ==> |q.slots[i].line| == BUF
  }

  /** A C string: the bytes before the first zero. */
  function CString(s: bytes): (r: bytes)
    ensures |r| <= |s|
  {
    if s == [] || s[0] == 0 then [] else [s[0]] + CString(s[1..])
  }

  function CommandOf(s: Slot): Command {
    if s.isOpcode then Opcode(s.opcode, CString(s.line)) else Text(CString(s.line))
  }

  const REBOOT: bytes := [82, 69, 66, 79, 79, 84]
  const SYSINFO: bytes := [83, 89, 83, 73, 78, 70, 79]

  /** What still runs on the receive thread while the command thread is stuck. */
  predicate Inline(line: bytes) { line == REBOOT || SYSINFO <= line }

  function Ascii(s: string): (r: bytes)
    requires forall i :: 0 <= i < |s| ==> (s[i] as int) < 128
  {
    seq(|s|, i requires 0 <= i < |s| => (s[i] as int) as byte)
  }

  /** REBOOT alone on its line, or anything that begins with SYSINFO. */
  lemma InlineInLetters(line: bytes)
    ensures Inline(line) <==> line == Ascii("REBOOT") || Ascii("SYSINFO") <= line
  {
    RebootBytes();
    SysinfoBytes();
    hide Ascii;
  }

  lemma RebootBytes()
    ensures REBOOT == Ascii("REBOOT")
  {
  }

  lemma SysinfoBytes()
    ensures SYSINFO == Ascii("SYSINFO")
  {
  }

  function Write(q: Queue, s: Id, i: nat, b: byte): (r: Queue)
    requires Sized(q) && i < BUF
    ensures Sized(r)
  {
    q.(slots := q.slots[s := q.slots[s].(line := q.slots[s].line[i := b])])
  }

  // ---- the receive thread, one byte ----

  /** enqueue_line */
  function Enqueue(q: Queue, s: Id): (r: Queue)
    requires Sized(q)
    ensures Sized(r)
  {
    var q1 := q.(slots := q.slots[s := q.slots[s].(isOpcode := false)]);
    var line := CString(q1.slots[s].line);
    if Inline(line) then q1.(inlined := q1.inlined + [Text(line)], free := q1.free + [s])
    else q1.(ready := q1.ready + [s])
  }

  function EndLine(q: Queue): (r: Queue)
    requires Sized(q) && q.rx.Some? && q.rxLen < BUF
    ensures Sized(r)
  {
    var s := q.rx.value;
    var q1 := Write(q, s, q.rxLen, 0).(rxLen := 0, rx := None);
    if q1.slots[s].line[0] != 0 then Enqueue(q1, s) else q1.(free := q1.free + [s])
  }

  function AddChar(q: Queue, b: byte): (r: Queue)
    requires Sized(q) && q.rx.Some? && q.rxLen < BUF
    ensures Sized(r)
  {
    if b == NEWLINE then EndLine(q)
    else if q.rxLen < BUF - 1 then Write(q, q.rx.value, q.rxLen, b).(rxLen := q.rxLen + 1)
    else q
  }

  /** opc_finish */
  function OpcFinish(q: Queue): (r: Queue)
    requires Sized(q)
    ensures Sized(r)
  {
    if q.opc.None? then q.(opcState := OpcNone)
    else
      var s := q.opc.value;
      q.(opcState := OpcNone, slots := q.slots[s := q.slots[s].(isOpcode := true, opcode := q.opcOp)],
         ready := q.ready + [s], opc := None)
  }

  function OpcTerminate(q: Queue, n: nat): (r: Queue)
    requires Sized(q) && n < BUF
    ensures Sized(r)
  {
    OpcFinish(if q.opc.Some? then Write(q, q.opc.value, n, 0) else q)
  }

  function LengthOf(b: byte): (n: nat)
    ensures n < BUF && (n == 0 <==> b == 0)
  {
    b as int
  }

  function OpcodeByte(q: Queue, b: byte): (r: Queue)
    requires Sized(q)
    ensures Sized(r)
  {
    if q.free == [] then q.(opcOp := b, opc := None, busy := q.busy + 1, opcState := WantLen)
    else q.(opcOp := b, opc := Some(q.free[0]), free := q.free[1..], opcState := WantLen)
  }

  function LengthByte(q: Queue, b: byte): (r: Queue)
    requires Sized(q)
    ensures Sized(r)
  {
    var q1 := q.(opcLen := LengthOf(b), opcIdx := 0);
    if b == 0 then OpcTerminate(q1, 0) else q1.(opcState := WantPayload)
  }

  /** The slot's line after one more payload byte. */
  function Typed(q: Queue, b: byte): (r: Queue)
    requires Sized(q) && q.opcIdx < BUF
    ensures Sized(r)
  {
    (if q.opc.Some? then Write(q, q.opc.value, q.opcIdx, b) else q).(opcIdx := q.opcIdx + 1)
  }

  function PayloadByte(q: Queue, b: byte): (r: Queue)
    requires Sized(q) && q.opcIdx < q.opcLen < BUF
    ensures Sized(r)
  {
    var q1 := Typed(q, b);
    if q1.opcIdx >= q1.opcLen then OpcTerminate(q1, q1.opcLen) else q1
  }

  /** opc_feed_byte inside a frame */
  function OpcFeed(q: Queue, b: byte): (r: Queue)
    requires Sized(q) && (q.opcState == WantPayload ==> q.opcIdx < q.opcLen < BUF)
    ensures Sized(r)
  {
    match q.opcState
    case OpcNone => q
    case WantOp => OpcodeByte(q, b)
    case WantLen => LengthByte(q, b)
    case WantPayload => PayloadByte(q, b)
  }

  /** commands_process on one byte */
  function Feed(q: Queue, b: byte): (r: Queue)
    requires Sized(q) && q.rxLen < BUF && (q.opcState == WantPayload ==> q.opcIdx < q.opcLen < BUF)
    ensures Sized(r)
  {
    if q.streaming then q
    else if q.opcState != OpcNone then OpcFeed(q, b)
    else if q.rxLen == 0 && b == OPC_MAGIC then q.(opcState := WantOp)
    else if b == RETURN then q
    else if q.discard then if b == NEWLINE then q.(discard := false) else q
    else if q.rx.Some? then AddChar(q, b)
    else if b == NEWLINE then q
    else if q.free == [] then q.(discard := true, busy := q.busy + 1)
    else AddChar(q.(rx := Some(q.free[0]), free := q.free[1..], rxLen := 0), b)
  }

  // ---- the command thread, and the link going away ----

  function Take(q: Queue): (r: Queue)
    requires Sized(q)
    ensures Sized(r)
  {
    if q.running.Some? || q.ready == [] then q
    else q.(running := Some(q.ready[0]), ready := q.ready[1..], ran := q.ran + [CommandOf(q.slots[q.ready[0]])])
  }

  function Finish(q: Queue): (r: Queue)
    requires Sized(q)
    ensures Sized(r)
  {
    if q.running.None? then q
    else
      var s := q.running.value;
      q.(slots := q.slots[s := q.slots[s].(isOpcode := false)], free := q.free + [s], running := None)
  }

  function Held(o: Option<Id>): seq<Id> { if o.Some? then [o.value] else [] }

  /** commands_on_disconnect */
  function Disconnect(q: Queue): (r: Queue)
    requires Sized(q)
    ensures Sized(r)
  {
    q.(streaming := false, rxLen := 0, discard := false, rx := None, opcState := OpcNone, opc := None,
       free := q.free + Held(q.rx) + Held(q.opc) + q.ready, ready := [])
  }

  /** Where everything starts: the command thread has put every slot on the free list. */
  function Seeded(slots: seq<Slot>): Queue {
    Queue([0, 1], [], None, None, None, slots, 0, false, OpcNone, 0, 0, 0, false, [], [], 0)
  }

  datatype Event = Byte(b: byte) | TakeNext | FinishOne | Drop | Stream(on: bool)

  function Step(q: Queue, e: Event): (r: Queue)
    requires Inv(q)
    ensures Sized(r)
  {
    match e
    case Byte(b) => Feed(q, b)
    case TakeNext => Take(q)
    case FinishOne => Finish(q)
    case Drop => Disconnect(q)
    case Stream(on) => q.(streaming := on)
  }

  /** While a video stream runs its bytes are none of the queue's. */
  lemma {:induction false} StreamedBytesPass(q: Queue, es: seq<Event>)
    requires Inv(q) && q.streaming && forall j :: 0 <= j < |es| ==> es[j].Byte?
    ensures Run(q, es) == q
    decreases |es|
  {
    if es != [] {
      StreamedBytesPass(q, es[1..]);
    }
  }

  // ---- conservation ----

  /** The five places a slot can be. */
  function Places(free: seq<Id>, ready: seq<Id>, rx: Option<Id>, opc: Option<Id>, running: Option<Id>): multiset<Id> {
    multiset(free) + multiset(ready) + multiset(Held(rx)) + multiset(Held(opc)) + multiset(Held(running))
  }

  predicate Placed(q: Queue) { Places(q.free, q.ready, q.rx, q.opc, q.running) == multiset{0, 1} }

  predicate Inv(q: Queue) {
    && Sized(q)
    && Placed(q)
    && q.rxLen < BUF && (q.rx.Some? <==> q.rxLen >= 1) && (q.rx.Some? ==> q.opcState == OpcNone)
    && (q.opc.Some? ==> q.opcState == WantLen || q.opcState == WantPayload)
    && (q.opcState == WantPayload ==> q.opcIdx < q.opcLen < BUF)
  }

  lemma SeededInv(slots: seq<Slot>)
    requires |slots| == DEPTH && forall i :: 0 <= i < DEPTH ==> |slots[i].line| == BUF
    ensures Inv(Seeded(slots))
  {
  }

  lemma HeadAndTail(s: seq<Id>)
    requires s != []
    ensures multiset(s) == multiset{s[0]} + multiset(s[1..])
  {
    assert s == [s[0]] + s[1..];
  }

  lemma FreeToFill(free: seq<Id>, ready: seq<Id>, other: Option<Id>, running: Option<Id>)
    requires free != []
    ensures Places(free[1..], ready, Some(free[0]), other, running) == Places(free, ready, None, other, running)
  {
    HeadAndTail(free);
  }

  lemma FreeToOpcode(free: seq<Id>, ready: seq<Id>, other: Option<Id>, running: Option<Id>)
    requires free != []
    ensures Places(free[1..], ready, other, Some(free[0]), running) == Places(free, ready, other, None, running)
  {
    HeadAndTail(free);
  }

  lemma FillToFree(free: seq<Id>, ready: seq<Id>, s: Id, other: Option<Id>, running: Option<Id>)
    ensures Places(free + [s], ready, None, other, running) == Places(free, ready, Some(s), other, running)
  {
  }

  lemma FillToReady(free: seq<Id>, ready: seq<Id>, s: Id, other: Option<Id>, running: Option<Id>)
    ensures Places(free, ready + [s], None, other, running) == Places(free, ready, Some(s), other, running)
    ensures Places(free, ready + [s], other, None, running) == Places(free, ready, other, Some(s), running)
  {
  }

  lemma ReadyToRunning(free: seq<Id>, ready: seq<Id>, rx: Option<Id>, opc: Option<Id>)
    requires ready != []
    ensures Places(free, ready[1..], rx, opc, Some(ready[0])) == Places(free, ready, rx, opc, None)
  {
    HeadAndTail(ready);
  }

  lemma RunningToFree(free: seq<Id>, ready: seq<Id>, rx: Option<Id>, opc: Option<Id>, s: Id)
    ensures Places(free + [s], ready, rx, opc, None) == Places(free, ready, rx, opc, Some(s))
  {
  }

  lemma AllToFree(free: seq<Id>, ready: seq<Id>, rx: Option<Id>, opc: Option<Id>, running: Option<Id>)
    ensures Places(free + Held(rx) + Held(opc) + ready, [], None, None, running)
         == Places(free, ready, rx, opc, running)
  {
  }

  lemma FinishKeeps(q: Queue)
    requires Sized(q) && Placed(q)
    ensures Placed(OpcFinish(q)) && OpcFinish(q).opc.None?
  {
    hide Places;
    if q.opc.Some? { FillToReady(q.free, q.ready, q.opc.value, q.rx, q.running); }
  }

  lemma OpcodeKeepsInv(q: Queue, b: byte)
    requires Inv(q) && q.opcState == WantOp
    ensures Inv(OpcodeByte(q, b))
  {
    hide Places;
    if q.free != [] { FreeToOpcode(q.free, q.ready, q.rx, q.running); }
  }

  lemma LengthKeepsInv(q: Queue, b: byte)
    requires Inv(q) && q.opcState == WantLen
    ensures Inv(LengthByte(q, b))
  {
    hide Places, LengthOf;
    FinishKeeps((if q.opc.Some? then Write(q, q.opc.value, 0, 0) else q).(opcLen := LengthOf(b), opcIdx := 0));
  }

  lemma PayloadKeepsInv(q: Queue, b: byte)
    requires Inv(q) && q.opcState == WantPayload
    ensures Inv(PayloadByte(q, b))
  {
    hide Places;
    var q1 := (if q.opc.Some? then Write(q, q.opc.value, q.opcIdx, b) else q).(opcIdx := q.opcIdx + 1);
    FinishKeeps(if q.opc.Some? then Write(q1, q.opc.value, q.opcLen, 0) else q1);
  }

  lemma OpcKeepsInv(q: Queue, b: byte)
    requires Inv(q) && q.opcState != OpcNone
    ensures Inv(OpcFeed(q, b))
  {
    hide Sized, Placed, OpcodeByte, LengthByte, PayloadByte;
    match q.opcState
    case WantOp => OpcodeKeepsInv(q, b);
    case WantLen => LengthKeepsInv(q, b);
    case WantPayload => PayloadKeepsInv(q, b);
  }

  /** A finished line's slot goes to the ready queue or straight back. */
  lemma EndLineKeeps(q: Queue)
    requires Sized(q) && Placed(q) && q.rx.Some? && q.rxLen < BUF
    ensures var r := EndLine(q);
      && Placed(r) && r.rx.None? && r.rxLen == 0
      && r == q.(free := r.free, ready := r.ready, rx := None, rxLen := 0, slots := r.slots, inlined := r.inlined)
  {
    hide CString, Places, Inline;
    FillToFree(q.free, q.ready, q.rx.value, q.opc, q.running);
    FillToReady(q.free, q.ready, q.rx.value, q.opc, q.running);
  }

  lemma AddCharKeepsInv(q: Queue, b: byte)
    requires Sized(q) && Placed(q) && q.rx.Some? && q.rxLen < BUF
    requires q.opcState == OpcNone && q.opc.None? && (q.rxLen == 0 ==> b != NEWLINE)
    ensures Inv(AddChar(q, b))
  {
    hide EndLine, Places;
    if b == NEWLINE { EndLineKeeps(q); }
  }

  lemma FeedKeepsInv(q: Queue, b: byte)
    requires Inv(q)
    ensures Inv(Feed(q, b))
  {
    hide AddChar, OpcFeed, Places;
    if q.streaming {
    } else if q.opcState != OpcNone {
      OpcKeepsInv(q, b);
    } else if q.rx.Some? {
      AddCharKeepsInv(q, b);
    } else if q.free != [] && b != NEWLINE {
      FreeToFill(q.free, q.ready, q.opc, q.running);
      AddCharKeepsInv(q.(rx := Some(q.free[0]), free := q.free[1..], rxLen := 0), b);
    }
  }

  /** Whatever comes next, every slot is in exactly one place, and a line being filled holds
      between 1 and 255 bytes. */
  lemma StepKeepsInv(q: Queue, e: Event)
    requires Inv(q)
    ensures Inv(Step(q, e))
  {
    hide CString, Feed, Places;
    match e
    case Byte(b) => FeedKeepsInv(q, b);
    case TakeNext => if q.ready != [] { ReadyToRunning(q.free, q.ready, q.rx, q.opc); }
    case FinishOne => if q.running.Some? { RunningToFree(q.free, q.ready, q.rx, q.opc, q.running.value); }
    case Drop => AllToFree(q.free, q.ready, q.rx, q.opc, q.running);
    case Stream(_) =>
  }

  function Run(q: Queue, es: seq<Event>): Queue
    requires Inv(q)
    decreases |es|
  {
    if es == [] then q
    else
      StepKeepsInv(q, es[0]);
      Run(Step(q, es[0]), es[1..])
  }

  lemma {:induction false} RunKeepsInv(q: Queue, es: seq<Event>)
    requires Inv(q)
    ensures Inv(Run(q, es))
    decreases |es|
  {
    hide Inv, Step;
    if es != [] {
      StepKeepsInv(q, es[0]);
      RunKeepsInv(Step(q, es[0]), es[1..]);
    }
  }

  /** In every run, whatever the threads do, the two slots are never lost, shared or made; and
      while a line is being filled, no byte of it, 0xA5 included, opens a frame. */
  lemma SlotsConserved(slots: seq<Slot>, es: seq<Event>)
    requires Inv(Seeded(slots))
    ensures var q := Run(Seeded(slots), es);
      && Inv(q) && Places(q.free, q.ready, q.rx, q.opc, q.running) == multiset{0, 1}
      && |q.free| + |q.ready| + |Held(q.rx)| + |Held(q.opc)| + |Held(q.running)| == DEPTH
      && (q.rx.Some? ==> (1 <= q.rxLen <= BUF - 1
            && (!q.streaming ==> forall b :: b != NEWLINE && b != RETURN ==>
                  Feed(q, b).opcState == OpcNone && Feed(q, b).rx == q.rx)))
  {
    hide CString, Run;
    var q := Run(Seeded(slots), es);
    RunKeepsInv(Seeded(slots), es);
    assert |Places(q.free, q.ready, q.rx, q.opc, q.running)| == |multiset{0 as Id, 1 as Id}|;
  }

  // ---- order and contents ----

  /** The commands waiting in the ready queue. */
  function Waiting(slots: seq<Slot>, ids: seq<Id>): (c: seq<Command>)
    requires |slots| == DEPTH
    ensures |c| == |ids|
  {
    seq(|ids|, i requires 0 <= i < |ids| => CommandOf(slots[ids[i]]))
  }

  /** Everything accepted for the command thread so far: what it has started, then what waits. */
  function Log(q: Queue): seq<Command>
    requires Sized(q)
  {
    q.ran + Waiting(q.slots, q.ready)
  }

  lemma Apart(q: Queue, s: Id)
    requires Placed(q)
    ensures q.rx == Some(s) || q.opc == Some(s) ==> s !in q.ready && q.running != Some(s)
    ensures q.running == Some(s) ==> s !in q.ready
    ensures q.rx.Some? ==> q.rx != q.opc
  {
    var all := Places(q.free, q.ready, q.rx, q.opc, q.running);
    assert all[s] <= 1;
    assert all[s] == multiset(q.free)[s] + multiset(q.ready)[s] + multiset(Held(q.rx))[s]
      + multiset(Held(q.opc))[s] + multiset(Held(q.running))[s];
    assert q.rx.Some? ==> all[q.rx.value] == 1;
  }

  lemma WaitingUntouched(slots: seq<Slot>, ids: seq<Id>, s: Id, x: Slot)
    requires |slots| == DEPTH && s !in ids
    ensures Waiting(slots[s := x], ids) == Waiting(slots, ids)
  {
    hide CommandOf;
    forall i | 0 <= i < |ids| ensures slots[s := x][ids[i]] == slots[ids[i]] {
      assert ids[i] in ids;
    }
  }

  lemma WaitingGrows(slots: seq<Slot>, ids: seq<Id>, s: Id, x: Slot)
    requires |slots| == DEPTH && s !in ids
    ensures Waiting(slots[s := x], ids + [s]) == Waiting(slots, ids) + [CommandOf(x)]
  {
    hide CommandOf;
    WaitingUntouched(slots, ids, s, x);
  }

  lemma WaitingPeel(slots: seq<Slot>, ids: seq<Id>)
    requires |slots| == DEPTH && ids != []
    ensures Waiting(slots, ids) == [CommandOf(slots[ids[0]])] + Waiting(slots, ids[1..])
  {
    hide CommandOf;
  }

  /** The command thread. */
  predicate Runs(e: Event) { e.TakeNext? || e.FinishOne? }

  /** The command thread changes neither the log nor anything the receive thread is filling. */
  lemma RunsKeeps(q: Queue, e: Event)
    requires Inv(q) && Runs(e)
    ensures var r := Step(q, e);
      && r == q.(free := r.free, ready := r.ready, running := r.running, slots := r.slots, ran := r.ran)
      && Log(r) == Log(q)
      && (q.rx.Some? ==> r.slots[q.rx.value] == q.slots[q.rx.value])
      && (q.opc.Some? ==> r.slots[q.opc.value] == q.slots[q.opc.value])
  {
    hide CommandOf, Places, Waiting;
    if q.running.Some? {
      Apart(q, q.running.value);
      if q.rx.Some? { Apart(q, q.rx.value); }
      if q.opc.Some? { Apart(q, q.opc.value); }
      WaitingUntouched(q.slots, q.ready, q.running.value, q.slots[q.running.value].(isOpcode := false));
    } else if q.ready != [] {
      WaitingPeel(q.slots, q.ready);
    }
  }

  lemma EnqueueLogs(q: Queue, s: Id)
    requires Sized(q) && s !in q.ready
    ensures Log(q) <= Log(Enqueue(q, s))
    ensures var r, line := Enqueue(q, s), CString(q.slots[s].line);
      if Inline(line) then Log(r) == Log(q) && r.inlined == q.inlined + [Text(line)]
      else Log(r) == Log(q) + [Text(line)] && r.inlined == q.inlined
    ensures Enqueue(q, s).ran == q.ran
  {
    hide Inline, CString;
    WaitingUntouched(q.slots, q.ready, s, q.slots[s].(isOpcode := false));
    WaitingGrows(q.slots, q.ready, s, q.slots[s].(isOpcode := false));
  }

  /** What the end of a line does with the text in its slot. */
  lemma EndLineLogs(q: Queue)
    requires Sized(q) && Placed(q) && q.rx.Some? && q.rxLen < BUF
    ensures var r, line := EndLine(q), CString(q.slots[q.rx.value].line[q.rxLen := 0]);
      && r.ran == q.ran && r.busy == q.busy
      && if line == [] then Log(r) == Log(q) && r.inlined == q.inlined
         else if Inline(line) then Log(r) == Log(q) && r.inlined == q.inlined + [Text(line)]
         else Log(r) == Log(q) + [Text(line)] && r.inlined == q.inlined
  {
    hide Inline, Places;
    var s := q.rx.value;
    Apart(q, s);
    var q1 := Write(q, s, q.rxLen, 0).(rxLen := 0, rx := None);
    WaitingUntouched(q.slots, q.ready, s, q1.slots[s]);
    EnqueueLogs(q1, s);
  }

  lemma OpcFinishLogs(q: Queue)
    requires Sized(q) && Placed(q)
    ensures var r := OpcFinish(q);
      && r.ran == q.ran && r.busy == q.busy && r.inlined == q.inlined
      && Log(r) == if q.opc.None? then Log(q) else Log(q) + [Opcode(q.opcOp, CString(q.slots[q.opc.value].line))]
  {
    hide CString, Places;
    if q.opc.Some? {
      var s := q.opc.value;
      Apart(q, s);
      WaitingGrows(q.slots, q.ready, s, q.slots[s].(isOpcode := true, opcode := q.opcOp));
    }
  }

  lemma WriteLogs(q: Queue, s: Id, i: nat, b: byte)
    requires Sized(q) && i < BUF && s !in q.ready
    ensures Log(Write(q, s, i, b)) == Log(q)
  {
    WaitingUntouched(q.slots, q.ready, s, q.slots[s].(line := q.slots[s].line[i := b]));
  }

  lemma TerminateLogs(q: Queue, n: nat)
    requires Sized(q) && Placed(q) && n < BUF
    ensures var r := OpcTerminate(q, n);
      && r.ran == q.ran && r.busy == q.busy && r.inlined == q.inlined
      && Log(r) == if q.opc.None? then Log(q)
                   else Log(q) + [Opcode(q.opcOp, CString(q.slots[q.opc.value].line[n := 0]))]
  {
    hide CString, Places, OpcFinish, Log;
    if q.opc.Some? {
      Apart(q, q.opc.value);
      WriteLogs(q, q.opc.value, n, 0);
      OpcFinishLogs(Write(q, q.opc.value, n, 0));
    } else {
      OpcFinishLogs(q);
    }
  }

  lemma PayloadLogs(q: Queue, b: byte)
    requires Inv(q) && q.opcState == WantPayload
    ensures Log(q) <= Log(PayloadByte(q, b)) && PayloadByte(q, b).ran == q.ran
  {
    hide CString, Places, OpcTerminate, Log;
    var q0 := if q.opc.Some? then Write(q, q.opc.value, q.opcIdx, b) else q;
    if q.opc.Some? {
      Apart(q, q.opc.value);
      WriteLogs(q, q.opc.value, q.opcIdx, b);
    }
    var q1 := q0.(opcIdx := q.opcIdx + 1);
    LogOfFields(q0, q1);
    TerminateLogs(q1, q1.opcLen);
  }

  lemma LengthLogs(q: Queue, b: byte)
    requires Inv(q) && q.opcState == WantLen
    ensures Log(q) <= Log(LengthByte(q, b)) && LengthByte(q, b).ran == q.ran
  {
    hide CString, Places, OpcTerminate, Log, LengthOf;
    var q1 := q.(opcLen := LengthOf(b), opcIdx := 0);
    LogOfFields(q, q1);
    if b == 0 {
      TerminateLogs(q1, 0);
    } else {
      LogOfFields(q, LengthByte(q, b));
    }
  }

  lemma OpcodeLogs(q: Queue, b: byte)
    requires Inv(q) && q.opcState == WantOp
    ensures Log(q) == Log(OpcodeByte(q, b)) && OpcodeByte(q, b).ran == q.ran
  {
    hide Log, Placed, Sized, OpcodeByte;
    OpcodeFields(q, b);
    LogOfFields(q, OpcodeByte(q, b));
  }

  lemma OpcodeFields(q: Queue, b: byte)
    requires Sized(q)
    ensures var r := OpcodeByte(q, b); r.ran == q.ran && r.ready == q.ready && r.slots == q.slots
  {
  }

  lemma OpcFeedLogs(q: Queue, b: byte)
    requires Inv(q) && q.opcState != OpcNone
    ensures Log(q) <= Log(OpcFeed(q, b)) && OpcFeed(q, b).ran == q.ran
  {
    hide Log, Placed, Sized, OpcodeByte, LengthByte, PayloadByte;
    match q.opcState
    case WantOp => OpcodeLogs(q, b);
    case WantLen => LengthLogs(q, b);
    case WantPayload => PayloadLogs(q, b);
  }

  /** The log is the business of three fields. */
  lemma LogOfFields(q: Queue, r: Queue)
    requires Sized(q) && Sized(r) && r.ran == q.ran && r.ready == q.ready && r.slots == q.slots
    ensures Log(r) == Log(q)
  {
  }

  lemma AddCharLogs(q: Queue, b: byte)
    requires Sized(q) && Placed(q) && q.rx.Some? && q.rxLen < BUF
    ensures Log(q) <= Log(AddChar(q, b)) && AddChar(q, b).ran == q.ran
  {
    hide CString, Places, EndLine, Log, Inline;
    Apart(q, q.rx.value);
    if b == NEWLINE {
      EndLineLogs(q);
    } else if q.rxLen < BUF - 1 {
      WriteLogs(q, q.rx.value, q.rxLen, b);
      LogOfFields(Write(q, q.rx.value, q.rxLen, b), AddChar(q, b));
    }
  }

  lemma FeedLogs(q: Queue, b: byte)
    requires Inv(q)
    ensures Log(q) <= Log(Feed(q, b)) && Feed(q, b).ran == q.ran
  {
    hide CString, Places, AddChar, OpcFeed, Log;
    if q.streaming {
    } else if q.opcState != OpcNone {
      OpcFeedLogs(q, b);
    } else if b == RETURN || q.discard {
      LogOfFields(q, Feed(q, b));
    } else if q.rx.Some? {
      AddCharLogs(q, b);
    } else if q.free != [] && b != NEWLINE {
      var q1 := q.(rx := Some(q.free[0]), free := q.free[1..], rxLen := 0);
      FreeToFill(q.free, q.ready, q.opc, q.running);
      LogOfFields(q, q1);
      AddCharLogs(q1, b);
      if b == OPC_MAGIC && q.rxLen == 0 { LogOfFields(q, Feed(q, b)); }
    } else {
      LogOfFields(q, Feed(q, b));
    }
  }

  /** One step never reorders, changes or forgets a command that was accepted, except that a
      disconnect drops those not yet started. */
  lemma StepLogs(q: Queue, e: Event)
    requires Inv(q)
    ensures q.ran <= Step(q, e).ran
    ensures e.Drop? ==> Log(Step(q, e)) == q.ran && Step(q, e).ran == q.ran
    ensures !e.Drop? ==> Log(q) <= Log(Step(q, e))
  {
    hide CString, Places, Feed;
    match e
    case Byte(b) => FeedLogs(q, b);
    case TakeNext => RunsKeeps(q, e);
    case FinishOne => RunsKeeps(q, e);
    case Drop =>
    case Stream(_) => LogOfFields(q, Step(q, e));
  }

  /** Within one connection, commands start in the order they were accepted in, with the
      contents they were accepted with. */
  lemma {:induction false} AcceptedRunInOrder(q: Queue, es: seq<Event>)
    requires Inv(q) && forall j :: 0 <= j < |es| ==> !es[j].Drop?
    ensures Inv(Run(q, es)) && Log(q) <= Log(Run(q, es)) && Run(q, es).ran <= Log(Run(q, es))
    decreases |es|
  {
    hide Log, Step, Inv;
    if es == [] {
      RanIsLogged(q);
    } else {
      StepKeepsInv(q, es[0]);
      StepLogs(q, es[0]);
      AcceptedRunInOrder(Step(q, es[0]), es[1..]);
    }
  }

  lemma RanIsLogged(q: Queue)
    requires Inv(q)
    ensures q.ran <= Log(q)
  {
  }

  // ---- where a frame can open ----

  /** Outside frames 0xA5 opens one exactly when no line holds a slot: also, then, inside a line
      that is being discarded. */
  lemma MagicOpensFrame(q: Queue)
    requires Inv(q) && !q.streaming && q.opcState == OpcNone
    ensures Feed(q, OPC_MAGIC).opcState != OpcNone <==> q.rx.None?
  {
    hide CString, Places;
  }
}
