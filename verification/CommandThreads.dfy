/** The slot queue as the two threads work it: fifos of slots over one array of line buffers. */
module CommandThreads {
  import opened Bytes
  import opened CommandQueue

  class Commands {
    const lines: array<byte>
    const isOpcode: array<bool>
    const opcode: array<byte>
    var cmdFree: seq<Id>
    var cmdReady: seq<Id>
    var rxSlot: Option<Id>
    var opcSlot: Option<Id>
    var executing: Option<Id>
    var rxLen: nat
    var rxDiscard: bool
    var opcState: OpcState
    var opcOpcode: byte
    var opcLen: nat
    var opcIdx: nat
    var vstreamActive: bool
    var authenticated: bool
    var dfuBusy: bool
    var ran: seq<Command>
    var inlined: seq<Command>
    var busy: nat

    ghost predicate Valid()
      reads this
    {
      lines.Length == DEPTH * BUF && isOpcode.Length == DEPTH && opcode.Length == DEPTH
      && lines != opcode && (isOpcode as object) != opcode
    }

    function SlotAt(s: Id): (r: Slot)
      requires Valid()
      reads this, lines, isOpcode, opcode
      ensures |r.line| == BUF
    {
      Slot(isOpcode[s], opcode[s], lines[BUF * s..BUF * s + BUF])
    }

    ghost function View(): (q: Queue)
      requires Valid()
      reads this, lines, isOpcode, opcode
      ensures Sized(q)
    {
      Queue(cmdFree, cmdReady, rxSlot, opcSlot, executing, [SlotAt(0), SlotAt(1)], rxLen, rxDiscard,
            opcState, opcOpcode, opcLen, opcIdx, vstreamActive, ran, inlined, busy)
    }

    /** The command thread seeds the free list before anything else. */
    constructor ()
      ensures Valid() && fresh(lines) && fresh(isOpcode) && fresh(opcode)
      ensures View() == Seeded(View().slots) && Inv(View())
    {
      lines := new byte[DEPTH * BUF](_ => 0);
      isOpcode := new bool[DEPTH](_ => false);
      opcode := new byte[DEPTH](_ => 0);
      rxSlot, opcSlot, executing := None, None, None;
      rxLen, rxDiscard, vstreamActive, busy := 0, false, false, 0;
      authenticated, dfuBusy := false, false;
      opcState, opcOpcode, opcLen, opcIdx := OpcNone, 0, 0, 0;
      ran, inlined := [], [];
      cmdFree, cmdReady := [0, 1], [];
      new;
      SeededInv(View().slots);
    }

    method Store(s: Id, i: nat, b: byte)
      requires Valid() && i < BUF
      modifies lines
      ensures View() == Write(old(View()), s, i, b)
    {
      ghost var was := View();
      lines[BUF * s + i] := b;
      assert SlotAt(0).line == if s == 0 then was.slots[0].line[i := b] else was.slots[0].line;
      assert SlotAt(1).line == if s == 1 then was.slots[1].line[i := b] else was.slots[1].line;
      assert View().slots == Write(was, s, i, b).slots;
    }

    /** dispatch_line or cmd_dispatch_opcode: which command a slot holds. */
    method Dispatch(s: Id) returns (c: Command)
      requires Valid()
      ensures c == CommandOf(View().slots[s])
    {
      var text := CString(lines[BUF * s..BUF * s + BUF]);
      c := if isOpcode[s] then Opcode(opcode[s], text) else Text(text);
    }

    method Flag(s: Id, op: bool, code: byte)
      requires Valid()
      modifies isOpcode, opcode
      ensures var was := old(View());
        View() == was.(slots := was.slots[s := was.slots[s].(isOpcode := op, opcode := code)])
    {
      ghost var was := View();
      isOpcode[s] := op;
      opcode[s] := code;
      assert SlotAt(0).line == was.slots[0].line && SlotAt(1).line == was.slots[1].line;
      assert View().slots == was.slots[s := was.slots[s].(isOpcode := op, opcode := code)];
    }

    method EnqueueLine(s: Id)
      requires Valid()
      modifies isOpcode, opcode, this`inlined, this`cmdFree, this`cmdReady
      ensures Valid() && View() == Enqueue(old(View()), s)
    {
      hide CString, Inline;
      Flag(s, false, opcode[s]);
      var line := CString(lines[BUF * s..BUF * s + BUF]);
      if Inline(line) {
        var c := Dispatch(s);
        inlined := inlined + [c];
        cmdFree := cmdFree + [s];
        return;
      }
      cmdReady := cmdReady + [s];
    }

    method OpcFinishFrame()
      requires Valid()
      modifies isOpcode, opcode, this`opcState, this`cmdReady, this`opcSlot
      ensures Valid() && View() == OpcFinish(old(View()))
    {
      opcState := OpcNone;
      if opcSlot.None? {
        return;
      }
      Flag(opcSlot.value, true, opcOpcode);
      cmdReady := cmdReady + [opcSlot.value];
      opcSlot := None;
    }

    method OpcEnd(n: nat)
      requires Valid() && n < BUF
      modifies lines, isOpcode, opcode, this`opcState, this`cmdReady, this`opcSlot
      ensures Valid() && View() == OpcTerminate(old(View()), n)
    {
      hide Write, OpcFinish;
      if opcSlot.Some? {
        Store(opcSlot.value, n, 0);
      }
      OpcFinishFrame();
    }

    method OpcodeArrives(b: byte)
      requires Valid()
      modifies this`opcOpcode, this`opcSlot, this`busy, this`cmdFree, this`opcState
      ensures Valid() && View() == OpcodeByte(old(View()), b)
    {
      opcOpcode := b;
      if cmdFree == [] {
        opcSlot := None;
        busy := busy + 1;
      } else {
        opcSlot := Some(cmdFree[0]);
        cmdFree := cmdFree[1..];
      }
      opcState := WantLen;
    }

    method LengthArrives(b: byte)
      requires Valid()
      modifies lines, isOpcode, opcode, this`opcState, this`cmdReady, this`opcSlot, this`opcLen, this`opcIdx
      ensures Valid() && View() == LengthByte(old(View()), b)
    {
      hide OpcTerminate, LengthOf;
      opcLen := LengthOf(b);
      opcIdx := 0;
      if b == 0 {
        OpcEnd(0);
      } else {
        opcState := WantPayload;
      }
    }

    method PayloadArrives(b: byte)
      requires Valid() && opcIdx < opcLen < BUF
      modifies lines, isOpcode, opcode, this`opcState, this`cmdReady, this`opcSlot, this`opcIdx
      ensures Valid() && View() == PayloadByte(old(View()), b)
    {
      hide Write, OpcTerminate;
      if opcSlot.Some? && opcIdx < BUF - 1 {
        Store(opcSlot.value, opcIdx, b);
      }
      opcIdx := opcIdx + 1;
      if opcIdx >= opcLen {
        OpcEnd(Min(opcLen, BUF - 1));
      }
    }

    method OpcFeedByte(b: byte)
      requires Valid() && Inv(View()) && opcState != OpcNone
      modifies this, lines, isOpcode, opcode
      ensures Valid() && View() == OpcFeed(old(View()), b)
    {
      hide OpcodeByte, LengthByte, PayloadByte, Placed, Sized;
      match opcState {
        case WantOp => OpcodeArrives(b);
        case WantLen => LengthArrives(b);
        case WantPayload => PayloadArrives(b);
      }
    }

    /** The newline of a text line: an empty line gives its slot back. */
    method LineEnds()
      requires Valid() && rxSlot.Some? && rxLen < BUF
      modifies lines, isOpcode, opcode, this`rxLen, this`rxSlot, this`cmdFree, this`cmdReady, this`inlined
      ensures Valid() && View() == EndLine(old(View()))
    {
      hide Write, Enqueue, CString;
      var s := rxSlot.value;
      Store(s, rxLen, 0);
      rxLen := 0;
      rxSlot := None;
      if lines[BUF * s] != 0 {
        EnqueueLine(s);
      } else {
        cmdFree := cmdFree + [s];
      }
    }

    /** A character of a text line, its slot taken. */
    method LineChar(c: byte)
      requires Valid() && rxSlot.Some? && rxLen < BUF
      modifies lines, isOpcode, opcode, this`rxLen, this`rxSlot, this`cmdFree, this`cmdReady, this`inlined
      ensures Valid() && View() == AddChar(old(View()), c)
    {
      hide Write, EndLine;
      if c == NEWLINE {
        LineEnds();
      } else if rxLen < BUF - 1 {
        Store(rxSlot.value, rxLen, c);
        rxLen := rxLen + 1;
      }
    }

    /** A byte of a text line that is not being discarded, the first one of it taking a slot. */
    method LineByte(b: byte)
      requires Valid() && Inv(View()) && !vstreamActive && opcState == OpcNone && !rxDiscard
      requires b != RETURN && !(rxLen == 0 && b == OPC_MAGIC)
      modifies this, lines, isOpcode, opcode
      ensures Valid() && View() == Feed(old(View()), b)
    {
      hide AddChar, OpcFeed, Places, Sized;
      if rxSlot.None? {
        if b == NEWLINE {
          return;
        }
        if cmdFree == [] {
          rxDiscard := true;
          busy := busy + 1;
          return;
        }
        rxSlot := Some(cmdFree[0]);
        cmdFree := cmdFree[1..];
        rxLen := 0;
      }
      LineChar(b);
    }

    /** One byte of commands_process. */
    method RxByte(b: byte)
      requires Valid() && Inv(View())
      modifies this, lines, isOpcode, opcode
      ensures Valid() && View() == Feed(old(View()), b) && Inv(View())
    {
      hide AddChar, OpcFeed, Places, Sized;
      FeedKeepsInv(View(), b);
      if vstreamActive {
        return;
      }
      if opcState != OpcNone {
        OpcFeedByte(b);
        return;
      }
      if rxLen == 0 && b == OPC_MAGIC {
        opcState := WantOp;
        return;
      }
      if b == RETURN {
        return;
      }
      if rxDiscard {
        if b == NEWLINE {
          rxDiscard := false;
        }
        return;
      }
      LineByte(b);
    }

    /** commands_process */
    method Process(data: bytes)
      requires Valid() && Inv(View())
      modifies this, lines, isOpcode, opcode
      ensures Valid() && Inv(View())
      ensures View() == Run(old(View()), Arriving(data))
    {
      hide Feed, Inv, Run;
      ghost var was := View();
      RunNothing(was);
      for i := 0 to |data|
        invariant Valid() && Inv(View()) && View() == Run(was, Arriving(data[..i]))
      {
        RxByte(data[i]);
        RunOneMore(was, Arriving(data[..i]), Byte(data[i]));
        assert Arriving(data[..i]) + [Byte(data[i])] == Arriving(data[..i + 1]);
      }
      assert data[..|data|] == data;
    }

    /** The command thread picks the next command and runs it. */
    method CmdTake()
      requires Valid() && Inv(View())
      modifies this`executing, this`cmdReady, this`ran
      ensures Valid() && View() == Take(old(View())) && Inv(View())
    {
      hide CommandOf, Places;
      StepKeepsInv(View(), TakeNext);
      if executing.Some? || cmdReady == [] {
        return;
      }
      var s := cmdReady[0];
      cmdReady := cmdReady[1..];
      executing := Some(s);
      var c := Dispatch(s);
      ran := ran + [c];
    }

    method CmdFinish()
      requires Valid() && Inv(View())
      modifies isOpcode, opcode, this`executing, this`cmdFree
      ensures Valid() && View() == Finish(old(View())) && Inv(View())
    {
      hide Places;
      StepKeepsInv(View(), FinishOne);
      if executing.None? {
        return;
      }
      Flag(executing.value, false, opcode[executing.value]);
      cmdFree := cmdFree + [executing.value];
      executing := None;
    }

    /** Discard a half-received line. */
    method ResetLine()
      requires Valid()
      modifies this`rxLen, this`rxDiscard, this`rxSlot, this`cmdFree
      ensures Valid() && View() ==
        old(View()).(rxLen := 0, discard := false, rx := None, free := old(cmdFree) + Held(old(rxSlot)))
    {
      rxLen := 0;
      rxDiscard := false;
      if rxSlot.Some? {
        cmdFree := cmdFree + [rxSlot.value];
        rxSlot := None;
      }
    }

    /** Discard a half-received frame. */
    method ResetFrame()
      requires Valid()
      modifies this`opcState, this`opcSlot, this`cmdFree
      ensures Valid() && View() ==
        old(View()).(opcState := OpcNone, opc := None, free := old(cmdFree) + Held(old(opcSlot)))
    {
      opcState := OpcNone;
      if opcSlot.Some? {
        cmdFree := cmdFree + [opcSlot.value];
        opcSlot := None;
      }
    }

    /** commands_on_disconnect */
    method OnDisconnect()
      requires Valid() && Inv(View())
      modifies this
      ensures Valid() && View() == Disconnect(old(View())) && Inv(View())
      ensures !authenticated && !dfuBusy
    {
      hide Places, Held;
      StepKeepsInv(View(), Drop);
      hide Inv, Placed;
      vstreamActive := false;
      authenticated := false;
      ResetLine();
      ResetFrame();
      dfuBusy := false;
      DrainReady();
    }

    /** Nothing that is still waiting outlives its connection. */
    method DrainReady()
      requires Valid()
      modifies this`cmdFree, this`cmdReady
      ensures Valid() && View() == old(View()).(free := old(cmdFree) + old(cmdReady), ready := [])
    {
      ghost var all := cmdFree + cmdReady;
      while cmdReady != []
        invariant Valid() && cmdFree + cmdReady == all
        decreases |cmdReady|
      {
        cmdFree := cmdFree + [cmdReady[0]];
        cmdReady := cmdReady[1..];
      }
    }
  }

  /** Bytes arriving one after the other. */
  function Arriving(data: bytes): (es: seq<Event>)
    ensures |es| == |data|
  {
    seq(|data|, i requires 0 <= i < |data| => Byte(data[i]))
  }

  lemma RunNothing(q: Queue)
    requires Inv(q)
    ensures Run(q, Arriving([])) == q
  {
  }

  lemma {:induction false} RunOneMore(q: Queue, es: seq<Event>, e: Event)
    requires Inv(q)
    ensures Inv(Run(q, es)) && Run(q, es + [e]) == Step(Run(q, es), e)
    decreases |es|
  {
    hide Step, Inv;
    RunKeepsInv(q, es);
    if es == [] {
      assert [e][1..] == [];
    } else {
      StepKeepsInv(q, es[0]);
      assert (es + [e])[1..] == es[1..] + [e];
      RunOneMore(Step(q, es[0]), es[1..], e);
    }
  }
}
