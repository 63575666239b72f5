/**
 * What becomes of a whole command, a text line or an opcode frame, on its way through the slot
 * queue, the command thread taking and finishing slots between any two of its bytes.
 */
module CommandDelivery {
  import opened Bytes
  import opened CommandQueue

  /** What a host sends. */
  datatype Token = Line(text: bytes) | Frame(op: byte, len: byte, args: bytes)

  function Wire(t: Token): bytes {
    match t
    case Line(text) => text + [NEWLINE]
    case Frame(op, len, args) => [OPC_MAGIC, op, len] + args
  }

  /** A line without its carriage returns. */
  function Kept(text: bytes): bytes {
    if text == [] then [] else (if text[0] == RETURN then [] else [text[0]]) + Kept(text[1..])
  }

  /** Carriage returns before the first byte that counts. */
  function Lead(text: bytes): nat {
    if text == [] || text[0] != RETURN then 0 else 1 + Lead(text[1..])
  }

  /** A line that is one line, not empty, and does not begin as a frame; a frame that is as long
      as it says. */
  predicate Proper(t: Token) {
    match t
    case Line(text) => Kept(text) != [] && Kept(text)[0] != OPC_MAGIC && NEWLINE !in text
    case Frame(_, len, args) => |args| == len as int
  }

  /** The command a token stands for. A line keeps its first 255 bytes, and what a handler sees
      of a line or of arguments ends at the first zero. */
  function Meaning(t: Token): Command {
    match t
    case Line(text) => Text(CString(Kept(text)[..Min(|Kept(text)|, BUF - 1)]))
    case Frame(op, _, args) => Opcode(op, CString(args))
  }

  /** Between two commands. */
  predicate AtRest(q: Queue) {
    Inv(q) && !q.streaming && q.opcState == OpcNone && q.rx.None? && !q.discard
  }

  /** What was accepted, run inline and refused. */
  datatype Ledger = Ledger(log: seq<Command>, inlined: seq<Command>, busy: nat)

  function LedgerOf(q: Queue): Ledger
    requires Sized(q)
  {
    Ledger(Log(q), q.inlined, q.busy)
  }

  /** A command handed over: queued, run at once, or nothing for an empty line. */
  function Booked(was: Ledger, c: Command): Ledger {
    if c.Text? && c.line == [] then was
    else if c.Text? && Inline(c.line) then was.(inlined := was.inlined + [c])
    else was.(log := was.log + [c])
  }

  /** What becomes of a token: the command it stands for, or one BUSY reply. */
  predicate Outcome(q: Queue, t: Token, got: bool, was: Ledger) {
    AtRest(q) && LedgerOf(q) == if got then Booked(was, Meaning(t)) else was.(busy := was.busy + 1)
  }

  lemma {:induction false} CStringEnds(s: bytes, n: nat)
    requires n < |s| && s[n] == 0
    ensures CString(s) == CString(s[..n])
  {
    if n > 0 {
      assert s[..n][0] == s[0] && s[1..][..n - 1] == s[..n][1..];
      CStringEnds(s[1..], n - 1);
    }
  }

  lemma LineEnds(line: bytes, text: bytes)
    requires |text| < |line| && line[..|text|] == text
    ensures CString(line[|text| := 0]) == CString(text)
  {
    hide CString;
    assert line[|text| := 0][..|text|] == line[..|text|];
    CStringEnds(line[|text| := 0], |text|);
  }

  lemma {:induction false} KeptConcat(a: bytes, b: bytes)
    ensures Kept(a + b) == Kept(a) + Kept(b)
  {
    if a == [] {
      assert a + b == b;
    } else {
      assert (a + b)[1..] == a[1..] + b;
      KeptConcat(a[1..], b);
    }
  }

  lemma KeptNext(text: bytes, k: nat)
    requires k < |text|
    ensures Kept(text[..k + 1]) == Kept(text[..k]) + if text[k] == RETURN then [] else [text[k]]
  {
    assert text[..k + 1] == text[..k] + [text[k]];
    assert [text[k]][1..] == [];
    KeptConcat(text[..k], [text[k]]);
  }

  // ---- a line ----

  /** The k bytes of a line that have arrived are in its slot, or it is being discarded. */
  predicate InLine(q: Queue, text: bytes, k: nat, got: bool, was: Ledger)
    requires k <= |text|
  {
    var kept := Kept(text[..k]);
    && Inv(q) && !q.streaming && q.opcState == OpcNone
    && if got then
         && q.rx.Some? && !q.discard && LedgerOf(q) == was && q.rxLen == Min(|kept|, BUF - 1)
         && q.slots[q.rx.value].line[..q.rxLen] == kept[..q.rxLen]
       else q.rx.None? && q.discard && LedgerOf(q) == was.(busy := was.busy + 1)
  }

  lemma LineByte(q: Queue, text: bytes, k: nat, got: bool, was: Ledger)
    requires k < |text| && text[k] != NEWLINE && (got || text[k] != OPC_MAGIC)
    requires InLine(q, text, k, got, was)
    ensures InLine(Feed(q, text[k]), text, k + 1, got, was)
  {
    hide CString, Places, OpcFeed, Log, EndLine, Kept;
    var b, r, kept := text[k], Feed(q, text[k]), Kept(text[..k]);
    FeedKeepsInv(q, b);
    KeptNext(text, k);
    if got && b != RETURN {
      var s := q.rx.value;
      Apart(q, s);
      if q.rxLen < BUF - 1 {
        WriteLogs(q, s, q.rxLen, b);
        LogOfFields(Write(q, s, q.rxLen, b), r);
        assert r.slots[s].line[..r.rxLen] == q.slots[s].line[..q.rxLen] + [b];
        assert (kept + [b])[..r.rxLen] == kept[..q.rxLen] + [b];
      } else {
        assert (kept + [b])[..r.rxLen] == kept[..q.rxLen];
      }
    }
  }

  lemma FirstLineByte(q: Queue, text: bytes)
    requires AtRest(q) && text != [] && text[0] != RETURN && text[0] != NEWLINE && text[0] != OPC_MAGIC
    ensures InLine(Feed(q, text[0]), text, 1, q.free != [], LedgerOf(q))
  {
    hide CString, Places, OpcFeed, Log, EndLine, Kept;
    var b, r := text[0], Feed(q, text[0]);
    FeedKeepsInv(q, b);
    KeptFirst(text);
    if q.free == [] {
      LogOfFields(q, r);
    } else {
      var q1 := q.(rx := Some(q.free[0]), free := q.free[1..], rxLen := 0);
      FreeToFill(q.free, q.ready, q.opc, q.running);
      LogOfFields(q, q1);
      Apart(q1, q.free[0]);
      WriteLogs(q1, q.free[0], 0, b);
      LogOfFields(Write(q1, q.free[0], 0, b), r);
      assert r.slots[q.free[0]].line[..1] == [b];
    }
  }

  lemma KeptFirst(text: bytes)
    requires text != [] && text[0] != RETURN
    ensures Kept(text[..1]) == [text[0]] && Kept(text) == [text[0]] + Kept(text[1..])
  {
    assert text[..1][1..] == [];
  }

  lemma LastLineByte(q: Queue, text: bytes, got: bool, was: Ledger)
    requires InLine(q, text, |text|, got, was)
    ensures Outcome(Feed(q, NEWLINE), Line(text), got, was)
  {
    hide Places, OpcFeed, Log, EndLine, Inline, CString, Kept;
    assert text[..|text|] == text;
    FeedKeepsInv(q, NEWLINE);
    if got {
      var n := q.rxLen;
      LineEnds(q.slots[q.rx.value].line, Kept(text)[..n]);
      EndLineLogs(q);
      EndLineKeeps(q);
    } else {
      LogOfFields(q, Feed(q, NEWLINE));
    }
  }

  // ---- the command thread in between ----

  /** The bytes among the events. */
  function Received(es: seq<Event>): bytes {
    if es == [] then [] else (if es[0].Byte? then [es[0].b] else []) + Received(es[1..])
  }

  /** Nothing but bytes and the command thread. */
  predicate Busy(es: seq<Event>) { forall j :: 0 <= j < |es| ==> es[j].Byte? || Runs(es[j]) }

  /** Whether a slot is free at the moment byte number n arrives. */
  predicate FreeAt(q: Queue, es: seq<Event>, n: nat)
    requires Inv(q)
    decreases |es|
  {
    es != [] && (
      StepKeepsInv(q, es[0]);
      if !es[0].Byte? then FreeAt(Step(q, es[0]), es[1..], n)
      else if n == 0 then q.free != []
      else FreeAt(Step(q, es[0]), es[1..], n - 1))
  }

  lemma AtRestRuns(q: Queue, e: Event)
    requires AtRest(q) && Runs(e)
    ensures AtRest(Step(q, e)) && LedgerOf(Step(q, e)) == LedgerOf(q)
  {
    hide Log, Places, Take, Finish;
    StepKeepsInv(q, e);
    RunsKeeps(q, e);
  }

  lemma {:induction false} AfterToken(q: Queue, es: seq<Event>, t: Token, got: bool, was: Ledger)
    requires Outcome(q, t, got, was) && Busy(es) && Received(es) == []
    ensures Outcome(Run(q, es), t, got, was)
    decreases |es|
  {
    hide LedgerOf, Step, Inv, Booked;
    if es != [] {
      AtRestSane(q);
      AtRestRuns(q, es[0]);
      AfterToken(Step(q, es[0]), es[1..], t, got, was);
    }
  }

  lemma AtRestSane(q: Queue)
    requires AtRest(q)
    ensures Inv(q) && Sized(q)
  {
  }

  lemma InLineRuns(q: Queue, e: Event, text: bytes, k: nat, got: bool, was: Ledger)
    requires k <= |text| && InLine(q, text, k, got, was) && Runs(e)
    ensures Inv(q) && InLine(Step(q, e), text, k, got, was)
  {
    hide Log, Places, Take, Finish, Kept;
    StepKeepsInv(q, e);
    RunsKeeps(q, e);
  }

  lemma InLineSane(q: Queue, text: bytes, k: nat, got: bool, was: Ledger)
    requires k <= |text| && InLine(q, text, k, got, was)
    ensures Inv(q) && !q.streaming
  {
  }

  lemma ReceivedSplits(es: seq<Event>)
    requires es != []
    ensures if es[0].Byte? then Received(es) == [es[0].b] + Received(es[1..]) && Received(es)[1..] == Received(es[1..])
            else Received(es) == Received(es[1..])
  {
    if es[0].Byte? { assert ([es[0].b] + Received(es[1..]))[1..] == Received(es[1..]); }
  }

  /** What is still to be received after the first event. */
  lemma NextByte(es: seq<Event>, w: bytes, k: nat)
    requires es != [] && k < |w| && Received(es) == w[k..]
    ensures if es[0].Byte? then es[0].b == w[k] && Received(es[1..]) == w[k + 1..] else Received(es[1..]) == w[k..]
  {
    hide Received;
    ReceivedSplits(es);
    if es[0].Byte? {
      assert Received(es)[0] == w[k];
      assert Received(es)[1..] == w[k..][1..] == w[k + 1..];
    }
  }

  /** The rest of a line. */
  lemma {:induction false} RestOfLine(q: Queue, es: seq<Event>, text: bytes, k: nat, got: bool, was: Ledger)
    requires NEWLINE !in text && (got || OPC_MAGIC !in text)
    requires k <= |text| && InLine(q, text, k, got, was)
    requires Busy(es) && Received(es) == Wire(Line(text))[k..]
    ensures Inv(q) && Outcome(Run(q, es), Line(text), got, was)
    decreases |es|
  {
    hide InLine, Outcome, Feed, Take, Finish, Inv;
    InLineSane(q, text, k, got, was);
    var e := es[0];
    NextByte(es, Wire(Line(text)), k);
    if Runs(e) {
      InLineRuns(q, e, text, k, got, was);
      RestOfLine(Step(q, e), es[1..], text, k, got, was);
    } else if k < |text| {
      LineByte(q, text, k, got, was);
      RestOfLine(Step(q, e), es[1..], text, k + 1, got, was);
    } else {
      LastLineByte(q, text, got, was);
      AfterToken(Step(q, e), es[1..], Line(text), got, was);
    }
  }

  /** A carriage return or an empty line between two commands is nothing. */
  lemma BlankIgnored(q: Queue, b: byte)
    requires AtRest(q) && (b == RETURN || b == NEWLINE)
    ensures Feed(q, b) == q
  {
  }

  /** Taking a leading carriage return off a line. */
  lemma LeadPeels(text: bytes)
    requires text != [] && text[0] == RETURN
    ensures Kept(text) == Kept(text[1..]) && Lead(text) == 1 + Lead(text[1..])
    ensures Wire(Line(text))[1..] == Wire(Line(text[1..]))
    ensures OPC_MAGIC in text <==> OPC_MAGIC in text[1..]
    ensures NEWLINE in text <==> NEWLINE in text[1..]
  {
    assert text == [text[0]] + text[1..];
  }

  lemma {:induction false} WholeLine(q: Queue, es: seq<Event>, text: bytes)
    requires Proper(Line(text)) && AtRest(q)
    requires Busy(es) && Received(es) == Wire(Line(text))
    requires FreeAt(q, es, Lead(text)) || OPC_MAGIC !in text
    ensures Outcome(Run(q, es), Line(text), FreeAt(q, es, Lead(text)), LedgerOf(q))
    decreases |es|
  {
    hide LedgerOf, Feed, Take, Finish, Placed, Sized, InLine, Kept, Booked;
    var e, w := es[0], Wire(Line(text));
    ProperLine(text);
    assert w[0..] == w;
    NextByte(es, w, 0);
    if Runs(e) {
      AtRestRuns(q, e);
      WholeLine(Step(q, e), es[1..], text);
    } else if text[0] == RETURN {
      BlankIgnored(q, RETURN);
      LeadPeels(text);
      WholeLine(q, es[1..], text[1..]);
    } else {
      KeptFirst(text);
      FirstLineByte(q, text);
      RestOfLine(Step(q, e), es[1..], text, 1, q.free != [], LedgerOf(q));
    }
  }

  lemma ProperLine(text: bytes)
    requires Proper(Line(text))
    ensures text != []
  {
  }

  // ---- an opcode frame ----

  /** k bytes of a frame have arrived. */
  predicate InFrame(q: Queue, t: Token, k: nat, got: bool, was: Ledger)
    requires t.Frame?
  {
    && Inv(q) && !q.streaming && q.rx.None? && !q.discard
    && if k == 1 then q.opcState == WantOp && LedgerOf(q) == was
       else
         && q.opcOp == t.op && got == q.opc.Some?
         && LedgerOf(q) == (if got then was else was.(busy := was.busy + 1))
         && if k == 2 then q.opcState == WantLen
            else
              && 3 <= k < 3 + |t.args| && q.opcState == WantPayload && q.opcLen == |t.args| && q.opcIdx == k - 3
              && (got ==> q.slots[q.opc.value].line[..k - 3] == t.args[..k - 3])
  }

  lemma FrameStarts(q: Queue, t: Token, got: bool)
    requires t.Frame? && AtRest(q)
    ensures InFrame(Feed(q, OPC_MAGIC), t, 1, got, LedgerOf(q))
  {
    hide Log, Placed, OpcFeed, AddChar;
    FeedKeepsInv(q, OPC_MAGIC);
    LogOfFields(q, Feed(q, OPC_MAGIC));
  }

  lemma FrameOpcode(q: Queue, t: Token, got: bool, was: Ledger)
    requires t.Frame? && InFrame(q, t, 1, got, was)
    ensures InFrame(OpcFeed(q, t.op), t, 2, q.free != [], was)
  {
    hide Log, Placed, Sized, LengthByte, PayloadByte;
    OpcKeepsInv(q, t.op);
    OpcodeFields(q, t.op);
    LogOfFields(q, OpcodeByte(q, t.op));
  }

  lemma FrameLength(q: Queue, t: Token, got: bool, was: Ledger)
    requires t.Frame? && Proper(t) && InFrame(q, t, 2, got, was)
    ensures t.args == [] ==> Outcome(OpcFeed(q, t.len), t, got, was)
    ensures t.args != [] ==> InFrame(OpcFeed(q, t.len), t, 3, got, was)
  {
    hide Log, Places, CString, OpcTerminate, OpcodeByte, PayloadByte;
    OpcKeepsInv(q, t.len);
    var q1 := q.(opcLen := LengthOf(t.len), opcIdx := 0);
    LogOfFields(q, q1);
    if t.args == [] {
      TerminateLogs(q1, 0);
      TerminateRests(q1, 0);
      if got { LineEnds(q.slots[q.opc.value].line, []); }
    } else {
      LogOfFields(q, LengthByte(q, t.len));
    }
  }

  lemma TerminateRests(q: Queue, n: nat)
    requires Sized(q) && n < BUF
    ensures var r := OpcTerminate(q, n);
      r.opcState == OpcNone && r.rx == q.rx && r.discard == q.discard && r.streaming == q.streaming
      && r.busy == q.busy
  {
  }

  lemma TypedKeeps(q: Queue, t: Token, k: nat, got: bool, was: Ledger)
    requires t.Frame? && k >= 3 && InFrame(q, t, k, got, was)
    ensures var r, j := Typed(q, t.args[k - 3]), k - 3;
      && Placed(r) && LedgerOf(r) == LedgerOf(q)
      && r == q.(slots := r.slots, opcIdx := j + 1)
      && (got ==> r.slots[q.opc.value].line[..j + 1] == t.args[..j + 1])
  {
    hide Log, Places, CString;
    var b, j := t.args[k - 3], k - 3;
    if got {
      Apart(q, q.opc.value);
      WriteLogs(q, q.opc.value, j, b);
      var q0 := Write(q, q.opc.value, j, b);
      assert q0.slots[q.opc.value].line[..j + 1] == q.slots[q.opc.value].line[..j] + [b];
      assert t.args[..j + 1] == t.args[..j] + [b];
      LogOfFields(q0, Typed(q, b));
    } else {
      LogOfFields(q, Typed(q, b));
    }
  }

  lemma FrameEnds(q: Queue, t: Token, got: bool, was: Ledger)
    requires t.Frame? && Proper(t) && t.args != [] && InFrame(q, t, 2 + |t.args|, got, was)
    ensures Outcome(OpcFeed(q, t.args[|t.args| - 1]), t, got, was)
  {
    hide Log, Placed, CString, OpcTerminate, OpcodeByte, LengthByte, Typed;
    var n := |t.args|;
    OpcKeepsInv(q, t.args[n - 1]);
    TypedKeeps(q, t, n + 2, got, was);
    var q1 := Typed(q, t.args[n - 1]);
    TerminateLogs(q1, n);
    TerminateRests(q1, n);
    assert t.args[..n] == t.args;
    if got { LineEnds(q1.slots[q.opc.value].line, t.args); }
  }

  lemma FramePayload(q: Queue, t: Token, k: nat, got: bool, was: Ledger)
    requires t.Frame? && Proper(t) && 3 <= k < 2 + |t.args| && InFrame(q, t, k, got, was)
    ensures InFrame(OpcFeed(q, t.args[k - 3]), t, k + 1, got, was)
  {
    hide Log, Places, CString, OpcTerminate, OpcodeByte, LengthByte, Write;
    OpcKeepsInv(q, t.args[k - 3]);
    TypedKeeps(q, t, k, got, was);
  }

  lemma InFrameRuns(q: Queue, e: Event, t: Token, k: nat, got: bool, was: Ledger)
    requires t.Frame? && InFrame(q, t, k, got, was) && Runs(e)
    ensures Inv(q) && InFrame(Step(q, e), t, k, got, was)
  {
    hide Log, Places, Take, Finish;
    StepKeepsInv(q, e);
    RunsKeeps(q, e);
  }

  lemma InFrameSane(q: Queue, t: Token, k: nat, got: bool, was: Ledger)
    requires t.Frame? && InFrame(q, t, k, got, was)
    ensures Inv(q) && !q.streaming && q.opcState != OpcNone
    ensures k == 1 || k == 2 || 3 <= k < 3 + |t.args|
  {
  }

  /** The rest of a frame after its length byte, or the whole of it. */
  lemma {:induction false} RestOfFrame(q: Queue, es: seq<Event>, t: Token, k: nat, got: bool, was: Ledger)
    requires t.Frame? && Proper(t) && 2 <= k && InFrame(q, t, k, got, was)
    requires Busy(es) && k < |Wire(t)| && Received(es) == Wire(t)[k..]
    ensures Inv(q) && Outcome(Run(q, es), t, got, was)
    decreases |es|
  {
    hide InFrame, Outcome, OpcFeed, Proper, Take, Finish, Inv, Places, Sized;
    InFrameSane(q, t, k, got, was);
    var e, w := es[0], Wire(t);
    NextByte(es, w, k);
    if Runs(e) {
      InFrameRuns(q, e, t, k, got, was);
      RestOfFrame(Step(q, e), es[1..], t, k, got, was);
    } else {
      if k == 2 {
        FrameLength(q, t, got, was);
      } else if k < 2 + |t.args| {
        FramePayload(q, t, k, got, was);
      } else {
        FrameEnds(q, t, got, was);
      }
      if k + 1 == |w| {
        AfterToken(Step(q, e), es[1..], t, got, was);
      } else {
        RestOfFrame(Step(q, e), es[1..], t, k + 1, got, was);
      }
    }
  }

  /** From the magic byte on; whether there is a slot is settled by the opcode byte. */
  lemma {:induction false} FrameFromOpcode(q: Queue, es: seq<Event>, t: Token, was: Ledger)
    requires t.Frame? && Proper(t) && InFrame(q, t, 1, true, was)
    requires Busy(es) && Received(es) == Wire(t)[1..]
    ensures Inv(q) && Outcome(Run(q, es), t, FreeAt(q, es, 0), was)
    decreases |es|
  {
    hide InFrame, Outcome, OpcFeed, Proper, Take, Finish, Inv, Places, Sized;
    InFrameSane(q, t, 1, true, was);
    var e := es[0];
    NextByte(es, Wire(t), 1);
    if Runs(e) {
      InFrameRuns(q, e, t, 1, true, was);
      FrameFromOpcode(Step(q, e), es[1..], t, was);
    } else {
      FrameOpcode(q, t, true, was);
      RestOfFrame(Step(q, e), es[1..], t, 2, q.free != [], was);
    }
  }

  lemma {:induction false} WholeFrame(q: Queue, es: seq<Event>, t: Token)
    requires t.Frame? && Proper(t) && AtRest(q)
    requires Busy(es) && Received(es) == Wire(t)
    ensures Outcome(Run(q, es), t, FreeAt(q, es, 1), LedgerOf(q))
    decreases |es|
  {
    hide Log, InFrame, Outcome, Feed, Proper, Take, Finish, Placed, Sized;
    var e, w := es[0], Wire(t);
    assert w[0..] == w;
    NextByte(es, w, 0);
    if Runs(e) {
      AtRestRuns(q, e);
      WholeFrame(Step(q, e), es[1..], t);
    } else {
      FrameStarts(q, t, true);
      FrameFromOpcode(Step(q, e), es[1..], t, LedgerOf(q));
    }
  }

  // ---- a frame opened inside a discarded line ----

  /** More has happened than one refused command: a second BUSY, a command accepted, or a frame
      holding a slot. */
  predicate Spoilt(q: Queue, was: Ledger) {
    && Inv(q) && !q.streaming && |Log(q)| >= |was.log|
    && (q.busy > was.busy + 1 || |Log(q)| > |was.log| || q.opc.Some?)
  }

  lemma SpoiltIsNoRefusal(q: Queue, t: Token, was: Ledger)
    requires Spoilt(q, was)
    ensures !Outcome(q, t, false, was)
  {
    hide Log, Placed, Sized, Booked;
  }

  lemma AddCharBusy(q: Queue, b: byte)
    requires Sized(q) && q.rx.Some? && q.rxLen < BUF
    ensures AddChar(q, b).busy == q.busy && AddChar(q, b).streaming == q.streaming
  {
    hide CString, Inline;
  }

  lemma PayloadBusy(q: Queue, b: byte)
    requires Sized(q) && q.opcIdx < q.opcLen < BUF
    ensures PayloadByte(q, b).busy == q.busy && PayloadByte(q, b).streaming == q.streaming
  {
    hide OpcTerminate;
    TerminateRests(Typed(q, b), q.opcLen);
  }

  lemma LengthBusy(q: Queue, b: byte)
    requires Sized(q)
    ensures LengthByte(q, b).busy == q.busy && LengthByte(q, b).streaming == q.streaming
  {
    hide OpcTerminate, LengthOf;
    TerminateRests(q.(opcLen := LengthOf(b), opcIdx := 0), 0);
  }

  lemma OpcodeBusy(q: Queue, b: byte)
    requires Sized(q)
    ensures OpcodeByte(q, b).busy >= q.busy && OpcodeByte(q, b).streaming == q.streaming
  {
  }

  lemma OpcFeedBusy(q: Queue, b: byte)
    requires Inv(q)
    ensures OpcFeed(q, b).busy >= q.busy && OpcFeed(q, b).streaming == q.streaming
  {
    hide Placed, Sized, OpcodeByte, LengthByte, PayloadByte;
    match q.opcState
    case OpcNone =>
    case WantOp => OpcodeBusy(q, b);
    case WantLen => LengthBusy(q, b);
    case WantPayload => PayloadBusy(q, b);
  }

  lemma FeedBusy(q: Queue, b: byte)
    requires Inv(q)
    ensures Feed(q, b).busy >= q.busy && Feed(q, b).streaming == q.streaming
  {
    hide AddChar, OpcFeed, Placed;
    OpcFeedBusy(q, b);
    if q.rx.Some? {
      AddCharBusy(q, b);
    } else if q.free != [] {
      AddCharBusy(q.(rx := Some(q.free[0]), free := q.free[1..], rxLen := 0), b);
    }
  }

  lemma FrameHolds(q: Queue, b: byte)
    requires Inv(q) && q.opc.Some?
    ensures OpcFeed(q, b).opc.Some? || |Log(OpcFeed(q, b))| > |Log(q)|
  {
    hide Places, CString, OpcTerminate, OpcodeByte, LengthOf, Log, Write;
    if q.opcState == WantLen {
      var q1 := q.(opcLen := LengthOf(b), opcIdx := 0);
      LogOfFields(q, q1);
      TerminateLogs(q1, 0);
    } else {
      FrameTyped(q, b);
      TerminateLogs(Typed(q, b), q.opcLen);
    }
  }

  lemma FrameTyped(q: Queue, b: byte)
    requires Inv(q) && q.opc.Some? && q.opcState == WantPayload
    ensures var r := Typed(q, b);
      Placed(r) && r.opc == q.opc && r.opcLen == q.opcLen && Log(r) == Log(q)
  {
    hide Places, Log;
    Apart(q, q.opc.value);
    WriteLogs(q, q.opc.value, q.opcIdx, b);
    LogOfFields(Write(q, q.opc.value, q.opcIdx, b), Typed(q, b));
  }

  lemma SpoiltStep(q: Queue, e: Event, was: Ledger)
    requires Spoilt(q, was) && (e.Byte? || Runs(e))
    ensures Spoilt(Step(q, e), was)
  {
    hide Log, Placed, Sized, OpcFeed, AddChar, Take, Finish;
    StepKeepsInv(q, e);
    if e.Byte? {
      FeedBusy(q, e.b);
      FeedLogs(q, e.b);
      if q.opc.Some? { FrameHolds(q, e.b); }
    } else {
      RunsKeeps(q, e);
    }
  }

  lemma {:induction false} SpoiltStays(q: Queue, es: seq<Event>, was: Ledger)
    requires Spoilt(q, was) && Busy(es)
    ensures Spoilt(Run(q, es), was)
    decreases |es|
  {
    hide Step, Inv, Log;
    if es != [] {
      SpoiltStep(q, es[0], was);
      SpoiltSane(q, was);
      SpoiltStays(Step(q, es[0]), es[1..], was);
    }
  }

  lemma SpoiltSane(q: Queue, was: Ledger)
    requires Spoilt(q, was)
    ensures Inv(q)
  {
  }

  /** A frame has just opened inside a discarded line. */
  predicate Strayed(q: Queue, was: Ledger) {
    Inv(q) && !q.streaming && q.opcState == WantOp && LedgerOf(q) == was.(busy := was.busy + 1)
  }

  /** Its opcode byte takes a slot, or is refused again. */
  lemma StrayOpcode(q: Queue, b: byte, was: Ledger)
    requires Strayed(q, was)
    ensures Spoilt(Feed(q, b), was)
  {
    hide Log, Places;
    FeedKeepsInv(q, b);
    OpcodeFields(q, b);
    LogOfFields(q, OpcodeByte(q, b));
  }

  lemma StrayRuns(q: Queue, e: Event, was: Ledger)
    requires Strayed(q, was) && Runs(e)
    ensures Strayed(Step(q, e), was)
  {
    hide Log, Places, Take, Finish;
    StepKeepsInv(q, e);
    RunsKeeps(q, e);
  }

  lemma {:induction false} StraySpoils(q: Queue, es: seq<Event>, was: Ledger)
    requires Strayed(q, was) && Busy(es) && Received(es) != []
    ensures Inv(q) && Spoilt(Run(q, es), was)
    decreases |es|
  {
    hide Feed, Take, Finish, Inv, Log;
    StraySane(q, was);
    if Runs(es[0]) {
      StrayRuns(q, es[0], was);
      StraySpoils(Step(q, es[0]), es[1..], was);
    } else {
      StrayOpcode(q, es[0].b, was);
      SpoiltStays(Step(q, es[0]), es[1..], was);
    }
  }

  lemma StraySane(q: Queue, was: Ledger)
    requires Strayed(q, was)
    ensures Inv(q)
  {
  }

  lemma MagicStrays(q: Queue, text: bytes, k: nat, was: Ledger)
    requires k <= |text| && InLine(q, text, k, false, was)
    ensures Strayed(Feed(q, OPC_MAGIC), was)
  {
    hide Log, Places, OpcFeed, AddChar;
    FeedKeepsInv(q, OPC_MAGIC);
    LogOfFields(q, Feed(q, OPC_MAGIC));
  }

  lemma MagicAhead(text: bytes, k: nat)
    requires k <= |text| && OPC_MAGIC in text[k..]
    ensures k < |text| && (text[k] != OPC_MAGIC ==> OPC_MAGIC in text[k + 1..])
  {
    assert text[k..] == [text[k]] + text[k + 1..];
  }

  lemma ReceivedSome(es: seq<Event>)
    requires Received(es) != []
    ensures es != []
  {
  }

  lemma {:induction false} DiscardedMagicSpoils(q: Queue, es: seq<Event>, text: bytes, k: nat, was: Ledger)
    requires NEWLINE !in text && k <= |text| && OPC_MAGIC in text[k..]
    requires InLine(q, text, k, false, was) && Busy(es) && Received(es) == Wire(Line(text))[k..]
    ensures Inv(q) && Spoilt(Run(q, es), was)
    decreases |es|
  {
    hide InLine, Feed, Take, Finish, Inv, Log, Spoilt, Strayed, Received;
    InLineSane(q, text, k, false, was);
    MagicAhead(text, k);
    ReceivedSome(es);
    var e := es[0];
    NextByte(es, Wire(Line(text)), k);
    if Runs(e) {
      InLineRuns(q, e, text, k, false, was);
      DiscardedMagicSpoils(Step(q, e), es[1..], text, k, was);
    } else if text[k] == OPC_MAGIC {
      MagicStrays(q, text, k, was);
      StraySpoils(Step(q, e), es[1..], was);
    } else {
      LineByte(q, text, k, false, was);
      DiscardedMagicSpoils(Step(q, e), es[1..], text, k + 1, was);
    }
  }

  lemma {:induction false} RefusedMagicSpoils(q: Queue, es: seq<Event>, text: bytes)
    requires Proper(Line(text)) && AtRest(q) && OPC_MAGIC in text
    requires Busy(es) && Received(es) == Wire(Line(text)) && !FreeAt(q, es, Lead(text))
    ensures Spoilt(Run(q, es), LedgerOf(q))
    decreases |es|
  {
    hide LedgerOf, Feed, Take, Finish, Placed, Sized, InLine, Kept, Spoilt;
    var e, w := es[0], Wire(Line(text));
    ProperLine(text);
    assert w[0..] == w;
    NextByte(es, w, 0);
    if Runs(e) {
      AtRestRuns(q, e);
      RefusedMagicSpoils(Step(q, e), es[1..], text);
    } else if text[0] == RETURN {
      BlankIgnored(q, RETURN);
      LeadPeels(text);
      RefusedMagicSpoils(q, es[1..], text[1..]);
    } else {
      KeptFirst(text);
      FirstLineByte(q, text);
      assert text == [text[0]] + text[1..];
      DiscardedMagicSpoils(Step(q, e), es[1..], text, 1, LedgerOf(q));
    }
  }

  // ---- the result ----

  /** The byte of a token that settles whether it gets a slot. */
  function Settles(t: Token): nat { if t.Line? then Lead(t.text) else 1 }

  /** A command sent to a queue at rest, the command thread taking and finishing slots at any
      moment in between, arrives whole at the end of the queue, or not at all with one BUSY
      reply, as a slot was free or not at the first byte of the line or the opcode byte of the
      frame. That is so exactly when it got its slot or is not a line holding 0xA5: in a line
      that is being discarded 0xA5 opens a frame. */
  lemma WholeOrNothing(q: Queue, es: seq<Event>, t: Token)
    requires Proper(t) && AtRest(q) && Busy(es) && Received(es) == Wire(t)
    ensures Outcome(Run(q, es), t, FreeAt(q, es, Settles(t)), LedgerOf(q)) <==>
      FreeAt(q, es, Settles(t)) || t.Frame? || OPC_MAGIC !in t.text
  {
    hide LedgerOf, Outcome, Proper, Received, Run, FreeAt, Spoilt;
    match t
    case Line(text) =>
      if FreeAt(q, es, Lead(text)) || OPC_MAGIC !in text {
        WholeLine(q, es, text);
      } else {
        RefusedMagicSpoils(q, es, text);
        SpoiltIsNoRefusal(Run(q, es), t, LedgerOf(q));
      }
    case Frame(_, _, _) => WholeFrame(q, es, t);
  }

  /** A concrete case: with no slot free, 'A' and then 0xA5. */
  lemma DiscardedLineOpensFrame(q: Queue)
    requires AtRest(q) && q.free == []
    ensures var r := Feed(Feed(q, 65), OPC_MAGIC); r.discard && r.opcState == WantOp
  {
    hide Places;
  }
}
