/**
 * The PackBits codec of the video stream. A control byte 0x80|(n-1) starts a run of n
 * copies of the next byte, a control byte n-1 starts n literal bytes; both hosts encode,
 * the device decodes one input byte at a time and leaves run bytes pending between inputs.
 */
module PackBits {
  import opened Bytes

  // ---- control bytes ----

  function RunCtrl(n: int): byte
    requires 1 <= n <= 128
  {
    (((n - 1) as byte) & 0x7F) | 0x80
  }

  function LiteralCtrl(n: int): byte
    requires 1 <= n <= 128
  {
    (n - 1) as byte
  }

  predicate IsRun(ctrl: byte) { ctrl & 0x80 != 0 }

  /** How many bytes a control byte announces. */
  function Announced(ctrl: byte): (n: nat)
    ensures 1 <= n <= 128
  {
    LowBits(ctrl);
    (if IsRun(ctrl) then (ctrl & 0x7F) as int else ctrl as int) + 1
  }

  lemma LowBits(b: byte)
    ensures (b & 0x7F) as int < 128
    ensures b & 0x80 == 0 ==> b as int < 128
  {
    BelowHalf(b);
    BelowHalf(b & 0x7F);
    assert b & 0x7F < 0x80;
    assert b & 0x80 == 0 ==> b < 0x80;
  }

  lemma BelowHalf(b: byte)
    ensures b < 0x80 <==> b as int < 128
  {
  }

  lemma TopBit(b: byte)
    requires b < 0x80
    ensures ((b & 0x7F) | 0x80) & 0x80 != 0
    ensures ((b & 0x7F) | 0x80) & 0x7F == b
    ensures b & 0x80 == 0
  {
  }

  lemma ControlBytes(n: int)
    requires 1 <= n <= 128
    ensures IsRun(RunCtrl(n)) && Announced(RunCtrl(n)) == n
    ensures !IsRun(LiteralCtrl(n)) && Announced(LiteralCtrl(n)) == n
  {
    var b := (n - 1) as byte;
    ByteOf(n - 1);
    BelowHalf(b);
    TopBit(b);
  }

  // ---- the encoder of both hosts ----

  /** Three equal bytes start at j. */
  predicate TripleAt(data: bytes, j: nat) {
    j + 2 < |data| && data[j] == data[j + 1] == data[j + 2]
  }

  /** Last index of the run that starts at i, at most 128 bytes long. */
  function RunEnd(data: bytes, i: nat, j: nat): (e: nat)
    requires i <= j < |data| && j - i <= 127
    requires forall k :: i <= k <= j ==> data[k] == data[i]
    ensures j <= e < |data| && e - i <= 127
    ensures forall k :: i <= k <= e ==> data[k] == data[i]
    ensures e - i >= 2 <== TripleAt(data, i)
    decreases |data| - j
  {
    if j < |data| - 1 && data[j] == data[j + 1] && j - i < 127 then RunEnd(data, i, j + 1) else j
  }

  /** One past the last literal of the block that starts at i: before the next triple,
      at most 128 bytes long. */
  function LiteralEnd(data: bytes, i: nat, j: nat): (e: nat)
    requires i <= j <= |data| && j - i <= 128
    ensures j <= e <= |data| && e - i <= 128
    ensures e == |data| || e - i == 128 || TripleAt(data, e)
    ensures j < |data| && j - i < 128 && !TripleAt(data, j) ==> j < e
    decreases |data| - j
  {
    if j < |data| && j - i < 128 && !TripleAt(data, j) then LiteralEnd(data, i, j + 1) else j
  }

  /** What the encoder appends for data[i..]. */
  function PackFrom(data: bytes, i: nat): bytes
    requires i <= |data|
    decreases |data| - i
  {
    if i == |data| then []
    else
      var e := RunEnd(data, i, i);
      if e - i + 1 >= 3 then [RunCtrl(e - i + 1), data[i]] + PackFrom(data, e + 1)
      else
        var j := LiteralEnd(data, i, i);
        [LiteralCtrl(j - i)] + data[i..j] + PackFrom(data, j)
  }

  function Pack(data: bytes): bytes { PackFrom(data, 0) }

  lemma PackRun(data: bytes, i: nat)
    requires i < |data| && RunEnd(data, i, i) - i + 1 >= 3
    ensures var e := RunEnd(data, i, i);
      PackFrom(data, i) == [RunCtrl(e - i + 1), data[i]] + PackFrom(data, e + 1)
  {
    hide RunCtrl, RunEnd, LiteralCtrl, LiteralEnd;
  }

  lemma PackLiteral(data: bytes, i: nat)
    requires i < |data| && RunEnd(data, i, i) - i + 1 < 3
    ensures var j := LiteralEnd(data, i, i);
      j > i && PackFrom(data, i) == [LiteralCtrl(j - i)] + data[i..j] + PackFrom(data, j)
  {
    hide LiteralCtrl, RunCtrl, RunEnd, LiteralEnd;
    assert !TripleAt(data, i);
    assert LiteralEnd(data, i, i) > i;
    hide TripleAt;
  }

  /** The run scan both encoders open with. */
  method ScanRun(data: bytes, i: nat) returns (j: nat)
    requires i < |data|
    ensures j == RunEnd(data, i, i)
  {
    j := i;
    while j < |data| - 1 && data[j] == data[j + 1] && j - i < 127
      invariant i <= j < |data| && j - i <= 127
      invariant forall k :: i <= k <= j ==> data[k] == data[i]
      invariant RunEnd(data, i, j) == RunEnd(data, i, i)
    {
      j := j + 1;
    }
  }

  /** The literal scan both encoders fall back to. */
  method ScanLiteral(data: bytes, i: nat) returns (j: nat)
    requires i < |data|
    ensures j == LiteralEnd(data, i, i)
  {
    j := i;
    while j < |data| && j - i < 128
      invariant i <= j <= |data| && j - i <= 128
      invariant LiteralEnd(data, i, j) == LiteralEnd(data, i, i)
    {
      if j + 2 < |data| && data[j] == data[j + 1] == data[j + 2] {
        break;
      }
      j := j + 1;
    }
  }

  /** The Python host's packbits_encode. */
  method PackbitsEncode(data: bytes) returns (out: bytes)
    ensures out == Pack(data)
  {
    hide RunCtrl, LiteralCtrl, PackFrom, RunEnd, LiteralEnd;
    out := [];
    var i := 0;
    EndOfPack(data);
    while i < |data|
      invariant 0 <= i <= |data|
      invariant out + PackFrom(data, i) == Pack(data)
    {
      var j := ScanRun(data, i);
      var run := j - i + 1;
      if run >= 3 {
        PackRun(data, i);
        out := out + [RunCtrl(run)];
        out := out + [data[i]];
        i := i + run;
      } else {
        PackLiteral(data, i);
        j := ScanLiteral(data, i);
        var lit := j - i;
        out := out + [LiteralCtrl(lit)];
        out := out + data[i..i + lit];
        i := i + lit;
      }
    }
  }

  /** The web host's packBits: the same bytes on the wire. */
  method PackBitsWeb(data: bytes) returns (out: bytes)
    ensures out == Pack(data)
  {
    hide RunCtrl, LiteralCtrl, PackFrom, RunEnd, LiteralEnd;
    out := [];
    var i := 0;
    EndOfPack(data);
    while i < |data|
      invariant 0 <= i <= |data|
      invariant out + PackFrom(data, i) == Pack(data)
    {
      var j := ScanRun(data, i);
      if j - i + 1 >= 3 {
        PackRun(data, i);
        out := out + [RunCtrl(j - i + 1)] + [data[i]];
        i := j + 1;
      } else {
        PackLiteral(data, i);
        j := ScanLiteral(data, i);
        ghost var before := out + [LiteralCtrl(j - i)];
        out := out + [LiteralCtrl(j - i)];
        for k := i to j
          invariant out == before + data[i..k]
        {
          out := out + [data[k]];
        }
        i := j;
      }
    }
  }

  lemma EndOfPack(data: bytes)
    ensures PackFrom(data, |data|) == []
  {
  }

  // ---- what a compressed string means ----

  /** The reference decoder, instruction by instruction. A string cut off inside a literal
      yields the literals it has, one cut off before a run's value yields nothing for it. */
  function Expand(w: bytes): bytes
    decreases |w|
  {
    if w == [] then []
    else if IsRun(w[0]) then
      if |w| == 1 then [] else Repeat(w[1], Announced(w[0])) + Expand(w[2..])
    else
      var n := Announced(w[0]);
      if |w| - 1 <= n then w[1..] else w[1..n + 1] + Expand(w[n + 1..])
  }

  lemma ExpandRun(n: int, v: byte, rest: bytes)
    requires 1 <= n <= 128
    ensures Expand([RunCtrl(n), v] + rest) == Repeat(v, n) + Expand(rest)
  {
    ControlBytes(n);
    hide IsRun, Announced, RunCtrl;
    assert ([RunCtrl(n), v] + rest)[2..] == rest;
  }

  lemma ExpandLiteral(lit: bytes, rest: bytes)
    requires 1 <= |lit| <= 128
    ensures Expand([LiteralCtrl(|lit|)] + lit + rest) == lit + Expand(rest)
  {
    ControlBytes(|lit|);
    hide IsRun, Announced, LiteralCtrl;
    var w := [LiteralCtrl(|lit|)] + lit + rest;
    assert w[1..|lit| + 1] == lit;
    assert w[|lit| + 1..] == rest;
    if rest == [] { assert w[1..] == lit; }
  }

  lemma ExpandPackRun(data: bytes, i: nat)
    requires i < |data| && RunEnd(data, i, i) - i + 1 >= 3
    requires var e := RunEnd(data, i, i); Expand(PackFrom(data, e + 1)) == data[e + 1..]
    ensures Expand(PackFrom(data, i)) == data[i..]
  {
    hide RunCtrl, Expand, PackFrom, RunEnd;
    var e := RunEnd(data, i, i);
    PackRun(data, i);
    ExpandRun(e - i + 1, data[i], PackFrom(data, e + 1));
    assert data[i..] == Repeat(data[i], e - i + 1) + data[e + 1..];
  }

  lemma ExpandPackLiteral(data: bytes, i: nat)
    requires i < |data| && RunEnd(data, i, i) - i + 1 < 3
    requires var j := LiteralEnd(data, i, i); Expand(PackFrom(data, j)) == data[j..]
    ensures Expand(PackFrom(data, i)) == data[i..]
  {
    hide LiteralCtrl, Expand, PackFrom, RunEnd, LiteralEnd;
    var j := LiteralEnd(data, i, i);
    PackLiteral(data, i);
    ExpandLiteral(data[i..j], PackFrom(data, j));
    assert data[i..] == data[i..j] + data[j..];
  }

  lemma {:induction false} ExpandPackFrom(data: bytes, i: nat)
    requires i <= |data|
    ensures Expand(PackFrom(data, i)) == data[i..]
    decreases |data| - i
  {
    hide Expand, PackFrom, RunEnd, LiteralEnd;
    EndOfPack(data);
    EmptyExpands();
    if i < |data| {
      var e := RunEnd(data, i, i);
      if e - i + 1 >= 3 {
        ExpandPackFrom(data, e + 1);
        ExpandPackRun(data, i);
      } else {
        PackLiteral(data, i);
        ExpandPackFrom(data, LiteralEnd(data, i, i));
        ExpandPackLiteral(data, i);
      }
    }
  }

  lemma EmptyExpands()
    ensures Expand([]) == []
  {
  }

  /** Decoding what the encoder wrote gives the data back, whatever the data is. */
  lemma RoundTrip(data: bytes)
    ensures Expand(Pack(data)) == data
  {
    ExpandPackFrom(data, 0);
    assert data[0..] == data;
  }

  // ---- the bytes on the wire ----

  /** A run goes out as its length less one under the top bit, and its byte. */
  lemma RunOnTheWire(v: byte, n: nat)
    requires 3 <= n <= 128
    ensures Pack(Repeat(v, n)) == [0x80 | ((n - 1) as byte), v]
  {
    var data := Repeat(v, n);
    RunOfRepeat(v, n, 0, 0);
    PackRun(data, 0);
    EndOfPack(data);
    SevenBits(n);
  }

  lemma SevenBits(n: nat)
    requires 1 <= n <= 128
    ensures RunCtrl(n) == 0x80 | ((n - 1) as byte)
  {
    ByteOf(n - 1);
    BelowHalf((n - 1) as byte);
    SevenBitsOf((n - 1) as byte);
  }

  lemma SevenBitsOf(b: byte)
    requires b < 0x80
    ensures (b & 0x7F) | 0x80 == 0x80 | b
  {
  }

  /** Bytes without three equal ones in a row go out after their number less one. */
  lemma LiteralOnTheWire(data: bytes)
    requires 1 <= |data| <= 128 && forall j :: 0 <= j < |data| ==> !TripleAt(data, j)
    ensures Pack(data) == [(|data| - 1) as byte] + data
  {
    hide RunEnd, LiteralEnd;
    ShortRun(data, 0);
    NoTripleAhead(data, 0);
    PackLiteral(data, 0);
    EndOfPack(data);
    assert data[0..|data|] == data;
  }

  lemma ShortRun(data: bytes, i: nat)
    requires i < |data| && !TripleAt(data, i)
    ensures RunEnd(data, i, i) - i + 1 < 3
  {
    hide RunEnd;
    var _ := RunEnd(data, i, i);
  }

  lemma {:induction false} NoTripleAhead(data: bytes, j: nat)
    requires j <= |data| <= 128 && forall k :: 0 <= k < |data| ==> !TripleAt(data, k)
    ensures LiteralEnd(data, 0, j) == |data|
    decreases |data| - j
  {
    if j < |data| { NoTripleAhead(data, j + 1); }
  }

  lemma {:induction false} RunOfRepeat(v: byte, n: nat, i: nat, j: nat)
    requires i <= j < n && j - i <= 127
    ensures RunEnd(Repeat(v, n), i, j) == Min(i + 127, n - 1)
    decreases n - j
  {
    if j < n - 1 && j - i < 127 { RunOfRepeat(v, n, i, j + 1); }
  }

  /** What n equal bytes cost: two bytes for each run of up to 128, and one more for two bytes left
      over, which are no run. */
  function RunCost(n: nat): nat { 2 * Blocks(n) + if n % 128 == 2 then 1 else 0 }

  lemma RunCostSteps(n: nat)
    ensures RunCost(0) == 0
    ensures n >= 128 ==> RunCost(n) == 2 + RunCost(n - 128)
    ensures 3 <= n <= 128 ==> RunCost(n) == 2
    ensures 1 <= n <= 2 ==> RunCost(n) == n + 1
  {
  }

  lemma {:induction false} RepeatFrom(v: byte, n: nat, i: nat)
    requires i <= n && i % 128 == 0
    ensures |PackFrom(Repeat(v, n), i)| == RunCost(n - i)
    decreases n - i
  {
    hide PackFrom, RunEnd, LiteralEnd, RunCost, RunCtrl, LiteralCtrl;
    var data := Repeat(v, n);
    EndOfPack(data);
    RunCostSteps(n - i);
    if i < n {
      RunOfRepeat(v, n, i, i);
      if n - i >= 128 {
        PackRun(data, i);
        RepeatFrom(v, n, i + 128);
      } else if n - i >= 3 {
        PackRun(data, i);
      } else {
        PackLiteral(data, i);
        LiteralToEnd(data, i, i);
      }
    }
  }

  lemma {:induction false} LiteralToEnd(data: bytes, i: nat, j: nat)
    requires i <= j <= |data| < i + 3
    ensures LiteralEnd(data, i, j) == |data|
    decreases |data| - j
  {
    if j < |data| { LiteralToEnd(data, i, j + 1); }
  }

  /** The exact cost of n equal bytes. */
  lemma RepeatSize(v: byte, n: nat)
    ensures |Pack(Repeat(v, n))| == RunCost(n)
  {
    RepeatFrom(v, n, 0);
  }

  /** ceil(n / 128): one control byte for each full block of literals. */
  function Blocks(n: nat): nat { (n + 127) / 128 }

  lemma {:induction false} PackFromSize(data: bytes, i: nat)
    requires i <= |data|
    ensures |PackFrom(data, i)| <= |data| - i + Blocks(|data| - i)
    ensures TripleAt(data, i) ==> |PackFrom(data, i)| <= |data| - i - 1 + Blocks(|data| - i - 3)
    decreases |data| - i
  {
    hide PackFrom, RunEnd, LiteralEnd, RunCtrl, LiteralCtrl;
    EndOfPack(data);
    if i < |data| {
      var e := RunEnd(data, i, i);
      if e - i + 1 >= 3 {
        PackRun(data, i);
        PackFromSize(data, e + 1);
      } else {
        PackLiteral(data, i);
        PackFromSize(data, LiteralEnd(data, i, i));
      }
    }
  }

  /** Compression never costs more than one byte in 128, rounded up. */
  lemma PackSize(data: bytes)
    ensures |Pack(data)| <= |data| + Blocks(|data|)
  {
    PackFromSize(data, 0);
  }

  // ---- the device's lazy decoder ----

  datatype Mode = Ctrl | Literal | RunFirst | RunRepeat

  datatype Rle = Rle(mode: Mode, count: nat, val: byte) {
    predicate Valid() { mode != Ctrl ==> 1 <= count <= 128 }
  }

  const RLE_START := Rle(Ctrl, 0, 0)

  /** Run bytes the decoder still owes before it looks at the next input byte. */
  function Pending(r: Rle): bytes {
    if r.mode == RunRepeat then Repeat(r.val, r.count) else []
  }

  function Drained(r: Rle): Rle {
    if r.mode == RunRepeat then r.(mode := Ctrl, count := 0) else r
  }

  /** The decoder's answer to one input byte, its pending run already drained. */
  function Consume(r: Rle, b: byte): (Rle, bytes)
    requires r.Valid() && r.mode != RunRepeat
  {
    match r.mode
    case Ctrl =>
      (r.(count := Announced(b), mode := if IsRun(b) then RunFirst else Literal), [])
    case Literal =>
      (r.(count := r.count - 1, mode := if r.count == 1 then Ctrl else Literal), [b])
    case RunFirst =>
      (Rle(if r.count == 1 then Ctrl else RunRepeat, r.count - 1, b), [b])
  }

  function Feed(r: Rle, b: byte): (res: (Rle, bytes))
    requires r.Valid()
    ensures res.0.Valid()
  {
    var (r', out) := Consume(Drained(r), b);
    (r', Pending(r) + out)
  }

  function FeedAll(r: Rle, w: bytes): (res: (Rle, bytes))
    requires r.Valid()
    ensures res.0.Valid()
    decreases |w|
  {
    if w == [] then (r, [])
    else
      var (r1, out) := FeedAll(r, w[..|w| - 1]);
      var (r2, more) := Feed(r1, w[|w| - 1]);
      (r2, out + more)
  }

  /** What a decoder in state r still makes of the string w, pending run included. */
  function ExpandFrom(r: Rle, w: bytes): bytes
    requires r.Valid()
  {
    match r.mode
    case Ctrl => Expand(w)
    case Literal => if |w| <= r.count then w else w[..r.count] + Expand(w[r.count..])
    case RunFirst => if w == [] then [] else Repeat(w[0], r.count) + Expand(w[1..])
    case RunRepeat => Repeat(r.val, r.count) + Expand(w)
  }

  lemma ConsumeExpands(r: Rle, b: byte, w: bytes)
    requires r.Valid() && r.mode != RunRepeat
    ensures ExpandFrom(r, [b] + w) == Consume(r, b).1 + ExpandFrom(Consume(r, b).0, w)
  {
    hide IsRun, Announced, Expand;
    EmptyExpands();
    var s := [b] + w;
    assert s[1..] == w;
    match r.mode
    case Ctrl =>
      ControlExpands(b, w);
    case Literal =>
      if |s| > r.count {
        assert s[..r.count] == [b] + w[..r.count - 1];
        assert s[r.count..] == w[r.count - 1..];
      }
    case RunFirst =>
      RepeatPeel(b, r.count);
  }

  lemma ControlExpands(b: byte, w: bytes)
    ensures Expand([b] + w)
         == ExpandFrom(Rle(if IsRun(b) then RunFirst else Literal, Announced(b), 0), w)
  {
    hide IsRun, Announced;
    var s, n := [b] + w, Announced(b);
    assert s[1..] == w;
    if IsRun(b) {
      if w != [] { assert s[2..] == w[1..]; }
    } else if |w| > n {
      assert s[1..n + 1] == w[..n];
      assert s[n + 1..] == w[n..];
    }
  }

  lemma ExpandFromStep(r: Rle, b: byte, w: bytes)
    requires r.Valid()
    ensures ExpandFrom(r, [b] + w) == Feed(r, b).1 + ExpandFrom(Feed(r, b).0, w)
  {
    hide ExpandFrom, Pending, IsRun;
    ConsumeExpands(Drained(r), b, w);
    DrainExpands(r, [b] + w);
    var (r', out) := Consume(Drained(r), b);
    assert Pending(r) + (out + ExpandFrom(r', w)) == Pending(r) + out + ExpandFrom(r', w);
  }

  lemma DrainExpands(r: Rle, w: bytes)
    requires r.Valid()
    ensures ExpandFrom(r, w) == Pending(r) + ExpandFrom(Drained(r), w)
  {
  }

  lemma {:induction false} FeedAllExpands(r: Rle, w: bytes, rest: bytes)
    requires r.Valid()
    ensures ExpandFrom(r, w + rest) == FeedAll(r, w).1 + ExpandFrom(FeedAll(r, w).0, rest)
    decreases |w|
  {
    hide ExpandFrom, Feed;
    if w == [] {
      assert w + rest == rest;
    } else {
      var n := |w| - 1;
      var (r1, out) := FeedAll(r, w[..n]);
      assert w + rest == w[..n] + ([w[n]] + rest);
      FeedAllExpands(r, w[..n], [w[n]] + rest);
      ExpandFromStep(r1, w[n], rest);
    }
  }

  /** Feeding any string byte by byte and then draining the pending run decodes exactly what
      the reference decoder does, truncated and malformed strings included. */
  lemma LazyDecoderIsExpand(w: bytes)
    ensures FeedAll(RLE_START, w).1 + Pending(FeedAll(RLE_START, w).0) == Expand(w)
  {
    FeedAllExpands(RLE_START, w, []);
    assert w + [] == w;
  }
}
