/**
 * The mesh PDU: layout, signature and the one nibble relays may rewrite.
 *   magic, version|ttl, seq (little endian), src, dst_type, dst, opcode, payload, mac
 */
module MeshPdu {
  import opened Bytes
  import opened Cmac

  const MAGIC: byte := 0xE5
  const MAC_LEN := 4
  const PDU_MAX := 27
  const HDR_MIN := 8

  const DST_ALL: byte := 0
  const DST_GROUP: byte := 1
  const DST_ID: byte := 2

  function DstLen(dstType: byte): nat {
    if dstType == DST_GROUP then 1 else if dstType == DST_ID then 3 else 0
  }

  /** What a PDU has room for behind a destination of this type. */
  function MaxPayload(dstType: byte): nat { PDU_MAX - HDR_MIN - DstLen(dstType) - 1 - MAC_LEN }

  /** What a sender puts into a PDU. */
  datatype Fields = Fields(seqNo: nat, src: bytes, dstType: byte, dst: bytes, opcode: byte, payload: bytes) {
    predicate Ok() {
      && seqNo < 0x1_0000 && |src| == 3
      && |dst| == DstLen(dstType)
      && |payload| <= MaxPayload(dstType)
    }
  }

  /** What a receiver reads out of one; `body` is the part under the MAC. */
  datatype View = View(ttl: byte, f: Fields, mac: bytes, body: bytes)

  function TtlByte(ttl: byte): byte { ttl & 0x0F }

  function Body(ttl: byte, f: Fields): (r: bytes)
    requires f.Ok()
    ensures |r| == HDR_MIN + DstLen(f.dstType) + 1 + |f.payload|
  {
    [MAGIC, TtlByte(ttl), LowByte(f.seqNo), HighByte(f.seqNo)] + f.src + [f.dstType] + f.dst
      + [f.opcode] + f.payload
  }

  /** The body with the TTL nibble cleared. */
  function MacInput(body: bytes): (r: bytes)
    requires |body| > 1
    ensures |r| == |body|
  {
    body[1 := body[1] & 0xF0]
  }

  ghost function MacOf(e: Cipher, key: bytes, body: bytes): (r: bytes)
    requires IsCipher(e) && |body| > 1
    ensures |r| == MAC_LEN
  {
    Mac(e, key, MacInput(body))[..MAC_LEN]
  }

  ghost function Signed(e: Cipher, key: bytes, ttl: byte, f: Fields): (r: bytes)
    requires IsCipher(e) && f.Ok()
    ensures |r| <= PDU_MAX
  {
    Body(ttl, f) + MacOf(e, key, Body(ttl, f))
  }

  /** mesh_pdu_parse */
  function Parse(pdu: bytes): Option<View> {
    var len := |pdu|;
    if len < HDR_MIN + 1 + MAC_LEN || len > PDU_MAX || pdu[0] != MAGIC then None
    else
      var dl := DstLen(pdu[7]);
      var op := HDR_MIN + dl;
      if op + 1 + MAC_LEN > len then None
      else
        Some(View(pdu[1] & 0x0F,
                  Fields(pdu[2] as int + 256 * pdu[3] as int, pdu[4..7], pdu[7], pdu[8..op],
                         pdu[op], pdu[op + 1..len - MAC_LEN]),
                  pdu[len - MAC_LEN..], pdu[..len - MAC_LEN]))
  }

  /** mesh_pdu_verify, given a cipher that answers. */
  ghost predicate Verifies(e: Cipher, key: bytes, pdu: bytes)
    requires IsCipher(e)
  {
    Parse(pdu).Some? && MacOf(e, key, Parse(pdu).value.body) == Parse(pdu).value.mac
  }

  /** mesh_pdu_set_ttl */
  function SetTtl(pdu: bytes, ttl: byte): (r: bytes)
    requires |pdu| > 1
    ensures |r| == |pdu|
  {
    pdu[1 := (pdu[1] & 0xF0) | (ttl & 0x0F)]
  }

  // ---- round trip ----

  lemma TtlNibble(b: byte, ttl: byte)
    ensures ((b & 0xF0) | (ttl & 0x0F)) & 0x0F == ttl & 0x0F
    ensures ((b & 0xF0) | (ttl & 0x0F)) & 0xF0 == b & 0xF0
    ensures TtlByte(ttl) & 0x0F == ttl & 0x0F
    ensures (TtlByte(b) & 0xF0) | (ttl & 0x0F) == TtlByte(ttl)
    ensures TtlByte(ttl) & 0xF0 == 0
    ensures ttl < 16 ==> ttl & 0x0F == ttl
  {
  }

  lemma BodyFields(ttl: byte, f: Fields, b: bytes)
    requires f.Ok() && b == Body(ttl, f)
    ensures b[0] == MAGIC && b[1] == TtlByte(ttl) && b[2] == LowByte(f.seqNo) && b[3] == HighByte(f.seqNo)
    ensures b[4..7] == f.src && b[7] == f.dstType
    ensures var op := HDR_MIN + |f.dst|;
      op < |b| && b[8..op] == f.dst && b[op] == f.opcode && b[op + 1..] == f.payload
  {
    hide LowByte, HighByte, TtlByte;
  }

  /** The layout byte by byte: the number with its low byte first, the destination where its type
      puts it, the first four bytes of the MAC at the end, and no room for more than 27 bytes. */
  lemma PduOnTheWire(e: Cipher, key: bytes, ttl: byte, f: Fields)
    requires IsCipher(e) && f.Ok() && ttl < 16
    ensures var p, d, n := Signed(e, key, ttl, f), |f.dst|, |f.payload|;
      && |p| == 13 + d + n <= 27
      && p[0] == 0xE5 && p[1] == ttl
      && p[2] as int + 256 * p[3] as int == f.seqNo
      && p[4] == f.src[0] && p[5] == f.src[1] && p[6] == f.src[2]
      && p[7] == f.dstType && p[8..8 + d] == f.dst
      && p[8 + d] == f.opcode && p[9 + d..9 + d + n] == f.payload
      && p[9 + d + n..] == Mac(e, key, p[..9 + d + n][1 := 0])[..4]
    ensures |f.dst| == if f.dstType == 1 then 1 else if f.dstType == 2 then 3 else 0
  {
    hide Mac, LowByte, HighByte, TtlByte, Body, IsCipher;
    var b, p := Body(ttl, f), Signed(e, key, ttl, f);
    BodyFields(ttl, f, b);
    TtlNibble(ttl, ttl);
    SmallTtl(ttl);
    SplitJoin(f.seqNo);
    var op := 8 + |f.dst|;
    assert p[..|b|] == b;
    assert p[4..7] == f.src;
    assert p[8..op] == b[8..op];
    assert p[op + 1..|b|] == b[op + 1..];
    assert p[|b|..] == MacOf(e, key, b);
  }

  /** Room for fourteen bytes when sent to all, thirteen to a group, eleven to one node. */
  lemma PayloadRoom(f: Fields)
    requires f.seqNo < 0x1_0000 && |f.src| == 3 && |f.dst| == DstLen(f.dstType)
    ensures f.Ok() <==> |f.payload| <= if |f.dst| == 0 then 14 else if |f.dst| == 1 then 13 else 11
  {
  }

  lemma SmallTtl(ttl: byte)
    requires ttl < 16
    ensures TtlByte(ttl) == ttl && TtlByte(ttl) & 0xF0 == 0
  {
  }

  /** Parsing what was built gives back every field, for every destination type and every
      payload that fits. */
  lemma ParseSigned(e: Cipher, key: bytes, ttl: byte, f: Fields)
    requires IsCipher(e) && f.Ok() && ttl < 16
    ensures Parse(Signed(e, key, ttl, f))
         == Some(View(ttl, f, MacOf(e, key, Body(ttl, f)), Body(ttl, f)))
  {
    hide MacOf, LowByte, HighByte, TtlByte, Body;
    var b, p := Body(ttl, f), Signed(e, key, ttl, f);
    BodyFields(ttl, f, b);
    TtlNibble(0, ttl);
    SplitJoin(f.seqNo);
    var op := HDR_MIN + |f.dst|;
    assert p[..|b|] == b;
    assert p[4..7] == b[4..7];
    assert p[8..op] == b[8..op];
    assert p[op + 1..|b|] == b[op + 1..];
    assert p[|b|..] == MacOf(e, key, b);
  }

  /** Exactly which byte strings are PDUs. */
  lemma ParseExactly(pdu: bytes)
    ensures Parse(pdu).Some? <==>
      && 13 <= |pdu| <= 27 && pdu[0] == 0xE5
      && (pdu[7] == 1 ==> |pdu| >= 14) && (pdu[7] == 2 ==> |pdu| >= 16)
  {
  }

  /** None of the bytes gets lost: what was parsed builds the same string again, but for the
      version nibble nobody looks at. */
  lemma ParsedIsBuilt(pdu: bytes)
    requires Parse(pdu).Some?
    ensures var v := Parse(pdu).value;
      v.f.Ok() && |v.mac| == 4 && v.ttl == pdu[1] & 0x0F && pdu == Body(v.ttl, v.f)[1 := pdu[1]] + v.mac
  {
    var v, n, op := Parse(pdu).value, |pdu| - MAC_LEN, HDR_MIN + DstLen(pdu[7]);
    JoinSplit(pdu[2], pdu[3]);
    CutUp(pdu, op, n);
    assert v.f.Ok();
    BodyAsBuilt(pdu[1], v.ttl, v.f);
  }

  lemma CutUp(p: bytes, op: nat, n: nat)
    requires 8 <= op < n <= |p|
    ensures p == [p[0], p[1], p[2], p[3]] + p[4..7] + [p[7]] + p[8..op] + [p[op]] + p[op + 1..n] + p[n..]
  {
  }

  lemma BodyAsBuilt(b: byte, ttl: byte, f: Fields)
    requires f.Ok()
    ensures Body(ttl, f)[1 := b] == [MAGIC, b, LowByte(f.seqNo), HighByte(f.seqNo)] + f.src + [f.dstType] + f.dst
                                    + [f.opcode] + f.payload
  {
    hide LowByte, HighByte, TtlByte;
  }

  lemma VerifySigned(e: Cipher, key: bytes, ttl: byte, f: Fields)
    requires IsCipher(e) && f.Ok() && ttl < 16
    ensures Verifies(e, key, Signed(e, key, ttl, f))
  {
    hide Parse, MacOf, Body, Signed;
    ParseSigned(e, key, ttl, f);
  }

  /** A PDU verifies when its last four bytes are the first four of the MAC over the others with the
      TTL nibble, and that alone, cleared: every other bit of it is under the signature. */
  lemma VerdictOnTheWire(e: Cipher, key: bytes, pdu: bytes)
    requires IsCipher(e)
    ensures Verifies(e, key, pdu) <==>
      && Parse(pdu).Some?
      && var n := |pdu| - 4;
      pdu[n..] == Mac(e, key, [pdu[0], pdu[1] & 0xF0] + pdu[2..n])[..4]
  {
    hide Mac;
    if Parse(pdu).Some? {
      var n := |pdu| - 4;
      assert MacInput(pdu[..n]) == [pdu[0], pdu[1] & 0xF0] + pdu[2..n];
    }
  }

  /** Rewriting the TTL changes no other field and no verdict, of any PDU, genuine or not. */
  lemma SetTtlKeepsVerdict(e: Cipher, key: bytes, pdu: bytes, ttl: byte)
    requires IsCipher(e) && |pdu| > 1
    ensures Verifies(e, key, SetTtl(pdu, ttl)) == Verifies(e, key, pdu)
    ensures Parse(SetTtl(pdu, ttl)).Some? == Parse(pdu).Some?
    ensures Parse(pdu).Some? ==>
      var v, w := Parse(pdu).value, Parse(SetTtl(pdu, ttl)).value;
      w.f == v.f && w.mac == v.mac && w.ttl == ttl & 0x0F
  {
    hide Mac, MacInput, SetTtl, Parse, IsCipher;
    SetTtlParses(pdu, ttl);
    if Parse(pdu).Some? {
      SetTtlMacInput(pdu, ttl, |pdu| - MAC_LEN);
    }
  }

  lemma SetTtlParses(pdu: bytes, ttl: byte)
    requires |pdu| > 1
    ensures Parse(SetTtl(pdu, ttl)).Some? == Parse(pdu).Some?
    ensures Parse(pdu).Some? ==>
      var v, w, n := Parse(pdu).value, Parse(SetTtl(pdu, ttl)).value, |pdu| - MAC_LEN;
      && w.f == v.f && w.mac == v.mac && w.ttl == ttl & 0x0F
      && n > 1 && v.body == pdu[..n] && w.body == SetTtl(pdu, ttl)[..n]
  {
    hide SetTtl;
    SetTtlBytes(pdu, ttl);
    if Parse(pdu).Some? {
      var n, op := |pdu| - MAC_LEN, HDR_MIN + DstLen(pdu[7]);
      SetTtlSlice(pdu, ttl, 4, 7);
      SetTtlSlice(pdu, ttl, 8, op);
      SetTtlSlice(pdu, ttl, op + 1, n);
      SetTtlSlice(pdu, ttl, n, |pdu|);
    }
  }

  lemma SetTtlBytes(pdu: bytes, ttl: byte)
    requires |pdu| > 1
    ensures forall i :: 0 <= i < |pdu| && i != 1 ==> SetTtl(pdu, ttl)[i] == pdu[i]
    ensures SetTtl(pdu, ttl)[1] & 0x0F == ttl & 0x0F
  {
    TtlNibble(pdu[1], ttl);
  }

  lemma SetTtlSlice(pdu: bytes, ttl: byte, i: nat, j: nat)
    requires 1 < i <= j <= |pdu|
    ensures SetTtl(pdu, ttl)[i..j] == pdu[i..j]
    ensures j == |pdu| ==> SetTtl(pdu, ttl)[i..] == pdu[i..]
  {
  }

  lemma SetTtlMacInput(pdu: bytes, ttl: byte, n: nat)
    requires 1 < n <= |pdu|
    ensures MacInput(SetTtl(pdu, ttl)[..n]) == MacInput(pdu[..n])
  {
    TtlNibble(pdu[1], ttl);
  }

  /** Any number of relays. */
  function SetTtls(pdu: bytes, ttls: seq<byte>): (r: bytes)
    requires |pdu| > 1
    ensures |r| == |pdu|
    decreases |ttls|
  {
    if ttls == [] then pdu else SetTtls(SetTtl(pdu, ttls[0]), ttls[1..])
  }

  lemma {:induction false} RelaysKeepVerdict(e: Cipher, key: bytes, pdu: bytes, ttls: seq<byte>)
    requires IsCipher(e) && |pdu| > 1
    ensures Verifies(e, key, SetTtls(pdu, ttls)) == Verifies(e, key, pdu)
    ensures Parse(SetTtls(pdu, ttls)).Some? == Parse(pdu).Some?
    ensures Parse(pdu).Some? ==> Parse(SetTtls(pdu, ttls)).value.f == Parse(pdu).value.f
    decreases |ttls|
  {
    hide Verifies, Parse, SetTtl;
    if ttls != [] {
      SetTtlKeepsVerdict(e, key, pdu, ttls[0]);
      RelaysKeepVerdict(e, key, SetTtl(pdu, ttls[0]), ttls[1..]);
    }
  }

  lemma BodyTtl(ttl: byte, next: byte, f: Fields)
    requires f.Ok()
    ensures Body(next, f) == Body(ttl, f)[1 := TtlByte(next)]
    ensures Body(ttl, f)[1] == TtlByte(ttl)
  {
    hide LowByte, HighByte, TtlByte;
  }

  lemma SameMacInput(ttl: byte, next: byte, f: Fields)
    requires f.Ok()
    ensures MacInput(Body(ttl, f)) == MacInput(Body(next, f))
  {
    hide Body, TtlByte;
    BodyTtl(ttl, next, f);
    TtlNibble(0, ttl);
    TtlNibble(0, next);
  }

  /** A relayed copy is the PDU its originator would have built with the smaller TTL. */
  lemma SetTtlResigns(e: Cipher, key: bytes, ttl: byte, next: byte, f: Fields)
    requires IsCipher(e) && f.Ok()
    ensures |Signed(e, key, ttl, f)| > 1
    ensures SetTtl(Signed(e, key, ttl, f), next) == Signed(e, key, next, f)
  {
    hide Mac, Body, TtlByte, MacInput, IsCipher;
    BodyTtl(ttl, next, f);
    SameMacInput(ttl, next, f);
    TtlNibble(ttl, next);
    assert MacOf(e, key, Body(ttl, f)) == MacOf(e, key, Body(next, f));
  }

  // ---- as the code does it ----

  /** mac_over_body */
  method MacOverBody(cmac: CmacUnit, key: bytes, body: bytes) returns (ok: bool, mac: bytes)
    requires cmac.Valid() && |body| > 1
    modifies cmac, cmac.aes
    ensures cmac.Valid()
    ensures ok == NoFault(cmac.aes.fault, old(cmac.aes.calls), cmac.aes.calls)
    ensures |mac| == MAC_LEN && (ok ==> mac == MacOf(cmac.aes.cipher, key, body))
  {
    hide Mac, IsCipher;
    var full;
    ok, full := cmac.Cmac(key, MacInput(body));
    mac := if ok then full[..MAC_LEN] else [0, 0, 0, 0];
  }

  /** memcpy of `data` behind the `done` bytes already in the buffer; the rest of the buffer
      is still what it was. */
  method Put(out: array<byte>, ghost done: bytes, ghost orig: bytes, p: nat, data: bytes) returns (q: nat)
    requires p == |done| && |orig| == out.Length && p + |data| <= out.Length
    requires out[..] == done + orig[p..]
    modifies out
    ensures q == p + |data| && out[..] == done + data + orig[q..]
  {
    for i := 0 to |data|
      invariant out[..] == done + data[..i] + orig[p + i..]
    {
      out[p + i] := data[i];
    }
    q := p + |data|;
  }

  method WriteBody(out: array<byte>, ttl: byte, f: Fields) returns (p: nat)
    requires out.Length >= PDU_MAX && f.Ok()
    modifies out
    ensures p == |Body(ttl, f)| && out[..] == Body(ttl, f) + old(out[p..])
  {
    hide TtlByte, LowByte, HighByte;
    ghost var orig := out[..];
    var head := [MAGIC, TtlByte(ttl), LowByte(f.seqNo), HighByte(f.seqNo)];
    p := Put(out, [], orig, 0, head);
    p := Put(out, head, orig, p, f.src);
    p := Put(out, head + f.src, orig, p, [f.dstType]);
    p := Put(out, head + f.src + [f.dstType], orig, p, f.dst);
    p := Put(out, head + f.src + [f.dstType] + f.dst, orig, p, [f.opcode]);
    p := Put(out, head + f.src + [f.dstType] + f.dst + [f.opcode], orig, p, f.payload);
  }

  /** mesh_pdu_build: an oversized payload is refused, a failed cipher call is reported, and
      otherwise exactly the signed PDU is in the buffer and not a byte more. */
  method Build(out: array<byte>, ttl: byte, f: Fields, cmac: CmacUnit, key: bytes) returns (len: int)
    requires cmac.Valid() && out.Length >= PDU_MAX
    requires f.seqNo < 0x1_0000 && |f.src| == 3 && |f.dst| == DstLen(f.dstType)
    modifies out, cmac, cmac.aes
    ensures cmac.Valid()
    ensures len == -1 <==> !f.Ok() || !NoFault(cmac.aes.fault, old(cmac.aes.calls), cmac.aes.calls)
    ensures len != -1 ==> (0 <= len <= PDU_MAX && f.Ok()
      && out[..len] == Signed(cmac.aes.cipher, key, ttl, f) && out[len..] == old(out[len..]))
  {
    hide Mac, IsCipher, Body, MacOf;
    if |f.payload| > MaxPayload(f.dstType) {
      return -1;
    }
    ghost var orig := out[..];
    var p := WriteBody(out, ttl, f);
    ghost var body := Body(ttl, f);
    assert out[..p] == body;
    var ok, mac := MacOverBody(cmac, key, out[..p]);
    if !ok {
      return -1;
    }
    p := Put(out, body, orig, p, mac);
    assert out[..p] == body + mac;
    assert out[p..] == orig[p..];
    return p;
  }

  /** mesh_pdu_verify */
  method Verify(pdu: bytes, cmac: CmacUnit, key: bytes) returns (ok: bool)
    requires cmac.Valid()
    modifies cmac, cmac.aes
    ensures cmac.Valid()
    ensures ok == (NoFault(cmac.aes.fault, old(cmac.aes.calls), cmac.aes.calls)
                   && Verifies(cmac.aes.cipher, key, pdu))
  {
    hide Mac, IsCipher;
    var v := Parse(pdu);
    if v.None? {
      return false;
    }
    var want;
    ok, want := MacOverBody(cmac, key, v.value.body);
    ok := ok && want == v.value.mac;
  }
}
