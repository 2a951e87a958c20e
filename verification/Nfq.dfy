// The NFQUEUE netlink messages: internal/nfq/nfq_proto.go. The host byte order is a parameter.
module Nfq {
  import opened Options
  import opened Wire

  const PACKET_HDR: nat := 1
  const VERDICT_HDR: nat := 2
  const PAYLOAD: nat := 10
  const NF_DROP: nat := 0
  const NF_ACCEPT: nat := 1

  datatype Error = Short | MissingId | MissingPayload

  /** Which queue and which kernel packet a verdict is for. */
  datatype Meta = Meta(queue: nat, id: nat)
  datatype Parsed = Parsed(payload: Option<Bytes>, meta: Meta, error: Option<Error>)

  datatype Attribute = Attribute(kind: nat, data: Bytes)

  /** What a walk met, and whether it reached the end of the message. */
  datatype Walked = Walked(attrs: seq<Attribute>, whole: bool)

  // ---- Numbers ----

  function Native16(data: Bytes, at: nat, little: bool): (n: nat)
    requires at + 2 <= |data|
    ensures n < 0x1_0000
  {
    if little then U16([data[at + 1], data[at]], 0) else U16(data, at)
  }

  function PutNative16(n: nat, little: bool): (code: Bytes)
    ensures |code| == 2
    ensures Native16(code, 0, little) == n % 0x1_0000
  {
    var code := Put16(n);
    if little then [code[1], code[0]] else code
  }

  function U32(data: Bytes, at: nat): (n: nat)
    requires at + 4 <= |data|
    ensures n < 0x1_0000_0000
  {
    0x1_0000 * U16(data, at) + U16(data, at + 2)
  }

  function Put32(n: nat): (code: Bytes)
    ensures |code| == 4
  {
    Put16(n / 0x1_0000) + Put16(n)
  }

  function Native32(data: Bytes, at: nat, little: bool): nat
    requires at + 4 <= |data|
  {
    if little then 0x1_0000 * Native16(data, at + 2, true) + Native16(data, at, true) else U32(data, at)
  }

  function PutNative32(n: nat, little: bool): (code: Bytes)
    ensures |code| == 4
  {
    if little then PutNative16(n, true) + PutNative16(n / 0x1_0000, true) else Put32(n)
  }

  /** Which octet weighs how much: the network order has the heaviest first, the little-endian one the lightest. */
  lemma ByteOrder(data: Bytes, at: nat)
    requires at + 4 <= |data|
    ensures var a: int, b: int, c: int, d: int := data[at], data[at + 1], data[at + 2], data[at + 3];
            && U16(data, at) == 256 * a + b && Native16(data, at, true) == a + 256 * b
            && Native16(data, at, false) == 256 * a + b
            && U32(data, at) == 16777216 * a + 65536 * b + 256 * c + d
            && Native32(data, at, true) == a + 256 * b + 65536 * c + 16777216 * d
            && Native32(data, at, false) == U32(data, at)
  {
  }

  /** (x + 3) &^ 3. */
  function Align(x: nat): (y: nat)
    ensures x <= y < x + 4 && y % 4 == 0
  {
    (x + 3) / 4 * 4
  }

  // ---- The packet message parser ----

  function Walk(msg: Bytes, off: nat, little: bool): Walked
    decreases |msg| - off
  {
    if off + 4 > |msg| then Walked([], true)
    else
      var len := Native16(msg, off, little);
      if len < 4 || off + len > |msg| then Walked([], false)
      else
        var rest := Walk(msg, Align(off + len), little);
        Walked([Attribute(Native16(msg, off + 2, little), msg[off + 4..off + len])] + rest.attrs, rest.whole)
  }

  /** What the attributes leave behind, up to the first packet header that is too short. */
  datatype Reading = Reading(id: nat, payload: Option<Bytes>, ok: bool)

  function ReadOne(s: Reading, a: Attribute): Reading {
    if !s.ok then s
    else if a.kind == PACKET_HDR then
      if |a.data| < 8 then s.(ok := false) else s.(id := U32(a.data, 0))
    else if a.kind == PAYLOAD then s.(payload := Some(a.data))
    else s
  }

  function Read(attrs: seq<Attribute>): Reading {
    if attrs == [] then Reading(0, None, true) else ReadOne(Read(attrs[..|attrs| - 1]), attrs[|attrs| - 1])
  }

  function ParseFn(msg: Bytes, little: bool): Parsed {
    if |msg| < 20 then Parsed(None, Meta(0, 0), Some(Short))
    else
      var w := Walk(msg, 20, little);
      var s := Read(w.attrs);
      var meta := Meta(U16(msg, 18), s.id);
      if !s.ok || !w.whole then Parsed(None, meta, Some(Short))
      else if s.id == 0 then Parsed(None, meta, Some(MissingId))
      else if s.payload.None? then Parsed(None, meta, Some(MissingPayload))
      else Parsed(s.payload, meta, None)
  }

  /** parsePacketMsg: it stays in bounds and terminates on every byte string. */
  method ParsePacketMsg(msg: Bytes, little: bool) returns (payload: Option<Bytes>, meta: Meta, error: Option<Error>)
    ensures Parsed(payload, meta, error) == ParseFn(msg, little)
  {
    hide Native16, U16, U32, Walk, Read, Align;
    payload, meta := None, Meta(0, 0);
    if |msg| < 20 {
      return None, meta, Some(Short);
    }
    meta := meta.(queue := U16(msg, 18));
    var off: nat := 20;
    ghost var done: seq<Attribute> := [];
    ReadNothing();
    while off + 4 <= |msg|
      invariant Walk(msg, 20, little).attrs == done + Walk(msg, off, little).attrs
      invariant Walk(msg, 20, little).whole == Walk(msg, off, little).whole
      invariant Read(done) == Reading(meta.id, payload, true) && meta.queue == U16(msg, 18)
      decreases |msg| - off
    {
      WalkStep(msg, off, little);
      var alen, atype := Native16(msg, off, little), Native16(msg, off + 2, little);
      if alen < 4 || off + alen > |msg| {
        assert done + [] == done;
        return None, meta, Some(Short);
      }
      var dataEnd := off + alen;
      var data := msg[off + 4..dataEnd];
      ghost var more := Walk(msg, Align(dataEnd), little).attrs;
      Regroup(done, Attribute(atype, data), more);
      ReadNext(done, Attribute(atype, data));
      done := done + [Attribute(atype, data)];
      if atype == PACKET_HDR {
        if |data| < 8 {
          StaysBroken(done, more);
          return None, meta, Some(Short);
        }
        meta := meta.(id := U32(data, 0));
      } else if atype == PAYLOAD {
        payload := Some(data);
      }
      off := Align(dataEnd);
    }
    WalkEnd(msg, off, little);
    assert done + [] == done;
    if meta.id == 0 {
      return None, meta, Some(MissingId);
    }
    if payload.None? {
      return None, meta, Some(MissingPayload);
    }
    return payload, meta, None;
  }

  lemma WalkStep(msg: Bytes, off: nat, little: bool)
    requires off + 4 <= |msg|
    ensures var len := Native16(msg, off, little);
            if len < 4 || off + len > |msg| then Walk(msg, off, little) == Walked([], false)
            else
              var rest := Walk(msg, Align(off + len), little);
              Walk(msg, off, little) ==
              Walked([Attribute(Native16(msg, off + 2, little), msg[off + 4..off + len])] + rest.attrs, rest.whole)
  {
  }

  lemma WalkEnd(msg: Bytes, off: nat, little: bool)
    requires off + 4 > |msg|
    ensures Walk(msg, off, little) == Walked([], true)
  {
  }

  lemma ReadNothing()
    ensures Read([]) == Reading(0, None, true)
  {
  }

  lemma ReadNext(attrs: seq<Attribute>, a: Attribute)
    ensures Read(attrs + [a]) == ReadOne(Read(attrs), a)
  {
    assert (attrs + [a])[..|attrs|] == attrs;
  }

  lemma Regroup(done: seq<Attribute>, a: Attribute, rest: seq<Attribute>)
    ensures done + ([a] + rest) == done + [a] + rest
  {
  }

  /** Nothing behind a short packet header is looked at. */
  lemma {:induction false} StaysBroken(attrs: seq<Attribute>, more: seq<Attribute>)
    requires !Read(attrs).ok
    ensures Read(attrs + more) == Read(attrs)
  {
    if more == [] {
      assert attrs + more == attrs;
    } else {
      var n := |more| - 1;
      StaysBroken(attrs, more[..n]);
      ReadNext(attrs + more[..n], more[n]);
      assert attrs + more == attrs + more[..n] + [more[n]];
    }
  }

  // ---- What the parser reads ----

  /** The data of the last attribute of a type. */
  ghost function LastOf(attrs: seq<Attribute>, kind: nat): Option<Bytes> {
    if attrs == [] then None
    else if attrs[|attrs| - 1].kind == kind then Some(attrs[|attrs| - 1].data)
    else LastOf(attrs[..|attrs| - 1], kind)
  }

  lemma {:induction false} LastOfIsLast(attrs: seq<Attribute>, kind: nat)
    ensures LastOf(attrs, kind) == None <==> forall j :: 0 <= j < |attrs| ==> attrs[j].kind != kind
    ensures forall i :: 0 <= i < |attrs| && attrs[i].kind == kind && (forall j :: i < j < |attrs| ==> attrs[j].kind != kind)
                        ==> LastOf(attrs, kind) == Some(attrs[i].data)
  {
    if attrs != [] {
      LastOfIsLast(attrs[..|attrs| - 1], kind);
    }
  }

  /** No packet header is shorter than its 8 octets. */
  ghost predicate HeadersWhole(attrs: seq<Attribute>) {
    forall j :: 0 <= j < |attrs| && attrs[j].kind == PACKET_HDR ==> |attrs[j].data| >= 8
  }

  lemma LastHeaderWhole(attrs: seq<Attribute>)
    requires HeadersWhole(attrs)
    ensures LastOf(attrs, PACKET_HDR).Some? ==> |LastOf(attrs, PACKET_HDR).value| >= 8
    decreases |attrs|
  {
    if attrs != [] {
      LastHeaderWhole(attrs[..|attrs| - 1]);
    }
  }

  /** The packet id a message names: that of its last packet header, zero without one. */
  ghost function IdOf(attrs: seq<Attribute>): nat
    requires HeadersWhole(attrs)
  {
    LastHeaderWhole(attrs);
    match LastOf(attrs, PACKET_HDR)
    case None => 0
    case Some(data) => U32(data, 0)
  }

  /** The last packet header gives the id, the last payload wins, other types count for nothing. */
  lemma {:induction false} ReadMeans(attrs: seq<Attribute>)
    ensures Read(attrs).ok <==> HeadersWhole(attrs)
    ensures HeadersWhole(attrs) ==> Read(attrs) == Reading(IdOf(attrs), LastOf(attrs, PAYLOAD), true)
  {
    hide U32;
    if attrs != [] {
      var front, last := attrs[..|attrs| - 1], attrs[|attrs| - 1];
      ReadMeans(front);
      assert HeadersWhole(attrs) <==> HeadersWhole(front) && (last.kind == PACKET_HDR ==> |last.data| >= 8);
    }
  }

  // ---- Serialised attributes ----

  /** An attribute with its length and type, padded to a multiple of four octets. */
  function EncodeOne(a: Attribute, little: bool): (code: Bytes)
    ensures |code| == Align(4 + |a.data|)
  {
    PutNative16(4 + |a.data|, little)
    + (PutNative16(a.kind, little) + (a.data + Zeros(Align(4 + |a.data|) - (4 + |a.data|))))
  }

  function EncodeAttributes(attrs: seq<Attribute>, little: bool): Bytes {
    if attrs == [] then [] else EncodeOne(attrs[0], little) + EncodeAttributes(attrs[1..], little)
  }

  /** Lengths and types fit their 16 bits. */
  ghost predicate AttributesFit(attrs: seq<Attribute>) {
    forall i :: 0 <= i < |attrs| ==> attrs[i].kind < 0x1_0000 && |attrs[i].data| < 0x1_0000 - 4
  }

  lemma NativeAt(data: Bytes, at: nat, n: nat, little: bool)
    requires n < 0x1_0000 && at + 2 <= |data| && data[at..at + 2] == PutNative16(n, little)
    ensures Native16(data, at, little) == n
  {
    assert data[at..at + 2][0] == data[at] && data[at..at + 2][1] == data[at + 1];
  }

  lemma OneRead(msg: Bytes, pre: Bytes, a: Attribute, rest: Bytes, little: bool)
    requires a.kind < 0x1_0000 && |a.data| < 0x1_0000 - 4
    requires msg == pre + (EncodeOne(a, little) + rest)
    ensures |pre| + 4 + |a.data| <= |msg|
    ensures Native16(msg, |pre|, little) == 4 + |a.data| && Native16(msg, |pre| + 2, little) == a.kind
    ensures msg[|pre| + 4..|pre| + 4 + |a.data|] == a.data
  {
    hide Align, PutNative16, Native16;
    var p := |pre|;
    assert msg[p..p + 2] == PutNative16(4 + |a.data|, little);
    assert msg[p + 2..p + 4] == PutNative16(a.kind, little);
    NativeAt(msg, p, 4 + |a.data|, little);
    NativeAt(msg, p + 2, a.kind, little);
  }

  /** Walking serialised attributes yields them all, in order. */
  lemma {:induction false} WalkReads(msg: Bytes, pre: Bytes, attrs: seq<Attribute>, little: bool)
    requires AttributesFit(attrs) && |pre| % 4 == 0
    requires msg == pre + EncodeAttributes(attrs, little)
    ensures Walk(msg, |pre|, little) == Walked(attrs, true)
    decreases |attrs|
  {
    hide Walk, EncodeOne, Native16, Align;
    if attrs == [] {
      WalkEnd(msg, |pre|, little);
    } else {
      var rest := EncodeAttributes(attrs[1..], little);
      OneRead(msg, pre, attrs[0], rest, little);
      var pre1 := pre + EncodeOne(attrs[0], little);
      assert msg == pre1 + rest;
      AlignShift(|pre|, 4 + |attrs[0].data|);
      WalkReads(msg, pre1, attrs[1..], little);
      WalkStep(msg, |pre|, little);
      assert attrs == [attrs[0]] + attrs[1..];
    }
  }

  lemma AlignShift(base: nat, x: nat)
    requires base % 4 == 0
    ensures Align(base + x) == base + Align(x) && (base + Align(x)) % 4 == 0
  {
  }

  /** A message of serialised attributes is delivered exactly when every packet header is whole, the last one carries a
      nonzero id and there is a payload; it then yields that id, the last payload and the queue of the message. */
  lemma ParsesSerialised(head: Bytes, attrs: seq<Attribute>, little: bool)
    requires |head| == 20
    requires forall i :: 0 <= i < |attrs| ==> attrs[i].kind < 65536 && |attrs[i].data| <= 65531
    ensures ParseFn(head + EncodeAttributes(attrs, little), little) ==
            if !HeadersWhole(attrs) then Parsed(None, Meta(U16(head, 18), Read(attrs).id), Some(Short))
            else
              var meta := Meta(U16(head, 18), IdOf(attrs));
              if meta.id == 0 then Parsed(None, meta, Some(MissingId))
              else if LastOf(attrs, PAYLOAD).None? then Parsed(None, meta, Some(MissingPayload))
              else Parsed(LastOf(attrs, PAYLOAD), meta, None)
  {
    assert AttributesFit(attrs);
    hide U32, U16, Walk, Read, EncodeAttributes, HeadersWhole, IdOf, LastOf;
    WalkReads(head + EncodeAttributes(attrs, little), head, attrs, little);
    ReadMeans(attrs);
    QueueOf(head, EncodeAttributes(attrs, little));
  }

  lemma QueueOf(head: Bytes, tail: Bytes)
    requires |head| == 20
    ensures U16(head + tail, 18) == U16(head, 18)
  {
  }

  // ---- Verdicts ----

  /** nfqnlType. */
  function MessageType(low: nat): nat {
    3 * 256 + low
  }

  function NetlinkHeader(len: nat, kind: nat, seqNo: nat, pid: nat, little: bool): (code: Bytes)
    ensures |code| == 16
  {
    PutNative32(len, little) + PutNative16(kind, little) + PutNative16(1, little)
    + PutNative32(seqNo, little) + PutNative32(pid, little)
  }

  /** The first 20 octets of a verdict message: netlink header, family, version and queue number. */
  function VerdictHead(seqNo: nat, pid: nat, meta: Meta, little: bool): (code: Bytes)
    ensures |code| == 20
  {
    NetlinkHeader(32, MessageType(1), seqNo, pid, little) + [0, 0] + Put16(meta.queue)
  }

  /** What is written so far, and zeros up to the end of the buffer. */
  ghost predicate Written(buf: array<Octet>, done: Bytes)
    reads buf
  {
    && |done| <= buf.Length && buf[..|done|] == done
    && forall k :: |done| <= k < buf.Length ==> buf[k] == 0
  }

  /** binary.Put: overwrite the octets at an offset. */
  method PutAt(buf: array<Octet>, at: nat, code: Bytes, ghost done: Bytes)
    requires at == |done| && at + |code| <= buf.Length && Written(buf, done)
    modifies buf
    ensures Written(buf, done + code)
  {
    for i := 0 to |code|
      invariant forall k :: 0 <= k < i ==> buf[at + k] == code[k]
      invariant forall k :: 0 <= k < buf.Length && !(at <= k < at + i) ==> buf[k] == old(buf[k])
    {
      buf[at + i] := code[i];
    }
    assert forall k :: 0 <= k < at ==> buf[k] == old(buf[..at])[k];
  }

  /** buildVerdict: the message is written into a zeroed buffer field by field; what it holds is a header naming the
      queue and a single verdict attribute. */
  method BuildVerdict(seqNo: nat, pid: nat, meta: Meta, verdict: nat, little: bool) returns (buf: array<Octet>)
    ensures fresh(buf)
    ensures buf[..] == VerdictHead(seqNo, pid, meta, little)
                       + EncodeAttributes([Attribute(VERDICT_HDR, Put32(verdict) + Put32(meta.id))], little)
  {
    hide PutNative16, PutNative32, Put16, Put32, Written, EncodeAttributes;
    buf := new Octet[32](_ => 0);
    StartsEmpty(buf);
    PutAt(buf, 0, PutNative32(32, little), []);
    ghost var d1 := [] + PutNative32(32, little);
    PutAt(buf, 4, PutNative16(MessageType(1), little), d1);
    ghost var d2 := d1 + PutNative16(MessageType(1), little);
    PutAt(buf, 6, PutNative16(1, little), d2);
    ghost var d3 := d2 + PutNative16(1, little);
    PutAt(buf, 8, PutNative32(seqNo, little), d3);
    ghost var d4 := d3 + PutNative32(seqNo, little);
    PutAt(buf, 12, PutNative32(pid, little), d4);
    ghost var d5 := d4 + PutNative32(pid, little);
    SkipZeros(buf, d5);
    PutAt(buf, 18, Put16(meta.queue), d5 + [0, 0]);
    ghost var d6 := d5 + [0, 0] + Put16(meta.queue);
    assert d6 == VerdictHead(seqNo, pid, meta, little);
    var o := 20;
    PutAt(buf, o, PutNative16(12, little), d6);
    ghost var d7 := d6 + PutNative16(12, little);
    PutAt(buf, o + 2, PutNative16(VERDICT_HDR, little), d7);
    ghost var d8 := d7 + PutNative16(VERDICT_HDR, little);
    o := o + 4;
    PutAt(buf, o, Put32(verdict), d8);
    PutAt(buf, o + 4, Put32(meta.id), d8 + Put32(verdict));
    WrittenFully(buf, d8 + Put32(verdict) + Put32(meta.id));
    VerdictAttribute(d6, verdict, meta.id, little);
  }

  lemma StartsEmpty(buf: array<Octet>)
    requires forall k :: 0 <= k < buf.Length ==> buf[k] == 0
    ensures Written(buf, [])
  {
  }

  lemma SkipZeros(buf: array<Octet>, done: Bytes)
    requires Written(buf, done) && |done| + 2 <= buf.Length
    ensures Written(buf, done + [0, 0])
  {
    assert buf[..|done| + 2] == buf[..|done|] + [buf[|done|], buf[|done| + 1]];
  }

  lemma WrittenFully(buf: array<Octet>, done: Bytes)
    requires Written(buf, done) && |done| == buf.Length
    ensures buf[..] == done
  {
  }

  lemma VerdictAttribute(head: Bytes, verdict: nat, id: nat, little: bool)
    ensures head + PutNative16(12, little) + PutNative16(VERDICT_HDR, little) + Put32(verdict) + Put32(id)
            == head + EncodeAttributes([Attribute(VERDICT_HDR, Put32(verdict) + Put32(id))], little)
  {
    hide PutNative16, Put32;
    var data := Put32(verdict) + Put32(id);
    var a := Attribute(VERDICT_HDR, data);
    assert [a][1..] == [];
    assert Align(12) == 12;
    assert EncodeOne(a, little) == PutNative16(12, little) + (PutNative16(VERDICT_HDR, little) + data);
    assert EncodeAttributes([a], little) == EncodeOne(a, little);
  }

  lemma U32Put(n: nat, rest: Bytes)
    requires n < 0x1_0000_0000
    ensures U32(Put32(n) + rest, 0) == n
  {
    var data, high, low := Put32(n) + rest, Put16(n / 0x1_0000), Put16(n);
    assert data[0..2] == high && data[2..4] == low;
    U16At(data, 0, high);
    U16At(data, 2, low);
  }

  /** The kernel's reading of a verdict message: every field comes back as it was given. */
  lemma VerdictReadBack(seqNo: nat, pid: nat, meta: Meta, verdict: nat, little: bool)
    requires meta.queue < 0x1_0000 && meta.id < 0x1_0000_0000 && verdict < 0x1_0000_0000
    requires seqNo < 0x1_0000_0000 && pid < 0x1_0000_0000
    ensures var data := Put32(verdict) + Put32(meta.id);
            var msg := VerdictHead(seqNo, pid, meta, little) + EncodeAttributes([Attribute(VERDICT_HDR, data)], little);
            && Native32(msg, 0, little) == |msg| && Native16(msg, 4, little) == 0x301 && Native16(msg, 6, little) == 1
            && Native32(msg, 8, little) == seqNo && Native32(msg, 12, little) == pid
            && msg[16] == 0 && msg[17] == 0 && U16(msg, 18) == meta.queue
            && Walk(msg, 20, little) == Walked([Attribute(VERDICT_HDR, data)], true)
            && U32(data, 0) == verdict && U32(data, 4) == meta.id
  {
    hide PutNative16, Put32, Put16, Walk, EncodeAttributes, Native16, U32, Native32;
    var data := Put32(verdict) + Put32(meta.id);
    var attrs := [Attribute(VERDICT_HDR, data)];
    var head := VerdictHead(seqNo, pid, meta, little);
    var msg := head + EncodeAttributes(attrs, little);
    WalkReads(msg, head, attrs, little);
    VerdictAttribute(head, verdict, meta.id, little);
    U32Put(verdict, Put32(meta.id));
    U32Put(meta.id, []);
    SecondWord(data, Put32(verdict), Put32(meta.id));
    HeadFields(seqNo, pid, meta, little, EncodeAttributes(attrs, little));
  }

  lemma SecondWord(data: Bytes, a: Bytes, b: Bytes)
    requires |a| == 4 && |b| == 4 && data == a + b
    ensures U32(data, 4) == U32(b + [], 0)
  {
  }

  lemma HeadFields(seqNo: nat, pid: nat, meta: Meta, little: bool, rest: Bytes)
    requires meta.queue < 0x1_0000 && seqNo < 0x1_0000_0000 && pid < 0x1_0000_0000
    ensures var msg := VerdictHead(seqNo, pid, meta, little) + rest;
            && Native32(msg, 0, little) == 32 && Native16(msg, 4, little) == 0x301 && Native16(msg, 6, little) == 1
            && Native32(msg, 8, little) == seqNo && Native32(msg, 12, little) == pid
            && msg[16] == 0 && msg[17] == 0 && U16(msg, 18) == meta.queue
  {
    hide Put16, PutNative32, PutNative16, Native16, Native32;
    var msg := VerdictHead(seqNo, pid, meta, little) + rest;
    assert msg[18..20] == Put16(meta.queue);
    U16At(msg, 18, Put16(meta.queue));
    assert msg[4..6] == PutNative16(0x301, little);
    NativeAt(msg, 4, 0x301, little);
    assert msg[6..8] == PutNative16(1, little);
    NativeAt(msg, 6, 1, little);
    assert msg[0..4] == PutNative32(32, little);
    WordAt(msg, 0, 32, little);
    assert msg[8..12] == PutNative32(seqNo, little);
    WordAt(msg, 8, seqNo, little);
    assert msg[12..16] == PutNative32(pid, little);
    WordAt(msg, 12, pid, little);
  }

  /** A 32-bit number in host order is read back from where it was written. */
  lemma WordAt(data: Bytes, at: nat, n: nat, little: bool)
    requires n < 0x1_0000_0000 && at + 4 <= |data| && data[at..at + 4] == PutNative32(n, little)
    ensures Native32(data, at, little) == n
  {
    hide PutNative16, Native16, Put16, U16;
    var low, high := n % 0x1_0000, n / 0x1_0000;
    assert data[at..at + 4][0..2] == data[at..at + 2] && data[at..at + 4][2..4] == data[at + 2..at + 4];
    if little {
      PutLow(n);
      NativeAt(data, at, low, true);
      NativeAt(data, at + 2, high, true);
    } else {
      U16At(data, at, Put16(high));
      U16At(data, at + 2, Put16(n));
    }
  }

  lemma PutLow(n: nat)
    ensures PutNative16(n, true) == PutNative16(n % 0x1_0000, true)
  {
  }

  /** verdictFor. */
  function VerdictFor(v: string): nat {
    if v == "drop" || v == "block" || v == "reject" || v == "ratelimit" then NF_DROP else NF_ACCEPT
  }

  lemma {:induction false} IdFits(attrs: seq<Attribute>)
    ensures Read(attrs).id < 0x1_0000_0000
  {
    hide U32;
    if attrs != [] {
      IdFits(attrs[..|attrs| - 1]);
    }
  }

  /** The answer to a delivered packet, whatever its message was, names that packet: its queue and its id. */
  lemma AnswerMatches(packet: Bytes, v: string, seqNo: nat, little: bool)
    requires ParseFn(packet, little).error == None && seqNo < 0x1_0000_0000
    ensures var meta := ParseFn(packet, little).meta;
            var data := Put32(VerdictFor(v)) + Put32(meta.id);
            var msg := VerdictHead(seqNo, 0, meta, little) + EncodeAttributes([Attribute(VERDICT_HDR, data)], little);
            && U16(msg, 18) == U16(packet, 18)
            && Walk(msg, 20, little) == Walked([Attribute(VERDICT_HDR, data)], true)
            && U32(data, 4) == Read(Walk(packet, 20, little).attrs).id != 0
            && (U32(data, 0) == NF_DROP <==> v in ["drop", "block", "reject", "ratelimit"])
  {
    hide U16, U32, Walk, Read, Put32, EncodeAttributes;
    IdFits(Walk(packet, 20, little).attrs);
    VerdictReadBack(seqNo, 0, ParseFn(packet, little).meta, VerdictFor(v), little);
  }
}
