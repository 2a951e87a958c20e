// The TLS ClientHello parser: internal/tls/tls.go (RFC 8446, sections 4.1.2, 4.2 and 5.1; RFC 6066, section 3).
module Tls {
  import opened Options
  import opened Slices
  import opened Wire

  datatype Error = Truncated | NotTls
  datatype Hello = Hello(sni: Bytes, version: nat, alpn: seq<Bytes>, extensions: nat)
  datatype Parsed = Ok(hello: Hello) | Err(error: Error)

  /** An extension: its type and its body. */
  datatype Extension = Extension(kind: nat, body: Bytes)

  const SERVER_NAME: nat := 0
  const ALPN: nat := 16
  const HANDSHAKE: Octet := 0x16

  // ---- The parser as functions ----

  /** The handshake bytes of a record: what its length field covers, as far as the data goes. */
  function Handshake(data: Bytes): Bytes
    requires |data| >= 5
  {
    data[5..Min(|data|, 5 + U16(data, 3))]
  }

  /** The offset behind a vector with a one-octet length. */
  function SkipShort(hs: Bytes, p: nat): Option<nat> {
    if p + 1 > |hs| then None
    else
      var len: nat := hs[p];
      Some(p + 1 + len)
  }

  /** The offset behind a vector with a two-octet length. */
  function SkipLong(hs: Bytes, p: nat): Option<nat> {
    if p + 2 > |hs| then None else Some(p + 2 + U16(hs, p))
  }

  /** Where the extension block starts: behind header, version, random, session id, ciphers and compression. */
  function BlockStart(hs: Bytes): Option<nat> {
    match SkipShort(hs, 38)
    case None => None
    case Some(a) =>
      match SkipLong(hs, a)
      case None => None
      case Some(b) =>
        match SkipShort(hs, b)
        case None => None
        case Some(c) => if c + 2 > |hs| then None else Some(c)
  }

  /** The extension block, as far as the handshake goes; empty when the handshake ends before it. */
  function Block(hs: Bytes): Bytes {
    match BlockStart(hs)
    case None => []
    case Some(c) =>
      if c + 2 > |hs| then [] else hs[c + 2..Min(|hs|, c + 2 + U16(hs, c))]
  }

  /** The complete extensions at the front of a block. */
  function Extensions(block: Bytes): seq<Extension>
    decreases |block|
  {
    if |block| < 4 || 4 + U16(block, 2) > |block| then []
    else
      var end := 4 + U16(block, 2);
      [Extension(U16(block, 0), block[4..end])] + Extensions(block[end..])
  }

  /** The first host name of a server name list, from entry offset `q` on. */
  function HostFrom(body: Bytes, q: nat, end: nat): Option<Bytes>
    decreases |body| - q
  {
    if q + 3 > end || q + 3 > |body| then None
    else
      var n := U16(body, q + 1);
      if body[q] == 0 && q + 3 + n <= |body| then Some(body[q + 3..q + 3 + n])
      else HostFrom(body, q + 3 + n, end)
  }

  function HostIn(body: Bytes): Option<Bytes> {
    if |body| < 2 then None else HostFrom(body, 2, 2 + U16(body, 0))
  }

  /** The host name of the last server_name extension that holds one. */
  function Sni(exts: seq<Extension>): Bytes {
    if exts == [] then []
    else
      var last := exts[|exts| - 1];
      if last.kind == SERVER_NAME && HostIn(last.body).Some? then HostIn(last.body).value
      else Sni(exts[..|exts| - 1])
  }

  function ProtocolsFrom(body: Bytes, q: nat): seq<Bytes>
    decreases |body| - q
  {
    if q + 1 >= |body| then []
    else
      var len: nat := body[q];
      if q + 1 + len > |body| then [] else [body[q + 1..q + 1 + len]] + ProtocolsFrom(body, q + 1 + len)
  }

  /** What the loop over ALPN bodies collects; it starts at the list length, not behind it. */
  function Protocols(exts: seq<Extension>): seq<Bytes> {
    if exts == [] then []
    else
      var last := exts[|exts| - 1];
      Protocols(exts[..|exts| - 1])
      + if last.kind == ALPN && |last.body| >= 2 then ProtocolsFrom(last.body, 0) else []
  }

  /** The extensions a record is taken to carry. */
  function Accepted(data: Bytes): seq<Extension> {
    if |data| < 5 || data[0] != HANDSHAKE || |Handshake(data)| < 4 then [] else Extensions(Block(Handshake(data)))
  }

  function ParseFn(data: Bytes): Parsed {
    if |data| < 5 then Err(Truncated)
    else if data[0] != HANDSHAKE then Err(NotTls)
    else
      var hs, exts := Handshake(data), Accepted(data);
      if |hs| < 4 then Err(Truncated)
      else Ok(Hello(Sni(exts), if |hs| < 6 then U16(data, 1) else U16(hs, 4), Protocols(exts), |exts|))
  }

  // ---- The parser as the loops of the source ----

  method ReadHost(body: Bytes) returns (host: Option<Bytes>)
    ensures host == HostIn(body)
  {
    if |body| < 2 {
      return None;
    }
    var q: nat, end := 2, 2 + U16(body, 0);
    while q + 3 <= end && q + 3 <= |body|
      invariant HostIn(body) == HostFrom(body, q, end)
      decreases |body| - q
    {
      var kind, n := body[q], U16(body, q + 1);
      q := q + 3;
      if kind == 0 && q + n <= |body| {
        return Some(body[q..q + n]);
      }
      q := q + n;
    }
    return None;
  }

  lemma ProtocolsStep(body: Bytes, done: seq<Bytes>, q: nat)
    requires q + 1 < |body| && q + 1 + body[q] <= |body|
    ensures var end: int := q + 1 + body[q];
            done + ProtocolsFrom(body, q) == (done + [body[q + 1..end]]) + ProtocolsFrom(body, end)
  {
  }

  method ReadProtocols(body: Bytes) returns (protocols: seq<Bytes>)
    ensures protocols == ProtocolsFrom(body, 0)
  {
    protocols := [];
    var q: nat := 0;
    while q + 1 < |body|
      invariant ProtocolsFrom(body, 0) == protocols + ProtocolsFrom(body, q)
      decreases |body| - q
    {
      ghost var before, from := protocols, q;
      var l: nat := body[q];
      q := q + 1;
      if q + l > |body| {
        return;
      }
      protocols := protocols + [body[q..q + l]];
      q := q + l;
      ProtocolsStep(body, before, from);
    }
  }

  lemma ExtensionsStep(hs: Bytes, p: nat, end: nat)
    requires p + 4 <= end <= |hs|
    ensures var next := p + 4 + U16(hs, p + 2);
            Extensions(hs[p..end]) ==
            if next > end then []
            else [Extension(U16(hs, p), hs[p + 4..next])] + Extensions(hs[next..end])
  {
    var block := hs[p..end];
    assert U16(block, 0) == U16(hs, p) && U16(block, 2) == U16(hs, p + 2);
    var n := 4 + U16(hs, p + 2);
    if n <= |block| {
      SliceOfSlice(hs, p, end, 4, n);
      SliceOfSlice(hs, p, end, n, end - p);
    }
  }

  /** One more extension: a usable host name replaces the last one, protocols are appended. */
  lemma OneMore(exts: seq<Extension>, e: Extension)
    ensures Sni(exts + [e])
            == if e.kind == SERVER_NAME && HostIn(e.body).Some? then HostIn(e.body).value else Sni(exts)
    ensures Protocols(exts + [e])
            == Protocols(exts) + if e.kind == ALPN && |e.body| >= 2 then ProtocolsFrom(e.body, 0) else []
  {
    assert (exts + [e])[..|exts|] == exts;
  }

  /** The walk over the extension block, from `start` to `extEnd`. */
  method ReadExtensions(hs: Bytes, start: nat, extEnd: nat) returns (sni: Bytes, alpn: seq<Bytes>, count: nat)
    requires start <= extEnd <= |hs|
    ensures var exts := Extensions(hs[start..extEnd]);
            sni == Sni(exts) && alpn == Protocols(exts) && count == |exts|
  {
    hide Extensions, Sni, Protocols, HostIn, ProtocolsFrom, U16;
    NoExtensions();
    sni, alpn, count := [], [], 0;
    var p := start;
    ghost var done: seq<Extension> := [];
    while p + 4 <= extEnd
      invariant start <= p <= extEnd
      invariant Extensions(hs[start..extEnd]) == done + Extensions(hs[p..extEnd])
      invariant sni == Sni(done) && alpn == Protocols(done) && count == |done|
      decreases extEnd - p
    {
      ExtensionsStep(hs, p, extEnd);
      var kind, len := U16(hs, p), U16(hs, p + 2);
      p := p + 4;
      if p + len > extEnd {
        assert done + [] == done;
        return;
      }
      var body := hs[p..p + len];
      p := p + len;
      count := count + 1;
      OneMore(done, Extension(kind, body));
      Regroup(done, Extension(kind, body), Extensions(hs[p..extEnd]));
      done := done + [Extension(kind, body)];
      if kind == SERVER_NAME {
        var host := ReadHost(body);
        if host.Some? {
          sni := host.value;
        }
      } else if kind == ALPN {
        if |body| >= 2 {
          var protocols := ReadProtocols(body);
          alpn := alpn + protocols;
        }
      }
    }
    ShortBlock(hs[p..extEnd]);
    assert done + [] == done;
  }

  lemma Regroup(done: seq<Extension>, e: Extension, rest: seq<Extension>)
    ensures done + ([e] + rest) == done + [e] + rest
  {
  }

  lemma ShortBlock(block: Bytes)
    requires |block| < 4
    ensures Extensions(block) == []
  {
  }

  /** ParseClientHello: it stays in bounds and terminates on every byte string. */
  method ParseClientHello(data: Bytes) returns (r: Parsed)
    ensures r == ParseFn(data)
  {
    hide Extensions, Sni, Protocols, U16;
    if |data| < 5 {
      return Err(Truncated);
    }
    if data[0] != HANDSHAKE {
      return Err(NotTls);
    }
    var version := U16(data, 1);
    var end := 5 + U16(data, 3);
    if end > |data| {
      end := |data|;
    }
    var hs := data[5..end];
    if |hs| < 4 {
      return Err(Truncated);
    }
    NoExtensions();
    var p: nat := 4;
    if p + 2 > |hs| {
      return Ok(Hello([], version, [], 0));
    }
    version := U16(hs, p);
    p := p + 2 + 32;
    if p + 1 > |hs| {
      return Ok(Hello([], version, [], 0));
    }
    p := p + 1 + hs[p];
    if p + 2 > |hs| {
      return Ok(Hello([], version, [], 0));
    }
    p := p + 2 + U16(hs, p);
    if p + 1 > |hs| {
      return Ok(Hello([], version, [], 0));
    }
    p := p + 1 + hs[p];
    if p + 2 > |hs| {
      return Ok(Hello([], version, [], 0));
    }
    var extTotal: nat := U16(hs, p);
    p := p + 2;
    if p + extTotal > |hs| {
      extTotal := |hs| - p;
    }
    var sni, alpn, count := ReadExtensions(hs, p, p + extTotal);
    return Ok(Hello(sni, version, alpn, count));
  }

  lemma NoExtensions()
    ensures Extensions([]) == [] && Sni([]) == [] && Protocols([]) == []
  {
  }

  // ---- Truncated input ----

  /** Extensions read from a prefix of a block are a prefix of those read from the whole block. */
  lemma {:induction false} ExtensionsOfPrefix(block: Bytes, k: nat)
    requires k <= |block|
    ensures Extensions(block[..k]) <= Extensions(block)
    decreases |block|
  {
    var part := block[..k];
    if |part| >= 4 {
      assert U16(part, 2) == U16(block, 2) && U16(part, 0) == U16(block, 0);
      var end := 4 + U16(block, 2);
      if end <= k {
        ExtensionsOfPrefix(block[end..], k - end);
        assert part[end..] == block[end..][..k - end];
        assert part[4..end] == block[4..end];
      }
    }
  }

  lemma BlockStartOfPrefix(hs: Bytes, k: nat)
    requires k <= |hs|
    ensures BlockStart(hs[..k]) == None || (BlockStart(hs[..k]) == BlockStart(hs) && BlockStart(hs).value + 2 <= k)
  {
  }

  lemma BlockOfPrefix(hs: Bytes, k: nat) returns (j: nat)
    requires k <= |hs|
    ensures j <= |Block(hs)| && Block(hs[..k]) == Block(hs)[..j]
    ensures BlockStart(hs).Some? && |Block(hs)| == |hs| - BlockStart(hs).value - 2 && k < |hs| && Block(hs) != []
            ==> j < |Block(hs)|
  {
    hide BlockStart;
    BlockStartOfPrefix(hs, k);
    match BlockStart(hs[..k])
    case None => j := 0;
    case Some(c) =>
      assert U16(hs[..k], c) == U16(hs, c);
      var end := Min(k, c + 2 + U16(hs, c));
      j := end - (c + 2);
      SliceOfSlice(hs, 0, k, c + 2, end);
      SliceOfSlice(hs, c + 2, Min(|hs|, c + 2 + U16(hs, c)), 0, j);
  }

  lemma HandshakeOfPrefix(data: Bytes, k: nat)
    requires 5 <= k <= |data|
    ensures |Handshake(data[..k])| <= |Handshake(data)|
    ensures Handshake(data[..k]) == Handshake(data)[..|Handshake(data[..k])|]
    ensures |Handshake(data)| == |data| - 5 && k < |data| ==> |Handshake(data[..k])| < |Handshake(data)|
  {
    assert U16(data[..k], 3) == U16(data, 3);
  }

  /** Extensions accepted from a prefix of arbitrary input are a prefix of those accepted from the whole. */
  lemma AcceptedOfPrefix(data: Bytes, k: nat)
    requires k <= |data|
    ensures Accepted(data[..k]) <= Accepted(data)
  {
    hide Extensions, Block;
    if k >= 5 && data[0] == HANDSHAKE && |Handshake(data[..k])| >= 4 {
      HandshakeOfPrefix(data, k);
      var hs := Handshake(data);
      var j := BlockOfPrefix(hs, |Handshake(data[..k])|);
      ExtensionsOfPrefix(Block(hs), j);
    }
  }

  // ---- Encoded records ----

  /** A ClientHello before it is encoded (RFC 8446, section 4.1.2). */
  datatype Message = Message(version: nat, random: Bytes, session: Bytes, ciphers: Bytes, compression: Bytes,
                             exts: seq<Extension>)

  /** A vector behind its length: one octet, or two. */
  function Short(v: Bytes): (code: Bytes)
    ensures |code| == 1 + |v|
  {
    [(|v| % 256) as Octet] + v
  }

  function Long(v: Bytes): (code: Bytes)
    ensures |code| == 2 + |v|
  {
    Put16(|v|) + v
  }

  function EncodeExtensions(exts: seq<Extension>): Bytes {
    if exts == [] then [] else Put16(exts[0].kind) + Long(exts[0].body) + EncodeExtensions(exts[1..])
  }

  /** Version, random, session id, cipher suites, compression methods, extensions. */
  function EncodeHello(m: Message): Bytes {
    Put16(m.version)
    + (m.random + (Short(m.session) + (Long(m.ciphers) + (Short(m.compression) + Long(EncodeExtensions(m.exts))))))
  }

  /** The handshake: message type 1 and a 24-bit length in front of the hello. */
  function EncodeHandshake(m: Message): Bytes {
    var hello := EncodeHello(m);
    [1, (|hello| / 0x1_0000 % 256) as Octet] + Put16(|hello|) + hello
  }

  /** The record around a handshake (RFC 8446, section 5.1). */
  function Encode(m: Message): Bytes {
    [HANDSHAKE, 3, 1] + Long(EncodeHandshake(m))
  }

  /** Every field fits the length octets it gets on the wire. */
  ghost predicate Fits(m: Message) {
    && m.version < 0x1_0000 && |m.random| == 32
    && |m.session| < 256 && |m.compression| < 256
    && |EncodeHandshake(m)| < 0x1_0000
    && forall i :: 0 <= i < |m.exts| ==> m.exts[i].kind < 0x1_0000
  }

  lemma ReadLong(hs: Bytes, pre: Bytes, v: Bytes, rest: Bytes)
    requires hs == pre + (Long(v) + rest) && |v| < 0x1_0000
    ensures |pre| + 2 + |v| <= |hs| && U16(hs, |pre|) == |v|
    ensures hs[|pre| + 2..|pre| + 2 + |v|] == v && hs[|pre| + 2 + |v|..] == rest
    ensures SkipLong(hs, |pre|) == Some(|pre| + 2 + |v|)
  {
    assert hs[|pre|..|pre| + 2] == Put16(|v|);
    U16At(hs, |pre|, Put16(|v|));
  }

  lemma ReadShort(hs: Bytes, pre: Bytes, v: Bytes, rest: Bytes)
    requires hs == pre + (Short(v) + rest) && |v| < 256
    ensures SkipShort(hs, |pre|) == Some(|pre| + 1 + |v|)
  {
    assert hs[|pre|] == |v|;
  }

  lemma EncodeParts(exts: seq<Extension>)
    ensures EncodeExtensions(exts)
            == if exts == [] then [] else Put16(exts[0].kind) + (Long(exts[0].body) + EncodeExtensions(exts[1..]))
  {
  }

  /** The extension list is read back from its encoding. */
  lemma {:induction false} ReadExtensionList(exts: seq<Extension>)
    requires |EncodeExtensions(exts)| < 0x1_0000
    requires forall i :: 0 <= i < |exts| ==> exts[i].kind < 0x1_0000
    ensures Extensions(EncodeExtensions(exts)) == exts
    decreases |exts|
  {
    hide Extensions, EncodeExtensions, Long, U16, Put16;
    EncodeParts(exts);
    var block := EncodeExtensions(exts);
    if exts == [] {
      ShortBlock(block);
    } else {
      var e, tail := exts[0], EncodeExtensions(exts[1..]);
      ReadExtensionList(exts[1..]);
      ReadLong(block, Put16(e.kind), e.body, tail);
      U16At(block, 0, Put16(e.kind));
      ExtensionsStep(block, 0, |block|);
      assert block[0..|block|] == block;
      assert exts == [e] + exts[1..];
    }
  }

  lemma Shift(hs: Bytes, pre: Bytes, v: Bytes, rest: Bytes)
    requires hs == pre + (v + rest)
    ensures hs == (pre + v) + rest && |pre + v| == |pre| + |v|
  {
  }

  lemma HandshakeParts(m: Message)
    requires Fits(m)
    ensures var hs := EncodeHandshake(m);
            && |hs| == 44 + |m.session| + |m.ciphers| + |m.compression| + |EncodeExtensions(m.exts)|
            && U16(hs, 4) == m.version
            && BlockStart(hs) == Some(42 + |m.session| + |m.ciphers| + |m.compression|)
            && Block(hs) == EncodeExtensions(m.exts)
  {
    hide EncodeExtensions, U16, BlockStart, Short, Long, Put16, SkipShort, SkipLong;
    var hs, block := EncodeHandshake(m), EncodeExtensions(m.exts);
    var tail4 := Long(block);
    var tail3 := Short(m.compression) + tail4;
    var tail2 := Long(m.ciphers) + tail3;
    var tail1 := Short(m.session) + tail2;
    var hello := EncodeHello(m);
    assert hello == Put16(m.version) + (m.random + tail1);
    var lead: Bytes := [1, (|hello| / 0x1_0000 % 256) as Octet] + Put16(|hello|);
    assert hs == lead + hello;
    VersionPart(hs, lead, m.version, m.random + tail1);
    Shift(hs, lead, Put16(m.version), m.random + tail1);
    Shift(hs, lead + Put16(m.version), m.random, tail1);
    Vectors(hs, lead + Put16(m.version) + m.random, m.session, m.ciphers, m.compression, block);
  }

  /** Session id, cipher suites and compression methods are skipped, and the block behind them found. */
  lemma Vectors(hs: Bytes, pre: Bytes, session: Bytes, ciphers: Bytes, compression: Bytes, block: Bytes)
    requires |pre| == 38 && |session| < 256 && |ciphers| < 0x1_0000 && |compression| < 256 && |block| < 0x1_0000
    requires hs == pre + (Short(session) + (Long(ciphers) + (Short(compression) + Long(block))))
    ensures BlockStart(hs) == Some(42 + |session| + |ciphers| + |compression|)
    ensures Block(hs) == block
  {
    hide U16, BlockStart, Short, Long, SkipShort, SkipLong;
    var tail3 := Short(compression) + Long(block);
    var tail2 := Long(ciphers) + tail3;
    ReadShort(hs, pre, session, tail2);
    Shift(hs, pre, Short(session), tail2);
    var p2 := pre + Short(session);
    ReadLong(hs, p2, ciphers, tail3);
    Shift(hs, p2, Long(ciphers), tail3);
    var p3 := p2 + Long(ciphers);
    ReadShort(hs, p3, compression, Long(block));
    Shift(hs, p3, Short(compression), Long(block));
    var p4 := p3 + Short(compression);
    assert Long(block) + [] == Long(block);
    ReadLong(hs, p4, block, []);
    BlockStartIs(hs, |p2|, |p3|, |p4|);
  }

  lemma BlockStartIs(hs: Bytes, a: nat, b: nat, c: nat)
    requires SkipShort(hs, 38) == Some(a) && SkipLong(hs, a) == Some(b) && SkipShort(hs, b) == Some(c) && c + 2 <= |hs|
    ensures BlockStart(hs) == Some(c)
  {
  }

  lemma VersionPart(hs: Bytes, lead: Bytes, version: nat, rest: Bytes)
    requires hs == lead + (Put16(version) + rest) && version < 0x1_0000
    ensures U16(hs, |lead|) == version
  {
    assert hs[|lead|..|lead| + 2] == Put16(version);
    U16At(hs, |lead|, Put16(version));
  }

  lemma RecordParts(hs: Bytes)
    ensures var data := [HANDSHAKE, 3, 1] + Long(hs);
            && |data| == 5 + |hs| && data[0] == HANDSHAKE && U16(data, 3) == |hs| % 0x1_0000
            && Handshake(data) == hs[..|hs| % 0x1_0000]
  {
    hide U16, Put16;
    var data: Bytes := [HANDSHAKE, 3, 1] + Long(hs);
    var n := |hs| % 0x1_0000;
    assert data[3..5] == Put16(|hs|);
    U16At(data, 3, Put16(|hs|));
    assert data[5..] == hs && n <= |hs|;
    SliceOfSlice(data, 5, |data|, 0, n);
    assert data[5..|data|] == hs;
  }

  /** Every encoded ClientHello is read back: its version and exactly its extensions. */
  lemma ReadsEncoded(m: Message)
    requires Fits(m)
    ensures Accepted(Encode(m)) == m.exts
    ensures ParseFn(Encode(m)) == Ok(Hello(Sni(m.exts), m.version, Protocols(m.exts), |m.exts|))
  {
    hide EncodeExtensions, Extensions, Sni, Protocols, Block, U16, EncodeHandshake;
    RecordParts(EncodeHandshake(m));
    HandshakeParts(m);
    var hs := EncodeHandshake(m);
    assert hs[..|hs|] == hs;
    ReadExtensionList(m.exts);
  }

  /** Cutting an encoded record anywhere costs it at least its last extension. */
  lemma CutLosesLast(m: Message, k: nat)
    requires Fits(m) && m.exts != [] && k < |Encode(m)|
    ensures Accepted(Encode(m)[..k]) < m.exts
  {
    hide EncodeExtensions, Extensions, Block, BlockStart, U16, EncodeHandshake;
    var data, part := Encode(m), Encode(m)[..k];
    var hs := EncodeHandshake(m);
    ReadsEncoded(m);
    AcceptedOfPrefix(data, k);
    RecordParts(hs);
    HandshakeParts(m);
    assert hs[..|hs|] == hs;
    if Accepted(part) == m.exts {
      HandshakeOfPrefix(data, k);
      SomeExtension(m.exts);
      var j := BlockOfPrefix(hs, |Handshake(part)|);
      ExtensionsFill(Block(Handshake(part)));
    }
  }

  lemma SomeExtension(exts: seq<Extension>)
    requires exts != []
    ensures EncodeExtensions(exts) != []
  {
  }

  /** On any block, the extensions read are the ones encoded at its front, and no complete one follows them. */
  lemma {:induction false} ExtensionsFill(block: Bytes)
    ensures var code := EncodeExtensions(Extensions(block)); code <= block && Extensions(block[|code|..]) == []
    decreases |block|
  {
    hide EncodeExtensions, Long, U16, Put16;
    EncodeParts(Extensions(block));
    if |block| >= 4 && 4 + U16(block, 2) <= |block| {
      var end := 4 + U16(block, 2);
      var first, rest := Extension(U16(block, 0), block[4..end]), Extensions(block[end..]);
      ExtensionsFill(block[end..]);
      assert ([first] + rest)[1..] == rest;
      LongRead(block, 2);
      PutRead(block, 0);
      Compose(block, 2, end, EncodeExtensions(rest));
    } else {
      assert block[0..] == block;
    }
  }

  /** A two-octet length and what it covers. */
  lemma LongRead(data: Bytes, at: nat)
    requires at + 2 <= |data| && at + 2 + U16(data, at) <= |data|
    ensures Long(data[at + 2..at + 2 + U16(data, at)]) == data[at..at + 2 + U16(data, at)]
  {
    hide U16, Put16;
    PutRead(data, at);
  }

  lemma Compose(block: Bytes, i: nat, j: nat, more: Bytes)
    requires i <= j <= |block| && more <= block[j..]
    ensures block[0..i] + (block[i..j] + more) == block[..j] + more
    ensures block[..j] + more <= block && block[|block[..j] + more|..] == block[j..][|more|..]
  {
    assert block == block[..j] + block[j..];
  }

  // ---- Server names (RFC 6066, section 3) ----

  datatype ServerName = ServerName(kind: Octet, host: Bytes)

  function EncodeNames(names: seq<ServerName>): Bytes {
    if names == [] then [] else [names[0].kind] + Long(names[0].host) + EncodeNames(names[1..])
  }

  /** The first name of type host_name. */
  function FirstHost(names: seq<ServerName>): Option<Bytes> {
    if names == [] then None
    else if names[0].kind == 0 then Some(names[0].host)
    else FirstHost(names[1..])
  }

  lemma {:induction false} ReadNames(body: Bytes, pre: Bytes, names: seq<ServerName>)
    requires body == pre + EncodeNames(names) && |body| < 2 + 0x1_0000
    requires |pre| >= 2
    ensures HostFrom(body, |pre|, |body|) == FirstHost(names)
    decreases |names|
  {
    hide U16, Long, HostFrom;
    if names == [] {
      NoEntry(body, |pre|, |body|);
    } else {
      var first, tail := names[0], EncodeNames(names[1..]);
      var pre1 := pre + [first.kind];
      assert body == pre1 + (Long(first.host) + tail);
      ReadLong(body, pre1, first.host, tail);
      Entry(body, |pre|, |body|, first);
      var pre2 := pre1 + Long(first.host);
      assert body == pre2 + tail;
      ReadNames(body, pre2, names[1..]);
    }
  }

  lemma NoEntry(body: Bytes, q: nat, end: nat)
    requires q + 3 > |body|
    ensures HostFrom(body, q, end) == None
  {
  }

  lemma Entry(body: Bytes, q: nat, end: nat, name: ServerName)
    requires q + 3 + |name.host| <= end == |body|
    requires body[q] == name.kind && U16(body, q + 1) == |name.host|
    requires body[q + 3..q + 3 + |name.host|] == name.host
    ensures HostFrom(body, q, end)
            == if name.kind == 0 then Some(name.host) else HostFrom(body, q + 3 + |name.host|, end)
  {
  }

  lemma ReadNameList(names: seq<ServerName>)
    requires |EncodeNames(names)| < 0x1_0000
    ensures HostIn(Long(EncodeNames(names))) == FirstHost(names)
  {
    hide U16, Put16, HostFrom, EncodeNames, FirstHost;
    var list := EncodeNames(names);
    var body := Long(list);
    assert body == [] + (Long(list) + []);
    ReadLong(body, [], list, []);
    ReadNames(body, Put16(|list|), names);
  }

  /** With one server_name extension in the message, the name reported is the first host name of its list. */
  lemma SniRead(m: Message, i: nat, names: seq<ServerName>)
    requires Fits(m) && i < |m.exts| && |EncodeNames(names)| < 0x1_0000
    requires m.exts[i] == Extension(SERVER_NAME, Long(EncodeNames(names)))
    requires forall j :: 0 <= j < |m.exts| && j != i ==> m.exts[j].kind != SERVER_NAME
    ensures ParseFn(Encode(m)).Ok?
    ensures ParseFn(Encode(m)).hello.sni == if FirstHost(names).Some? then FirstHost(names).value else []
  {
    hide Fits, ParseFn, Encode, HostIn, EncodeNames, Long;
    ReadsEncoded(m);
    ReadNameList(names);
    OnlyServerName(m.exts, i);
  }

  lemma {:induction false} OnlyServerName(exts: seq<Extension>, i: nat)
    requires i < |exts| && exts[i].kind == SERVER_NAME
    requires forall j :: 0 <= j < |exts| && j != i ==> exts[j].kind != SERVER_NAME
    ensures var host := HostIn(exts[i].body); Sni(exts) == if host.Some? then host.value else []
  {
    hide HostIn;
    var n := |exts| - 1;
    if i < n {
      OnlyServerName(exts[..n], i);
    } else {
      NoServerName(exts[..n]);
    }
  }

  lemma {:induction false} NoServerName(exts: seq<Extension>)
    requires forall j :: 0 <= j < |exts| ==> exts[j].kind != SERVER_NAME
    ensures Sni(exts) == []
  {
    if exts != [] {
      NoServerName(exts[..|exts| - 1]);
    }
  }

  /** A reported name is never longer than the handshake the record announces. */
  lemma {:induction false} SniFits(exts: seq<Extension>, bound: nat)
    requires forall j :: 0 <= j < |exts| ==> |exts[j].body| <= bound
    ensures |Sni(exts)| <= bound
  {
    hide HostIn;
    if exts != [] {
      var last := exts[|exts| - 1];
      SniFits(exts[..|exts| - 1], bound);
      HostFits(last.body);
    }
  }

  lemma HostFits(body: Bytes)
    ensures HostIn(body).Some? ==> |HostIn(body).value| <= |body|
  {
    if |body| >= 2 {
      HostFromFits(body, 2, 2 + U16(body, 0));
    }
  }

  lemma {:induction false} HostFromFits(body: Bytes, q: nat, end: nat)
    ensures HostFrom(body, q, end).Some? ==> |HostFrom(body, q, end).value| <= |body|
    decreases |body| - q
  {
    if q + 3 <= end && q + 3 <= |body| {
      HostFromFits(body, q + 3 + U16(body, q + 1), end);
    }
  }

  lemma {:induction false} BodiesFit(block: Bytes, bound: nat)
    requires |block| <= bound
    ensures forall e :: e in Extensions(block) ==> |e.body| <= bound
    decreases |block|
  {
    if |block| >= 4 && 4 + U16(block, 2) <= |block| {
      BodiesFit(block[4 + U16(block, 2)..], bound);
    }
  }

  // ---- Protocol names (RFC 7301, section 3.1) ----

  function EncodeProtocols(ps: seq<Bytes>): Bytes {
    if ps == [] then [] else Short(ps[0]) + EncodeProtocols(ps[1..])
  }

  /** The octets from `q` to `end` are the protocols' encoding, and no further entry fits behind them. */
  ghost predicate ReadsAs(body: Bytes, q: nat, ps: seq<Bytes>) {
    var end := q + |EncodeProtocols(ps)|;
    && (ps == [] || (end <= |body| && body[q..end] == EncodeProtocols(ps)))
    && (end + 1 >= |body| || end + 1 + body[end] > |body|)
  }

  /** The loop from offset `q` on yields a list of non-empty names exactly when they are encoded there and no further entry
      fits behind them. */
  lemma {:induction false} ProtocolsExact(body: Bytes, q: nat, ps: seq<Bytes>)
    requires forall i :: 0 <= i < |ps| ==> 1 <= |ps[i]| < 256
    ensures ProtocolsFrom(body, q) == ps <==> ReadsAs(body, q, ps)
    decreases |ps|
  {
    if ps != [] {
      ProtocolsExact(body, q + 1 + |ps[0]|, ps[1..]);
      ProtocolsHead(body, q, ps);
      EncodedHead(body, q, ps);
    }
  }

  lemma ProtocolsHead(body: Bytes, q: nat, ps: seq<Bytes>)
    requires ps != [] && 1 <= |ps[0]| < 256
    ensures ProtocolsFrom(body, q) == ps <==>
            var next := q + 1 + |ps[0]|;
            next <= |body| && body[q..next] == Short(ps[0]) && ProtocolsFrom(body, next) == ps[1..]
  {
    var next := q + 1 + |ps[0]|;
    assert ps == [ps[0]] + ps[1..];
    if next <= |body| && body[q] == |ps[0]| {
      assert body[q..next] == [body[q]] + body[q + 1..next];
      assert ProtocolsFrom(body, q) == [body[q + 1..next]] + ProtocolsFrom(body, next);
      if body[q..next] == Short(ps[0]) {
        assert body[q + 1..next] == Short(ps[0])[1..];
      }
    } else if next <= |body| {
      assert body[q..next][0] == body[q];
    }
  }

  lemma EncodedHead(body: Bytes, q: nat, ps: seq<Bytes>)
    requires ps != [] && 1 <= |ps[0]| < 256
    ensures ReadsAs(body, q, ps) <==>
            var next := q + 1 + |ps[0]|;
            next <= |body| && body[q..next] == Short(ps[0]) && ReadsAs(body, next, ps[1..])
  {
    hide Short;
    var next, end := q + 1 + |ps[0]|, q + |EncodeProtocols(ps)|;
    assert end == next + |EncodeProtocols(ps[1..])|;
    if end <= |body| {
      assert body[q..end] == body[q..next] + body[next..end];
      if body[q..end] == EncodeProtocols(ps) {
        assert body[q..next] == (Short(ps[0]) + EncodeProtocols(ps[1..]))[..next - q];
        assert body[next..end] == (Short(ps[0]) + EncodeProtocols(ps[1..]))[next - q..];
      }
    }
    if ps[1..] == [] {
      assert EncodeProtocols(ps[1..]) == [] && EncodeProtocols(ps) == Short(ps[0]);
    }
  }

  /** The protocols of an encoded list are read back exactly when the list, its own length in front of it, starts like itself
      and the octet behind that start is neither 0 nor 1. */
  lemma AlpnReadIff(ps: seq<Bytes>)
    requires ps != [] && forall i :: 0 <= i < |ps| ==> 1 <= |ps[i]| < 256
    requires |EncodeProtocols(ps)| < 0x1_0000
    ensures var list := EncodeProtocols(ps);
            var body := Long(list);
            ProtocolsFrom(body, 0) == ps <==> body[..|list|] == list && body[|list|] > 1
  {
    hide EncodeProtocols, Long;
    ProtocolsExact(Long(EncodeProtocols(ps)), 0, ps);
  }

  /** Every list shorter than 256 octets, which is every usual one, is misread: as an empty name and the whole list. */
  lemma AlpnMisread(ps: seq<Bytes>)
    requires ps != [] && forall i :: 0 <= i < |ps| ==> 1 <= |ps[i]| < 256
    requires |EncodeProtocols(ps)| < 256
    ensures ProtocolsFrom(Long(EncodeProtocols(ps)), 0) == [[], EncodeProtocols(ps)] != ps
  {
    SomeProtocol(ps);
    var list := EncodeProtocols(ps);
    hide EncodeProtocols;
    var body := Long(list);
    assert body[0] == 0 && body[1] == |list|;
    assert ProtocolsFrom(body, |body|) == [];
    assert body[2..|body|] == list && body[1..1] == [];
    assert ProtocolsFrom(body, 1) == [list] + [];
    assert |ps[0]| != |[[], list][0]|;
  }

  lemma SomeProtocol(ps: seq<Bytes>)
    requires ps != []
    ensures EncodeProtocols(ps) != []
  {
  }

  /** With one ALPN extension in the message, what is reported is what that loop makes of its body. */
  lemma AlpnRead(m: Message, i: nat, ps: seq<Bytes>)
    requires Fits(m) && i < |m.exts| && m.exts[i] == Extension(ALPN, Long(EncodeProtocols(ps)))
    requires forall j :: 0 <= j < |m.exts| && j != i ==> m.exts[j].kind != ALPN
    ensures ParseFn(Encode(m)).Ok? && ParseFn(Encode(m)).hello.alpn == ProtocolsFrom(Long(EncodeProtocols(ps)), 0)
  {
    hide Fits, ParseFn, Encode, ProtocolsFrom, EncodeProtocols, Long;
    ReadsEncoded(m);
    OnlyAlpn(m.exts, i);
  }

  lemma {:induction false} OnlyAlpn(exts: seq<Extension>, i: nat)
    requires i < |exts| && exts[i].kind == ALPN && |exts[i].body| >= 2
    requires forall j :: 0 <= j < |exts| && j != i ==> exts[j].kind != ALPN
    ensures Protocols(exts) == ProtocolsFrom(exts[i].body, 0)
  {
    hide ProtocolsFrom;
    var n := |exts| - 1;
    if i < n {
      OnlyAlpn(exts[..n], i);
    } else {
      NoAlpn(exts[..n]);
    }
  }

  lemma {:induction false} NoAlpn(exts: seq<Extension>)
    requires forall j :: 0 <= j < |exts| ==> exts[j].kind != ALPN
    ensures Protocols(exts) == []
  {
    if exts != [] {
      NoAlpn(exts[..|exts| - 1]);
    }
  }

  // ---- The record of the benchmark ----

  /** buildTLS: one server_name extension with one host name; every length is cut to its octets. */
  function BuildTls(name: Bytes): Bytes {
    var list := [0] + Put16(|name|) + name;
    var body := Put16(|list|) + list;
    var ext := [0, 0] + Put16(|body|) + body;
    var hello := [3, 3] + Zeros(32) + [0] + [0, 2, 0, 0x2f] + [1, 0] + Put16(|ext|) + ext;
    var hs := [1, (|hello| / 0x1_0000 % 256) as Octet] + Put16(|hello|) + hello;
    [0x16, 3, 1] + Put16(|hs|) + hs
  }

  function BenchNames(name: Bytes): seq<ServerName> {
    [ServerName(0, name)]
  }

  function BenchMessage(name: Bytes): Message {
    Message(0x303, Zeros(32), [], [0, 0x2f], [0], [Extension(SERVER_NAME, Long(EncodeNames(BenchNames(name))))])
  }

  lemma BenchLength(name: Bytes)
    ensures EncodeNames(BenchNames(name)) == [0] + Long(name)
    ensures |EncodeHandshake(BenchMessage(name))| == 56 + |name|
  {
    hide EncodeHandshake, EncodeExtensions, Put16;
    assert BenchNames(name)[1..] == [];
    BenchBlock(Long(EncodeNames(BenchNames(name))));
    HandshakeLength(BenchMessage(name));
  }

  lemma HandshakeLength(m: Message)
    requires |m.random| == 32
    ensures |EncodeHandshake(m)|
            == 44 + |m.session| + |m.ciphers| + |m.compression| + |EncodeExtensions(m.exts)|
  {
    hide EncodeExtensions, Put16, Short, Long;
  }

  /** The benchmark's record is the encoding of that message, whatever the length of the name. */
  lemma BuildIsEncode(name: Bytes)
    ensures BuildTls(name) == Encode(BenchMessage(name))
  {
    hide Zeros, EncodeNames, EncodeExtensions;
    var m := BenchMessage(name);
    BenchLength(name);
    var list := [0] + Put16(|name|) + name;
    assert list == [0] + Long(name);
    var body := Put16(|list|) + list;
    assert body == Long(list);
    var ext := [0, 0] + Put16(|body|) + body;
    BenchBlock(body);
    assert ext == EncodeExtensions(m.exts);
    BenchHello(ext);
    var hello := [3, 3] + Zeros(32) + [0] + [0, 2, 0, 0x2f] + [1, 0] + Put16(|ext|) + ext;
    assert hello == EncodeHello(m);
  }

  lemma BenchBlock(body: Bytes)
    ensures EncodeExtensions([Extension(SERVER_NAME, body)]) == [0, 0] + Put16(|body|) + body
  {
    var exts := [Extension(SERVER_NAME, body)];
    assert exts[1..] == [];
    assert Put16(SERVER_NAME) == [0, 0];
    assert EncodeExtensions(exts) == Put16(SERVER_NAME) + Long(body);
  }

  lemma BenchHello(ext: Bytes)
    ensures [3, 3] + Zeros(32) + [0] + [0, 2, 0, 0x2f] + [1, 0] + Put16(|ext|) + ext
            == Put16(0x303) + (Zeros(32) + (Short([]) + (Long([0, 0x2f]) + (Short([0]) + Long(ext)))))
  {
    assert Put16(0x303) == [3, 3];
    assert Short([]) == [0];
    assert Put16(2) == [0, 2];
    assert Long([0, 0x2f]) == [0, 2, 0, 0x2f];
    assert Short([0]) == [1, 0];
  }

  /** The parser finds the name of a benchmark record exactly when the record length still fits 16 bits. */
  lemma SniRoundTrip(name: Bytes)
    ensures ParseFn(BuildTls(name)).Ok? && ParseFn(BuildTls(name)).hello.sni == name <==> |name| <= 65479
    ensures |name| <= 65479 ==> ParseFn(BuildTls(name)) == Ok(Hello(name, 0x303, [], 1))
  {
    var m, names := BenchMessage(name), BenchNames(name);
    BuildIsEncode(name);
    BenchLength(name);
    if |name| <= 65479 {
      BenchReads(name);
    } else {
      BenchTooLong(name);
    }
  }

  lemma BenchReads(name: Bytes)
    requires |name| <= 65479
    ensures Fits(BenchMessage(name))
    ensures ParseFn(Encode(BenchMessage(name))) == Ok(Hello(name, 0x303, [], 1))
  {
    hide EncodeNames, EncodeHandshake, Long, ParseFn, Encode, HostIn, Zeros, Sni;
    var m, names := BenchMessage(name), BenchNames(name);
    BenchLength(name);
    assert Fits(m);
    ReadsEncoded(m);
    SniRead(m, 0, names);
    assert FirstHost(names) == Some(name);
    assert m.exts[..0] == [];
  }

  /** The record length wraps around, and what is left cannot hold the name. */
  lemma BenchTooLong(name: Bytes)
    requires |name| > 65479
    ensures ParseFn(Encode(BenchMessage(name))).Ok? ==> |ParseFn(Encode(BenchMessage(name))).hello.sni| < |name|
  {
    hide EncodeNames, EncodeHandshake, Long, HostIn, Zeros, Sni, Extensions, Block, BenchMessage, U16, Handshake;
    var m := BenchMessage(name);
    BenchLength(name);
    RecordParts(EncodeHandshake(m));
    var bound := |Handshake(Encode(m))|;
    assert bound < |name|;
    BlockFits(Handshake(Encode(m)));
    BodiesFit(Block(Handshake(Encode(m))), bound);
    SniFits(Accepted(Encode(m)), bound);
  }

  lemma BlockFits(hs: Bytes)
    ensures |Block(hs)| <= |hs|
  {
  }

  /** No proper prefix of a benchmark record yields a name. */
  lemma NoSniWhenCut(name: Bytes, k: nat)
    requires |name| <= 65479 && k < |BuildTls(name)|
    ensures var r := ParseFn(BuildTls(name)[..k]);
            r.Ok? ==> r.hello.sni == [] && r.hello.extensions == 0
  {
    hide BuildTls, Encode, Fits, Extensions, Block, U16, Handshake, HostIn, Zeros, Long;
    BuildIsEncode(name);
    BenchReads(name);
    CutLosesLast(BenchMessage(name), k);
    assert Accepted(BuildTls(name)[..k]) == [];
  }
}
