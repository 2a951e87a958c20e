// The DNS name and query parser: internal/dns/dns.go (names and compression: RFC 1035, sections 3.1, 4.1.2, 4.1.4).
module Dns {

  import opened Wire

  datatype Error = Short | NotQuery | NoQuestions | CompressionLoop | LabelLimit
  datatype Result<+T> = Ok(value: T) | Err(error: Error)

  const DOT: Octet := 46

  /** join: the labels with dots between them. */
  function Join(labels: seq<Bytes>): Bytes {
    if labels == [] then []
    else if |labels| == 1 then labels[0]
    else Join(labels[..|labels| - 1]) + [DOT] + labels[|labels| - 1]
  }

  /** The target of a compression pointer: its low 14 bits. */
  function Target(data: Bytes, at: nat): nat
    requires at + 2 <= |data|
  {
    U16(data, at) % 0x4000
  }

  predicate IsPointer(b: Octet) {
    b >= 0xC0
  }

  /** A pointer is an octet with both top bits set; it leads to the 14-bit offset in its other bits and the octet behind. */
  lemma PointerExact(data: Bytes, at: nat)
    requires at + 2 <= |data|
    ensures IsPointer(data[at]) <==> data[at] / 64 == 3
    ensures Target(data, at) == 256 * (data[at] as int % 64) + data[at + 1] as int
  {
  }

  /** A pointer written to any offset below 2^14 is read back as that pointer. */
  lemma PointerRoundTrip(data: Bytes, at: nat, target: nat)
    requires at + 2 <= |data| && target < 16384
    requires data[at] == 192 + target / 256 && data[at + 1] == target % 256
    ensures IsPointer(data[at]) && Target(data, at) == target
  {
    PointerExact(data, at);
  }

  // ---- The parser as a function ----

  /** The loop of resolve: `depth` counts the octets groups read so far, over all nested calls. */
  function ResolveLoop(data: Bytes, pos: nat, labels: seq<Bytes>, depth: nat): Result<Bytes>
    decreases 64 - depth, 0
  {
    if depth >= 32 then Err(LabelLimit)
    else if pos >= |data| then Err(Short)
    else
      var b := data[pos];
      if b == 0 then Ok(Join(labels))
      else if IsPointer(b) then
        if pos + 1 >= |data| then Err(Short)
        else
          match ResolveFn(data, Target(data, pos), depth + 2)
          case Err(e) => Err(e)
          case Ok(r) => Ok(if |labels| > 0 then Join(labels) + [DOT] + r else r)
      else if b > 63 || pos + 1 + b > |data| then Err(Short)
      else ResolveLoop(data, pos + 1 + b, labels + [data[pos + 1..pos + 1 + b]], depth + 1)
  }

  function ResolveFn(data: Bytes, off: nat, depth: nat): Result<Bytes>
    decreases 64 - depth, 1
  {
    if depth > 16 then Err(CompressionLoop)
    else if off >= |data| then Err(Short)
    else ResolveLoop(data, off, [], depth)
  }

  function NameLoop(data: Bytes, pos: nat, labels: seq<Bytes>, steps: nat): Result<(Bytes, nat)>
    decreases 64 - steps
  {
    if steps >= 32 then Err(LabelLimit)
    else if pos >= |data| then Err(Short)
    else
      var b := data[pos];
      if b == 0 then Ok((Join(labels), pos + 1))
      else if IsPointer(b) then
        if pos + 1 >= |data| then Err(Short)
        else
          match ResolveFn(data, Target(data, pos), 0)
          case Err(e) => Err(e)
          case Ok(r) => Ok((Join(labels + [r]), pos + 2))
      else if b > 63 || pos + 1 + b > |data| then Err(Short)
      else NameLoop(data, pos + 1 + b, labels + [data[pos + 1..pos + 1 + b]], steps + 1)
  }

  function NameFn(data: Bytes, off: nat): Result<(Bytes, nat)> {
    NameLoop(data, off, [], 0)
  }

  // ---- The parser as the loops of the source ----

  /** resolve: it terminates and stays in bounds on every byte string, pointer cycles included. */
  method Resolve(data: Bytes, off: nat, depth: nat) returns (r: Result<Bytes>)
    ensures r == ResolveFn(data, off, depth)
    decreases 64 - depth
  {
    if depth > 16 {
      return Err(CompressionLoop);
    }
    if off >= |data| {
      return Err(Short);
    }
    var labels: seq<Bytes> := [];
    var pos: nat, d: nat := off, depth;
    while d < 32
      invariant depth <= d <= 32
      invariant ResolveFn(data, off, depth) == ResolveLoop(data, pos, labels, d)
    {
      d := d + 1;
      if pos >= |data| {
        return Err(Short);
      }
      var b := data[pos];
      if b == 0 {
        return Ok(Join(labels));
      } else if IsPointer(b) {
        if pos + 1 >= |data| {
          return Err(Short);
        }
        var resolved := Resolve(data, Target(data, pos), d + 1);
        if resolved.Err? {
          return resolved;
        }
        if |labels| > 0 {
          return Ok(Join(labels) + [DOT] + resolved.value);
        }
        return resolved;
      } else {
        if b > 63 || pos + 1 + b > |data| {
          return Err(Short);
        }
        labels := labels + [data[pos + 1..pos + 1 + b]];
        pos := pos + 1 + b;
      }
    }
    return Err(LabelLimit);
  }

  /** Name: the labels up to the root octet or the first pointer, and the offset behind it. */
  method Name(data: Bytes, off: nat) returns (r: Result<(Bytes, nat)>)
    ensures r == NameFn(data, off)
  {
    var labels: seq<Bytes> := [];
    var pos: nat, steps: nat := off, 0;
    while steps < 32
      invariant 0 <= steps <= 32
      invariant NameFn(data, off) == NameLoop(data, pos, labels, steps)
    {
      steps := steps + 1;
      if pos >= |data| {
        return Err(Short);
      }
      var b := data[pos];
      if b == 0 {
        return Ok((Join(labels), pos + 1));
      } else if IsPointer(b) {
        if pos + 1 >= |data| {
          return Err(Short);
        }
        var resolved := Resolve(data, Target(data, pos), 0);
        if resolved.Err? {
          return Err(resolved.error);
        }
        return Ok((Join(labels + [resolved.value]), pos + 2));
      } else {
        if b > 63 || pos + 1 + b > |data| {
          return Err(Short);
        }
        labels := labels + [data[pos + 1..pos + 1 + b]];
        pos := pos + 1 + b;
      }
    }
    return Err(LabelLimit);
  }

  // ---- The grammar of compressed names ----

  /** The octets at `off` spell `labels` in `n` rules: root, literal label, or pointer. `dangling` tells that the last
      rule before the root was a pointer, with no label read since. */
  ghost predicate Derives(data: Bytes, off: nat, labels: seq<Bytes>, dangling: bool, n: nat)
    decreases n
  {
    && n > 0 && off < |data|
    && var b := data[off];
       if b == 0 then labels == [] && !dangling
       else if IsPointer(b) then
         && off + 1 < |data|
         && (|| (dangling && Derives(data, Target(data, off), labels, true, n - 1))
             || (dangling == (labels == []) && Derives(data, Target(data, off), labels, false, n - 1)))
       else
         && b <= 63 && off + 1 + b <= |data|
         && labels != [] && labels[0] == data[off + 1..off + 1 + b]
         && Derives(data, off + 1 + b, labels[1..], dangling, n - 1)
  }

  /** The text of a derivation: a pointer straight to the root leaves a dot behind the last label. */
  ghost function Spelled(labels: seq<Bytes>, dangling: bool): Bytes {
    if dangling && labels != [] then Join(labels) + [DOT] else Join(labels)
  }

  /** Literal labels from `off` up to `pos`. */
  ghost predicate Walk(data: Bytes, off: nat, labels: seq<Bytes>, pos: nat)
    decreases |labels|
  {
    if labels == [] then off == pos
    else
      && off < |data| && 0 < data[off] <= 63 && off + 1 + data[off] <= |data|
      && labels[0] == data[off + 1..off + 1 + data[off]]
      && Walk(data, off + 1 + data[off], labels[1..], pos)
  }

  lemma {:induction false} WalkMore(data: Bytes, off: nat, labels: seq<Bytes>, pos: nat)
    requires Walk(data, off, labels, pos)
    requires pos < |data| && 0 < data[pos] <= 63 && pos + 1 + data[pos] <= |data|
    ensures Walk(data, off, labels + [data[pos + 1..pos + 1 + data[pos]]], pos + 1 + data[pos])
    decreases |labels|
  {
    var more := labels + [data[pos + 1..pos + 1 + data[pos]]];
    if labels != [] {
      WalkMore(data, off + 1 + data[off], labels[1..], pos);
      assert more[1..] == labels[1..] + [data[pos + 1..pos + 1 + data[pos]]];
    } else {
      assert more[1..] == [];
    }
  }

  lemma {:induction false} WalkDerives(data: Bytes, off: nat, labels: seq<Bytes>, pos: nat, rest: seq<Bytes>,
                                       dangling: bool, n: nat)
    requires Walk(data, off, labels, pos) && Derives(data, pos, rest, dangling, n)
    ensures Derives(data, off, labels + rest, dangling, n + |labels|)
    decreases |labels|
  {
    if labels == [] {
      assert labels + rest == rest;
    } else {
      WalkDerives(data, off + 1 + data[off], labels[1..], pos, rest, dangling, n);
      assert (labels + rest)[1..] == labels[1..] + rest;
    }
  }

  lemma {:induction false} JoinAppend(a: seq<Bytes>, b: seq<Bytes>)
    requires a != [] && b != []
    ensures Join(a + b) == Join(a) + [DOT] + Join(b)
  {
    var n := |b| - 1;
    if n == 0 {
      assert (a + b)[..|a + b| - 1] == a;
    } else {
      JoinAppend(a, b[..n]);
      assert (a + b)[..|a + b| - 1] == a + b[..n];
      assert (a + b)[|a + b| - 1] == b[n];
    }
  }

  /** Putting labels in front of a spelled name. */
  lemma SpelledAppend(labels: seq<Bytes>, rest: seq<Bytes>, dangling: bool)
    requires labels != [] && (rest == [] ==> dangling)
    ensures Spelled(labels + rest, dangling) == Join(labels) + [DOT] + Spelled(rest, dangling)
  {
    if rest == [] {
      assert labels + rest == labels;
    } else {
      JoinAppend(labels, rest);
    }
  }

  lemma RootDerives(data: Bytes, off: nat, labels: seq<Bytes>, pos: nat)
    requires Walk(data, off, labels, pos) && pos < |data| && data[pos] == 0
    ensures Derives(data, off, labels, false, 1 + |labels|)
    ensures Spelled(labels, false) == Join(labels)
  {
    hide Walk;
    assert Derives(data, pos, [], false, 1);
    WalkDerives(data, off, labels, pos, [], false, 1);
    assert labels + [] == labels;
  }

  /** A pointer continues the name with what its target spells. */
  lemma PointerDerives(data: Bytes, off: nat, labels: seq<Bytes>, pos: nat, rest: seq<Bytes>, d: bool, m: nat)
    requires Walk(data, off, labels, pos) && pos + 1 < |data| && IsPointer(data[pos])
    requires Derives(data, Target(data, pos), rest, d, m)
    ensures Derives(data, off, labels + rest, d || rest == [], m + 1 + |labels|)
    ensures Spelled(labels + rest, d || rest == [])
            == if labels == [] then Spelled(rest, d) else Join(labels) + [DOT] + Spelled(rest, d)
  {
    hide Walk, Join;
    assert Derives(data, pos, rest, d || rest == [], m + 1);
    WalkDerives(data, off, labels, pos, rest, d || rest == [], m + 1);
    assert Spelled(rest, d) == Spelled(rest, d || rest == []);
    if labels != [] {
      SpelledAppend(labels, rest, d || rest == []);
    } else {
      assert labels + rest == rest;
    }
  }

  /** What a loop state of resolve yields is spelled by a derivation from where the call started. */
  lemma {:induction false} ResolveLoopSound(data: Bytes, off: nat, pos: nat, labels: seq<Bytes>, depth: nat)
    returns (all: seq<Bytes>, dangling: bool, n: nat)
    requires Walk(data, off, labels, pos) && ResolveLoop(data, pos, labels, depth).Ok?
    ensures Derives(data, off, all, dangling, n)
    ensures ResolveLoop(data, pos, labels, depth).value == Spelled(all, dangling)
    decreases 64 - depth, 0
  {
    hide Join, Derives, Spelled, Walk, Target;
    var b := data[pos];
    if b == 0 {
      RootDerives(data, off, labels, pos);
      all, dangling, n := labels, false, 1 + |labels|;
    } else if IsPointer(b) {
      var rest, d, m := ResolveSound(data, Target(data, pos), depth + 2);
      PointerDerives(data, off, labels, pos, rest, d, m);
      all, dangling, n := labels + rest, d || rest == [], m + 1 + |labels|;
    } else {
      WalkMore(data, off, labels, pos);
      all, dangling, n :=
        ResolveLoopSound(data, off, pos + 1 + b, labels + [data[pos + 1..pos + 1 + b]], depth + 1);
    }
  }

  lemma {:induction false} ResolveSound(data: Bytes, off: nat, depth: nat)
    returns (all: seq<Bytes>, dangling: bool, n: nat)
    requires ResolveFn(data, off, depth).Ok?
    ensures Derives(data, off, all, dangling, n)
    ensures ResolveFn(data, off, depth).value == Spelled(all, dangling)
    decreases 64 - depth, 1
  {
    all, dangling, n := ResolveLoopSound(data, off, off, [], depth);
  }

  lemma {:induction false} NameLoopSound(data: Bytes, off: nat, pos: nat, labels: seq<Bytes>, steps: nat)
    returns (all: seq<Bytes>, dangling: bool, n: nat)
    requires Walk(data, off, labels, pos) && off <= pos && NameLoop(data, pos, labels, steps).Ok?
    ensures Derives(data, off, all, dangling, n)
    ensures NameLoop(data, pos, labels, steps).value.0 == Spelled(all, dangling)
    ensures off < NameLoop(data, pos, labels, steps).value.1 <= |data|
    decreases 64 - steps
  {
    hide Join, ResolveFn, Derives, Spelled, Walk, Target;
    var b := data[pos];
    if b == 0 {
      RootDerives(data, off, labels, pos);
      all, dangling, n := labels, false, 1 + |labels|;
    } else if IsPointer(b) {
      var rest, d, m := ResolveSound(data, Target(data, pos), 0);
      PointerDerives(data, off, labels, pos, rest, d, m);
      JoinLast(labels, Spelled(rest, d));
      all, dangling, n := labels + rest, d || rest == [], m + 1 + |labels|;
    } else {
      WalkMore(data, off, labels, pos);
      all, dangling, n := NameLoopSound(data, off, pos + 1 + b, labels + [data[pos + 1..pos + 1 + b]], steps + 1);
    }
  }

  lemma JoinLast(labels: seq<Bytes>, r: Bytes)
    ensures Join(labels + [r]) == if labels == [] then r else Join(labels) + [DOT] + r
  {
    assert (labels + [r])[..|labels|] == labels;
  }

  /** A parsed name is the one the compression grammar spells, and the new offset is past it and inside the packet. */
  lemma NameSound(data: Bytes, off: nat) returns (labels: seq<Bytes>, dangling: bool, n: nat)
    requires NameFn(data, off).Ok?
    ensures Derives(data, off, labels, dangling, n)
    ensures NameFn(data, off).value.0 == Spelled(labels, dangling)
    ensures off < NameFn(data, off).value.1 <= |data|
  {
    labels, dangling, n := NameLoopSound(data, off, off, [], 0);
  }

  /** The grammar spells at most one name at an offset, so the name parsed is the only one. */
  lemma {:induction false} DerivesUnique(data: Bytes, off: nat, a: seq<Bytes>, da: bool, n: nat, b: seq<Bytes>, db: bool,
                                         m: nat)
    requires Derives(data, off, a, da, n) && Derives(data, off, b, db, m)
    ensures a == b && da == db
    decreases n
  {
    var x: nat := data[off];
    if x != 0 && IsPointer(x) {
      var d1 := da && Derives(data, Target(data, off), a, true, n - 1);
      var d2 := db && Derives(data, Target(data, off), b, true, m - 1);
      DerivesUnique(data, Target(data, off), a, d1, n - 1, b, d2, m - 1);
    } else if x != 0 {
      DerivesUnique(data, off + 1 + x, a[1..], da, n - 1, b[1..], db, m - 1);
      assert a == [a[0]] + a[1..] && b == [b[0]] + b[1..];
    }
  }

  // ---- Which derivations are parsed ----

  /** Inside a pointer's target: a rule is read below count 32; a label counts one, a pointer two and leads on while the
      count stays within 16. */
  ghost predicate ResolveWithin(data: Bytes, off: nat, count: nat, n: nat)
    decreases n
  {
    && n > 0 && count < 32 && off < |data|
    && var b: nat := data[off];
       if b == 0 then true
       else if IsPointer(b) then
         off + 1 < |data| && count + 2 <= 16 && ResolveWithin(data, Target(data, off), count + 2, n - 1)
       else ResolveWithin(data, off + 1 + b, count + 1, n - 1)
  }

  /** At the top: the root or the first pointer is the 32nd rule at the latest. */
  ghost predicate NameWithin(data: Bytes, off: nat, count: nat, n: nat)
    decreases n
  {
    && n > 0 && count < 32 && off < |data|
    && var b: nat := data[off];
       if b == 0 then true
       else if IsPointer(b) then off + 1 < |data| && ResolveWithin(data, Target(data, off), 0, n - 1)
       else NameWithin(data, off + 1 + b, count + 1, n - 1)
  }

  /** What a pointer rule derives from its target. */
  lemma BehindPointer(data: Bytes, off: nat, labels: seq<Bytes>, dangling: bool, n: nat) returns (d: bool)
    requires Derives(data, off, labels, dangling, n) && data[off] != 0 && IsPointer(data[off])
    ensures off + 1 < |data| && Derives(data, Target(data, off), labels, d, n - 1)
    ensures Target(data, off) < |data|
  {
    d := dangling && Derives(data, Target(data, off), labels, true, n - 1);
  }

  lemma {:induction false} ResolveParsesIff(data: Bytes, off: nat, labels: seq<Bytes>, dangling: bool, n: nat,
                                            done: seq<Bytes>, count: nat)
    requires Derives(data, off, labels, dangling, n)
    ensures ResolveLoop(data, off, done, count).Ok? <==> ResolveWithin(data, off, count, n)
    decreases n
  {
    hide Join, Target;
    var b: nat := data[off];
    if b != 0 && count < 32 {
      if IsPointer(b) {
        var d := BehindPointer(data, off, labels, dangling, n);
        ResolveParsesIff(data, Target(data, off), labels, d, n - 1, [], count + 2);
      } else {
        ResolveParsesIff(data, off + 1 + b, labels[1..], dangling, n - 1, done + [data[off + 1..off + 1 + b]], count + 1);
      }
    }
  }

  lemma {:induction false} NameParsesIff(data: Bytes, off: nat, labels: seq<Bytes>, dangling: bool, n: nat,
                                         done: seq<Bytes>, count: nat)
    requires Derives(data, off, labels, dangling, n)
    ensures NameLoop(data, off, done, count).Ok? <==> NameWithin(data, off, count, n)
    decreases n
  {
    hide Join, Target;
    var b: nat := data[off];
    if b != 0 && count < 32 {
      if IsPointer(b) {
        var d := BehindPointer(data, off, labels, dangling, n);
        ResolveParsesIff(data, Target(data, off), labels, d, n - 1, [], 0);
      } else {
        NameParsesIff(data, off + 1 + b, labels[1..], dangling, n - 1, done + [data[off + 1..off + 1 + b]], count + 1);
      }
    }
  }

  /** A name the grammar spells is parsed exactly when its derivation stays within the limits on labels and pointers, and
      then comes out as spelled. */
  lemma DerivedIsParsed(data: Bytes, off: nat, labels: seq<Bytes>, dangling: bool, n: nat)
    requires Derives(data, off, labels, dangling, n)
    ensures NameFn(data, off).Ok? <==> NameWithin(data, off, 0, n)
    ensures NameFn(data, off).Ok? ==> NameFn(data, off).value.0 == Spelled(labels, dangling)
  {
    hide NameLoop, Derives, Spelled, NameWithin;
    NameParsesIff(data, off, labels, dangling, n, [], 0);
    if NameFn(data, off).Ok? {
      var all, d, m := NameSound(data, off);
      DerivesUnique(data, off, labels, dangling, n, all, d, m);
    }
  }

  // ---- Queries ----

  datatype Question = Question(name: Bytes, qtype: nat, qclass: nat)

  /** Query: the first question of a DNS query. `lower` is the library's lower-casing. */
  function Query(pkt: Bytes, lower: Bytes -> Bytes): Result<Question> {
    if |pkt| < 12 then Err(Short)
    else if U16(pkt, 2) >= 0x8000 then Err(NotQuery)
    else if U16(pkt, 4) == 0 then Err(NoQuestions)
    else
      match NameFn(pkt, 12)
      case Err(e) => Err(e)
      case Ok((name, off)) =>
        if off + 4 > |pkt| then Err(Short)
        else Ok(Question(lower(name), U16(pkt, off), U16(pkt, off + 2)))
  }

  /** When a packet is taken for a query, and what it is refused for. */
  lemma QueryExact(pkt: Bytes, lower: Bytes -> Bytes)
    ensures Query(pkt, lower).Ok? <==>
              && |pkt| >= 12 && pkt[2] < 128 && (pkt[4] != 0 || pkt[5] != 0)
              && NameFn(pkt, 12).Ok? && NameFn(pkt, 12).value.1 <= |pkt| - 4
    ensures |pkt| < 12 ==> Query(pkt, lower) == Err(Short)
    ensures |pkt| >= 12 && pkt[2] >= 128 ==> Query(pkt, lower) == Err(NotQuery)
    ensures |pkt| >= 12 && pkt[2] < 128 && pkt[4] == pkt[5] == 0 ==> Query(pkt, lower) == Err(NoQuestions)
  {
    hide NameFn;
  }

  /** What is read from a query: a name the grammar spells at offset 12, and the two numbers behind it. */
  lemma QueryReads(pkt: Bytes, lower: Bytes -> Bytes) returns (labels: seq<Bytes>, dangling: bool, n: nat)
    requires Query(pkt, lower).Ok?
    ensures NameFn(pkt, 12).Ok? && NameFn(pkt, 12).value.1 + 4 <= |pkt|
    ensures var q, off := Query(pkt, lower).value, NameFn(pkt, 12).value.1;
            && Derives(pkt, 12, labels, dangling, n) && q.name == lower(Spelled(labels, dangling))
            && pkt[off..off + 4] == Put16(q.qtype) + Put16(q.qclass)
  {
    hide NameFn, Derives, Spelled, U16, Put16;
    labels, dangling, n := NameSound(pkt, 12);
    var off := NameFn(pkt, 12).value.1;
    PutRead(pkt, off);
    PutRead(pkt, off + 2);
    assert pkt[off..off + 4] == pkt[off..off + 2] + pkt[off + 2..off + 4];
  }

  /** The labels of a dotted name. */
  function Split(name: Bytes): (labels: seq<Bytes>)
    ensures labels != []
  {
    if name == [] then [[]]
    else
      var n := |name| - 1;
      var before := Split(name[..n]);
      if name[n] == DOT then before + [[]]
      else before[..|before| - 1] + [before[|before| - 1] + [name[n]]]
  }

  /** The length octet and the text of every label; the length is cut to one octet. */
  function EncodeLabels(labels: seq<Bytes>): Bytes {
    if labels == [] then []
    else [(|labels[0]| % 256) as Octet] + labels[0] + EncodeLabels(labels[1..])
  }

  /** Root octet, type, class IN. */
  function Tail(qtype: nat): (t: Bytes)
    requires qtype < 0x1_0000
    ensures |t| == 5
  {
    [0, (qtype / 256) as Octet, (qtype % 256) as Octet, 0, 1]
  }

  /** The query encoder of the integration tests, behind any header. */
  function EncodeQuery(head: Bytes, name: Bytes, qtype: nat): Bytes
    requires qtype < 0x1_0000
  {
    head + (EncodeLabels(Split(name)) + Tail(qtype))
  }

  ghost predicate PlainLabel(l: Bytes) {
    1 <= |l| <= 63 && DOT !in l
  }

  ghost predicate PlainLabels(labels: seq<Bytes>) {
    forall i :: 0 <= i < |labels| ==> PlainLabel(labels[i])
  }

  lemma {:induction false} SplitLabel(a: Bytes, l: Bytes)
    requires DOT !in l
    ensures Split(a + [DOT] + l) == Split(a) + [l]
  {
    var whole := a + [DOT] + l;
    var n := |whole| - 1;
    if l == [] {
      assert whole[..n] == a;
    } else {
      var m := |l| - 1;
      SplitLabel(a, l[..m]);
      assert whole[..n] == a + [DOT] + l[..m] && whole[n] == l[m];
      var before := Split(whole[..n]);
      assert before[..|before| - 1] == Split(a);
      assert l[..m] + [l[m]] == l;
    }
  }

  lemma {:induction false} SplitPlain(l: Bytes)
    requires DOT !in l
    ensures Split(l) == [l]
  {
    if l != [] {
      var m := |l| - 1;
      SplitPlain(l[..m]);
      assert l[..m] + [l[m]] == l;
    }
  }

  /** Splitting undoes joining when no label holds a dot. */
  lemma {:induction false} SplitJoin(labels: seq<Bytes>)
    requires labels != [] && PlainLabels(labels)
    ensures Split(Join(labels)) == labels
  {
    var n := |labels| - 1;
    if n == 0 {
      SplitPlain(labels[0]);
    } else {
      SplitJoin(labels[..n]);
      SplitLabel(Join(labels[..n]), labels[n]);
      assert labels[..n] + [labels[n]] == labels;
    }
  }

  /** The parser reads encoded labels back one by one; the step limit is 32 octets groups, the root included. */
  lemma {:induction false} NameLoopReads(data: Bytes, pos: nat, done: seq<Bytes>, rest: seq<Bytes>, steps: nat)
    requires PlainLabels(rest) && steps <= 32
    requires pos + |EncodeLabels(rest)| < |data|
    requires data[pos..pos + |EncodeLabels(rest)|] == EncodeLabels(rest)
    requires data[pos + |EncodeLabels(rest)|] == 0
    ensures NameLoop(data, pos, done, steps) ==
            if steps + |rest| < 32 then Ok((Join(done + rest), pos + |EncodeLabels(rest)| + 1)) else Err(LabelLimit)
    decreases |rest|
  {
    hide Join, ResolveFn, EncodeLabels;
    if rest == [] {
      EncodeNone();
      assert done + rest == done;
    } else if steps < 32 {
      hide NameLoop;
      var l, tail := rest[0], EncodeLabels(rest[1..]);
      assert PlainLabel(l);
      EncodeFirst(rest);
      ReadParts(data, pos, l, tail);
      ReadLabel(data, pos, done, l, steps);
      NameLoopReads(data, pos + 1 + |l|, done + [l], rest[1..], steps + 1);
      assert done + [l] + rest[1..] == done + rest;
    }
  }

  lemma EncodeNone()
    ensures EncodeLabels([]) == []
  {
  }

  lemma EncodeFirst(rest: seq<Bytes>)
    requires rest != [] && PlainLabel(rest[0])
    ensures EncodeLabels(rest) == [|rest[0]| as Octet] + rest[0] + EncodeLabels(rest[1..])
  {
  }

  lemma ReadLabel(data: Bytes, pos: nat, done: seq<Bytes>, l: Bytes, steps: nat)
    requires steps < 32 && 1 <= |l| <= 63 && pos + 1 + |l| <= |data|
    requires data[pos] == |l| && data[pos + 1..pos + 1 + |l|] == l
    ensures NameLoop(data, pos, done, steps) == NameLoop(data, pos + 1 + |l|, done + [l], steps + 1)
  {
  }

  /** The parts of one encoded label in front of the others. */
  lemma ReadParts(data: Bytes, pos: nat, l: Bytes, tail: Bytes)
    requires |l| < 256 && pos + 1 + |l| + |tail| <= |data|
    requires data[pos..pos + 1 + |l| + |tail|] == [|l| as Octet] + l + tail
    ensures data[pos] == |l| && data[pos + 1..pos + 1 + |l|] == l
    ensures data[pos + 1 + |l|..pos + 1 + |l| + |tail|] == tail
  {
    var code := data[pos..pos + 1 + |l| + |tail|];
    assert code[0] == data[pos];
    forall i | 0 <= i < |l|
      ensures data[pos + 1 + i] == l[i]
    {
      assert code[1 + i] == l[i];
    }
    forall i | 0 <= i < |tail|
      ensures data[pos + 1 + |l| + i] == tail[i]
    {
      assert code[1 + |l| + i] == tail[i];
    }
  }

  lemma PacketParts(head: Bytes, code: Bytes, tail: Bytes)
    ensures var pkt := head + (code + tail);
            && pkt[|head|..|head| + |code|] == code
            && (forall i :: 0 <= i < |head| ==> pkt[i] == head[i])
            && (forall i :: 0 <= i < |tail| ==> pkt[|head| + |code| + i] == tail[i])
  {
  }

  /** The fields of an encoded query, read at their offsets. */
  lemma PacketFields(head: Bytes, labels: seq<Bytes>, qtype: nat)
    requires |head| == 12 && labels != [] && PlainLabels(labels) && qtype < 0x1_0000
    ensures var pkt, code := EncodeQuery(head, Join(labels), qtype), EncodeLabels(labels);
            var end := 12 + |code|;
            && |pkt| == end + 5 && U16(pkt, 2) == U16(head, 2) && U16(pkt, 4) == U16(head, 4)
            && pkt[12..end] == code && pkt[end] == 0
            && U16(pkt, end + 1) == qtype && U16(pkt, end + 3) == 1
  {
    hide Join, Split, EncodeLabels, Tail;
    SplitJoin(labels);
    var code, tail := EncodeLabels(labels), Tail(qtype);
    var pkt := EncodeQuery(head, Join(labels), qtype);
    assert pkt == head + (code + tail);
    PacketParts(head, code, tail);
    FixedParts(qtype);
    var end := 12 + |code|;
    assert pkt[end + 0] == tail[0] && pkt[end + 1] == tail[1] && pkt[end + 2] == tail[2];
    assert pkt[end + 3] == tail[3] && pkt[end + 4] == tail[4];
  }

  /** Behind any header of a query with questions, an encoded name of plain labels is read back, lower-cased, with its type,
      exactly when it has at most 31 labels. */
  lemma QueryRoundTrip(head: Bytes, labels: seq<Bytes>, qtype: nat, lower: Bytes -> Bytes)
    requires |head| == 12 && head[2] < 128 && (head[4] != 0 || head[5] != 0)
    requires labels != [] && forall i :: 0 <= i < |labels| ==> 1 <= |labels[i]| <= 63 && 46 !in labels[i]
    requires qtype < 0x1_0000
    ensures Query(EncodeQuery(head, Join(labels), qtype), lower)
            == if |labels| <= 31 then Ok(Question(lower(Join(labels)), qtype, 1)) else Err(LabelLimit)
  {
    assert PlainLabels(labels);
    HeaderReads(head);
    hide Join, NameLoop, EncodeLabels, EncodeQuery, U16, PlainLabels;
    PacketFields(head, labels, qtype);
    var pkt := EncodeQuery(head, Join(labels), qtype);
    NameLoopReads(pkt, 12, [], labels, 0);
    assert [] + labels == labels;
  }

  lemma HeaderReads(head: Bytes)
    requires |head| == 12 && head[2] < 128 && (head[4] != 0 || head[5] != 0)
    ensures U16(head, 2) < 0x8000 && U16(head, 4) > 0
  {
  }

  lemma FixedParts(qtype: nat)
    requires qtype < 0x1_0000
    ensures var t := Tail(qtype); t[0] == 0 && t[1] == qtype / 256 && t[2] == qtype % 256 && t[3] == 0 && t[4] == 1
  {
  }
}
