/**
 The OpenPGP payload check (internal/pgp_verify/pgp_verify.go): an encrypted message is zero or more
 session key packets (PKESK, SKESK) followed by one SEIPD packet, in the new packet format with
 partial, one-, two- and five-octet lengths (sections 4.2.2 and 11.3 of RFC 4880).
 */
module OpenPgp {
  import opened Uids

  newtype Byte = n: int | 0 <= n < 256
  type Bytes = seq<Byte>

  const PKESK := 1
  const SKESK := 3
  const SEIPD := 18

  // ---- The format ----

  /** A length header of one octet (up to 191), two (192 to 8383) or five (any 32-bit length). */
  datatype Length = One(a: Byte) | Two(a: Byte, b: Byte) | Five(a: Byte, b: Byte, c: Byte, d: Byte)

  /** A part of a body of length 2^exponent, with more to follow. */
  datatype Chunk = Chunk(exponent: nat, data: Bytes)

  datatype Body = Body(partials: seq<Chunk>, length: Length, data: Bytes)

  datatype Packet = Packet(tag: nat, body: Body)

  predicate ValidLength(l: Length) {
    match l
    case One(a) => a < 192
    case Two(a, _) => 192 <= a < 224
    case Five(_, _, _, _) => true
  }

  function ValueOf(l: Length): nat
    requires ValidLength(l)
  {
    match l
    case One(a) => a as nat
    case Two(a, b) => (a as nat - 192) * 256 + b as nat + 192
    case Five(a, b, c, d) => a as nat * 0x100_0000 + b as nat * 0x1_0000 + c as nat * 0x100 + d as nat
  }

  function Octets(l: Length): Bytes {
    match l
    case One(a) => [a]
    case Two(a, b) => [a, b]
    case Five(a, b, c, d) => [255, a, b, c, d]
  }

  function Pow2(e: nat): nat {
    if e == 0 then 1 else 2 * Pow2(e - 1)
  }

  predicate ValidChunk(c: Chunk) {
    c.exponent <= 30 && |c.data| == Pow2(c.exponent)
  }

  predicate ValidBody(b: Body) {
    && ValidLength(b.length) && |b.data| == ValueOf(b.length)
    && forall i :: 0 <= i < |b.partials| ==> ValidChunk(b.partials[i])
  }

  predicate ValidPacket(p: Packet) {
    p.tag < 64 && ValidBody(p.body)
  }

  function EncodeBody(b: Body): Bytes
    requires ValidBody(b)
    decreases |b.partials|
  {
    if b.partials == [] then Octets(b.length) + b.data
    else
      var c := b.partials[0];
      [(224 + c.exponent) as Byte] + c.data + EncodeBody(b.(partials := b.partials[1..]))
  }

  function Encode(p: Packet): Bytes
    requires ValidPacket(p)
  {
    [(192 + p.tag) as Byte] + EncodeBody(p.body)
  }

  /** Session key packets, then one packet of encrypted data. */
  predicate Message(ps: seq<Packet>) {
    && ps != []
    && (forall i :: 0 <= i < |ps| ==> ValidPacket(ps[i]))
    && (forall i :: 0 <= i < |ps| - 1 ==> ps[i].tag == PKESK || ps[i].tag == SKESK)
    && ps[|ps| - 1].tag == SEIPD
  }

  function EncodeAll(ps: seq<Packet>): Bytes
    requires forall i :: 0 <= i < |ps| ==> ValidPacket(ps[i])
  {
    if ps == [] then [] else Encode(ps[0]) + EncodeAll(ps[1..])
  }

  ghost predicate IsMessage(s: Bytes) {
    exists ps :: Message(ps) && EncodeAll(ps) == s
  }

  // ---- Lengths ----

  /** The header that encodes a length in the shortest way. */
  function Shortest(n: nat): (l: Length)
    requires n < 0x1_0000_0000
  {
    if n < 192 then One(n as Byte)
    else if n < 8384 then Two(((n - 192) / 256 + 192) as Byte, ((n - 192) % 256) as Byte)
    else InFive(n)
  }

  function InFive(n: nat): (l: Length)
    requires n < 0x1_0000_0000
  {
    Five((n / 0x100_0000) as Byte, (n / 0x1_0000 % 256) as Byte, (n / 0x100 % 256) as Byte, (n % 256) as Byte)
  }

  /** Every 32-bit length can be encoded, and decoding gives it back. */
  lemma LengthRoundTrip(n: nat)
    requires n < 0x1_0000_0000
    ensures ValidLength(Shortest(n)) && ValueOf(Shortest(n)) == n && ValueOf(InFive(n)) == n
  {
    FiveOctets(n);
    if 192 <= n < 8384 { TwoOctets(n - 192); }
  }

  lemma FiveOctets(n: nat)
    requires n < 0x1_0000_0000
    ensures ValueOf(InFive(n)) == n
  {
    assert n == n / 0x100 * 0x100 + n % 256;
    assert n / 0x100 == n / 0x1_0000 * 0x100 + n / 0x100 % 256;
    assert n / 0x1_0000 == n / 0x100_0000 * 0x100 + n / 0x1_0000 % 256;
  }

  lemma TwoOctets(n: nat)
    requires n < 8192
    ensures n / 256 < 32 && n / 256 * 256 + n % 256 == n
  {
  }

  /** No shorter header encodes the same length. */
  lemma ShortestIsShortest(l: Length)
    requires ValidLength(l)
    ensures ValueOf(l) < 0x1_0000_0000 && |Octets(Shortest(ValueOf(l)))| <= |Octets(l)|
  {
  }

  // ---- Decoding ----

  function DecodeLength(s: Bytes): Option<Length>
    requires s != []
  {
    if s[0] < 192 then Some(One(s[0]))
    else if s[0] < 224 then
      if |s| < 2 then None else Some(Two(s[0], s[1]))
    else if s[0] == 255 then
      if |s| < 5 then None else Some(Five(s[1], s[2], s[3], s[4]))
    else None
  }

  predicate IsPartial(b: Byte) {
    224 <= b < 255
  }

  function Exponent(b: Byte): nat
    requires IsPartial(b)
  {
    b as nat - 224
  }

  datatype Parsed = Parsed(body: Body, rest: Bytes)

  function Prefixed(cs: seq<Chunk>, r: Option<Parsed>): Option<Parsed> {
    match r
    case None => None
    case Some(p) => Some(p.(body := p.body.(partials := cs + p.body.partials)))
  }

  /** The part of a body that no partial length precedes. */
  function DecodeLast(s: Bytes): Option<Parsed>
    requires s != []
  {
    var l := DecodeLength(s);
    if l.None? then None
    else
      var from := |Octets(l.value)|;
      var to := from + ValueOf(l.value);
      if |s| < to then None else Some(Parsed(Body([], l.value, s[from..to]), s[to..]))
  }

  function DecodeBody(s: Bytes): (r: Option<Parsed>)
    ensures r.Some? ==> |r.value.rest| < |s|
    decreases |s|
  {
    if s == [] then None
    else if IsPartial(s[0]) then
      var n := 1 + Pow2(Exponent(s[0]));
      if |s| < n then None else Prefixed([Chunk(Exponent(s[0]), s[1..n])], DecodeBody(s[n..]))
    else DecodeLast(s)
  }

  function Decode(s: Bytes): Option<seq<Packet>>
    decreases |s|
  {
    if s == [] || s[0] < 192 then None
    else
      var tag, b := s[0] as nat - 192, DecodeBody(s[1..]);
      if b.None? then None
      else if b.value.rest == [] then (if tag == SEIPD then Some([Packet(tag, b.value.body)]) else None)
      else if tag != PKESK && tag != SKESK then None
      else
        var more := Decode(b.value.rest);
        if more.None? then None else Some([Packet(tag, b.value.body)] + more.value)
  }

  /** The examples of section 4.2.3 of RFC 4880: 100, 1723, 100000 and 1693 octets, and partial lengths. */
  lemma LengthExamples()
    ensures DecodeLength([0x64]) == Some(One(0x64)) && ValueOf(One(0x64)) == 100
    ensures DecodeLength([0xC5, 0xFB]) == Some(Two(0xC5, 0xFB)) && ValueOf(Two(0xC5, 0xFB)) == 1723
    ensures DecodeLength([0xFF, 0x00, 0x01, 0x86, 0xA0]) == Some(Five(0x00, 0x01, 0x86, 0xA0))
    ensures ValueOf(Five(0x00, 0x01, 0x86, 0xA0)) == 100000 && ValueOf(Two(0xC5, 0xDD)) == 1693
    ensures IsPartial(0xEF) && Pow2(Exponent(0xEF)) == 32768 && IsPartial(0xE1) && Pow2(Exponent(0xE1)) == 2
    ensures IsPartial(0xE0) && Pow2(Exponent(0xE0)) == 1 && IsPartial(0xF0) && Pow2(Exponent(0xF0)) == 65536
  {
    assert Pow2(4) == 16 && Pow2(8) == 256 && Pow2(12) == 4096 && Pow2(15) == 32768 && Pow2(16) == 65536;
  }

  // ---- Packet bodies ----

  lemma {:induction false} ChunkFirst(c: Chunk, more: Bytes, s: Bytes)
    requires ValidChunk(c) && s == [(224 + c.exponent) as Byte] + c.data + more
    ensures DecodeBody(s) == Prefixed([c], DecodeBody(more))
  {
    var n := 1 + Pow2(c.exponent);
    assert s[1..n] == c.data && s[n..] == more;
  }

  lemma {:induction false} LengthFirst(l: Length, data: Bytes, rest: Bytes, s: Bytes)
    requires ValidLength(l) && |data| == ValueOf(l) && s == Octets(l) + data + rest
    ensures DecodeBody(s) == Some(Parsed(Body([], l, data), rest))
  {
    var from, to := |Octets(l)|, |Octets(l)| + |data|;
    assert DecodeLength(s) == Some(l);
    assert s[from..to] == data && s[to..] == rest;
  }

  /** Decoding a packet body inverts encoding it, and stops where it ends. */
  lemma {:induction false} BodyRoundTrip(b: Body, rest: Bytes)
    requires ValidBody(b)
    ensures DecodeBody(EncodeBody(b) + rest) == Some(Parsed(b, rest))
    decreases |b.partials|
  {
    var s := EncodeBody(b) + rest;
    if b.partials == [] {
      LengthFirst(b.length, b.data, rest, s);
    } else {
      var c, tail := b.partials[0], b.(partials := b.partials[1..]);
      BodyRoundTrip(tail, rest);
      assert s == [(224 + c.exponent) as Byte] + c.data + (EncodeBody(tail) + rest);
      ChunkFirst(c, EncodeBody(tail) + rest, s);
      assert [c] + tail.partials == b.partials;
    }
  }

  lemma LastEncoded(s: Bytes)
    requires s != [] && DecodeLast(s).Some?
    ensures var p := DecodeLast(s).value; ValidBody(p.body) && p.body.partials == [] && s == EncodeBody(p.body) + p.rest
  {
    var l := DecodeLength(s).value;
    var from := |Octets(l)|;
    LengthOctets(s);
    InParts(s, from, from + ValueOf(l));
  }

  lemma LengthOctets(s: Bytes)
    requires s != [] && DecodeLength(s).Some?
    ensures var l := DecodeLength(s).value; ValidLength(l) && |Octets(l)| <= |s| && s[..|Octets(l)|] == Octets(l)
  {
  }

  lemma InParts(s: Bytes, a: nat, b: nat)
    requires a <= b <= |s|
    ensures s == s[..a] + s[a..b] + s[b..]
  {
  }

  lemma ChunkEncoded(c: Chunk, p: Parsed, s: Bytes)
    requires ValidChunk(c) && ValidBody(p.body)
    requires s == [(224 + c.exponent) as Byte] + c.data + (EncodeBody(p.body) + p.rest)
    ensures var b := p.body.(partials := [c] + p.body.partials); ValidBody(b) && s == EncodeBody(b) + p.rest
  {
    var b := p.body.(partials := [c] + p.body.partials);
    assert b.partials[1..] == p.body.partials;
    assert b.(partials := b.partials[1..]) == p.body;
  }

  /** What decodes as a packet body is the encoding of that body. */
  lemma {:induction false} BodyEncoded(s: Bytes)
    requires DecodeBody(s).Some?
    ensures var p := DecodeBody(s).value; ValidBody(p.body) && s == EncodeBody(p.body) + p.rest
    decreases |s|
  {
    if IsPartial(s[0]) {
      var n := 1 + Pow2(Exponent(s[0]));
      var c, more := Chunk(Exponent(s[0]), s[1..n]), s[n..];
      BodyEncoded(more);
      PartialEncoded(s, c, DecodeBody(more).value);
    } else {
      LastEncoded(s);
    }
  }

  lemma {:induction false} PartialEncoded(s: Bytes, c: Chunk, p: Parsed)
    requires s != [] && IsPartial(s[0]) && c.exponent == Exponent(s[0]) && 1 + Pow2(c.exponent) <= |s|
    requires c.data == s[1..1 + Pow2(c.exponent)] && ValidBody(p.body)
    requires s[1 + Pow2(c.exponent)..] == EncodeBody(p.body) + p.rest
    ensures var b := p.body.(partials := [c] + p.body.partials); ValidBody(b) && s == EncodeBody(b) + p.rest
  {
    InThree(s, 1 + Pow2(c.exponent));
    ChunkEncoded(c, p, s);
  }

  lemma InThree(s: Bytes, n: nat)
    requires 1 <= n <= |s|
    ensures s == [s[0]] + s[1..n] + s[n..]
  {
  }

  lemma Associate(a: Bytes, b: Bytes, c: Bytes)
    ensures a + b + c == a + (b + c)
  {
  }

  lemma {:induction false} LongerRest(b: Body, rest: Bytes, t: Bytes, s: Bytes)
    requires ValidBody(b) && s == EncodeBody(b) + rest
    ensures DecodeBody(s + t) == Some(Parsed(b, rest + t))
  {
    BodyRoundTrip(b, rest + t);
    Associate(EncodeBody(b), rest, t);
  }

  /** What comes first does not depend on what comes after. */
  lemma {:induction false} BodyPrefix(s: Bytes, t: Bytes)
    requires DecodeBody(s).Some?
    ensures DecodeBody(s + t) == Some(Parsed(DecodeBody(s).value.body, DecodeBody(s).value.rest + t))
  {
    var p := DecodeBody(s).value;
    BodyEncoded(s);
    LongerRest(p.body, p.rest, t, s);
  }

  // ---- Messages ----

  /** Decoding inverts encoding: every message is accepted, and as itself. */
  lemma {:induction false} MessageRoundTrip(ps: seq<Packet>)
    requires Message(ps)
    ensures Decode(EncodeAll(ps)) == Some(ps)
    decreases |ps|
  {
    var p, more := ps[0], EncodeAll(ps[1..]);
    assert ps == [p] + ps[1..];
    BodyRoundTrip(p.body, more);
    HeaderFirst(p, more);
    if |ps| > 1 {
      MessageRoundTrip(ps[1..]);
    } else {
      assert more == [] && ps == [p];
    }
  }

  lemma HeaderFirst(p: Packet, more: Bytes)
    requires ValidPacket(p)
    ensures var s := Encode(p) + more; s[0] == (192 + p.tag) as Byte && s[1..] == EncodeBody(p.body) + more
  {
  }

  lemma OnePacket(p: Packet, s: Bytes)
    requires ValidPacket(p) && p.tag == SEIPD && s == Encode(p) + []
    ensures Message([p]) && EncodeAll([p]) == s
  {
    assert [p][1..] == [];
  }

  lemma {:induction false} MorePackets(p: Packet, ps: seq<Packet>, s: Bytes)
    requires ValidPacket(p) && (p.tag == PKESK || p.tag == SKESK) && Message(ps) && s == Encode(p) + EncodeAll(ps)
    ensures Message([p] + ps) && EncodeAll([p] + ps) == s
  {
    assert ([p] + ps)[1..] == ps;
  }

  lemma PacketEncoded(s: Bytes, p: Packet, rest: Bytes)
    requires s != [] && s[0] >= 192 && p.tag == s[0] as nat - 192 && ValidBody(p.body)
    requires s[1..] == EncodeBody(p.body) + rest
    ensures s == Encode(p) + rest
  {
    assert s == [s[0]] + s[1..];
    Associate([s[0]], EncodeBody(p.body), rest);
  }

  /** What is accepted is the encoding of a message. */
  lemma {:induction false} MessageEncoded(s: Bytes)
    requires Decode(s).Some?
    ensures Message(Decode(s).value) && EncodeAll(Decode(s).value) == s
    decreases |s|
  {
    var b := DecodeBody(s[1..]).value;
    var p := Packet(s[0] as nat - 192, b.body);
    BodyEncoded(s[1..]);
    PacketEncoded(s, p, b.rest);
    if b.rest == [] {
      OnePacket(p, s);
    } else {
      MessageEncoded(b.rest);
      MorePackets(p, Decode(b.rest).value, s);
    }
  }

  lemma {:induction false} DecodesIff(s: Bytes)
    ensures Decode(s).Some? <==> IsMessage(s)
  {
    if Decode(s).Some? {
      MessageEncoded(s);
    }
    if ps :| Message(ps) && EncodeAll(ps) == s {
      MessageRoundTrip(ps);
    }
  }

  /** One byte string is the encoding of at most one message. */
  lemma {:induction false} Unambiguous(ps: seq<Packet>, qs: seq<Packet>)
    requires Message(ps) && Message(qs) && EncodeAll(ps) == EncodeAll(qs)
    ensures ps == qs
  {
    MessageRoundTrip(ps);
    MessageRoundTrip(qs);
  }

  /** Nothing can follow a message: no message is a proper prefix of another. */
  lemma PrefixFree(s: Bytes, t: Bytes)
    requires IsMessage(s) && IsMessage(s + t)
    ensures t == []
  {
    DecodesIff(s);
    DecodesIff(s + t);
    DecodedPrefixFree(s, t);
  }

  /** The first packet of a decoded message: the last one, or one that may come before others. */
  lemma {:induction false} DecodedHead(s: Bytes)
    requires Decode(s).Some?
    ensures s != [] && DecodeBody(s[1..]).Some?
    ensures var rest := DecodeBody(s[1..]).value.rest;
            if rest == [] then s[0] as nat - 192 == SEIPD else s[0] as nat - 192 != SEIPD && Decode(rest).Some?
  {
  }

  lemma {:induction false} DecodedPrefixFree(s: Bytes, t: Bytes)
    requires Decode(s).Some? && Decode(s + t).Some?
    ensures t == []
    decreases |s|
  {
    LongerHead(s, t, s + t);
    var rest := DecodeBody(s[1..]).value.rest;
    if rest != [] { DecodedPrefixFree(rest, t); }
  }

  lemma {:induction false} LongerBody(s: Bytes, t: Bytes, u: Bytes)
    requires s != [] && u == s + t && DecodeBody(s[1..]).Some?
    ensures u[0] == s[0] && DecodeBody(u[1..]).Some?
    ensures DecodeBody(u[1..]).value.rest == DecodeBody(s[1..]).value.rest + t
  {
    assert u[1..] == s[1..] + t;
    BodyPrefix(s[1..], t);
  }

  lemma {:induction false} LongerHead(s: Bytes, t: Bytes, u: Bytes)
    requires u == s + t && Decode(s).Some? && Decode(u).Some?
    ensures s != [] && DecodeBody(s[1..]).Some?
    ensures var rest := DecodeBody(s[1..]).value.rest;
            if rest == [] then t == [] else Decode(rest).Some? && Decode(rest + t).Some?
  {
    DecodedHead(s);
    DecodedHead(u);
    LongerBody(s, t, u);
    assert [] + t == t;
  }

  /** A message with one packet of each kind, and what is none: nothing, a session key alone, an old packet header. */
  lemma MessageExamples(x: Byte, y: Byte, z: Byte)
    ensures IsMessage([0xD2, 0x00]) && IsMessage([0xC1, 0x01, x, 0xC3, 0x01, y, 0xD2, 0x01, z])
    ensures !IsMessage([]) && !IsMessage([0xC1, 0x00]) && !IsMessage([0x92, 0x00])
    ensures !IsMessage([0xD2, 0x00, 0xD2, 0x00])
  {
    var a: Bytes, b: Bytes := [0xD2, 0x01, z], [0xC3, 0x01, y, 0xD2, 0x01, z];
    var c: Bytes := [0xC1, 0x01, x, 0xC3, 0x01, y, 0xD2, 0x01, z];
    ShortPacket([0xD2, 0x00], 0, []);
    ShortPacket(a, 1, []);
    ShortPacket(b, 1, a);
    ShortPacket(c, 1, b);
    ShortPacket([0xC1, 0x00], 0, []);
    ShortPacket([0xD2, 0x00, 0xD2, 0x00], 0, [0xD2, 0x00]);
    DecodesIff([0xD2, 0x00]);
    DecodesIff(c);
    DecodesIff([]);
    DecodesIff([0xC1, 0x00]);
    DecodesIff([0x92, 0x00]);
    DecodesIff([0xD2, 0x00, 0xD2, 0x00]);
  }

  /** A packet of the new format with a one-octet length. */
  lemma {:induction false} ShortPacket(s: Bytes, n: nat, rest: Bytes)
    requires |s| >= 2 && s[0] >= 192 && s[1] as nat == n < 192 && 2 + n <= |s| && s[2 + n..] == rest
    ensures Decode(s).Some? <==>
            if rest == [] then s[0] == 0xD2 else (s[0] == 0xC1 || s[0] == 0xC3) && Decode(rest).Some?
  {
    var b := s[1..];
    assert b[0] == s[1] && b[1 + n..] == rest;
    assert DecodeLength(b) == Some(One(s[1]));
    assert DecodeLast(b).Some? && DecodeLast(b).value.rest == rest;
    assert DecodeBody(b) == DecodeLast(b);
  }

  // ---- The recogniser ----

  /** The bit masks of the recogniser as comparison and remainders. */
  lemma Masks(b: bv8)
    ensures b & 0xC0 == 0xC0 <==> b >= 0xC0
    ensures b & 0x3F == b % 0x40 && b & 0x1F == b % 0x20
  {
  }

  lemma NoChunk(r: Option<Parsed>)
    ensures Prefixed([], r) == r
  {
    if r.Some? { assert [] + r.value.body.partials == r.value.body.partials; }
  }

  lemma PrefixedTwice(cs: seq<Chunk>, c: Chunk, r: Option<Parsed>)
    ensures Prefixed(cs, Prefixed([c], r)) == Prefixed(cs + [c], r)
  {
    if r.Some? { assert cs + ([c] + r.value.body.partials) == cs + [c] + r.value.body.partials; }
  }

  /** A partial length that leaves nothing for what must follow. */
  lemma {:induction false} CutShort(s: Bytes)
    requires s != [] && IsPartial(s[0]) && |s| <= 1 + Pow2(Exponent(s[0]))
    ensures DecodeBody(s).None?
  {
  }

  lemma ChunkAt(payload: Bytes, i: nat, cs: seq<Chunk>, c: Chunk, next: nat)
    requires i < |payload| && IsPartial(payload[i]) && next == i + 1 + Pow2(Exponent(payload[i])) <= |payload|
    requires c == Chunk(Exponent(payload[i]), payload[i + 1..next])
    ensures Prefixed(cs, DecodeBody(payload[i..])) == Prefixed(cs + [c], DecodeBody(payload[next..]))
  {
    assert payload[i..] == [payload[i]] + c.data + payload[next..];
    ChunkFirst(c, payload[next..], payload[i..]);
    PrefixedTwice(cs, c, DecodeBody(payload[next..]));
  }

  lemma CutOff(payload: Bytes, i: nat, cs: seq<Chunk>)
    requires i < |payload| && IsPartial(payload[i]) && i + 1 + Pow2(Exponent(payload[i])) >= |payload|
    ensures Prefixed(cs, DecodeBody(payload[i..])).None?
  {
    CutShort(payload[i..]);
  }

  lemma PartialExponent(b: Byte)
    requires IsPartial(b)
    ensures b as nat % 32 == Exponent(b)
  {
  }

  /** Skips the partial bodies from `i` on; false when the payload ends before a final length. */
  method SkipPartials(payload: Bytes, i: nat) returns (ok: bool, j: nat)
    requires i < |payload|
    ensures ok ==> i <= j < |payload| && !IsPartial(payload[j])
    ensures ok ==> exists cs :: DecodeBody(payload[i..]) == Prefixed(cs, DecodeBody(payload[j..]))
    ensures !ok ==> DecodeBody(payload[i..]).None?
  {
    j := i;
    ghost var cs: seq<Chunk>, whole := [], DecodeBody(payload[i..]);
    NoChunk(whole);
    while IsPartial(payload[j])
      invariant i <= j < |payload|
      invariant whole == Prefixed(cs, DecodeBody(payload[j..]))
      decreases |payload| - j
    {
      PartialExponent(payload[j]);
      var partialLen := Pow2(payload[j] as nat % 32);
      var next := j + 1 + partialLen;
      if next >= |payload| {
        CutOff(payload, j, cs);
        return false, j;
      }
      ghost var c := Chunk(Exponent(payload[j]), payload[j + 1..next]);
      ChunkAt(payload, j, cs, c, next);
      cs := cs + [c];
      j := next;
    }
    ok := true;
  }

  /** Reads the final length at `i`; false when its octets are cut off. */
  method ReadLength(payload: Bytes, i: nat) returns (ok: bool, j: nat, bodyLen: nat)
    requires i < |payload| && !IsPartial(payload[i])
    ensures ok <==> DecodeLength(payload[i..]).Some?
    ensures ok ==> j == i + |Octets(DecodeLength(payload[i..]).value)|
    ensures ok ==> bodyLen == ValueOf(DecodeLength(payload[i..]).value)
  {
    if payload[i] < 192 {
      return true, i + 1, payload[i] as nat;
    } else if payload[i] < 224 {
      if i + 1 >= |payload| {
        return false, i, 0;
      }
      return true, i + 2, (payload[i] as nat - 192) * 256 + payload[i + 1] as nat + 192;
    } else {
      if i + 4 >= |payload| {
        return false, i, 0;
      }
      bodyLen := payload[i + 1] as nat * 0x100_0000 + payload[i + 2] as nat * 0x1_0000
                 + payload[i + 3] as nat * 0x100 + payload[i + 4] as nat;
      return true, i + 5, bodyLen;
    }
  }

  /** What one packet decides. */
  lemma {:induction false} PacketAt(s: Bytes, cs: seq<Chunk>, last: Bytes)
    requires s != [] && s[0] >= 192 && last != [] && !IsPartial(last[0])
    requires DecodeBody(s[1..]) == Prefixed(cs, DecodeBody(last))
    ensures Decode(s).Some? <==>
              DecodeLast(last).Some? &&
              var tag, rest := s[0] as nat - 192, DecodeLast(last).value.rest;
              if rest == [] then tag == SEIPD else (tag == PKESK || tag == SKESK) && Decode(rest).Some?
  {
  }

  /** The verdict on the payload from `at` on, given the tag of the packet there and where it ends. */
  ghost predicate Verdict(payload: Bytes, at: nat, tag: nat, end: nat)
    requires at < |payload|
  {
    Decode(payload[at..]).Some? <==>
      end <= |payload| &&
      if end == |payload| then tag == SEIPD else (tag == PKESK || tag == SKESK) && Decode(payload[end..]).Some?
  }

  lemma LastEnds(payload: Bytes, j: nat, end: nat)
    requires j < |payload| && DecodeLength(payload[j..]).Some?
    requires end == j + |Octets(DecodeLength(payload[j..]).value)| + ValueOf(DecodeLength(payload[j..]).value)
    ensures DecodeLast(payload[j..]).Some? <==> end <= |payload|
    ensures end <= |payload| ==> DecodeLast(payload[j..]).value.rest == payload[end..]
  {
    if end <= |payload| { assert payload[j..][end - j..] == payload[end..]; }
  }

  /** The same by positions: the packet at `at` has its final length at `j` and ends at `end`. */
  lemma PacketEnds(payload: Bytes, at: nat, j: nat, cs: seq<Chunk>, end: nat)
    requires at + 1 <= j < |payload| && payload[at] >= 192 && !IsPartial(payload[j])
    requires DecodeBody(payload[at + 1..]) == Prefixed(cs, DecodeBody(payload[j..]))
    requires DecodeLength(payload[j..]).Some?
    requires end == j + |Octets(DecodeLength(payload[j..]).value)| + ValueOf(DecodeLength(payload[j..]).value)
    ensures Verdict(payload, at, payload[at] as nat - 192, end)
  {
    LastEnds(payload, j, end);
    assert payload[at..][1..] == payload[at + 1..];
    PacketAt(payload[at..], cs, payload[j..]);
  }

  /** One packet: its tag and its end, or false when its header or lengths are cut off or not allowed. */
  method ReadPacket(payload: Bytes, at: nat) returns (ok: bool, tag: nat, end: nat)
    requires at < |payload|
    ensures ok ==> at < end && Verdict(payload, at, tag, end)
    ensures !ok ==> Decode(payload[at..]).None?
  {
    if payload[at] < 192 {
      return false, 0, at;
    }
    tag := payload[at] as nat % 64;
    assert tag == payload[at] as nat - 192;
    assert payload[at..][1..] == payload[at + 1..];
    if at + 1 >= |payload| {
      return false, tag, at;
    }
    var j;
    ok, j := SkipPartials(payload, at + 1);
    if !ok {
      return false, tag, at;
    }
    ghost var cs :| DecodeBody(payload[at + 1..]) == Prefixed(cs, DecodeBody(payload[j..]));
    var bodyLen;
    ok, end, bodyLen := ReadLength(payload, j);
    if !ok {
      PacketAt(payload[at..], cs, payload[j..]);
      return;
    }
    end := end + bodyLen;
    PacketEnds(payload, at, j, cs, end);
  }

  /** One pass over the bytes, packet by packet. */
  method ScanPackets(payload: Bytes) returns (accepted: bool)
    ensures accepted <==> Decode(payload).Some?
  {
    var i := 0;
    if |payload| == 0 {
      return false;
    }
    assert payload[0..] == payload;
    while i < |payload|
      invariant Decode(payload).Some? <==> i < |payload| && Decode(payload[i..]).Some?
      decreases |payload| - i
    {
      var ok, packetTypeId, end := ReadPacket(payload, i);
      if !ok {
        return false;
      }
      assert Verdict(payload, i, packetTypeId, end);
      i := end;
      if i == |payload| {
        return packetTypeId == SEIPD;
      } else if packetTypeId != PKESK && packetTypeId != SKESK {
        return false;
      }
    }
    return false;
  }

  /**
   The check accepts exactly the messages: session key packets, then one packet of encrypted data
   that ends with the payload.
   */
  method IsEncryptedOpenPGPPayload(payload: Bytes) returns (accepted: bool)
    ensures accepted <==> IsMessage(payload)
  {
    DecodesIff(payload);
    accepted := ScanPackets(payload);
  }
}
