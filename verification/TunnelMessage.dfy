/** Framing of tunnel messages: connection id and message type as base-128
    varints in a 16-byte header buffer, then the data. Varints are those of the
    section "Base 128 Varints" of the Protocol Buffers encoding specification. */
module TunnelMessage {
  import opened Strings

  type byte = b: nat | b < 256

  /** 2^64: ids and types are 64-bit. */
  const UINT64: nat := 0x1_0000_0000_0000_0000

  const HEADER_SIZE: nat := 16

  datatype Message = Message(connectId: nat, messageType: nat, data: seq<byte>)

  // ---- Varints ----

  /** Seven bits a byte, low bits first, the top bit on all but the last. */
  function Varint(x: nat): (s: seq<byte>)
    ensures |s| >= 1
  {
    if x < 128 then [x] else [x % 128 + 128] + Varint(x / 128)
  }

  function Power128(k: nat): nat
  {
    if k == 0 then 1 else 128 * Power128(k - 1)
  }

  /** A number takes at most `k` bytes exactly when it is below 128^k. */
  lemma {:induction false} VarintLength(x: nat, k: nat)
    requires k >= 1
    ensures |Varint(x)| <= k <==> x < Power128(k)
  {
    if k == 1 {
      assert Power128(1) == 128;
    } else if x >= 128 {
      VarintLength(x / 128, k - 1);
      assert x / 128 < Power128(k - 1) <==> x < 128 * Power128(k - 1);
    } else {
      PowerGrows(k);
    }
  }

  lemma {:induction false} PowerGrows(k: nat)
    requires k >= 1
    ensures Power128(k) >= 128
  {
    if k > 1 { PowerGrows(k - 1); }
  }

  /** `binary.ReadUvarint`: the number and what follows it; it fails at the end
      of the input and when the number does not fit 64 bits. `i` bytes have been
      read before. */
  function ReadUvarint(s: seq<byte>, i: nat): (r: Option<(nat, seq<byte>)>)
    ensures r.Some? ==> |r.value.1| < |s| && r.value.1 == s[|s| - |r.value.1|..]
  {
    if s == [] then None
    else if s[0] < 128 then
      if i > 9 || (i == 9 && s[0] > 1) then None else Some((s[0], s[1..]))
    else
      var r := ReadUvarint(s[1..], i + 1);
      if r.None? then None else Some((s[0] - 128 + 128 * r.value.0, r.value.1))
  }

  /** What still fits after `i` bytes. */
  function Limit(i: nat): nat
    requires i <= 9
    decreases 9 - i
  {
    if i == 9 then 2 else 128 * Limit(i + 1)
  }

  lemma LimitIsUint64()
    ensures Limit(0) == UINT64
  {
    assert Limit(9) == 2 && Limit(8) == 128 * 2;
    assert Limit(7) == 128 * Limit(8) && Limit(6) == 128 * Limit(7) && Limit(5) == 128 * Limit(6);
    assert Limit(4) == 128 * Limit(5) && Limit(3) == 128 * Limit(4) && Limit(2) == 128 * Limit(3);
    assert Limit(1) == 128 * Limit(2) && Limit(0) == 128 * Limit(1);
  }

  lemma {:induction false} ReadVarintFrom(x: nat, i: nat, rest: seq<byte>)
    requires i <= 9 && x < Limit(i)
    ensures ReadUvarint(Varint(x) + rest, i) == Some((x, rest))
    decreases x
  {
    var s := Varint(x) + rest;
    if x < 128 {
      assert s[1..] == rest;
    } else {
      assert s[1..] == Varint(x / 128) + rest;
      ReadVarintFrom(x / 128, i + 1, rest);
    }
  }

  /** Reading a written 64-bit number gives it back, with what follows. */
  lemma ReadVarint(x: nat, rest: seq<byte>)
    requires x < UINT64
    ensures ReadUvarint(Varint(x) + rest, 0) == Some((x, rest))
  {
    LimitIsUint64();
    ReadVarintFrom(x, 0, rest);
  }

  /** The encoding that was read does not end in a superfluous zero byte. */
  predicate Minimal(c: seq<byte>)
  {
    |c| == 1 || (|c| > 1 && c[|c| - 1] != 0)
  }

  /** The number that a delimited encoding stands for. */
  function Value(c: seq<byte>): nat
    requires Delimited(c)
  {
    if |c| == 1 then c[0] else c[0] - 128 + 128 * Value(c[1..])
  }

  /** What is read is the value of the bytes up to the first without top bit. */
  lemma {:induction false} ReadIsValue(s: seq<byte>, i: nat)
    requires ReadUvarint(s, i).Some?
    ensures var (x, rest) := ReadUvarint(s, i).value;
            var c := s[..|s| - |rest|];
            s == c + rest && Delimited(c) && x == Value(c)
  {
    var rest := ReadUvarint(s, i).value.1;
    var c := s[..|s| - |rest|];
    assert s == c + rest;
    if s[0] < 128 {
      assert c == [s[0]];
    } else {
      ReadIsValue(s[1..], i + 1);
      var d := s[1..][..|s[1..]| - |rest|];
      assert c == [s[0]] + d && c[1..] == d;
    }
  }

  lemma {:induction false} NonzeroValue(c: seq<byte>)
    requires Delimited(c) && c[|c| - 1] != 0
    ensures Value(c) > 0
  {
    if |c| > 1 { NonzeroValue(c[1..]); }
  }

  lemma {:induction false} VarintMinimal(x: nat)
    ensures Minimal(Varint(x)) && (x > 0 ==> Varint(x)[|Varint(x)| - 1] != 0)
  {
    if x >= 128 { VarintMinimal(x / 128); }
  }

  lemma ValueStep(c: seq<byte>)
    requires Delimited(c) && |c| > 1
    ensures Delimited(c[1..]) && Value(c) / 128 == Value(c[1..]) && Value(c) % 128 == c[0] - 128
  {
  }

  /** An encoding is what would be written for its value exactly when it is
      minimal. */
  lemma {:induction false} MinimalIff(c: seq<byte>)
    requires Delimited(c)
    ensures Varint(Value(c)) == c <==> Minimal(c)
  {
    VarintMinimal(Value(c));
    if |c| > 1 && Minimal(c) {
      ValueStep(c);
      MinimalIff(c[1..]);
      NonzeroValue(c[1..]);
      assert c == [c[0]] + c[1..];
    }
  }

  /** What was read is what would be written exactly when it is minimal. */
  lemma ReadIsWritten(s: seq<byte>, i: nat)
    requires ReadUvarint(s, i).Some?
    ensures var (x, rest) := ReadUvarint(s, i).value;
            var c := s[..|s| - |rest|];
            Delimited(c) && s == c + rest && (Varint(x) == c <==> Minimal(c))
  {
    hide ReadUvarint, Varint, Value, Minimal;
    ReadIsValue(s, i);
    MinimalIff(s[..|s| - |ReadUvarint(s, i).value.1|]);
  }

  lemma VarintStep(v: nat)
    ensures v < 128 ==> Varint(v) == [v]
    ensures v >= 128 ==> |Varint(v)| > 1
    ensures v >= 128 ==>
              forall done: seq<byte> :: done + Varint(v) == done + [v % 128 + 128] + Varint(v / 128)
  {
  }

  /** `binary.PutUvarint` at a moving offset; it panics when the buffer ends. */
  method PutUvarint(buf: array<byte>, offset: nat, x: nat) returns (ok: bool, n: nat)
    requires offset <= buf.Length
    modifies buf
    ensures ok <==> offset + |Varint(x)| <= buf.Length
    ensures ok ==> n == |Varint(x)| && buf[..offset + n] == old(buf[..offset]) + Varint(x)
  {
    hide Varint;
    var v, i := x, 0;
    ghost var done: seq<byte> := [];
    while v >= 128
      invariant offset + i <= buf.Length && |done| == i
      invariant Varint(x) == done + Varint(v)
      invariant buf[..offset + i] == old(buf[..offset]) + done
      decreases v
    {
      VarintStep(v);
      if offset + i >= buf.Length {
        return false, i;
      }
      var b: byte := v % 128 + 128;
      assert done + Varint(v) == done + [b] + Varint(v / 128);
      buf[offset + i] := b;
      assert buf[..offset + i + 1] == buf[..offset + i] + [b];
      done := done + [b];
      v := v / 128;
      i := i + 1;
    }
    VarintStep(v);
    if offset + i >= buf.Length {
      return false, i;
    }
    buf[offset + i] := v;
    assert buf[..offset + i + 1] == buf[..offset + i] + [v];
    return true, i + 1;
  }

  // ---- Messages ----

  function Encode(m: Message): seq<byte>
  {
    Varint(m.connectId) + Varint(m.messageType) + m.data
  }

  /** The header buffer holds both numbers. */
  predicate Fits(m: Message)
  {
    |Varint(m.connectId)| + |Varint(m.messageType)| <= HEADER_SIZE
  }

  /** `Message.Bytes`: it panics exactly when the header does not fit. */
  method Bytes(m: Message) returns (ok: bool, out: seq<byte>)
    ensures ok <==> Fits(m)
    ensures ok ==> out == Encode(m)
  {
    var buf := new byte[HEADER_SIZE](_ => 0);
    var offset := 0;
    var n;
    ok, n := PutUvarint(buf, offset, m.connectId);
    if !ok {
      return false, [];
    }
    offset := offset + n;
    ok, n := PutUvarint(buf, offset, m.messageType);
    if !ok {
      return false, [];
    }
    offset := offset + n;
    return true, buf[..offset] + m.data;
  }

  /** `ReadMessageFromTunnel`. */
  function Decode(s: seq<byte>): Option<Message>
  {
    var id := ReadUvarint(s, 0);
    if id.None? then None
    else
      var kind := ReadUvarint(id.value.1, 0);
      if kind.None? then None
      else Some(Message(id.value.0, kind.value.0, kind.value.1))
  }

  /** Decoding an encoded message returns it, for every 64-bit id and type and
      all data. */
  lemma DecodeEncode(m: Message)
    requires m.connectId < UINT64 && m.messageType < UINT64
    ensures Decode(Encode(m)) == Some(m)
  {
    var rest := Varint(m.messageType) + m.data;
    assert Encode(m) == Varint(m.connectId) + rest;
    ReadVarint(m.connectId, rest);
    ReadVarint(m.messageType, m.data);
  }

  /** The layout: a small id, then a small type, each in one byte, then the data. */
  lemma SmallHeader(m: Message)
    requires m.connectId < 128 && m.messageType < 128
    ensures Encode(m) == [m.connectId, m.messageType] + m.data
  {
  }

  /** The example of the encoding specification: 150 is written 96 01. */
  lemma VarintExample()
    ensures Varint(150) == [0x96, 0x01] && Value([0x96, 0x01]) == 150
  {
    assert Varint(150) == [150 % 128 + 128] + Varint(1);
    assert [0x96, 0x01][1..] == [0x01];
  }

  /** Which messages fit: the bytes one number needs are the bytes the other
      cannot have. */
  lemma FitsIff(m: Message)
    ensures Fits(m) <==> exists k | 1 <= k < HEADER_SIZE :: m.connectId < Power128(k) && m.messageType < Power128(HEADER_SIZE - k)
  {
    if Fits(m) {
      var k := |Varint(m.connectId)|;
      VarintLength(m.connectId, k);
      VarintLength(m.messageType, HEADER_SIZE - k);
      assert m.connectId < Power128(k) && m.messageType < Power128(HEADER_SIZE - k);
    }
    if k :| 1 <= k < HEADER_SIZE && m.connectId < Power128(k) && m.messageType < Power128(HEADER_SIZE - k) {
      VarintLength(m.connectId, k);
      VarintLength(m.messageType, HEADER_SIZE - k);
    }
  }

  /** Every 64-bit id with a type below 2^42 fits; the five message types do. */
  lemma SmallTypesFit(m: Message)
    requires m.connectId < UINT64 && m.messageType < 0x400_0000_0000
    ensures Fits(m)
  {
    Powers();
    VarintLength(m.connectId, 10);
    VarintLength(m.messageType, 6);
  }

  lemma Powers()
    ensures Power128(6) == 0x400_0000_0000 && Power128(10) >= UINT64
  {
    assert Power128(1) == 128 && Power128(2) == 128 * Power128(1) && Power128(3) == 128 * Power128(2);
    assert Power128(4) == 128 * Power128(3) && Power128(5) == 128 * Power128(4) && Power128(6) == 128 * Power128(5);
    assert Power128(7) == 128 * Power128(6) && Power128(8) == 128 * Power128(7) && Power128(9) == 128 * Power128(8);
    assert Power128(10) == 128 * Power128(9);
  }

  /** A frame that decodes is the encoding of its message exactly when both its
      numbers are written minimally. */
  lemma EncodeDecode(s: seq<byte>)
    requires Decode(s).Some?
    ensures var rest := ReadUvarint(s, 0).value.1;
            var data := ReadUvarint(rest, 0).value.1;
            Encode(Decode(s).value) == s <==> Minimal(s[..|s| - |rest|]) && Minimal(rest[..|rest| - |data|])
  {
    hide Varint, ReadUvarint, Minimal, Delimited;
    var (id, rest) := ReadUvarint(s, 0).value;
    var (kind, data) := ReadUvarint(rest, 0).value;
    ReadIsWritten(s, 0);
    ReadIsWritten(rest, 0);
    VarintDelimited(id);
    PartsIff(Varint(id), Varint(kind), s, rest, data);
  }

  /** A frame is the concatenation of two encodings and the data exactly when
      these are its parts. */
  lemma PartsIff(x: seq<byte>, y: seq<byte>, s: seq<byte>, rest: seq<byte>, data: seq<byte>)
    requires |data| <= |rest| <= |s| && s == s[..|s| - |rest|] + rest && rest == rest[..|rest| - |data|] + data
    requires Delimited(x) && Delimited(s[..|s| - |rest|])
    ensures x + y + data == s <==> x == s[..|s| - |rest|] && y == rest[..|rest| - |data|]
  {
    hide Delimited;
    var c, d := s[..|s| - |rest|], rest[..|rest| - |data|];
    assert c + d + data == s by {
      assert c + d + data == c + (d + data);
    }
    if x + y + data == s {
      SameSplit(x, y, c, d, data);
    }
  }

  /** Encodings are self-delimiting: equal concatenations have equal parts. */
  lemma SameSplit(x: seq<byte>, y: seq<byte>, c: seq<byte>, d: seq<byte>, data: seq<byte>)
    requires x + y + data == c + d + data && Delimited(x) && Delimited(c)
    ensures x == c && y == d
  {
    hide Delimited;
    var s := x + y + data;
    assert s == x + (y + data) && s == c + (d + data);
    NotLonger(x, c, y + data, d + data);
    NotLonger(c, x, d + data, y + data);
    assert s[..|x|] == x && s[..|x|] == c;
    assert s[|x|..|s| - |data|] == y && s[|x|..|s| - |data|] == d;
  }

  lemma NotLonger(a: seq<byte>, b: seq<byte>, u: seq<byte>, v: seq<byte>)
    requires Delimited(a) && Delimited(b) && a + u == b + v
    ensures |a| <= |b|
  {
    var k := |b| - 1;
    assert (b + v)[k] == b[k];
    assert k < |a| ==> (a + u)[k] == a[k];
  }

  /** The top bit is on all bytes but the last. */
  predicate Delimited(c: seq<byte>)
  {
    |c| >= 1 && c[|c| - 1] < 128 && forall i | 0 <= i < |c| - 1 :: c[i] >= 128
  }

  lemma {:induction false} VarintDelimited(x: nat)
    ensures Delimited(Varint(x))
  {
    if x >= 128 { VarintDelimited(x / 128); }
  }
}
