/** The signed discovery payload of `crates/server/src/discovery.rs`: six fields,
    each behind its length in four big-endian bytes. */
module Discovery {
  import opened Prelude
  import opened Words

  const DOMAIN: Bytes := Ascii("sylva.discovery.v1")
  const PAYLOAD_VERSION: int := 1
  const MAX_NONCE_LEN: nat := 256
  const KEY_LEN: nat := 32

  // ---------------------------------------------------------------------- framing

  /** The length is cast to 32 bits, so it wraps for a longer field. */
  function Field(field: Bytes): Bytes {
    BigEndian(|field|, 4) + field
  }

  /** Splits off one framed field. */
  function ParseField(b: Bytes): Option<(Bytes, Bytes)> {
    if |b| < 4 then None
    else
      var n := FromBigEndian(b[..4]);
      if |b| - 4 < n then None else Some((b[4..4 + n], b[4 + n..]))
  }

  /** A frame is read back, whatever follows it, exactly when its length fits. */
  lemma FieldRoundTrip(field: Bytes, rest: Bytes)
    ensures ParseField(Field(field) + rest) == Some((field, rest)) <==> |field| < U32_SIZE
  {
    var b := Field(field) + rest;
    var n := |field| % U32_SIZE;
    WordSizes();
    BigEndianRoundTrip(|field|, 4);
    assert b[..4] == BigEndian(|field|, 4);
    assert |b| - 4 >= n;
    if |field| < U32_SIZE {
      assert b[4..4 + n] == field && b[4 + n..] == rest;
    } else {
      assert |b[4..4 + n]| == n < |field|;
    }
  }

  /** What the client checks: everything else in the payload is constant. */
  datatype Payload = Payload(nonce: Bytes, public: Bytes, grpcPort: nat, name: Bytes) {
    /** A 32-byte key and a `u16` port, by their Rust types. */
    predicate Typed() {
      |public| == KEY_LEN && grpcPort < 0x1_0000
    }

    predicate Fits() {
      |nonce| < U32_SIZE && |name| < U32_SIZE
    }
  }

  function Encode(p: Payload): Bytes {
    Field(DOMAIN) + Field(BigEndian(PAYLOAD_VERSION, 4)) + Field(p.nonce) + Field(p.public) +
    Field(BigEndian(p.grpcPort, 2)) + Field(p.name)
  }

  function ParseFields(b: Bytes, n: nat): Option<(seq<Bytes>, Bytes)>
    decreases n
  {
    if n == 0 then Some(([], b))
    else
      var first := ParseField(b);
      if first.None? then None
      else
        var rest := ParseFields(first.value.1, n - 1);
        if rest.None? then None else Some(([first.value.0] + rest.value.0, rest.value.1))
  }

  function FromFields(f: seq<Bytes>): Option<Payload> {
    if |f| == 6 && f[0] == DOMAIN && f[1] == BigEndian(PAYLOAD_VERSION, 4) && |f[3]| == KEY_LEN && |f[4]| == 2
    then Some(Payload(f[2], f[3], FromBigEndian(f[4]), f[5]))
    else None
  }

  /** Reads a payload off the front of a byte string. */
  function Parse(b: Bytes): Option<(Payload, Bytes)> {
    var fields := ParseFields(b, 6);
    if fields.None? then None
    else
      var p := FromFields(fields.value.0);
      if p.None? then None else Some((p.value, fields.value.1))
  }

  function Frames(fields: seq<Bytes>): Bytes {
    if fields == [] then [] else Field(fields[0]) + Frames(fields[1..])
  }

  lemma {:induction false} FramesRoundTrip(fields: seq<Bytes>, rest: Bytes)
    requires forall f <- fields :: |f| < U32_SIZE
    ensures ParseFields(Frames(fields) + rest, |fields|) == Some((fields, rest))
  {
    if fields == [] {
      assert Frames(fields) + rest == rest;
    } else {
      var others, tail := fields[1..], Frames(fields[1..]) + rest;
      FramesRoundTrip(others, rest);
      FirstFrame(fields[0], tail, |fields|, others, rest);
      FrameJoins(Field(fields[0]), Frames(others), rest);
      assert fields == [fields[0]] + others;
    }
  }

  /** Whatever the parser reads, it has read off the front. */
  lemma ParsedField(b: Bytes)
    requires ParseField(b).Some?
    ensures var (field, rest) := ParseField(b).value;
            |field| < U32_SIZE && b == Field(field) + rest
  {
    var (field, rest) := ParseField(b).value;
    WordSizes();
    WordRoundTrip(b[..4]);
    BigEndianRoundTrip(FromBigEndian(b[..4]), 4);
    assert b == b[..4] + (b[4..4 + |field|] + b[4 + |field|..]);
  }

  lemma {:induction false} ParsedFields(b: Bytes, n: nat)
    requires ParseFields(b, n).Some?
    ensures var (fields, rest) := ParseFields(b, n).value;
            b == Frames(fields) + rest && |fields| == n && forall f <- fields :: |f| < U32_SIZE
    decreases n
  {
    if n > 0 {
      var (field, tail) := ParseField(b).value;
      ParsedField(b);
      ParsedFields(tail, n - 1);
      var (others, rest) := ParseFields(tail, n - 1).value;
      FrameJoins(Field(field), Frames(others), rest);
      assert ([field] + others)[1..] == others;
    }
  }

  lemma FrameJoins(a: Bytes, b: Bytes, c: Bytes)
    ensures a + b + c == a + (b + c)
  {}

  lemma FirstFrame(field: Bytes, tail: Bytes, n: nat, others: seq<Bytes>, rest: Bytes)
    requires |field| < U32_SIZE && n >= 1 && ParseFields(tail, n - 1) == Some((others, rest))
    ensures ParseFields(Field(field) + tail, n) == Some(([field] + others, rest))
  {
    FieldRoundTrip(field, tail);
  }

  function FieldsOf(p: Payload): seq<Bytes> {
    [DOMAIN, BigEndian(PAYLOAD_VERSION, 4), p.nonce, p.public, BigEndian(p.grpcPort, 2), p.name]
  }

  lemma EncodeIsFrames(p: Payload)
    ensures Encode(p) == Frames(FieldsOf(p))
  {
    var f: seq<Bytes> := FieldsOf(p);
    assert f[1..][1..] == f[2..] && f[2..][1..] == f[3..] && f[3..][1..] == f[4..] && f[4..][1..] == f[5..];
    assert Frames(f) == Field(f[0]) + Frames(f[1..]);
    assert Frames(f[1..]) == Field(f[1]) + Frames(f[2..]);
    assert Frames(f[2..]) == Field(f[2]) + Frames(f[3..]);
    assert Frames(f[3..]) == Field(f[3]) + Frames(f[4..]);
    assert Frames(f[4..]) == Field(f[4]) + Frames(f[5..]);
    assert |f[5..]| == 1;
    assert Frames(f[5..]) == Field(f[5]);
    Associate(Field(f[0]), Field(f[1]), Field(f[2]), Field(f[3]), Field(f[4]), Field(f[5]));
  }

  lemma Associate(a: Bytes, b: Bytes, c: Bytes, d: Bytes, e: Bytes, f: Bytes)
    ensures a + (b + (c + (d + (e + f)))) == a + b + c + d + e + f
  {
  }

  lemma FromFieldsOf(p: Payload)
    requires p.Typed()
    ensures FromFields(FieldsOf(p)) == Some(p)
  {
    WordSizes();
    BigEndianRoundTrip(p.grpcPort, 2);
  }

  // ----------------------------------------------------------------- main results

  /** A client that knows only the framing recovers every signed value, and sees
      where the payload ends. */
  lemma PayloadRoundTrip(p: Payload, rest: Bytes)
    requires p.Typed() && p.Fits()
    ensures Parse(Encode(p) + rest) == Some((p, rest))
  {
    EncodeIsFrames(p);
    assert forall f <- FieldsOf(p) :: |f| < U32_SIZE;
    FramesRoundTrip(FieldsOf(p), rest);
    FromFieldsOf(p);
  }

  /** And takes nothing else for a payload: what it accepts is the encoding of what it
      answers, followed by what it leaves. */
  lemma ParseIsExact(b: Bytes, p: Payload, rest: Bytes)
    ensures Parse(b) == Some((p, rest)) ==> p.Typed() && p.Fits() && b == Encode(p) + rest
  {
    if Parse(b) == Some((p, rest)) {
      ParsedFields(b, 6);
      var f := ParseFields(b, 6).value.0;
      ReadFields(f, p);
      assert f[2] in f && f[5] in f;
      EncodeIsFrames(p);
    }
  }

  lemma ReadFields(f: seq<Bytes>, p: Payload)
    requires FromFields(f) == Some(p)
    ensures f == FieldsOf(p) && p.Typed()
  {
    WordSizes();
    WordRoundTrip(f[4]);
    BigEndianRoundTrip(FromBigEndian(f[4]), 2);
  }

  /** Injective and prefix-free: no signed payload is another one, or the beginning
      of another one. */
  lemma PayloadsDoNotOverlap(p: Payload, q: Payload)
    requires p.Typed() && p.Fits() && q.Typed() && q.Fits()
    ensures Encode(p) <= Encode(q) <==> p == q
  {
    if Encode(p) <= Encode(q) {
      var rest := Encode(q)[|Encode(p)|..];
      assert Encode(q) == Encode(p) + rest && Encode(q) == Encode(q) + [];
      PayloadRoundTrip(p, rest);
      PayloadRoundTrip(q, []);
    }
  }

  /** The condition is exact: with a nonce or name of 2^32 bytes or more the cast of
      its length wraps, and the framing no longer gives the field back. */
  lemma RoundTripIffLengthsFit(p: Payload)
    requires p.Typed()
    ensures Parse(Encode(p)) == Some((p, [])) <==> p.Fits()
  {
    assert Encode(p) + [] == Encode(p);
    if p.Fits() {
      PayloadRoundTrip(p, []);
    } else {
      LongPayloadIsLost(p);
    }
  }

  lemma LongPayloadIsLost(p: Payload)
    requires p.Typed() && !p.Fits()
    ensures Parse(Encode(p)) != Some((p, []))
  {
    var i := if |p.nonce| >= U32_SIZE then 2 else 5;
    EncodeIsFrames(p);
    LongFieldIsLost(FieldsOf(p), i);
    OtherFieldsOtherPayload(p, Frames(FieldsOf(p)), i);
  }

  lemma OtherFieldsOtherPayload(p: Payload, b: Bytes, i: nat)
    requires i in {2, 5}
    requires var r := ParseFields(b, 6);
             r.None? || (|r.value.0| == 6 && |r.value.0[i]| < |FieldsOf(p)[i]|)
    ensures Parse(b) != Some((p, []))
  {}

  /** The first field that is too long comes back shorter, if anything does. */
  lemma {:induction false} LongFieldIsLost(fields: seq<Bytes>, i: nat)
    requires i < |fields| && |fields[i]| >= U32_SIZE
    requires forall k :: 0 <= k < i ==> |fields[k]| < U32_SIZE
    ensures var r := ParseFields(Frames(fields), |fields|);
            r.None? || (|r.value.0| == |fields| && |r.value.0[i]| < |fields[i]|)
    decreases |fields|
  {
    ParsedCount(Frames(fields), |fields|);
    var tail := Frames(fields[1..]);
    if i == 0 {
      LongFieldIsCut(fields[0], tail);
    } else {
      FieldRoundTrip(fields[0], tail);
      LongFieldIsLost(fields[1..], i - 1);
      assert fields[1..][i - 1] == fields[i];
    }
  }

  lemma {:induction false} ParsedCount(b: Bytes, n: nat)
    ensures var r := ParseFields(b, n); r.Some? ==> |r.value.0| == n
    decreases n
  {
    if n > 0 && ParseField(b).Some? {
      ParsedCount(ParseField(b).value.1, n - 1);
    }
  }

  lemma LongFieldIsCut(field: Bytes, rest: Bytes)
    requires |field| >= U32_SIZE
    ensures ParseField(Field(field) + rest).Some? && |ParseField(Field(field) + rest).value.0| < |field|
  {
    var b := Field(field) + rest;
    WordSizes();
    BigEndianRoundTrip(|field|, 4);
    assert b[..4] == BigEndian(|field|, 4);
  }

  // -------------------------------------------------------------------- the source

  /** A growing `Vec<u8>`. */
  class ByteVector {
    var data: Bytes

    constructor ()
      ensures data == []
    {
      data := [];
    }

    method PushField(field: Bytes)
      modifies this
      ensures data == old(data) + Field(field)
    {
      data := data + BigEndian(|field|, 4);
      data := data + field;
    }
  }

  method CanonicalBytes(nonce: Bytes, public: Bytes, grpcPort: nat, name: Bytes) returns (payload: Bytes)
    requires |public| == KEY_LEN && grpcPort < 0x1_0000
    ensures payload == Encode(Payload(nonce, public, grpcPort, name))
    ensures payload == BigEndian(18, 4) + Ascii("sylva.discovery.v1")
                       + (BigEndian(4, 4) + [0, 0, 0, 1])
                       + (BigEndian(|nonce|, 4) + nonce)
                       + (BigEndian(32, 4) + public)
                       + (BigEndian(2, 4) + [grpcPort / 256, grpcPort % 256])
                       + (BigEndian(|name|, 4) + name)
  {
    var out := new ByteVector();
    out.PushField(DOMAIN);
    assert out.data == Field(DOMAIN);
    out.PushField(BigEndian(PAYLOAD_VERSION, 4));
    out.PushField(nonce);
    out.PushField(public);
    out.PushField(BigEndian(grpcPort, 2));
    out.PushField(name);
    payload := out.data;
    SmallWords(grpcPort);
  }

  lemma SmallWords(port: nat)
    requires port < 0x1_0000
    ensures BigEndian(PAYLOAD_VERSION, 4) == [0, 0, 0, 1] && BigEndian(port, 2) == [port / 256, port % 256]
  {
    assert BigEndian(port, 1) == [port % 256];
    assert BigEndian(0, 1) == [0] && BigEndian(0, 2) == [0, 0] && BigEndian(0, 3) == [0, 0, 0];
    assert port / 256 % 256 == port / 256;
    assert BigEndian(port / 256, 1) == [port / 256];
  }

  datatype Response = BadRequest | Signed(payload: Bytes)

  /** What the handler hands to the signing key. */
  method Handle(nonce: Bytes, public: Bytes, grpcPort: nat, name: Bytes) returns (r: Response)
    requires |public| == KEY_LEN && grpcPort < 0x1_0000
    ensures r.BadRequest? <==> |nonce| > 256
    ensures r.Signed? ==> r.payload == Encode(Payload(nonce, public, grpcPort, name))
    ensures r.Signed? && |name| < U32_SIZE ==>
              Parse(r.payload) == Some((Payload(nonce, public, grpcPort, name), []))
  {
    if |nonce| > MAX_NONCE_LEN {
      return BadRequest;
    }
    var payload := CanonicalBytes(nonce, public, grpcPort, name);
    r := Signed(payload);
    if |name| < U32_SIZE {
      PayloadRoundTrip(Payload(nonce, public, grpcPort, name), []);
      assert payload + [] == payload;
    }
  }
}
