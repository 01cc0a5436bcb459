/** Recovery codes of `crates/auth/src/recovery_code.rs`: 20 bytes as 32 Crockford
    symbols in groups of four, and the canonicaliser that forgives how people type
    them. */
module RecoveryCode {
  import opened Prelude

  const CODE_ENTROPY_BYTES: nat := 20
  const CODE_SYMBOLS: nat := 32
  const CROCKFORD := "0123456789ABCDEFGHJKMNPQRSTVWXYZ"

  type Octet = bv8

  /** A symbol's value: five bits. */
  type Quintet = q: bv8 | q < 32

  type Entropy = b: seq<Octet> | |b| == CODE_ENTROPY_BYTES witness seq(20, _ => 0)

  // ----------------------------------------------------------------- bit packing

  /** Five bytes as eight 5-bit values, most significant first. */
  function PackChunk(b: seq<Octet>): (q: seq<Quintet>)
    requires |b| == 5
    ensures |q| == 8
  {
    [b[0] >> 3,
     ((b[0] & 0x07) << 2) | (b[1] >> 6),
     (b[1] >> 1) & 0x1f,
     ((b[1] & 0x01) << 4) | (b[2] >> 4),
     ((b[2] & 0x0f) << 1) | (b[3] >> 7),
     (b[3] >> 2) & 0x1f,
     ((b[3] & 0x03) << 3) | (b[4] >> 5),
     b[4] & 0x1f]
  }

  function UnpackChunk(q: seq<Quintet>): (b: seq<Octet>)
    requires |q| == 8
    ensures |b| == 5
  {
    var v0: Octet, v1: Octet, v2: Octet, v3: Octet := q[0], q[1], q[2], q[3];
    var v4: Octet, v5: Octet, v6: Octet, v7: Octet := q[4], q[5], q[6], q[7];
    [(v0 << 3) | (v1 >> 2),
     ((v1 & 0x03) << 6) | (v2 << 1) | (v3 >> 4),
     ((v3 & 0x0f) << 4) | (v4 >> 1),
     ((v4 & 0x01) << 7) | (v5 << 2) | (v6 >> 3),
     ((v6 & 0x07) << 5) | v7]
  }

  lemma ChunkRoundTrip(b: seq<Octet>)
    requires |b| == 5
    ensures UnpackChunk(PackChunk(b)) == b
  {
  }

  lemma ChunkRoundTripBack(q: seq<Quintet>)
    requires |q| == 8
    ensures PackChunk(UnpackChunk(q)) == q
  {
  }

  function Pack(b: seq<Octet>): (q: seq<Quintet>)
    requires |b| % 5 == 0
    ensures |q| == |b| / 5 * 8
  {
    if b == [] then [] else PackChunk(b[..5]) + Pack(b[5..])
  }

  function Unpack(q: seq<Quintet>): (b: seq<Octet>)
    requires |q| % 8 == 0
    ensures |b| == |q| / 8 * 5
  {
    if q == [] then [] else UnpackChunk(q[..8]) + Unpack(q[8..])
  }

  lemma {:induction false} UnpackPack(b: seq<Octet>)
    requires |b| % 5 == 0
    ensures Unpack(Pack(b)) == b
  {
    if b != [] {
      ChunkRoundTrip(b[..5]);
      UnpackPack(b[5..]);
      assert Pack(b)[..8] == PackChunk(b[..5]) && Pack(b)[8..] == Pack(b[5..]);
    }
  }

  lemma {:induction false} PackUnpack(q: seq<Quintet>)
    requires |q| % 8 == 0
    ensures Pack(Unpack(q)) == q
  {
    if q != [] {
      ChunkRoundTripBack(q[..8]);
      PackUnpack(q[8..]);
      assert Unpack(q)[..5] == UnpackChunk(q[..8]) && Unpack(q)[5..] == Unpack(q[8..]);
    }
  }

  // -------------------------------------------------------------------- alphabet

  /** A quintet and its number. */
  function Number(q: Quintet): (n: nat)
    ensures n < 32
  {
    q as int
  }

  function FromNumber(n: nat): (q: Quintet)
    requires n < 32
    ensures Number(q) == n
  {
    n as bv8
  }

  lemma NumberIsInjective(p: Quintet, q: Quintet)
    requires Number(p) == Number(q)
    ensures p == q
  {
    assert p as int as bv8 == p && q as int as bv8 == q;
  }

  function Symbol(q: Quintet): (c: char)
    ensures IsSymbol(c)
  {
    CROCKFORD[Number(q)]
  }

  function IndexIn(alphabet: string, c: char): (i: nat)
    requires c in alphabet
    ensures i < |alphabet| && alphabet[i] == c
  {
    if alphabet[0] == c then 0 else 1 + IndexIn(alphabet[1..], c)
  }

  predicate IsSymbol(c: char) {
    c in CROCKFORD
  }

  function SymbolValue(c: char): (q: Quintet)
    requires IsSymbol(c)
    ensures Symbol(q) == c
  {
    FromNumber(IndexIn(CROCKFORD, c))
  }

  /** The alphabet is in code point order, so no symbol occurs twice. */
  lemma {:induction false} Ascending(i: nat, j: nat)
    requires i < j < 32
    ensures CROCKFORD[i] < CROCKFORD[j]
    decreases j
  {
    if i < j - 1 {
      Ascending(i, j - 1);
    }
  }

  lemma SymbolRoundTrip(q: Quintet)
    ensures SymbolValue(Symbol(q)) == q
  {
    var i, j := Number(q), Number(SymbolValue(Symbol(q)));
    if i < j {
      Ascending(i, j);
    } else if j < i {
      Ascending(j, i);
    }
    NumberIsInjective(q, SymbolValue(Symbol(q)));
  }

  function Symbols(q: seq<Quintet>): (s: string)
    ensures |s| == |q|
    ensures forall i :: 0 <= i < |q| ==> s[i] == Symbol(q[i])
  {
    seq(|q|, i requires 0 <= i < |q| => Symbol(q[i]))
  }

  predicate AllSymbols(s: string) {
    forall c <- s :: IsSymbol(c)
  }

  function Values(s: string): (q: seq<Quintet>)
    requires AllSymbols(s)
    ensures |q| == |s|
    ensures forall i :: 0 <= i < |s| ==> q[i] == SymbolValue(s[i])
  {
    seq(|s|, i requires 0 <= i < |s| => SymbolValue(s[i]))
  }

  // -------------------------------------------------------------------- encoding

  /** The 32 symbols without the hyphens. */
  function Ungrouped(b: Entropy): (s: string)
    ensures |s| == CODE_SYMBOLS && AllSymbols(s)
  {
    Symbols(Pack(b))
  }

  /** A hyphen before every fourth symbol but the first. */
  function Grouped(s: string): string {
    if s == "" then ""
    else
      var i := |s| - 1;
      Grouped(Front(s)) + (if i > 0 && i % 4 == 0 then "-" else "") + [Last(s)]
  }

  // ------------------------------------------------------------- the grouping in arithmetic

  lemma Shifts(b: Octet)
    ensures (b >> 3) as int == b as int / 8
    ensures (b >> 4) as int == b as int / 16
    ensures (b >> 5) as int == b as int / 32
    ensures (b >> 6) as int == b as int / 64
    ensures (b >> 7) as int == b as int / 128
  {}

  lemma ShiftOne(b: Octet)
    ensures (b >> 1) as int == b as int / 2
  {}

  lemma ShiftTwo(b: Octet)
    ensures (b >> 2) as int == b as int / 4
  {}

  lemma LowFive(b: Octet)
    ensures (b & 0x1f) as int == b as int % 32
  {}

  lemma LowOne(b: Octet)
    ensures ((b & 0x01) << 4) as int == b as int % 2 * 16
  {}

  lemma LowTwo(b: Octet)
    ensures ((b & 0x03) << 3) as int == b as int % 4 * 8
  {}

  lemma LowThree(b: Octet)
    ensures ((b & 0x07) << 2) as int == b as int % 8 * 4
  {}

  lemma LowFour(b: Octet)
    ensures ((b & 0x0f) << 1) as int == b as int % 16 * 2
  {}

  lemma OrIsSum(x: Octet, y: Octet)
    requires x & y == 0
    ensures (x | y) as int == x as int + y as int
  {
    assert x | y == x + y;
  }

  lemma PartsApart(a: Octet, b: Octet)
    ensures ((a & 0x07) << 2) & (b >> 6) == 0 && ((a & 0x01) << 4) & (b >> 4) == 0
    ensures ((a & 0x0f) << 1) & (b >> 7) == 0 && ((a & 0x03) << 3) & (b >> 5) == 0
  {}

  lemma MiddleBits(b: Octet)
    ensures ((b >> 1) & 0x1f) as int == b as int / 2 % 32
    ensures ((b >> 2) & 0x1f) as int == b as int / 4 % 32
  {
    ShiftOne(b);
    ShiftTwo(b);
    LowFive(b >> 1);
    LowFive(b >> 2);
  }

  /** The bits that straddle two bytes. */
  lemma Straddles(a: Octet, b: Octet)
    ensures (((a & 0x07) << 2) | (b >> 6)) as int == a as int % 8 * 4 + b as int / 64
    ensures (((a & 0x01) << 4) | (b >> 4)) as int == a as int % 2 * 16 + b as int / 16
    ensures (((a & 0x0f) << 1) | (b >> 7)) as int == a as int % 16 * 2 + b as int / 128
    ensures (((a & 0x03) << 3) | (b >> 5)) as int == a as int % 4 * 8 + b as int / 32
  {
    PartsApart(a, b);
    Shifts(b);
    LowThree(a);
    LowOne(a);
    LowFour(a);
    LowTwo(a);
    OrIsSum((a & 0x07) << 2, b >> 6);
    OrIsSum((a & 0x01) << 4, b >> 4);
    OrIsSum((a & 0x0f) << 1, b >> 7);
    OrIsSum((a & 0x03) << 3, b >> 5);
  }

  lemma ByteParts(n: int)
    requires 0 <= n < 256
    ensures n == n / 64 * 64 + n / 2 % 32 * 2 + n % 2
    ensures n == n / 128 * 128 + n / 4 % 32 * 4 + n % 4
  {
    var half, quarter := n / 2, n / 4;
    assert n == half * 2 + n % 2 && half == half / 32 * 32 + half % 32 && half / 32 == n / 64;
    assert n == quarter * 4 + n % 4 && quarter == quarter / 32 * 32 + quarter % 32 && quarter / 32 == n / 128;
  }

  lemma EightDigits(b0: nat, b1: nat, b2: nat, b3: nat, b4: nat)
    requires b0 < 256 && b1 < 256 && b2 < 256 && b3 < 256 && b4 < 256
    ensures Extend(Extend(0, b0 / 8, b0 % 8 * 4 + b1 / 64, b1 / 2 % 32, b1 % 2 * 16 + b2 / 16),
                   b2 % 16 * 2 + b3 / 128, b3 / 4 % 32, b3 % 4 * 8 + b4 / 32, b4 % 32)
         == (((b0 * 256 + b1) * 256 + b2) * 256 + b3) * 256 + b4
  {
    ByteParts(b1);
    ByteParts(b3);
  }

  lemma QuintetsOf(b: seq<Octet>)
    requires |b| == 5
    ensures var q, n0, n1, n2 := PackChunk(b), b[0] as int, b[1] as int, b[2] as int;
            && Number(q[0]) == n0 / 8 && Number(q[1]) == n0 % 8 * 4 + n1 / 64
            && Number(q[2]) == n1 / 2 % 32 && Number(q[3]) == n1 % 2 * 16 + n2 / 16
    ensures var q, n2, n3, n4 := PackChunk(b), b[2] as int, b[3] as int, b[4] as int;
            && Number(q[4]) == n2 % 16 * 2 + n3 / 128 && Number(q[5]) == n3 / 4 % 32
            && Number(q[6]) == n3 % 4 * 8 + n4 / 32 && Number(q[7]) == n4 % 32
  {
    FirstQuintets(b[0], b[1], b[2]);
    LastQuintets(b[2], b[3], b[4]);
  }

  lemma FirstQuintets(b0: Octet, b1: Octet, b2: Octet)
    ensures (b0 >> 3) as int == b0 as int / 8
    ensures (((b0 & 0x07) << 2) | (b1 >> 6)) as int == b0 as int % 8 * 4 + b1 as int / 64
    ensures ((b1 >> 1) & 0x1f) as int == b1 as int / 2 % 32
    ensures (((b1 & 0x01) << 4) | (b2 >> 4)) as int == b1 as int % 2 * 16 + b2 as int / 16
  {
    Shifts(b0);
    Straddles(b0, b1);
    MiddleBits(b1);
    Straddles(b1, b2);
  }

  lemma LastQuintets(b2: Octet, b3: Octet, b4: Octet)
    ensures (((b2 & 0x0f) << 1) | (b3 >> 7)) as int == b2 as int % 16 * 2 + b3 as int / 128
    ensures ((b3 >> 2) & 0x1f) as int == b3 as int / 4 % 32
    ensures (((b3 & 0x03) << 3) | (b4 >> 5)) as int == b3 as int % 4 * 8 + b4 as int / 32
    ensures (b4 & 0x1f) as int == b4 as int % 32
  {
    Straddles(b2, b3);
    MiddleBits(b3);
    Straddles(b3, b4);
    LowFive(b4);
  }

  /** The value of a text in the printed alphabet, read as a number in base 32. */
  function BaseThirtyTwo(s: string): nat
    requires forall c <- s :: c in "0123456789ABCDEFGHJKMNPQRSTVWXYZ"
  {
    if s == "" then 0
    else
      assert Last(s) in s;
      BaseThirtyTwo(Front(s)) * 32 + IndexIn("0123456789ABCDEFGHJKMNPQRSTVWXYZ", Last(s))
  }

  lemma IndexOfSymbol(q: Quintet)
    ensures IndexIn("0123456789ABCDEFGHJKMNPQRSTVWXYZ", Symbol(q)) == Number(q)
  {
    SymbolRoundTrip(q);
  }

  function Value(q: seq<Quintet>): nat {
    if q == [] then 0 else Value(Front(q)) * 32 + Number(Last(q))
  }

  lemma {:induction false} BaseOfSymbols(q: seq<Quintet>)
    ensures AllSymbols(Symbols(q)) && BaseThirtyTwo(Symbols(q)) == Value(q)
  {
    if q != [] {
      BaseOfSymbols(Front(q));
      assert Front(Symbols(q)) == Symbols(Front(q));
      IndexOfSymbol(Last(q));
    }
  }

  lemma ValueStep(q: seq<Quintet>, i: nat)
    requires i < |q|
    ensures Value(q[..i + 1]) == Value(q[..i]) * 32 + Number(q[i])
  {
    assert Front(q[..i + 1]) == q[..i];
  }

  /** The next four digits. */
  function Extend(n: nat, q0: nat, q1: nat, q2: nat, q3: nat): nat {
    (((n * 32 + q0) * 32 + q1) * 32 + q2) * 32 + q3
  }

  lemma ValueOfFour(q: seq<Quintet>, i: nat)
    requires i + 4 <= |q|
    ensures Value(q[..i + 4])
         == Extend(Value(q[..i]), Number(q[i]), Number(q[i + 1]), Number(q[i + 2]), Number(q[i + 3]))
  {
    ValueStep(q, i);
    ValueStep(q, i + 1);
    ValueStep(q, i + 2);
    ValueStep(q, i + 3);
  }

  lemma ValueOfEight(q: seq<Quintet>)
    requires |q| == 8
    ensures Value(q) == Extend(Extend(0, Number(q[0]), Number(q[1]), Number(q[2]), Number(q[3])),
                               Number(q[4]), Number(q[5]), Number(q[6]), Number(q[7]))
  {
    ValueOfFour(q, 0);
    ValueOfFour(q, 4);
    assert q[..0] == [] && q[..8] == q;
  }

  lemma ChunkValue(q: seq<Quintet>, n0: nat, n1: nat, n2: nat, n3: nat, n4: nat)
    requires |q| == 8 && n0 < 256 && n1 < 256 && n2 < 256 && n3 < 256 && n4 < 256
    requires Number(q[0]) == n0 / 8 && Number(q[1]) == n0 % 8 * 4 + n1 / 64
    requires Number(q[2]) == n1 / 2 % 32 && Number(q[3]) == n1 % 2 * 16 + n2 / 16
    requires Number(q[4]) == n2 % 16 * 2 + n3 / 128 && Number(q[5]) == n3 / 4 % 32
    requires Number(q[6]) == n3 % 4 * 8 + n4 / 32 && Number(q[7]) == n4 % 32
    ensures Value(q) == (((n0 * 256 + n1) * 256 + n2) * 256 + n3) * 256 + n4
  {
    ValueOfEight(q);
    EightDigits(n0, n1, n2, n3, n4);
  }

  /** Each five bytes, read as one big-endian number, are written in base 32. */
  lemma ChunkIsBaseThirtyTwo(b: seq<Octet>)
    requires |b| == 5
    ensures AllSymbols(Symbols(PackChunk(b)))
    ensures BaseThirtyTwo(Symbols(PackChunk(b)))
         == (((b[0] as int * 256 + b[1] as int) * 256 + b[2] as int) * 256 + b[3] as int) * 256 + b[4] as int
  {
    QuintetsOf(b);
    BaseOfSymbols(PackChunk(b));
    ChunkValue(PackChunk(b), b[0] as int, b[1] as int, b[2] as int, b[3] as int, b[4] as int);
  }

  /** So the printed code is four groups of eight symbols, each of them five of the bytes in
      base 32. */
  lemma CodeIsBaseThirtyTwo(b: Entropy, k: nat)
    requires k < 4
    ensures Ungrouped(b) == Group(b, 0) + (Group(b, 1) + (Group(b, 2) + Group(b, 3)))
    ensures |Group(b, k)| == 8 && forall c <- Group(b, k) :: c in "0123456789ABCDEFGHJKMNPQRSTVWXYZ"
    ensures var high := (b[5 * k] as int * 256 + b[5 * k + 1] as int) * 256 + b[5 * k + 2] as int;
            BaseThirtyTwo(Group(b, k)) == (high * 256 + b[5 * k + 3] as int) * 256 + b[5 * k + 4] as int
  {
    FourGroups(b);
    ChunkIsBaseThirtyTwo(b[5 * k..5 * k + 5]);
  }

  function Group(b: Entropy, k: nat): (s: string)
    requires k < 4
    ensures |s| == 8
  {
    Symbols(PackChunk(b[5 * k..5 * k + 5]))
  }

  lemma FourGroups(b: Entropy)
    ensures Ungrouped(b) == Group(b, 0) + (Group(b, 1) + (Group(b, 2) + Group(b, 3)))
  {
    assert b[0..] == b && b[20..] == [];
    ChunkFirst(b, 0);
    ChunkFirst(b, 5);
    ChunkFirst(b, 10);
    ChunkFirst(b, 15);
    assert Symbols(Pack(b[20..])) == "";
  }

  lemma ChunkFirst(b: Entropy, o: nat)
    requires o + 5 <= 20 && o % 5 == 0
    ensures Symbols(Pack(b[o..])) == Symbols(PackChunk(b[o..o + 5])) + Symbols(Pack(b[o + 5..]))
  {
    NextChunk(b, o, "");
    assert "" + Symbols(Pack(b[o..])) == Symbols(Pack(b[o..]));
    assert "" + Symbols(PackChunk(b[o..o + 5])) == Symbols(PackChunk(b[o..o + 5]));
  }

  lemma {:induction false} GroupedLength(s: string)
    ensures |Grouped(s)| == if s == "" then 0 else |s| + (|s| - 1) / 4
  {
    if s != "" { GroupedLength(Front(s)); }
  }

  /** Every fifth character of the printed form is a hyphen, the others are the symbols in
      order. */
  lemma {:induction false} GroupedAt(s: string, i: nat)
    requires s != "" && i < |s| + (|s| - 1) / 4
    ensures |Grouped(s)| == |s| + (|s| - 1) / 4
    ensures Grouped(s)[i] == if i % 5 == 4 then '-' else s[i - i / 5]
  {
    GroupedLength(s);
    GroupedLength(Front(s));
    var n := |Grouped(Front(s))|;
    if i < n {
      GroupedAt(Front(s), i);
      assert Grouped(s)[i] == Grouped(Front(s))[i];
    }
  }

  /** Reads a canonical code back. */
  function Decode(s: string): Option<Entropy> {
    if |s| == CODE_SYMBOLS && AllSymbols(s) then Some(Unpack(Values(s))) else None
  }

  /** Decoding and encoding are inverse in both directions. */
  lemma DecodeIffUngrouped(s: string, b: Entropy)
    ensures Decode(s) == Some(b) <==> s == Ungrouped(b)
  {
    UnpackPack(b);
    if s == Ungrouped(b) {
      forall i | 0 <= i < |s| ensures Values(s)[i] == Pack(b)[i] {
        SymbolRoundTrip(Pack(b)[i]);
      }
      assert Values(s) == Pack(b);
    }
    if Decode(s) == Some(b) {
      PackUnpack(Values(s));
      assert Symbols(Values(s)) == s;
    }
  }

  /** Eight symbols of five bytes, in place. */
  method EncodeChunk(chars: array<char>, c: nat, b: seq<Octet>)
    requires c + 8 <= chars.Length && |b| == 5
    modifies chars
    ensures chars[..c + 8] == old(chars[..c]) + Symbols(PackChunk(b))
  {
    var q: seq<Quintet> := [
      b[0] >> 3,
      ((b[0] & 0x07) << 2) | (b[1] >> 6),
      (b[1] >> 1) & 0x1f,
      ((b[1] & 0x01) << 4) | (b[2] >> 4),
      ((b[2] & 0x0f) << 1) | (b[3] >> 7),
      (b[3] >> 2) & 0x1f,
      ((b[3] & 0x03) << 3) | (b[4] >> 5),
      b[4] & 0x1f];
    assert q == PackChunk(b);
    forall k | 0 <= k < 8 {
      chars[c + k] := Symbol(q[k]);
    }
  }

  /** Where the next five bytes of a code go. */
  lemma NextChunk(bytes: seq<Octet>, o: nat, done: string)
    requires |bytes| % 5 == 0 && o % 5 == 0 && o + 5 <= |bytes|
    ensures done + Symbols(Pack(bytes[o..]))
         == done + Symbols(PackChunk(bytes[o..o + 5])) + Symbols(Pack(bytes[o + 5..]))
  {
    var rest := bytes[o..];
    assert rest[..5] == bytes[o..o + 5] && rest[5..] == bytes[o + 5..];
    assert Pack(rest) == PackChunk(rest[..5]) + Pack(rest[5..]);
    assert Symbols(Pack(rest)) == Symbols(PackChunk(rest[..5])) + Symbols(Pack(rest[5..]));
  }

  method FillSymbols(bytes: Entropy, chars: array<char>)
    requires chars.Length == 32
    modifies chars
    ensures chars[..] == Ungrouped(bytes)
  {
    assert bytes[0..] == bytes && bytes[20..] == [];
    for chunk := 0 to 4
      invariant Ungrouped(bytes) == chars[..chunk * 8] + Symbols(Pack(bytes[chunk * 5..]))
    {
      FillChunk(bytes, chars, chunk * 8, chunk * 5);
    }
    assert chars[..32] == chars[..];
  }

  /** One more chunk of the code. */
  method FillChunk(bytes: Entropy, chars: array<char>, at: nat, o: nat)
    requires at + 8 <= chars.Length && o % 5 == 0 && o + 5 <= |bytes|
    modifies chars
    ensures chars[..at + 8] + Symbols(Pack(bytes[o + 5..])) == old(chars[..at]) + Symbols(Pack(bytes[o..]))
  {
    ghost var done := chars[..at];
    NextChunk(bytes, o, done);
    EncodeChunk(chars, at, bytes[o..o + 5]);
  }

  method EncodeGrouped(bytes: Entropy) returns (out: string)
    ensures out == Grouped(Ungrouped(bytes))
  {
    var chars := new char[32];
    FillSymbols(bytes, chars);
    out := "";
    for i := 0 to 32
      invariant out == Grouped(chars[..i])
    {
      if i > 0 && i % 4 == 0 {
        out := out + "-";
      }
      out := out + [chars[i]];
      assert Front(chars[..i + 1]) == chars[..i];
    }
    assert chars[..32] == chars[..];
  }

  // -------------------------------------------------------------- canonical form

  function Upper(c: char): char {
    if 'a' <= c <= 'z' then c - 'a' + 'A' else c
  }

  predicate IsSeparator(c: char) {
    c == '-' || c == ' ' || c == '\t' || c == '\n' || c == '\r'
  }

  function CanonicalChar(c: char): string {
    var u := Upper(c);
    if IsSeparator(u) then ""
    else if u == 'I' || u == 'L' then "1"
    else if u == 'O' then "0"
    else [u]
  }

  function Canonical(s: string): string {
    if s == "" then "" else CanonicalChar(s[0]) + Canonical(s[1..])
  }

  method Canonicalize(input: string) returns (out: string)
    ensures out == Canonical(input)
  {
    out := "";
    for i := 0 to |input|
      invariant out == Canonical(input[..i])
    {
      CanonicalSnoc(input, i);
      var c := Upper(input[i]);
      if c == '-' || c == ' ' || c == '\t' || c == '\n' || c == '\r' {
      } else if c == 'I' || c == 'L' {
        out := out + "1";
      } else if c == 'O' {
        out := out + "0";
      } else {
        out := out + [c];
      }
    }
    assert input[..|input|] == input;
  }

  lemma CanonicalSnoc(s: string, i: nat)
    requires i < |s|
    ensures Canonical(s[..i + 1]) == Canonical(s[..i]) + CanonicalChar(s[i])
  {
    assert s[..i + 1] == s[..i] + [s[i]];
    CanonicalAppend(s[..i], [s[i]]);
    assert Canonical([s[i]]) == CanonicalChar(s[i]) + Canonical("");
  }

  lemma {:induction false} CanonicalAppend(a: string, b: string)
    ensures Canonical(a + b) == Canonical(a) + Canonical(b)
  {
    if a == "" {
      assert a + b == b;
    } else {
      assert (a + b)[1..] == a[1..] + b;
      CanonicalAppend(a[1..], b);
    }
  }

  lemma {:induction false} CanonicalIdempotent(s: string)
    ensures Canonical(Canonical(s)) == Canonical(s)
  {
    if s != "" {
      var head := CanonicalChar(s[0]);
      CanonicalIdempotent(s[1..]);
      CanonicalAppend(head, Canonical(s[1..]));
      assert Canonical(head) == head;
    }
  }

  /** One character at a time: hyphen and white space vanish, look-alikes become the digit
      they look like, and everything else is its upper case. */
  lemma CanonicalOneChar(c: char)
    ensures Canonical([c]) == "" <==> c in {'-', ' ', '\t', '\n', '\r'}
    ensures Canonical([c]) == "1" <==> c in {'1', 'I', 'i', 'L', 'l'}
    ensures Canonical([c]) == "0" <==> c in {'0', 'O', 'o'}
    ensures c !in {'-', ' ', '\t', '\n', '\r', 'I', 'i', 'L', 'l', 'O', 'o'} ==>
              Canonical([c]) == [if 'a' <= c <= 'z' then (c as int - 32) as char else c]
  {
    UpperIs(c);
    var u := Upper(c);
    assert Canonical([c]) == CanonicalChar(c) + Canonical("");
    assert [u][0] == u && "1"[0] == '1' && "0"[0] == '0';
  }

  lemma UpperIs(c: char)
    ensures 'a' <= c <= 'z' ==> Upper(c) == (c as int - 32) as char && 'A' <= Upper(c) <= 'Z'
    ensures !('a' <= c <= 'z') ==> Upper(c) == c
    ensures Upper(c) == 'I' <==> c == 'I' || c == 'i'
    ensures Upper(c) == 'L' <==> c == 'L' || c == 'l'
    ensures Upper(c) == 'O' <==> c == 'O' || c == 'o'
  {}

  // -------------------------------------------------------------------- spelling

  /** The characters an operator may type for a printed symbol. */
  predicate LooksLike(typed: char, printed: char) {
    || typed == printed
    || ('A' <= printed <= 'Z' && typed == printed - 'A' + 'a')
    || (printed == '1' && (typed == 'I' || typed == 'i' || typed == 'L' || typed == 'l'))
    || (printed == '0' && (typed == 'O' || typed == 'o'))
  }

  /** `typed` is some way of writing down the printed code: any case, look-alikes,
      hyphens and white space added or left out anywhere. */
  predicate Spells(typed: string, printed: string)
    decreases |typed| + |printed|
  {
    if typed != "" && IsSeparator(typed[0]) then Spells(typed[1..], printed)
    else if printed != "" && printed[0] == '-' then Spells(typed, printed[1..])
    else if typed == "" || printed == "" then typed == printed
    else LooksLike(typed[0], printed[0]) && Spells(typed[1..], printed[1..])
  }

  lemma LooksLikeIffCanonical(typed: char, printed: char)
    requires IsSymbol(printed)
    ensures CanonicalChar(typed) == [printed] <==> LooksLike(typed, printed)
  {
    SymbolRange(printed);
    LooksLikeInRange(typed, printed);
  }

  predicate InRange(c: char) {
    '0' <= c <= '9' || ('A' <= c <= 'Z' && c != 'I' && c != 'L' && c != 'O' && c != 'U')
  }

  lemma SymbolRange(c: char)
    requires IsSymbol(c)
    ensures InRange(c)
  {
    RangeAt(CROCKFORD, IndexIn(CROCKFORD, c));
  }

  /** The alphabet at the edges of its gaps. */
  lemma Corners()
    ensures CROCKFORD[0] == '0' && CROCKFORD[9] == '9' && CROCKFORD[10] == 'A' && CROCKFORD[17] == 'H'
    ensures CROCKFORD[18] == 'J' && CROCKFORD[19] == 'K' && CROCKFORD[20] == 'M' && CROCKFORD[21] == 'N'
    ensures CROCKFORD[22] == 'P' && CROCKFORD[26] == 'T' && CROCKFORD[27] == 'V' && CROCKFORD[31] == 'Z'
  {
  }

  lemma RangeAt(alphabet: string, i: nat)
    requires alphabet == CROCKFORD && i < 32
    ensures InRange(alphabet[i])
  {
    Corners();
    InOrder(0, i);
    InOrder(i, 31);
    Gap(i, 9);
    Gap(i, 17);
    Gap(i, 19);
    Gap(i, 21);
    Gap(i, 26);
    RangeFromGaps(alphabet[i]);
  }

  /** Nothing lies between two neighbours of the alphabet. */
  lemma Gap(i: nat, k: nat)
    requires i < 32 && k < 31
    ensures CROCKFORD[i] <= CROCKFORD[k] || CROCKFORD[k + 1] <= CROCKFORD[i]
  {
    if i <= k { InOrder(i, k); } else { InOrder(k + 1, i); }
  }

  lemma RangeFromGaps(c: char)
    requires '0' <= c <= 'Z' && (c <= '9' || 'A' <= c) && (c <= 'H' || 'J' <= c) && (c <= 'K' || 'M' <= c)
    requires (c <= 'N' || 'P' <= c) && (c <= 'T' || 'V' <= c)
    ensures InRange(c)
  {
  }

  lemma InOrder(i: nat, j: nat)
    requires i <= j < 32
    ensures CROCKFORD[i] <= CROCKFORD[j]
  {
    if i < j {
      Ascending(i, j);
    }
  }

  lemma LooksLikeInRange(typed: char, printed: char)
    requires InRange(printed)
    ensures CanonicalChar(typed) == [printed] <==> LooksLike(typed, printed)
  {
  }

  predicate IsPrinted(s: string) {
    forall c <- s :: c == '-' || IsSymbol(c)
  }

  function WithoutHyphens(s: string): string {
    if s == "" then "" else (if s[0] == '-' then "" else [s[0]]) + WithoutHyphens(s[1..])
  }

  lemma {:induction false} SpellsIffCanonical(typed: string, printed: string)
    requires IsPrinted(printed)
    ensures Spells(typed, printed) <==> Canonical(typed) == WithoutHyphens(printed)
    decreases |typed| + |printed|
  {
    if typed != "" && IsSeparator(typed[0]) {
      SpellsIffCanonical(typed[1..], printed);
    } else if printed != "" && printed[0] == '-' {
      SpellsIffCanonical(typed, printed[1..]);
    } else if typed != "" && printed != "" {
      assert printed[0] in printed;
      LooksLikeIffCanonical(typed[0], printed[0]);
      SpellsIffCanonical(typed[1..], printed[1..]);
      assert |CanonicalChar(typed[0])| == 1;
      var a, b := CanonicalChar(typed[0]), [printed[0]];
      assert (a + Canonical(typed[1..]))[1..] == Canonical(typed[1..]);
      assert (b + WithoutHyphens(printed[1..]))[1..] == WithoutHyphens(printed[1..]);
      assert (a + Canonical(typed[1..]))[0] == a[0];
    }
  }

  lemma {:induction false} WithoutHyphensAppend(a: string, b: string)
    ensures WithoutHyphens(a + b) == WithoutHyphens(a) + WithoutHyphens(b)
  {
    if a == "" {
      assert a + b == b;
    } else {
      assert (a + b)[1..] == a[1..] + b;
      WithoutHyphensAppend(a[1..], b);
    }
  }

  lemma {:induction false} GroupingAddsHyphensOnly(s: string)
    requires AllSymbols(s)
    ensures WithoutHyphens(Grouped(s)) == s && IsPrinted(Grouped(s))
  {
    if s != "" {
      var i := |s| - 1;
      assert Last(s) in s;
      assert AllSymbols(Front(s)) && s == Front(s) + [Last(s)];
      GroupingAddsHyphensOnly(Front(s));
      GroupedTail(Grouped(Front(s)), i > 0 && i % 4 == 0, Last(s));
      GroupedStep(s);
    }
  }

  lemma GroupedStep(s: string)
    requires s != ""
    ensures var i := |s| - 1;
            Grouped(s) == Grouped(Front(s)) + ((if i > 0 && i % 4 == 0 then "-" else "") + [Last(s)])
  {
    var i := |s| - 1;
    Joined(Grouped(Front(s)), if i > 0 && i % 4 == 0 then "-" else "", [Last(s)]);
  }

  lemma Joined(a: string, b: string, c: string)
    ensures a + b + c == a + (b + c)
  {}

  lemma GroupedTail(front: string, hyphen: bool, c: char)
    requires IsSymbol(c) && IsPrinted(front)
    ensures var all := front + ((if hyphen then "-" else "") + [c]);
            IsPrinted(all) && WithoutHyphens(all) == WithoutHyphens(front) + [c]
  {
    TailHasNoSymbolButLast(hyphen, c);
    WithoutHyphensAppend(front, (if hyphen then "-" else "") + [c]);
  }

  lemma TailHasNoSymbolButLast(hyphen: bool, c: char)
    requires IsSymbol(c)
    ensures WithoutHyphens((if hyphen then "-" else "") + [c]) == [c]
    ensures IsPrinted((if hyphen then "-" else "") + [c])
  {
    SymbolRange(c);
    assert ("-" + [c])[1..] == [c];
    assert "" + [c] == [c];
    assert WithoutHyphens([c]) == [c] + WithoutHyphens("");
  }

  // ---------------------------------------------------------------- main results

  /** A decoder reads the 20 bytes back from the canonical form of exactly the
      spellings of the printed code. */
  lemma SpellingsDecode(b: Entropy, typed: string)
    ensures Spells(typed, Grouped(Ungrouped(b))) <==> Decode(Canonical(typed)) == Some(b)
  {
    GroupingAddsHyphensOnly(Ungrouped(b));
    SpellsIffCanonical(typed, Grouped(Ungrouped(b)));
    DecodeIffUngrouped(Canonical(typed), b);
  }

  /** So printed codes of different bytes are never spellings of one another, and
      the printed code and its ungrouped symbols have the same canonical form. */
  lemma PrintedCodesAreDistinct(a: Entropy, b: Entropy)
    ensures Spells(Grouped(Ungrouped(a)), Grouped(Ungrouped(b))) <==> a == b
    ensures Canonical(Grouped(Ungrouped(a))) == Ungrouped(a) == Canonical(Ungrouped(a))
  {
    GroupingAddsHyphensOnly(Ungrouped(a));
    SymbolsAreCanonical(Grouped(Ungrouped(a)));
    SymbolsAreCanonical(Ungrouped(a));
    NoHyphens(Ungrouped(a));
    SpellingsDecode(b, Grouped(Ungrouped(a)));
    DecodeIffUngrouped(Ungrouped(a), a);
  }

  lemma {:induction false} SymbolsAreCanonical(s: string)
    requires IsPrinted(s)
    ensures Canonical(s) == WithoutHyphens(s)
  {
    if s != "" {
      assert s[0] in s;
      if s[0] != '-' {
        LooksLikeIffCanonical(s[0], s[0]);
      }
      SymbolsAreCanonical(s[1..]);
    }
  }

  lemma {:induction false} NoHyphens(s: string)
    requires AllSymbols(s)
    ensures WithoutHyphens(s) == s
  {
    if s != "" {
      assert s[0] in s;
      NoHyphens(s[1..]);
    }
  }

  /** `hash_code`, for any hash of the canonical text. */
  function HashCode(hash: string -> Digest, raw: string): Digest {
    hash(Canonical(raw))
  }

  /** Whatever the spelling, the stored hash matches. A text that is no spelling of the
      code matches only if it and the code are a collision of the hash. */
  lemma HashAcceptsSpellings(hash: string -> Digest, b: Entropy, typed: string)
    ensures HashCode(hash, typed) == HashCode(hash, Grouped(Ungrouped(b))) <==>
            || Spells(typed, Grouped(Ungrouped(b)))
            || (Canonical(typed) != Ungrouped(b) && hash(Canonical(typed)) == hash(Ungrouped(b)))
    ensures HashCode(hash, Grouped(Ungrouped(b))) == hash(Ungrouped(b))
  {
    PrintedCodesAreDistinct(b, b);
    SpellingsDecode(b, typed);
    DecodeIffUngrouped(Canonical(typed), b);
  }
}
