/** RFC 6238 codes as `crates/auth/src/totp.rs` computes and matches them. The MAC
    is any function to 20 bytes; truncation, formatting and the step window are
    spelled out. Bit masks and shifts are written as the remainders, quotients and
    sums they compute on bytes. */
module Totp {
  import opened Prelude
  import opened Words
  import opened TextEncoding

  /** An HMAC-SHA1 output. */
  type Mac = m: Bytes | |m| == 20 witness seq(20, _ => 0)

  /** Keyed by the secret, applied to the counter. */
  type MacFunction = (Bytes, nat) -> Mac

  const DIGITS: nat := 6
  const MODULUS: nat := 1_000_000
  const TIME_STEP_SECS: nat := 30

  /** The dynamic truncation of section 5.3 of RFC 4226: the low nibble of the last
      byte selects four bytes, of which the top bit is dropped. */
  function Truncate(hash: Mac): (bin: nat)
    ensures bin < 0x8000_0000
    ensures var offset: int := hash[19] % 16;
            var word: Bytes := [hash[offset] % 128] + hash[offset + 1..offset + 4];
            bin == FromBigEndian(word)
  {
    var offset: int := hash[19] % 16;
    var a: int, b: int, c: int, d: int := hash[offset], hash[offset + 1], hash[offset + 2], hash[offset + 3];
    FourBytes(a % 128, b, c, d);
    assert [hash[offset] % 128] + hash[offset + 1..offset + 4] == [a % 128, b, c, d];
    a % 128 * 0x100_0000 + b * 0x1_0000 + c * 0x100 + d
  }

  /** The low six decimal digits of the truncated MAC of the counter. */
  function Hotp(mac: MacFunction, secret: Bytes, counter: nat): (value: nat)
    ensures value < 1_000_000
    ensures var hash := mac(secret, counter);
            var offset: int := hash[19] % 16;
            var word: Bytes := [hash[offset] % 128] + hash[offset + 1..offset + 4];
            value == FromBigEndian(word) % 1_000_000
  {
    Truncate(mac(secret, counter)) % MODULUS
  }

  /** `value` in decimal, zero-padded on the left to `width` digits. */
  function Padded(value: nat, width: nat): (s: string)
    ensures |s| == width && forall c <- s :: IsDigit(c)
    decreases width
  {
    if width == 0 then "" else Padded(value / 10, width - 1) + ['0' + (value % 10) as char]
  }

  function FormatCode(value: nat): string {
    Padded(value, DIGITS)
  }

  function Power10(n: nat): nat {
    if n == 0 then 1 else 10 * Power10(n - 1)
  }

  lemma {:induction false} PaddedRoundTrip(value: nat, width: nat)
    requires value < Power10(width)
    ensures ParseDigits(Padded(value, width)) == value
    decreases width
  {
    if width > 0 {
      PaddedRoundTrip(value / 10, width - 1);
      assert Front(Padded(value, width)) == Padded(value / 10, width - 1);
    }
  }

  /** Every code is six digits from which the value can be read back, so two
      values below 10^6 never share a code. */
  lemma FormatCodeRoundTrip(value: nat)
    requires value < MODULUS
    ensures var s := FormatCode(value);
            |s| == 6 && (forall c <- s :: IsDigit(c)) && ParseDigits(s) == value
  {
    assert Power10(6) == MODULUS by {
      assert Power10(3) == 1000;
      assert Power10(6) == 1000 * Power10(3);
    }
    PaddedRoundTrip(value, DIGITS);
  }

  // ------------------------------------------------------------------- matching

  /** Integer division of a signed time rounds toward zero. */
  function QuotientTowardZero(a: int, b: nat): int
    requires b > 0
  {
    if a >= 0 then a / b else -(-a / b)
  }

  function StepAt(unixTime: int): (step: nat)
    ensures unixTime >= 0 ==> step == unixTime / 30
    ensures unixTime < 0 ==> step == 0
  {
    Max(QuotientTowardZero(unixTime, TIME_STEP_SECS), 0)
  }

  /** Unicode `White_Space`, which `str::trim` removes. */
  predicate IsWhitespace(c: char) {
    var n := c as int;
    || 0x9 <= n <= 0xd || n == 0x20 || n == 0x85 || n == 0xa0 || n == 0x1680
    || 0x2000 <= n <= 0x200a || n == 0x2028 || n == 0x2029 || n == 0x202f || n == 0x205f || n == 0x3000
  }

  lemma WhitespaceIs(c: char)
    ensures IsWhitespace(c) <==>
            c as int in {0x9, 0xa, 0xb, 0xc, 0xd, 0x20, 0x85, 0xa0, 0x1680,
                         0x2000, 0x2001, 0x2002, 0x2003, 0x2004, 0x2005, 0x2006, 0x2007, 0x2008, 0x2009, 0x200a,
                         0x2028, 0x2029, 0x202f, 0x205f, 0x3000}
  {}

  function TrimStart(s: string): string {
    if s != "" && IsWhitespace(s[0]) then TrimStart(s[1..]) else s
  }

  function TrimEnd(s: string): string {
    if s != "" && IsWhitespace(Last(s)) then TrimEnd(Front(s)) else s
  }

  function Trim(s: string): string {
    TrimEnd(TrimStart(s))
  }

  lemma {:induction false} TrimStartDrops(s: string) returns (dropped: string)
    ensures s == dropped + TrimStart(s) && forall c <- dropped :: IsWhitespace(c)
    ensures TrimStart(s) != "" ==> !IsWhitespace(TrimStart(s)[0])
  {
    dropped := "";
    if s != "" && IsWhitespace(s[0]) {
      var more := TrimStartDrops(s[1..]);
      dropped := [s[0]] + more;
      assert s == [s[0]] + s[1..];
    }
  }

  lemma {:induction false} TrimEndDrops(s: string) returns (dropped: string)
    ensures s == TrimEnd(s) + dropped && forall c <- dropped :: IsWhitespace(c)
    ensures TrimEnd(s) != "" ==> !IsWhitespace(Last(TrimEnd(s)))
  {
    dropped := "";
    if s != "" && IsWhitespace(Last(s)) {
      var more := TrimEndDrops(Front(s));
      dropped := more + [Last(s)];
      assert s == Front(s) + [Last(s)];
    }
  }

  /** Trimming drops white space at both ends, all of it, and nothing else. */
  lemma TrimDropsOuterWhitespace(s: string)
    ensures exists before, after ::
              && s == before + Trim(s) + after
              && (forall c <- before :: IsWhitespace(c)) && (forall c <- after :: IsWhitespace(c))
    ensures Trim(s) != "" ==> !IsWhitespace(Trim(s)[0]) && !IsWhitespace(Last(Trim(s)))
  {
    var before := TrimStartDrops(s);
    var after := TrimEndDrops(TrimStart(s));
    assert s == before + Trim(s) + after;
    if Trim(s) != "" { assert Trim(s)[0] == TrimStart(s)[0]; }
  }

  /** Six bytes, all ASCII digits: the same as six characters, all digits. */
  predicate WellFormedCode(code: string) {
    |code| == DIGITS && forall c <- code :: IsDigit(c)
  }

  predicate CodeMatches(mac: MacFunction, secret: Bytes, code: string, counter: nat) {
    FormatCode(Hotp(mac, secret, counter)) == code
  }

  /** `r` is the first counter of the window around `base` that is accepted. */
  ghost predicate IsFirst(accepts: nat -> bool, base: nat, r: Option<nat>) {
    match r
    case None => forall k: nat :: base - 1 <= k <= base + 1 ==> !accepts(k)
    case Some(step) =>
      base - 1 <= step <= base + 1 && accepts(step) && forall k: nat :: base - 1 <= k < step ==> !accepts(k)
  }

  function FirstAccepted(accepts: nat -> bool, base: nat): (r: Option<nat>)
    ensures IsFirst(accepts, base, r)
  {
    if base > 0 && accepts(base - 1) then Some(base - 1)
    else if accepts(base) then Some(base)
    else if accepts(base + 1) then Some(base + 1)
    else None
  }

  lemma FirstIsUnique(accepts: nat -> bool, base: nat, a: Option<nat>, b: Option<nat>)
    requires IsFirst(accepts, base, a) && IsFirst(accepts, base, b)
    ensures a == b
  {
  }

  function Acceptor(mac: MacFunction, secret: Bytes, code: string): nat -> bool {
    (k: nat) => CodeMatches(mac, secret, code, k)
  }

  /** What `MatchedStep` computes, for use in specifications. */
  function StepFor(mac: MacFunction, secret: Bytes, presented: string, unixTime: int): (r: Option<nat>)
    ensures WellFormedCode(Trim(presented)) ==>
              IsFirst(Acceptor(mac, secret, Trim(presented)), StepAt(unixTime), r)
  {
    var code := Trim(presented);
    if !WellFormedCode(code) then None else FirstAccepted(Acceptor(mac, secret, code), StepAt(unixTime))
  }

  method CompareAt(mac: MacFunction, secret: Bytes, code: string, counter: nat) returns (equal: bool)
    ensures equal == Acceptor(mac, secret, code)(counter)
  {
    var expected := FormatCode(Hotp(mac, secret, counter));
    equal := expected == code;
  }

  /** The loop over the window. */
  method FirstStep(mac: MacFunction, secret: Bytes, code: string, base: nat) returns (r: Option<nat>)
    ensures IsFirst(Acceptor(mac, secret, code), base, r)
  {
    for delta := -1 to 2
      invariant forall k: nat :: base - 1 <= k < base + delta ==> !Acceptor(mac, secret, code)(k)
    {
      var counter := base + delta;
      if counter >= 0 {
        var equal := CompareAt(mac, secret, code, counter);
        if equal {
          return Some(counter);
        }
      }
    }
    r := None;
  }

  method MatchedStep(mac: MacFunction, secret: Bytes, presented: string, unixTime: int) returns (r: Option<nat>)
    ensures r == StepFor(mac, secret, presented, unixTime)
  {
    var code := Trim(presented);
    if !WellFormedCode(code) {
      return None;
    }
    r := FirstStep(mac, secret, code, StepAt(unixTime));
    FirstIsUnique(Acceptor(mac, secret, code), StepAt(unixTime), r, StepFor(mac, secret, presented, unixTime));
  }

  function CodeAt(mac: MacFunction, secret: Bytes, unixTime: int): string {
    FormatCode(Hotp(mac, secret, StepAt(unixTime)))
  }

  lemma TrimKeepsDigits(code: string)
    requires forall c <- code :: IsDigit(c)
    ensures Trim(code) == code
  {
    if code != "" {
      assert code[0] in code && Last(code) in code;
    }
  }

  /** Windowed acceptance. A code generated at `t` is accepted at every time whose
      step differs by at most one, possibly under an earlier step with the same
      six digits. */
  lemma GeneratedCodeIsAccepted(mac: MacFunction, secret: Bytes, t: int, unixTime: int)
    requires -1 <= StepAt(t) - StepAt(unixTime) <= 1
    ensures var r := StepFor(mac, secret, CodeAt(mac, secret, t), unixTime);
            r.Some? && r.value <= StepAt(t) && StepAt(unixTime) - 1 <= r.value <= StepAt(unixTime) + 1
  {
    var code := CodeAt(mac, secret, t);
    TrimKeepsDigits(code);
    assert WellFormedCode(code);
    assert Acceptor(mac, secret, code)(StepAt(t));
  }

  /** Acceptance says no more than that: the truncated MAC value of some counter in
      the window is the number the code spells. */
  lemma AcceptedIffValueInWindow(mac: MacFunction, secret: Bytes, presented: string, unixTime: int)
    ensures StepFor(mac, secret, presented, unixTime).Some? <==>
            && |Trim(presented)| == 6 && (forall c <- Trim(presented) :: '0' <= c <= '9')
            && exists k: nat :: StepAt(unixTime) - 1 <= k <= StepAt(unixTime) + 1
                                && Hotp(mac, secret, k) == ParseDigits(Trim(presented))
  {
    var code := Trim(presented);
    if WellFormedCode(code) {
      forall k: nat ensures Acceptor(mac, secret, code)(k) <==> Hotp(mac, secret, k) == ParseDigits(code) {
        CodeMatchesIffValue(mac, secret, code, k);
      }
    }
  }

  lemma CodeMatchesIffValue(mac: MacFunction, secret: Bytes, code: string, k: nat)
    requires WellFormedCode(code)
    ensures CodeMatches(mac, secret, code, k) <==> Hotp(mac, secret, k) == ParseDigits(code)
  {
    FormatCodeRoundTrip(Hotp(mac, secret, k));
    ParsedCodeFormats(code);
  }

  lemma {:induction false} DigitsFormat(s: string)
    requires forall c <- s :: IsDigit(c)
    ensures Padded(ParseDigits(s), |s|) == s
    decreases |s|
  {
    if s != "" {
      assert Last(s) in s;
      DigitsFormat(Front(s));
      var d := Last(s) as int - '0' as int;
      assert ParseDigits(s) / 10 == ParseDigits(Front(s)) && ParseDigits(s) % 10 == d;
      assert s == Front(s) + [Last(s)];
    }
  }

  lemma ParsedCodeFormats(code: string)
    requires WellFormedCode(code)
    ensures FormatCode(ParseDigits(code)) == code
  {
    DigitsFormat(code);
  }
}
