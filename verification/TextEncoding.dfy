/** Textual forms used inside signed or returned text: lowercase hex, signed
    decimal, sorted and joined lists. */
module TextEncoding {
  import opened Prelude

  // -------------------------------------------------------------------------- hex

  type Nibble = n: int | 0 <= n < 16

  const HEX := "0123456789abcdef"

  function HexDigit(n: Nibble): char {
    HEX[n]
  }

  function HexValue(c: char): Option<Nibble> {
    if '0' <= c <= '9' then Some(c as int - '0' as int)
    else if 'a' <= c <= 'f' then Some(c as int - 'a' as int + 10)
    else None
  }

  function Hex(bytes: Bytes): (s: string)
    ensures |s| == 2 * |bytes|
  {
    if bytes == [] then "" else [HexDigit(bytes[0] / 16), HexDigit(bytes[0] % 16)] + Hex(bytes[1..])
  }

  function Unhex(s: string): Option<Bytes> {
    if s == "" then Some([])
    else if |s| == 1 then None
    else
      var hi, lo, rest := HexValue(s[0]), HexValue(s[1]), Unhex(s[2..]);
      if hi.Some? && lo.Some? && rest.Some? then Some([hi.value * 16 + lo.value] + rest.value) else None
  }

  lemma HexDigitRoundTrip(n: Nibble)
    ensures HexValue(HexDigit(n)) == Some(n)
  {
    if n < 10 {
      assert HexDigit(n) as int == '0' as int + n;
    } else {
      assert HexDigit(n) as int == 'a' as int + n - 10;
    }
  }

  /** Two lowercase digits a byte, the high one first. */
  lemma {:induction false} HexAt(bytes: Bytes, i: nat)
    requires i < |bytes|
    ensures Hex(bytes)[2 * i] == "0123456789abcdef"[bytes[i] / 16]
    ensures Hex(bytes)[2 * i + 1] == "0123456789abcdef"[bytes[i] % 16]
  {
    if i > 0 {
      HexAt(bytes[1..], i - 1);
      assert Hex(bytes)[2 * i] == Hex(bytes[1..])[2 * (i - 1)];
      assert Hex(bytes)[2 * i + 1] == Hex(bytes[1..])[2 * (i - 1) + 1];
    }
  }

  lemma {:induction false} HexRoundTrip(bytes: Bytes)
    ensures Unhex(Hex(bytes)) == Some(bytes)
  {
    if bytes != [] {
      HexDigitRoundTrip(bytes[0] / 16);
      HexDigitRoundTrip(bytes[0] % 16);
      HexRoundTrip(bytes[1..]);
      var s := Hex(bytes);
      assert s[2..] == Hex(bytes[1..]);
      assert s[0] == HexDigit(bytes[0] / 16) && s[1] == HexDigit(bytes[0] % 16);
      assert bytes == [bytes[0]] + bytes[1..];
    }
  }

  lemma HexStep(bytes: Bytes, i: nat, s: string)
    requires i < |bytes|
    ensures s + Hex(bytes[i..])
         == s + [HexDigit(bytes[i] / 16)] + [HexDigit(bytes[i] % 16)] + Hex(bytes[i + 1..])
  {
    assert bytes[i..][1..] == bytes[i + 1..];
  }

  /** `hex_encode` of the discovery endpoint: two table lookups a byte. */
  method HexEncode(bytes: Bytes) returns (s: string)
    ensures s == Hex(bytes) && Unhex(s) == Some(bytes)
  {
    s := "";
    var i := 0;
    while i < |bytes|
      invariant 0 <= i <= |bytes| && Hex(bytes) == s + Hex(bytes[i..])
    {
      var b := bytes[i];
      HexStep(bytes, i, s);
      s := s + [HexDigit(b / 16)];
      s := s + [HexDigit(b % 16)];
      i := i + 1;
    }
    HexRoundTrip(bytes);
  }

  // ---------------------------------------------------------------------- decimal

  predicate IsDigit(c: char) {
    '0' <= c <= '9'
  }

  function DigitChar(n: int): (c: char)
    requires 0 <= n < 10
    ensures IsDigit(c)
  {
    (n + '0' as int) as char
  }

  function Digits(n: nat): (s: string)
    ensures |s| > 0 && forall c <- s :: IsDigit(c)
  {
    if n < 10 then [DigitChar(n)] else Digits(n / 10) + [DigitChar(n % 10)]
  }

  function DigitValue(c: char): nat {
    if IsDigit(c) then c as int - '0' as int else 0
  }

  function ParseDigits(s: string): nat {
    if s == "" then 0 else ParseDigits(Front(s)) * 10 + DigitValue(Last(s))
  }

  /** Decimal notation: each digit to the right is worth a tenth of its neighbour. */
  lemma DigitsArePositional(s: string, c: char)
    requires '0' <= c <= '9'
    ensures ParseDigits("") == 0 && ParseDigits(s + [c]) == 10 * ParseDigits(s) + (c as int - '0' as int)
  {
    assert Front(s + [c]) == s;
  }

  function Decimal(n: int): string {
    if n < 0 then "-" + Digits(-n) else Digits(n)
  }

  function ParseDecimal(s: string): int {
    if s != "" && s[0] == '-' then 0 - ParseDigits(s[1..]) else ParseDigits(s)
  }

  /** Plain notation: only digits behind an optional minus, no digit to spare in front. */
  lemma {:induction false} DigitsArePlain(n: nat)
    ensures Digits(n)[0] == '0' ==> n == 0 && Digits(n) == "0"
  {
    if n >= 10 {
      DigitsArePlain(n / 10);
      assert Digits(n)[0] == Digits(n / 10)[0];
    }
  }

  lemma DecimalIsPlain(n: int)
    ensures var s := Decimal(n);
            if n < 0 then s[0] == '-' && s[1..] == Decimal(-n)
            else (forall c <- s :: '0' <= c <= '9') && (s[0] == '0' ==> n == 0 && s == "0")
  {
    if n < 0 {
      assert Decimal(n)[1..] == Digits(-n);
    } else {
      DigitsArePlain(n);
    }
  }

  lemma {:induction false} DigitsRoundTrip(n: nat)
    ensures ParseDigits(Digits(n)) == n
  {
    if n < 10 {
      assert Front(Digits(n)) == "";
    } else {
      DigitsRoundTrip(n / 10);
      assert Front(Digits(n)) == Digits(n / 10);
    }
  }

  lemma DecimalRoundTrip(n: int)
    ensures ParseDecimal(Decimal(n)) == n
  {
    if n < 0 {
      DigitsRoundTrip(-n);
      assert Decimal(n)[1..] == Digits(-n);
    } else {
      DigitsRoundTrip(n);
      assert Digits(n)[0] in Digits(n);
    }
  }

  // ------------------------------------------------------------------ cutting text

  /** Text up to a separator it does not contain determines, and is determined by,
      the text before and after. */
  lemma CutAt(sep: char, a: string, x: string, b: string, y: string)
    requires sep !in a && sep !in b
    requires a + [sep] + x == b + [sep] + y
    ensures a == b && x == y
  {
    NoEarlierCut(sep, a, x, b, y);
    NoEarlierCut(sep, b, y, a, x);
    var s, t := a + [sep] + x, b + [sep] + y;
    assert a == s[..|a|] == t[..|b|] == b;
    assert x == s[|a| + 1..] == t[|b| + 1..] == y;
  }

  lemma NoEarlierCut(sep: char, a: string, x: string, b: string, y: string)
    requires sep !in b
    requires a + [sep] + x == b + [sep] + y
    ensures |a| >= |b|
  {
    var s, t := a + [sep] + x, b + [sep] + y;
    assert s[|a|] == sep;
    assert forall i :: 0 <= i < |b| ==> t[i] == b[i] && b[i] in b;
  }

  // ------------------------------------------------------------------------- join

  function Join(sep: char, parts: seq<string>): string {
    if parts == [] then ""
    else if |parts| == 1 then parts[0]
    else parts[0] + [sep] + Join(sep, parts[1..])
  }

  ghost predicate Free(sep: char, parts: seq<string>) {
    forall p <- parts :: sep !in p
  }

  lemma {:induction false} JoinedSeparator(sep: char, parts: seq<string>)
    requires Free(sep, parts)
    ensures sep in Join(sep, parts) <==> |parts| >= 2
  {
    if |parts| >= 2 {
      assert Join(sep, parts)[|parts[0]|] == sep;
    } else if |parts| == 1 {
      assert parts[0] in parts;
    }
  }

  /** The only two separator-free lists with the same joined text are the empty list
      and the list of one empty string. */
  lemma {:induction false} JoinInjective(sep: char, a: seq<string>, b: seq<string>)
    requires Free(sep, a) && Free(sep, b)
    ensures Join(sep, a) == Join(sep, b) <==> a == b || {a, b} == {[], [""]}
  {
    JoinedSeparator(sep, a);
    JoinedSeparator(sep, b);
    if Join(sep, a) == Join(sep, b) && |a| >= 2 && |b| >= 2 {
      assert sep !in a[0] && sep !in b[0];
      CutAt(sep, a[0], Join(sep, a[1..]), b[0], Join(sep, b[1..]));
      JoinInjective(sep, a[1..], b[1..]);
      assert a == [a[0]] + a[1..] && b == [b[0]] + b[1..];
    } else {
      ShortJoin(sep, a);
      ShortJoin(sep, b);
    }
  }

  lemma ShortJoin(sep: char, parts: seq<string>)
    ensures |parts| < 2 ==> (parts == [] && Join(sep, parts) == "") || parts == [Join(sep, parts)]
    ensures Join(sep, []) == "" == Join(sep, [""])
  {}

  /** Lists of the same length are told apart by their joined text even when the last
      entry contains separators. */
  lemma {:induction false} JoinSameLength(sep: char, a: seq<string>, b: seq<string>)
    requires |a| == |b| > 0
    requires Free(sep, Front(a)) && Free(sep, Front(b))
    requires Join(sep, a) == Join(sep, b)
    ensures a == b
  {
    if |a| > 1 {
      assert Front(a)[0] == a[0] && Front(b)[0] == b[0];
      assert forall i :: 0 <= i < |a| - 2 ==> Front(a[1..])[i] == Front(a)[i + 1];
      assert forall i :: 0 <= i < |b| - 2 ==> Front(b[1..])[i] == Front(b)[i + 1];
      CutAt(sep, a[0], Join(sep, a[1..]), b[0], Join(sep, b[1..]));
      JoinSameLength(sep, a[1..], b[1..]);
      assert a == [a[0]] + a[1..] && b == [b[0]] + b[1..];
    }
  }

  function Separators(sep: char, parts: seq<string>): nat {
    if parts == [] then 0 else multiset(parts[0])[sep] + Separators(sep, parts[1..])
  }

  lemma {:induction false} JoinedSeparators(sep: char, parts: seq<string>)
    requires parts != []
    ensures multiset(Join(sep, parts))[sep] == |parts| - 1 + Separators(sep, parts)
  {
    if |parts| > 1 {
      JoinedSeparators(sep, parts[1..]);
      assert multiset(parts[0] + [sep] + Join(sep, parts[1..]))
          == multiset(parts[0]) + multiset([sep]) + multiset(Join(sep, parts[1..]));
    }
  }

  lemma {:induction false} NoSeparators(sep: char, parts: seq<string>)
    ensures Separators(sep, parts) == 0 <==> Free(sep, parts)
  {
    if parts != [] {
      NoSeparators(sep, parts[1..]);
      assert parts == [parts[0]] + parts[1..];
      assert sep in parts[0] <==> sep in multiset(parts[0]);
    }
  }

  /** Against a separator-free list, a list of the same length that joins to the same
      text is that list. */
  lemma JoinAgainstFree(sep: char, a: seq<string>, b: seq<string>)
    requires |a| == |b| > 0 && Free(sep, a)
    requires Join(sep, a) == Join(sep, b)
    ensures a == b
  {
    JoinedSeparators(sep, a);
    JoinedSeparators(sep, b);
    NoSeparators(sep, a);
    NoSeparators(sep, b);
    JoinSameLength(sep, a, b);
  }

  // ------------------------------------------------------------------------- sort

  /** Code point order, which is the byte order of UTF-8. */
  predicate StringLe(a: string, b: string) {
    a == "" || (b != "" && (a[0] < b[0] || (a[0] == b[0] && StringLe(a[1..], b[1..]))))
  }

  /** A prefix comes first, otherwise the first difference decides. */
  lemma {:induction false} StringLeIs(a: string, b: string)
    ensures StringLe(a, b) <==>
            || a <= b
            || exists k :: 0 <= k < |a| && k < |b| && a[..k] == b[..k] && a[k] < b[k]
  {
    if a != "" && b != "" {
      if a[0] == b[0] {
        StringLeIs(a[1..], b[1..]);
        assert a == [a[0]] + a[1..] && b == [b[0]] + b[1..];
        if k :| 0 <= k < |a[1..]| && k < |b[1..]| && a[1..][..k] == b[1..][..k] && a[1..][k] < b[1..][k] {
          assert a[..k + 1] == [a[0]] + a[1..][..k] && b[..k + 1] == [b[0]] + b[1..][..k];
          assert a[k + 1] < b[k + 1];
        }
        if k :| 0 <= k < |a| && k < |b| && a[..k] == b[..k] && a[k] < b[k] {
          assert k > 0;
          assert a[1..][..k - 1] == a[..k][1..] && b[1..][..k - 1] == b[..k][1..];
          assert a[1..][k - 1] < b[1..][k - 1];
        }
      } else if a[0] < b[0] {
        assert a[..0] == b[..0];
      } else if k :| 0 <= k < |a| && k < |b| && a[..k] == b[..k] && a[k] < b[k] {
        assert k > 0 ==> a[..k][0] == b[..k][0];
      }
    }
  }

  lemma {:induction false} StringLeTotal(a: string, b: string)
    ensures StringLe(a, b) || StringLe(b, a)
  {
    if a != "" && b != "" { StringLeTotal(a[1..], b[1..]); }
  }

  lemma {:induction false} StringLeAntisymmetric(a: string, b: string)
    requires StringLe(a, b) && StringLe(b, a)
    ensures a == b
  {
    if a != "" && b != "" {
      StringLeAntisymmetric(a[1..], b[1..]);
      assert a == [a[0]] + a[1..] && b == [b[0]] + b[1..];
    }
  }

  lemma {:induction false} StringLeTransitive(a: string, b: string, c: string)
    requires StringLe(a, b) && StringLe(b, c)
    ensures StringLe(a, c)
  {
    if a != "" && a[0] == b[0] && b[0] == c[0] { StringLeTransitive(a[1..], b[1..], c[1..]); }
  }

  predicate Sorted(s: seq<string>) {
    forall i, j :: 0 <= i < j < |s| ==> StringLe(s[i], s[j])
  }

  function Insert(x: string, s: seq<string>): seq<string> {
    if s == [] then [x] else if StringLe(x, s[0]) then [x] + s else [s[0]] + Insert(x, s[1..])
  }

  function Sort(s: seq<string>): seq<string> {
    if s == [] then [] else Insert(s[0], Sort(s[1..]))
  }

  lemma {:induction false} InsertAdds(x: string, s: seq<string>)
    ensures multiset(Insert(x, s)) == multiset(s) + multiset{x}
  {
    if s != [] {
      assert s == [s[0]] + s[1..];
      if !StringLe(x, s[0]) { InsertAdds(x, s[1..]); }
    }
  }

  lemma InsertMembers(x: string, s: seq<string>)
    ensures forall y :: y in Insert(x, s) <==> y in s || y == x
  {
    InsertAdds(x, s);
    forall y ensures y in Insert(x, s) <==> y in s || y == x {
      assert y in Insert(x, s) <==> y in multiset(Insert(x, s));
      assert y in s <==> y in multiset(s);
    }
  }

  ghost predicate Below(x: string, s: seq<string>) {
    forall y <- s :: StringLe(x, y)
  }

  lemma PutFirst(x: string, s: seq<string>)
    requires Sorted(s) && Below(x, s)
    ensures Sorted([x] + s)
  {}

  lemma TakeFirst(s: seq<string>)
    requires Sorted(s) && s != []
    ensures Below(s[0], s[1..]) && Sorted(s[1..]) && s == [s[0]] + s[1..]
  {}

  lemma BelowAll(x: string, s: seq<string>)
    requires Sorted(s) && s != [] && StringLe(x, s[0])
    ensures Below(x, s)
  {
    forall y | y in s ensures StringLe(x, y) {
      var j :| 0 <= j < |s| && s[j] == y;
      if j > 0 { StringLeTransitive(x, s[0], y); }
    }
  }

  lemma {:induction false} InsertSorts(x: string, s: seq<string>)
    requires Sorted(s)
    ensures Sorted(Insert(x, s))
  {
    if s != [] {
      if StringLe(x, s[0]) {
        BelowAll(x, s);
        PutFirst(x, s);
      } else {
        TakeFirst(s);
        InsertSorts(x, s[1..]);
        InsertMembers(x, s[1..]);
        StringLeTotal(x, s[0]);
        PutFirst(s[0], Insert(x, s[1..]));
      }
    }
  }

  lemma {:induction false} SortSorts(s: seq<string>)
    ensures Sorted(Sort(s)) && multiset(Sort(s)) == multiset(s)
  {
    if s != [] {
      SortSorts(s[1..]);
      InsertSorts(s[0], Sort(s[1..]));
      InsertAdds(s[0], Sort(s[1..]));
      assert s == [s[0]] + s[1..];
    }
  }

  lemma FirstIsLeast(s: seq<string>, y: string)
    requires Sorted(s) && y in s
    ensures s[0] == y || StringLe(s[0], y)
  {}

  lemma SameHead(a: seq<string>, b: seq<string>)
    requires Sorted(a) && Sorted(b) && a != [] && b != [] && multiset(a) == multiset(b)
    ensures a[0] == b[0]
  {
    assert a[0] in multiset(b) && b[0] in multiset(a);
    FirstIsLeast(a, b[0]);
    FirstIsLeast(b, a[0]);
    if a[0] != b[0] { StringLeAntisymmetric(a[0], b[0]); }
  }

  lemma DropSame(a: seq<string>, b: seq<string>, x: string)
    requires multiset([x] + a) == multiset([x] + b)
    ensures multiset(a) == multiset(b)
  {
    assert multiset([x] + a) == multiset{x} + multiset(a);
    assert multiset([x] + b) == multiset{x} + multiset(b);
    assert multiset(a) == multiset([x] + a) - multiset{x};
  }

  /** A multiset has one sorted listing, whatever algorithm produced it. */
  lemma {:induction false} SortedIsUnique(a: seq<string>, b: seq<string>)
    requires Sorted(a) && Sorted(b) && multiset(a) == multiset(b)
    ensures a == b
  {
    assert |multiset(a)| == |a| && |multiset(b)| == |b|;
    if a != [] && b != [] {
      SameHead(a, b);
      TakeFirst(a);
      TakeFirst(b);
      DropSame(a[1..], b[1..], a[0]);
      SortedIsUnique(a[1..], b[1..]);
    }
  }

  lemma SortDecidesPermutation(a: seq<string>, b: seq<string>)
    ensures Sort(a) == Sort(b) <==> multiset(a) == multiset(b)
  {
    SortSorts(a);
    SortSorts(b);
    if multiset(a) == multiset(b) {
      SortedIsUnique(Sort(a), Sort(b));
    }
  }
}
