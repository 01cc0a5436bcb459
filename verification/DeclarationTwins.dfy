/** Which app declarations share their signed text with a different one. Registration
    checks that three fields are not blank and nothing else, so line breaks and commas
    do get in. */
module DeclarationTwins {
  import opened Prelude
  import opened TextEncoding
  import opened Declaration

  // ------------------------------------------------------------------------- the types

  /** The name can be cut at a comma into two names that are in order. */
  predicate SplitsInOrder(name: string) {
    exists k :: 0 <= k < |name| && name[k] == ',' && StringLe(name[..k], name[k + 1..])
  }

  lemma {:induction false} StringLeExtends(a: string, b: string, more: string)
    requires StringLe(a, b)
    ensures StringLe(a, b + more)
  {
    if a != "" && a[0] == b[0] {
      StringLeExtends(a[1..], b[1..], more);
      assert (b + more)[1..] == b[1..] + more;
    }
  }

  lemma JoinStarts(parts: seq<string>) returns (more: string)
    requires parts != []
    ensures Join(',', parts) == parts[0] + more
  {
    more := if |parts| == 1 then "" else [','] + Join(',', parts[1..]);
    assert |parts| > 1 ==> parts[0] + [','] + Join(',', parts[1..]) == parts[0] + more;
  }

  /** A sorted list of two or more names reads as a name that splits in order. */
  lemma SortedJoinSplits(parts: seq<string>)
    requires Sorted(parts) && |parts| >= 2
    ensures SplitsInOrder(Join(',', parts))
  {
    var text, k := Join(',', parts), |parts[0]|;
    var more := JoinStarts(parts[1..]);
    assert text[..k] == parts[0] && text[k] == ',' && text[k + 1..] == Join(',', parts[1..]);
    assert StringLe(parts[0], parts[1]);
    StringLeExtends(parts[0], parts[1], more);
  }

  lemma SortsToItself(parts: seq<string>)
    requires Sorted(parts)
    ensures Sort(parts) == parts
  {
    SortSorts(parts);
    SortedIsUnique(Sort(parts), parts);
  }

  lemma SortKeepsSize(parts: seq<string>)
    ensures |Sort(parts)| == |parts|
  {
    SortSorts(parts);
    assert |multiset(Sort(parts))| == |multiset(parts)|;
  }

  ghost predicate OnlyTypesOfText(a: seq<string>) {
    forall b :: TypesText(a) == TypesText(b) ==> multiset(a) == multiset(b)
  }

  lemma SizesDiffer(a: seq<string>, b: seq<string>)
    requires |a| != |b| && TypesText(a) == TypesText(b)
    ensures !OnlyTypesOfText(a)
  {
    assert |multiset(a)| != |multiset(b)|;
  }

  lemma OneTypeText(name: string)
    ensures TypesText([name]) == name
  {
    assert Sort([name]) == [name];
  }

  lemma SplitNameIsAmbiguous(name: string)
    requires SplitsInOrder(name)
    ensures !OnlyTypesOfText([name])
  {
    var k :| 0 <= k < |name| && name[k] == ',' && StringLe(name[..k], name[k + 1..]);
    var two := [name[..k], name[k + 1..]];
    SortsToItself(two);
    assert two[1..] == [two[1]];
    assert Join(',', two[1..]) == two[1];
    assert name == two[0] + [','] + two[1];
    OneTypeText(name);
    SizesDiffer([name], two);
  }

  lemma WholeNameIsUnambiguous(name: string, b: seq<string>)
    requires name != "" && !SplitsInOrder(name) && TypesText(b) == name
    ensures b == [name]
  {
    SortSorts(b);
    SortKeepsSize(b);
    if |b| >= 2 {
      SortedJoinSplits(Sort(b));
    }
    assert |b| == 1;
    OneTypeText(b[0]);
    assert b == [b[0]];
  }

  /** Exactly when the types text gives back the list of types up to order: when there is
      one type, not blank, whose name does not split at a comma into two names in order.
      Every other list has the same text as a list of another size. */
  lemma TypesTextIsUniqueIff(a: seq<string>)
    ensures OnlyTypesOfText(a) <==> |a| == 1 && a[0] != "" && !SplitsInOrder(a[0])
  {
    OneTypeText(TypesText(a));
    assert TypesText([]) == "";
    OneTypeText("");
    if |a| == 1 {
      assert a == [a[0]];
      OneTypeText(a[0]);
      if a[0] == "" {
        SizesDiffer(a, []);
      } else if SplitsInOrder(a[0]) {
        SplitNameIsAmbiguous(a[0]);
      } else {
        forall b | TypesText(a) == TypesText(b) ensures multiset(a) == multiset(b) {
          WholeNameIsUnambiguous(a[0], b);
        }
      }
    } else {
      SizesDiffer(a, [TypesText(a)]);
    }
  }

  /** In particular no type, and two or more, read like a single type made of the joined
      names. */
  lemma CommaMergesTypes(d: AppDeclaration)
    requires |d.resourceTypes| != 1
    ensures var e := d.(resourceTypes := [TypesText(d.resourceTypes)]);
            Encode(d) == Encode(e) && multiset(d.resourceTypes) != multiset(e.resourceTypes)
  {
    OneTypeText(TypesText(d.resourceTypes));
    assert |multiset(d.resourceTypes)| != |multiset([TypesText(d.resourceTypes)])|;
  }

  lemma SameBodySameText(d: AppDeclaration, e: AppDeclaration)
    ensures Encode(d) == Encode(e) <==> BodyOf(d) == BodyOf(e)
  {
    EncodeIsBody(d);
    EncodeIsBody(e);
    if Encode(d) == Encode(e) { SameSuffix(HEAD, BodyOf(d), BodyOf(e)); }
  }

  // ------------------------------------------------------------------ marks cannot overlap

  /** A field key with the line break before it. */
  ghost predicate IsMark(m: string) {
    |m| >= 2 && m[0] == '\n' && forall i :: 1 <= i < |m| ==> m[i] != '\n'
  }

  lemma Marks()
    ensures IsMark(DISPLAY_NAME) && IsMark(PUBLISHER) && IsMark(SCHEMA_VERSION)
    ensures IsMark(APP_PUBLIC_KEY) && IsMark(RESOURCE_TYPES)
    ensures DISPLAY_NAME[1] == 'd' && PUBLISHER[1] == 'p' && SCHEMA_VERSION[1] == 's'
    ensures APP_PUBLIC_KEY[1] == 'a' && RESOURCE_TYPES[1] == 'r'
  {}

  /** Two marks found in one text are the same occurrence or lie apart. */
  lemma Align(a: string, m: string, x: string, b: string, n: string, y: string)
    requires IsMark(m) && IsMark(n) && a + m + x == b + n + y
    ensures |a| < |b| ==> |a| + |m| <= |b| && b == a + m + b[|a| + |m|..] && x == b[|a| + |m|..] + n + y
    ensures |a| == |b| ==> m[1] == n[1]
    ensures |a| == |b| && m == n ==> a == b && x == y
  {
    var s, t := a + m + x, b + n + y;
    assert t[|b|] == '\n' && t[|b| + 1] == n[1];
    if |a| < |b| {
      assert forall i :: |a| < i < |a| + |m| ==> s[i] == m[i - |a|];
      assert |a| + |m| <= |b|;
      assert b == t[..|b|] == s[..|b|];
      assert a + m == s[..|a| + |m|];
      assert x == s[|a| + |m|..] == t[|a| + |m|..];
    } else if |a| == |b| {
      assert s[|a| + 1] == m[1];
      assert a == s[..|a|] && b == t[..|b|];
      assert x == s[|a| + |m|..] && y == t[|b| + |n|..];
    }
  }

  ghost predicate OneLine(s: string) {
    '\n' !in s
  }

  ghost predicate Contains(s: string, m: string) {
    exists before, after :: s == before + m + after
  }

  lemma ContainsIt(s: string, before: string, m: string, after: string)
    requires s == before + m + after
    ensures Contains(s, m)
  {}

  lemma MarkBreaksLine(s: string, before: string, m: string, after: string)
    requires s == before + m + after && IsMark(m)
    ensures !OneLine(s)
  {
    assert s[|before|] == '\n';
  }

  /** A mark other than its own two keys is in a tail only inside the types. */
  lemma MarkInTail(before: string, m: string, after: string, version: string, key: string, types: string)
    returns (within: string)
    requires IsMark(m) && m[1] != 'a' && m[1] != 'r' && OneLine(version) && OneLine(key)
    requires before + m + after == Tail(version, key, types)
    ensures types == within + m + after
  {
    Marks();
    var afterVersion := key + RESOURCE_TYPES + types;
    var between := MarkPastLine(before, m, after, version, APP_PUBLIC_KEY, afterVersion);
    within := MarkPastLine(between, m, after, key, RESOURCE_TYPES, types);
  }

  lemma MarkPastLine(before: string, m: string, after: string, line: string, n: string, rest: string)
    returns (between: string)
    requires IsMark(m) && IsMark(n) && m[1] != n[1] && OneLine(line)
    requires before + m + after == line + n + rest
    ensures rest == between + m + after
  {
    Align(before, m, after, line, n, rest);
    Align(line, n, rest, before, m, after);
    if |before| < |line| {
      MarkBreaksLine(line, before, m, line[|before| + |m|..]);
    }
    between := before[|line| + |n|..];
  }

  // --------------------------------------------------------- what two readings have to share

  function Block(version: string, key: string): string {
    SCHEMA_VERSION + version + APP_PUBLIC_KEY + key + RESOURCE_TYPES
  }

  lemma BlockIn(s: string, before: string, version: string, key: string, types: string)
    requires s == before + SCHEMA_VERSION + Tail(version, key, types)
    ensures s == before + Block(version, key) + types
  {}

  /** Two texts after the display name. */
  lemma PublisherReadings(p: string, v: string, k: string, t: string, p': string, v': string, k': string, t': string)
    requires OneLine(v) && OneLine(k) && OneLine(v') && OneLine(k')
    requires p + SCHEMA_VERSION + Tail(v, k, t) == p' + SCHEMA_VERSION + Tail(v', k', t')
    ensures (p == p' && v == v' && k == k' && t == t') || Contains(p, Block(v', k')) || Contains(t, Block(v', k'))
  {
    Marks();
    Align(p, SCHEMA_VERSION, Tail(v, k, t), p', SCHEMA_VERSION, Tail(v', k', t'));
    Align(p', SCHEMA_VERSION, Tail(v', k', t'), p, SCHEMA_VERSION, Tail(v, k, t));
    if |p| == |p'| {
      CutMark(v, APP_PUBLIC_KEY, k + RESOURCE_TYPES + t, v', k' + RESOURCE_TYPES + t');
      CutMark(k, RESOURCE_TYPES, t, k', t');
    } else if |p| < |p'| {
      var q := p'[|p| + |SCHEMA_VERSION|..];
      var c := MarkInTail(q, SCHEMA_VERSION, Tail(v', k', t'), v, k, t);
      BlockIn(t, c, v', k', t');
      ContainsIt(t, c, Block(v', k'), t');
    } else {
      BlockInPublisher(p, p', v', k', t', p[|p'| + |SCHEMA_VERSION|..], Tail(v, k, t));
    }
  }

  lemma CutMark(a: string, m: string, x: string, b: string, y: string)
    requires IsMark(m) && OneLine(a) && OneLine(b) && a + m + x == b + m + y
    ensures a == b && x == y
  {
    Align(a, m, x, b, m, y);
    Align(b, m, y, a, m, x);
    if |a| < |b| { MarkBreaksLine(b, a, m, b[|a| + |m|..]); }
    if |b| < |a| { MarkBreaksLine(a, b, m, a[|b| + |m|..]); }
  }

  /** A shorter publisher's whole block ends before the longer one does. */
  lemma BlockInPublisher(p: string, p': string, v': string, k': string, t': string, r: string, tail: string)
    requires OneLine(v') && OneLine(k') && p == p' + SCHEMA_VERSION + r
    requires Tail(v', k', t') == r + SCHEMA_VERSION + tail
    ensures Contains(p, Block(v', k'))
  {
    Marks();
    var a := LineInside(v', APP_PUBLIC_KEY, k' + RESOURCE_TYPES + t', r, SCHEMA_VERSION, tail);
    var b := LineInside(k', RESOURCE_TYPES, t', a, SCHEMA_VERSION, tail);
    BlockOpens(p', v', k', b, "");
    assert p' + SCHEMA_VERSION + (v' + APP_PUBLIC_KEY + (k' + RESOURCE_TYPES + b)) == p;
    ContainsIt(p, p', Block(v', k'), b);
  }

  lemma LineInside(line: string, m: string, x: string, r: string, n: string, y: string) returns (rest: string)
    requires IsMark(m) && IsMark(n) && m[1] != n[1] && OneLine(line) && line + m + x == r + n + y
    ensures r == line + m + rest && x == rest + n + y
  {
    Align(line, m, x, r, n, y);
    Align(r, n, y, line, m, x);
    if |r| < |line| { MarkBreaksLine(line, r, n, line[|r| + |n|..]); }
    rest := r[|line| + |m|..];
  }

  ghost predicate PublisherAmbiguous(p: string, t: string, v': string, k': string) {
    Contains(p, PUBLISHER) || Contains(p, Block(v', k')) || Contains(t, Block(v', k'))
  }

  /** A publisher key behind the display name leads into the publisher or to a block in
      the types. */
  lemma PublisherKeyLater(q: string, p': string, v': string, k': string, t': string,
                          p: string, v: string, k: string, t: string)
    requires OneLine(v) && OneLine(k)
    requires q + PUBLISHER + (p' + SCHEMA_VERSION + Tail(v', k', t')) == p + SCHEMA_VERSION + Tail(v, k, t)
    ensures PublisherAmbiguous(p, t, v', k')
  {
    Marks();
    var rest := p' + SCHEMA_VERSION + Tail(v', k', t');
    Align(q, PUBLISHER, rest, p, SCHEMA_VERSION, Tail(v, k, t));
    Align(p, SCHEMA_VERSION, Tail(v, k, t), q, PUBLISHER, rest);
    if |q| < |p| {
      ContainsIt(p, q, PUBLISHER, p[|q| + |PUBLISHER|..]);
    } else {
      var c := MarkInTail(q[|p| + |SCHEMA_VERSION|..], PUBLISHER, rest, v, k, t);
      BlockInRest(t, c + PUBLISHER, p', v', k', t');
    }
  }

  lemma BlockInRest(t: string, before: string, p': string, v': string, k': string, t': string)
    requires t == before + (p' + SCHEMA_VERSION + Tail(v', k', t'))
    ensures Contains(t, Block(v', k'))
  {
    assert t == (before + p') + SCHEMA_VERSION + Tail(v', k', t');
    BlockIn(t, before + p', v', k', t');
    ContainsIt(t, before + p', Block(v', k'), t');
  }

  lemma NameReadings(n: string, p: string, v: string, k: string, t: string,
                     n': string, p': string, v': string, k': string, t': string)
    requires OneLine(v) && OneLine(k) && OneLine(v') && OneLine(k')
    requires n + PUBLISHER + (p + SCHEMA_VERSION + Tail(v, k, t))
          == n' + PUBLISHER + (p' + SCHEMA_VERSION + Tail(v', k', t'))
    ensures (n == n' && p == p' && v == v' && k == k' && t == t')
         || Contains(n, PUBLISHER) || PublisherAmbiguous(p, t, v', k')
  {
    Marks();
    var rest, rest' := p + SCHEMA_VERSION + Tail(v, k, t), p' + SCHEMA_VERSION + Tail(v', k', t');
    Align(n, PUBLISHER, rest, n', PUBLISHER, rest');
    Align(n', PUBLISHER, rest', n, PUBLISHER, rest);
    if |n| == |n'| {
      PublisherReadings(p, v, k, t, p', v', k', t');
    } else if |n'| < |n| {
      ContainsIt(n, n', PUBLISHER, n[|n'| + |PUBLISHER|..]);
    } else {
      PublisherKeyLater(n'[|n| + |PUBLISHER|..], p', v', k', t', p, v, k, t);
    }
  }

  /** A display name key behind the identifier's end leads into the display name, or on
      to a publisher key in the publisher or the types. */
  lemma NameKeyLater(q: string, n': string, p': string, v': string, k': string, t': string,
                     n: string, p: string, v: string, k: string, t: string)
    requires OneLine(v) && OneLine(k) && OneLine(v') && OneLine(k')
    requires q + DISPLAY_NAME + (n' + PUBLISHER + (p' + SCHEMA_VERSION + Tail(v', k', t')))
          == n + PUBLISHER + (p + SCHEMA_VERSION + Tail(v, k, t))
    ensures Contains(n, DISPLAY_NAME) || PublisherAmbiguous(p, t, v', k')
  {
    Marks();
    var rest' := p' + SCHEMA_VERSION + Tail(v', k', t');
    var rest := p + SCHEMA_VERSION + Tail(v, k, t);
    Align(q, DISPLAY_NAME, n' + PUBLISHER + rest', n, PUBLISHER, rest);
    Align(n, PUBLISHER, rest, q, DISPLAY_NAME, n' + PUBLISHER + rest');
    if |q| < |n| {
      ContainsIt(n, q, DISPLAY_NAME, n[|q| + |DISPLAY_NAME|..]);
    } else {
      var r := q[|n| + |PUBLISHER|..];
      assert r + DISPLAY_NAME + (n' + PUBLISHER + rest') == (r + DISPLAY_NAME + n') + PUBLISHER + rest';
      PublisherKeyLater(r + DISPLAY_NAME + n', p', v', k', t', p, v, k, t);
    }
  }

  /** What a second reading of a text tells about the first. */
  lemma Readings(i: string, n: string, p: string, v: string, k: string, t: string,
                 i': string, n': string, p': string, v': string, k': string, t': string)
    requires OneLine(v) && OneLine(k) && OneLine(v') && OneLine(k')
    requires Body(i, n, p, v, k, t) == Body(i', n', p', v', k', t')
    ensures (i == i' && n == n' && p == p' && v == v' && k == k' && t == t')
         || Contains(i, DISPLAY_NAME) || Contains(n, DISPLAY_NAME) || Contains(n, PUBLISHER)
         || PublisherAmbiguous(p, t, v', k')
  {
    Marks();
    var rest := n + PUBLISHER + (p + SCHEMA_VERSION + Tail(v, k, t));
    var rest' := n' + PUBLISHER + (p' + SCHEMA_VERSION + Tail(v', k', t'));
    Align(i, DISPLAY_NAME, rest, i', DISPLAY_NAME, rest');
    Align(i', DISPLAY_NAME, rest', i, DISPLAY_NAME, rest);
    if |i| == |i'| {
      NameReadings(n, p, v, k, t, n', p', v', k', t');
    } else if |i'| < |i| {
      ContainsIt(i, i', DISPLAY_NAME, i[|i'| + |DISPLAY_NAME|..]);
    } else {
      NameKeyLater(i'[|i| + |DISPLAY_NAME|..], n', p', v', k', t', n, p, v, k, t);
    }
  }

  // --------------------------------------------------------------------- the scalar fields

  ghost predicate HasBlock(s: string) {
    exists version: Int32, key: Bytes :: Contains(s, Block(Decimal(version), Hex(key)))
  }

  /** Where a field spells out what the encoding writes between fields. */
  ghost predicate SpellsKeys(d: AppDeclaration) {
    || Contains(d.appIdentifier, DISPLAY_NAME) || Contains(d.displayName, DISPLAY_NAME)
    || Contains(d.displayName, PUBLISHER) || Contains(d.publisher, PUBLISHER)
    || HasBlock(d.publisher) || HasBlock(TypesText(d.resourceTypes))
  }

  ghost predicate Twin(d: AppDeclaration, e: AppDeclaration) {
    Encode(d) == Encode(e) && !SameScalars(d, e)
  }

  lemma TwinSpellsKeys(d: AppDeclaration, e: AppDeclaration)
    requires Twin(d, e)
    ensures SpellsKeys(d)
  {
    SameBodySameText(d, e);
    HexHasNoNewline(d.appPublicKey);
    HexHasNoNewline(e.appPublicKey);
    DecimalHasNoNewline(d.schemaVersion);
    DecimalHasNoNewline(e.schemaVersion);
    var v, k, v', k' := Decimal(d.schemaVersion), Hex(d.appPublicKey), Decimal(e.schemaVersion), Hex(e.appPublicKey);
    Readings(d.appIdentifier, d.displayName, d.publisher, v, k, TypesText(d.resourceTypes),
             e.appIdentifier, e.displayName, e.publisher, v', k', TypesText(e.resourceTypes));
    if v == v' && k == k' {
      DecimalRoundTrip(d.schemaVersion);
      DecimalRoundTrip(e.schemaVersion);
      HexRoundTrip(d.appPublicKey);
      HexRoundTrip(e.appPublicKey);
    }
  }

  lemma IsTwin(d: AppDeclaration, e: AppDeclaration)
    requires BodyOf(d) == BodyOf(e) && !SameScalars(d, e)
    ensures Twin(d, e)
  {
    SameBodySameText(d, e);
  }

  lemma Regroup(a: string, m: string, b: string, n: string, rest: string)
    ensures (a + m + b) + n + rest == a + m + (b + n + rest)
  {}

  lemma NameKeyInIdentifier(d: AppDeclaration, a: string, b: string)
    requires d.appIdentifier == a + DISPLAY_NAME + b
    ensures Twin(d, d.(appIdentifier := a, displayName := b + DISPLAY_NAME + d.displayName))
  {
    var e := d.(appIdentifier := a, displayName := b + DISPLAY_NAME + d.displayName);
    var rest := d.publisher + SCHEMA_VERSION + TailOf(d);
    Regroup(a, DISPLAY_NAME, b, DISPLAY_NAME, d.displayName + PUBLISHER + rest);
    Regroup(b, DISPLAY_NAME, d.displayName, PUBLISHER, rest);
    assert |a| < |d.appIdentifier|;
    IsTwin(d, e);
  }

  /** A name that spells out its own key can be moved, with the key, into the field
      before it. */
  lemma NameKeyInName(d: AppDeclaration, a: string, b: string)
    requires d.displayName == a + DISPLAY_NAME + b
    ensures Twin(d, d.(appIdentifier := d.appIdentifier + DISPLAY_NAME + a, displayName := b))
  {
    var e := d.(appIdentifier := d.appIdentifier + DISPLAY_NAME + a, displayName := b);
    var rest := d.publisher + SCHEMA_VERSION + TailOf(d);
    Regroup(a, DISPLAY_NAME, b, PUBLISHER, rest);
    Regroup(d.appIdentifier, DISPLAY_NAME, a, DISPLAY_NAME, b + PUBLISHER + rest);
    assert |e.appIdentifier| > |d.appIdentifier|;
    IsTwin(d, e);
  }

  lemma PublisherKeyInName(d: AppDeclaration, a: string, b: string)
    requires d.displayName == a + PUBLISHER + b
    ensures Twin(d, d.(displayName := a, publisher := b + PUBLISHER + d.publisher))
  {
    var e := d.(displayName := a, publisher := b + PUBLISHER + d.publisher);
    var rest := TailOf(d);
    Regroup(a, PUBLISHER, b, PUBLISHER, d.publisher + SCHEMA_VERSION + rest);
    Regroup(b, PUBLISHER, d.publisher, SCHEMA_VERSION, rest);
    assert |a| < |d.displayName|;
    IsTwin(d, e);
  }

  lemma PublisherKeyInPublisher(d: AppDeclaration, a: string, b: string)
    requires d.publisher == a + PUBLISHER + b
    ensures Twin(d, d.(displayName := d.displayName + PUBLISHER + a, publisher := b))
  {
    var e := d.(displayName := d.displayName + PUBLISHER + a, publisher := b);
    var rest := TailOf(d);
    Regroup(a, PUBLISHER, b, SCHEMA_VERSION, rest);
    Regroup(d.displayName, PUBLISHER, a, PUBLISHER, b + SCHEMA_VERSION + rest);
    assert |e.displayName| > |d.displayName|;
    IsTwin(d, e);
  }

  /** A block in the publisher can be read as the real one, and the real one as part of a
      type name. */
  lemma BlockInPublisherTwin(d: AppDeclaration, a: string, version: Int32, key: Bytes, b: string)
    requires d.publisher == a + Block(Decimal(version), Hex(key)) + b
    ensures var types := b + SCHEMA_VERSION + TailOf(d);
            Twin(d, d.(publisher := a, schemaVersion := version, appPublicKey := key, resourceTypes := [types]))
  {
    var v, k := Decimal(version), Hex(key);
    var ending := TailOf(d);
    var types := b + SCHEMA_VERSION + ending;
    var e := d.(publisher := a, schemaVersion := version, appPublicKey := key, resourceTypes := [types]);
    OneTypeText(types);
    BlockOpens(a, v, k, b, SCHEMA_VERSION + ending);
    assert d.publisher + SCHEMA_VERSION + ending == d.publisher + (SCHEMA_VERSION + ending);
    assert b + (SCHEMA_VERSION + ending) == types;
    assert |a| < |d.publisher|;
    IsTwin(d, e);
  }

  lemma BlockOpens(a: string, v: string, k: string, b: string, rest: string)
    ensures a + Block(v, k) + b + rest == a + SCHEMA_VERSION + Tail(v, k, b + rest)
  {
    assert Block(v, k) + (b + rest) == SCHEMA_VERSION + Tail(v, k, b + rest);
    assert a + Block(v, k) + b + rest == a + (Block(v, k) + (b + rest));
  }

  lemma BlockInTypesTwin(d: AppDeclaration, a: string, version: Int32, key: Bytes, b: string)
    requires TypesText(d.resourceTypes) == a + Block(Decimal(version), Hex(key)) + b
    ensures var publisher := d.publisher + SCHEMA_VERSION + Tail(Decimal(d.schemaVersion), Hex(d.appPublicKey), a);
            Twin(d, d.(publisher := publisher, schemaVersion := version, appPublicKey := key, resourceTypes := [b]))
  {
    var v, k, v0, k0 := Decimal(version), Hex(key), Decimal(d.schemaVersion), Hex(d.appPublicKey);
    var publisher := d.publisher + SCHEMA_VERSION + Tail(v0, k0, a);
    var e := d.(publisher := publisher, schemaVersion := version, appPublicKey := key, resourceTypes := [b]);
    OneTypeText(b);
    BlockOpens(a, v, k, b, "");
    assert b + "" == b && a + Block(v, k) + b + "" == a + Block(v, k) + b;
    OneTailInside(d.publisher, v0, k0, a, SCHEMA_VERSION, Tail(v, k, b));
    assert |publisher| > |d.publisher|;
    IsTwin(d, e);
  }

  lemma OneTailInside(p: string, v: string, k: string, a: string, m: string, rest: string)
    ensures (p + m + Tail(v, k, a)) + m + rest == p + m + Tail(v, k, a + m + rest)
  {
    TailOpens(v, k, a, m + rest);
    assert a + m + rest == a + (m + rest);
    assert p + m + Tail(v, k, a) + m + rest == p + m + (Tail(v, k, a) + (m + rest));
  }

  lemma TailOpens(v: string, k: string, a: string, rest: string)
    ensures Tail(v, k, a) + rest == Tail(v, k, a + rest)
  {}

  lemma SpeltKeysHaveTwin(d: AppDeclaration) returns (e: AppDeclaration)
    requires SpellsKeys(d)
    ensures Twin(d, e)
  {
    if a, b :| d.appIdentifier == a + DISPLAY_NAME + b {
      NameKeyInIdentifier(d, a, b);
      e := d.(appIdentifier := a, displayName := b + DISPLAY_NAME + d.displayName);
    } else if a, b :| d.displayName == a + DISPLAY_NAME + b {
      NameKeyInName(d, a, b);
      e := d.(appIdentifier := d.appIdentifier + DISPLAY_NAME + a, displayName := b);
    } else if a, b :| d.displayName == a + PUBLISHER + b {
      PublisherKeyInName(d, a, b);
      e := d.(displayName := a, publisher := b + PUBLISHER + d.publisher);
    } else if a, b :| d.publisher == a + PUBLISHER + b {
      PublisherKeyInPublisher(d, a, b);
      e := d.(displayName := d.displayName + PUBLISHER + a, publisher := b);
    } else {
      e := BlockHasTwin(d);
    }
  }

  lemma BlockHasTwin(d: AppDeclaration) returns (e: AppDeclaration)
    requires HasBlock(d.publisher) || HasBlock(TypesText(d.resourceTypes))
    ensures Twin(d, e)
  {
    var v0, k0, t0 := Decimal(d.schemaVersion), Hex(d.appPublicKey), TypesText(d.resourceTypes);
    if version: Int32, key: Bytes :| Contains(d.publisher, Block(Decimal(version), Hex(key))) {
      var a, b :| d.publisher == a + Block(Decimal(version), Hex(key)) + b;
      BlockInPublisherTwin(d, a, version, key, b);
      var types := b + SCHEMA_VERSION + Tail(v0, k0, t0);
      e := d.(publisher := a, schemaVersion := version, appPublicKey := key, resourceTypes := [types]);
    } else {
      var version: Int32, key: Bytes :| Contains(t0, Block(Decimal(version), Hex(key)));
      var a, b :| t0 == a + Block(Decimal(version), Hex(key)) + b;
      BlockInTypesTwin(d, a, version, key, b);
      var publisher := d.publisher + SCHEMA_VERSION + Tail(v0, k0, a);
      e := d.(publisher := publisher, schemaVersion := version, appPublicKey := key, resourceTypes := [b]);
    }
  }

  /** Exactly when some other declaration with another scalar field has the same signed
      text: when a field spells out the display name's key or the publisher's where the
      next field could begin, or a whole block of schema version and key. */
  lemma ScalarTwinIff(d: AppDeclaration)
    ensures (exists e :: Twin(d, e)) <==> SpellsKeys(d)
  {
    if e :| Twin(d, e) {
      TwinSpellsKeys(d, e);
    }
    if SpellsKeys(d) {
      var e := SpeltKeysHaveTwin(d);
    }
  }

  /** Exactly when a signed text stands for one declaration, up to the order of its
      resource types. */
  lemma SignedTextIsUniqueIff(d: AppDeclaration)
    ensures (forall e :: Encode(d) == Encode(e) ==>
               SameScalars(d, e) && multiset(d.resourceTypes) == multiset(e.resourceTypes))
       <==> !SpellsKeys(d) && OnlyTypesOfText(d.resourceTypes)
  {
    ScalarTwinIff(d);
    forall types | TypesText(types) == TypesText(d.resourceTypes)
      ensures Encode(d.(resourceTypes := types)) == Encode(d)
    {
      SameBodySameText(d, d.(resourceTypes := types));
    }
    if forall e :: Encode(d) == Encode(e) ==>
         SameScalars(d, e) && multiset(d.resourceTypes) == multiset(e.resourceTypes)
    {
      assert forall e :: Twin(d, e) ==> !SameScalars(d, e);
      forall types | TypesText(d.resourceTypes) == TypesText(types)
        ensures multiset(d.resourceTypes) == multiset(types)
      {
        assert Encode(d) == Encode(d.(resourceTypes := types));
      }
    }
    if !SpellsKeys(d) && OnlyTypesOfText(d.resourceTypes) {
      forall e | Encode(d) == Encode(e)
        ensures SameScalars(d, e) && multiset(d.resourceTypes) == multiset(e.resourceTypes)
      {
        assert !Twin(d, e);
        SameScalarsSameTypes(d, e);
      }
    }
  }

  lemma SameScalarsSameTypes(d: AppDeclaration, e: AppDeclaration)
    requires Encode(d) == Encode(e) && SameScalars(d, e)
    ensures TypesText(d.resourceTypes) == TypesText(e.resourceTypes)
  {
    SameLastLine(d, e);
    SameSuffix("resource_types=", TypesText(d.resourceTypes), TypesText(e.resourceTypes));
  }

  lemma SameLastLine(d: AppDeclaration, e: AppDeclaration)
    requires Encode(d) == Encode(e) && SameScalars(d, e)
    ensures Lines(d)[6] == Lines(e)[6]
  {
    var l, m := Lines(d), Lines(e);
    var before := LastLine(l);
    var before' := LastLine(m);
    assert before == before';
    SameSuffix(before, l[6], m[6]);
  }

  lemma LastLine(l: seq<string>) returns (before: string)
    requires |l| == 7
    ensures Join('\n', l) == before + l[6]
    ensures before == l[0] + "\n" + (l[1] + "\n" + (l[2] + "\n" + (l[3] + "\n" + (l[4] + "\n" + (l[5] + "\n")))))
  {
    JoinSeven(l);
    before := l[0] + "\n" + (l[1] + "\n" + (l[2] + "\n" + (l[3] + "\n" + (l[4] + "\n" + (l[5] + "\n")))));
  }
}
