/** The text an app publisher signs to register an app. */
module Declaration {
  import opened Prelude
  import opened TextEncoding

  type Int32 = n: int | -0x8000_0000 <= n < 0x8000_0000

  datatype AppDeclaration = AppDeclaration(
    appIdentifier: string,
    displayName: string,
    publisher: string,
    appPublicKey: Bytes,
    schemaVersion: Int32,
    resourceTypes: seq<string>)

  function TypesText(types: seq<string>): string {
    Join(',', Sort(types))
  }

  function Lines(d: AppDeclaration): (lines: seq<string>)
    ensures |lines| == 7
  {
    [
      "sylva-app-registration:v1",
      "app_identifier=" + d.appIdentifier,
      "display_name=" + d.displayName,
      "publisher=" + d.publisher,
      "schema_version=" + Decimal(d.schemaVersion),
      "app_public_key=" + Hex(d.appPublicKey),
      "resource_types=" + TypesText(d.resourceTypes)
    ]
  }

  /** The signed text: seven lines, without a line break at the end. */
  function Encode(d: AppDeclaration): string {
    Join('\n', Lines(d))
  }

  /** `hex` of the registry: two formatted digits a byte. */
  method FormatHex(bytes: Bytes) returns (out: string)
    ensures out == Hex(bytes) && Unhex(out) == Some(bytes)
  {
    out := "";
    for i := 0 to |bytes|
      invariant Hex(bytes) == out + Hex(bytes[i..])
    {
      assert bytes[i..][1..] == bytes[i + 1..];
      out := out + [HexDigit(bytes[i] / 16), HexDigit(bytes[i] % 16)];
    }
    HexRoundTrip(bytes);
  }

  method CanonicalDeclarationText(d: AppDeclaration) returns (text: string)
    ensures text == Encode(d)
    ensures text == "sylva-app-registration:v1\napp_identifier=" + (d.appIdentifier
                    + "\ndisplay_name=" + (d.displayName
                    + "\npublisher=" + (d.publisher
                    + "\nschema_version=" + (Decimal(d.schemaVersion)
                    + "\napp_public_key=" + (Hex(d.appPublicKey)
                    + "\nresource_types=" + Join(',', Sort(d.resourceTypes)))))))
  {
    var types := Sort(d.resourceTypes);
    var key := FormatHex(d.appPublicKey);
    text := "sylva-app-registration:v1\napp_identifier=" + (d.appIdentifier
            + "\ndisplay_name=" + (d.displayName
            + "\npublisher=" + (d.publisher
            + "\nschema_version=" + (Decimal(d.schemaVersion)
            + "\napp_public_key=" + (key
            + "\nresource_types=" + Join(',', types))))));
    EncodeIsBody(d);
  }

  predicate SameScalars(d: AppDeclaration, e: AppDeclaration) {
    && d.appIdentifier == e.appIdentifier
    && d.displayName == e.displayName
    && d.publisher == e.publisher
    && d.appPublicKey == e.appPublicKey
    && d.schemaVersion == e.schemaVersion
  }

  lemma JoinSeven(l: seq<string>)
    requires |l| == 7
    ensures Join('\n', l)
         == l[0] + "\n" + (l[1] + "\n" + (l[2] + "\n" + (l[3] + "\n" + (l[4] + "\n" + (l[5] + "\n" + l[6])))))
  {
    JoinStep(l, 5);
    JoinStep(l, 4);
    JoinStep(l, 3);
    JoinStep(l, 2);
    JoinStep(l, 1);
    JoinStep(l, 0);
    assert l[0..] == l && l[6..] == [l[6]];
  }

  lemma JoinStep(l: seq<string>, i: nat)
    requires i + 1 < |l|
    ensures Join('\n', l[i..]) == l[i] + "\n" + Join('\n', l[i + 1..])
  {
    assert l[i..][1..] == l[i + 1..];
  }

  lemma {:induction false} HexHasNoNewline(bytes: Bytes)
    ensures '\n' !in Hex(bytes)
  {
    if bytes != [] {
      HexHasNoNewline(bytes[1..]);
      HexDigitRoundTrip(bytes[0] / 16);
      HexDigitRoundTrip(bytes[0] % 16);
      assert HexValue('\n') == None;
    }
  }

  lemma DecimalHasNoNewline(n: int)
    ensures '\n' !in Decimal(n)
  {
    assert !IsDigit('\n');
  }

  /** None of the three free text fields contains a line break. */
  predicate OneLineFields(d: AppDeclaration) {
    '\n' !in d.appIdentifier && '\n' !in d.displayName && '\n' !in d.publisher
  }

  /** The types as signed: sorted and joined, on one line. */
  predicate OneLineTypes(d: AppDeclaration) {
    '\n' !in TypesText(d.resourceTypes)
  }

  lemma LinesAreFree(d: AppDeclaration)
    requires OneLineFields(d)
    ensures Free('\n', Front(Lines(d)))
    ensures OneLineTypes(d) ==> Free('\n', Lines(d))
  {
    HexHasNoNewline(d.appPublicKey);
    DecimalHasNoNewline(d.schemaVersion);
  }

  lemma SameSuffix(key: string, a: string, b: string)
    requires key + a == key + b
    ensures a == b
  {
    assert a == (key + a)[|key|..];
    assert b == (key + b)[|key|..];
  }

  lemma SameLines(d: AppDeclaration, e: AppDeclaration)
    requires Lines(d) == Lines(e)
    ensures SameScalars(d, e) && TypesText(d.resourceTypes) == TypesText(e.resourceTypes)
  {
    var l, m := Lines(d), Lines(e);
    assert l[1] == m[1] && l[2] == m[2] && l[3] == m[3] && l[4] == m[4] && l[5] == m[5] && l[6] == m[6];
    SameSuffix("app_identifier=", d.appIdentifier, e.appIdentifier);
    SameSuffix("display_name=", d.displayName, e.displayName);
    SameSuffix("publisher=", d.publisher, e.publisher);
    SameSuffix("schema_version=", Decimal(d.schemaVersion), Decimal(e.schemaVersion));
    SameSuffix("app_public_key=", Hex(d.appPublicKey), Hex(e.appPublicKey));
    SameSuffix("resource_types=", TypesText(d.resourceTypes), TypesText(e.resourceTypes));
    DecimalRoundTrip(d.schemaVersion);
    DecimalRoundTrip(e.schemaVersion);
    HexRoundTrip(d.appPublicKey);
    HexRoundTrip(e.appPublicKey);
  }

  // ------------------------------------------------------- the text around its field keys

  const HEAD := "sylva-app-registration:v1\napp_identifier="
  const DISPLAY_NAME := "\ndisplay_name="
  const PUBLISHER := "\npublisher="
  const SCHEMA_VERSION := "\nschema_version="
  const APP_PUBLIC_KEY := "\napp_public_key="
  const RESOURCE_TYPES := "\nresource_types="

  /** Everything after the identifier's key. */
  function Body(id: string, name: string, publisher: string, version: string, key: string, types: string): string {
    id + DISPLAY_NAME + (name + PUBLISHER + (publisher + SCHEMA_VERSION + Tail(version, key, types)))
  }

  function Tail(version: string, key: string, types: string): string {
    version + APP_PUBLIC_KEY + (key + RESOURCE_TYPES + types)
  }

  function TailOf(d: AppDeclaration): string {
    Tail(Decimal(d.schemaVersion), Hex(d.appPublicKey), TypesText(d.resourceTypes))
  }

  function BodyOf(d: AppDeclaration): string {
    Body(d.appIdentifier, d.displayName, d.publisher, Decimal(d.schemaVersion), Hex(d.appPublicKey),
         TypesText(d.resourceTypes))
  }

  lemma Glue(key: string, value: string, mark: string, next: string, rest: string)
    requires mark == "\n" + next
    ensures key + value + "\n" + (next + rest) == key + (value + mark + rest)
  {}

  lemma EncodeIsBody(d: AppDeclaration)
    ensures Encode(d) == HEAD + BodyOf(d)
  {
    var version, key, types := Decimal(d.schemaVersion), Hex(d.appPublicKey), TypesText(d.resourceTypes);
    var afterKey := key + RESOURCE_TYPES + types;
    var afterPublisher := d.publisher + SCHEMA_VERSION + Tail(version, key, types);
    JoinSeven(Lines(d));
    Glue("app_public_key=", key, RESOURCE_TYPES, "resource_types=", types);
    Glue("schema_version=", version, APP_PUBLIC_KEY, "app_public_key=", afterKey);
    Glue("publisher=", d.publisher, SCHEMA_VERSION, "schema_version=", Tail(version, key, types));
    Glue("display_name=", d.displayName, PUBLISHER, "publisher=", afterPublisher);
    Glue("app_identifier=", d.appIdentifier, DISPLAY_NAME, "display_name=", d.displayName + PUBLISHER + afterPublisher);
    HeadJoins(BodyOf(d));
  }

  lemma HeadJoins(body: string)
    ensures "sylva-app-registration:v1" + "\n" + ("app_identifier=" + body) == HEAD + body
  {
    assert HEAD == "sylva-app-registration:v1" + "\n" + "app_identifier=";
  }

  // ---------------------------------------------------- what equal signed texts mean

  /** A publisher who signs a declaration without line breaks signs its scalar fields
      and its types text for good: no other declaration, however crafted, has the same
      signed text with anything else in it. */
  lemma SignedTextDecidesFields(d: AppDeclaration, e: AppDeclaration)
    requires OneLineFields(d) && (OneLineFields(e) || OneLineTypes(d))
    ensures Encode(d) == Encode(e)
       <==> SameScalars(d, e) && TypesText(d.resourceTypes) == TypesText(e.resourceTypes)
  {
    if Encode(d) == Encode(e) {
      LinesAreFree(d);
      if OneLineTypes(d) {
        JoinAgainstFree('\n', Lines(d), Lines(e));
      } else {
        LinesAreFree(e);
        JoinSameLength('\n', Lines(d), Lines(e));
      }
      SameLines(d, e);
    }
  }

  lemma SortKeepsFree(types: seq<string>)
    requires Free(',', types)
    ensures Free(',', Sort(types))
  {
    SortSorts(types);
    forall p | p in Sort(types) ensures ',' !in p {
      assert p in multiset(Sort(types));
      assert p in types;
    }
  }

  /** On lists of comma-free names the types text is the list up to order, with one
      exception: no type at all reads like a single empty name. */
  lemma TypesTextDecidesTypes(a: seq<string>, b: seq<string>)
    requires Free(',', a) && Free(',', b)
    ensures TypesText(a) == TypesText(b) <==> multiset(a) == multiset(b) || {a, b} == {[], [""]}
  {
    SortKeepsFree(a);
    SortKeepsFree(b);
    JoinInjective(',', Sort(a), Sort(b));
    SortDecidesPermutation(a, b);
    SortShortPair(a, b);
  }

  ghost predicate NoneAndBlank(a: seq<string>, b: seq<string>) {
    (a == [] && b == [""]) || (a == [""] && b == [])
  }

  lemma NoneAndBlankIsPair(a: seq<string>, b: seq<string>)
    ensures {a, b} == {[], [""]} <==> NoneAndBlank(a, b)
  {
    assert [""] != [];
    if {a, b} == {[], [""]} {
      assert a in {[], [""]} && b in {[], [""]} && [] in {a, b} && [""] in {a, b};
    }
  }

  lemma SortShortPair(a: seq<string>, b: seq<string>)
    ensures {Sort(a), Sort(b)} == {[], [""]} <==> {a, b} == {[], [""]}
  {
    SortShort(a);
    SortShort(b);
    NoneAndBlankIsPair(a, b);
    NoneAndBlankIsPair(Sort(a), Sort(b));
  }

  lemma SortShort(a: seq<string>)
    ensures Sort(a) == [] <==> a == []
    ensures Sort(a) == [""] <==> a == [""]
  {
    SortSorts(a);
    assert |multiset(a)| == |a| && |multiset(Sort(a))| == |Sort(a)|;
    assert Sort([""]) == [""];
    if Sort(a) == [""] {
      assert |a| == 1 && a[0] in multiset(Sort(a));
    }
  }

  /** Two declarations have the same signed text exactly when their scalar fields agree
      and their resource types are permutations of each other. */
  lemma SignedTextDecidesDeclaration(d: AppDeclaration, e: AppDeclaration)
    requires OneLineFields(d) && OneLineFields(e)
    requires Free(',', d.resourceTypes) && Free(',', e.resourceTypes)
    requires "" !in d.resourceTypes && "" !in e.resourceTypes
    ensures Encode(d) == Encode(e)
       <==> SameScalars(d, e) && multiset(d.resourceTypes) == multiset(e.resourceTypes)
  {
    SignedTextDecidesFields(d, e);
    TypesTextDecidesTypes(d.resourceTypes, e.resourceTypes);
    assert [""][0] == "";
  }
}
