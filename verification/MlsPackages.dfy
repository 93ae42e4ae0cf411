/** Key packages as the grammar writes them, and what the parser makes of them: the one
    verdict for each, good or bad. Every length header may be written in any form that
    holds the length, so parsing undoes encoding, never the reverse. */
module MlsPackages {
  import opened Seqs
  import opened Records
  import opened MlsFormat
  import opened MlsExtensions
  import opened MlsWalker
  import opened MlsAccepted

  datatype Leaf = Leaf(
    hpkeKey: Piece, signatureKey: Piece, credentialType: nat, identity: Piece,
    versions: Piece, suites: Piece, extensionTypes: Piece, proposals: Piece, credentials: Piece,
    source: nat, lifetime: Bytes, extensions: Piece, signature: Piece)

  /** Everything the grammar can write, supported or not. */
  datatype Package = Package(
    version: nat, cipherSuite: nat, initKey: Piece, leaf: Leaf, extensions: Piece, signature: Piece)

  predicate BlobOk(p: Piece) {
    p.form < 3 && |p.data| < Capacity(p.form)
  }

  predicate LeafOk(l: Leaf) {
    && BlobOk(l.hpkeKey) && BlobOk(l.signatureKey) && l.credentialType < 65536 && BlobOk(l.identity)
    && BlobOk(l.versions) && BlobOk(l.suites) && BlobOk(l.extensionTypes)
    && BlobOk(l.proposals) && BlobOk(l.credentials)
    && l.source < 256 && |l.lifetime| == 16 && BlobOk(l.extensions) && BlobOk(l.signature)
  }

  predicate PackageOk(k: Package) {
    && k.version < 65536 && k.cipherSuite < 65536 && BlobOk(k.initKey) && LeafOk(k.leaf)
    && BlobOk(k.extensions) && BlobOk(k.signature)
  }

  function Blob(p: Piece): Bytes
    requires BlobOk(p)
  {
    EncodeVar(p.form, p.data)
  }

  function EncodeHead(k: Package): Bytes
    requires PackageOk(k)
  {
    EncodeU16(k.version) + EncodeU16(k.cipherSuite) + Blob(k.initKey)
  }

  function EncodeCredential(l: Leaf): Bytes
    requires LeafOk(l)
  {
    Blob(l.hpkeKey) + Blob(l.signatureKey) + EncodeU16(l.credentialType) + Blob(l.identity)
  }

  function EncodeCapabilities(l: Leaf): Bytes
    requires LeafOk(l)
  {
    Blob(l.versions) + Blob(l.suites) + Blob(l.extensionTypes) + Blob(l.proposals) + Blob(l.credentials)
  }

  function EncodeSource(l: Leaf): Bytes
    requires LeafOk(l)
  {
    [l.source] + l.lifetime + Blob(l.extensions) + Blob(l.signature)
  }

  function EncodeTail(k: Package): Bytes
    requires PackageOk(k)
  {
    Blob(k.extensions) + Blob(k.signature)
  }

  function EncodeLeaf(l: Leaf): Bytes
    requires LeafOk(l)
  {
    EncodeCredential(l) + EncodeCapabilities(l) + EncodeSource(l)
  }

  function Encode(k: Package): Bytes
    requires PackageOk(k)
  {
    EncodeHead(k) + EncodeLeaf(k.leaf) + EncodeTail(k)
  }

  // ----- The same package as a list of pieces -----

  function HeadPieces(k: Package): seq<Piece>
    requires PackageOk(k)
  {
    [Piece(0, EncodeU16(k.version)), Piece(0, EncodeU16(k.cipherSuite)), k.initKey]
  }

  function CredentialPieces(l: Leaf): seq<Piece>
    requires LeafOk(l)
  {
    [l.hpkeKey, l.signatureKey, Piece(0, EncodeU16(l.credentialType)), l.identity]
  }

  function CapabilityPieces(l: Leaf): seq<Piece> {
    [l.versions, l.suites, l.extensionTypes, l.proposals, l.credentials]
  }

  function SourcePieces(l: Leaf): seq<Piece>
    requires LeafOk(l)
  {
    [Piece(0, [l.source]), Piece(0, l.lifetime), l.extensions, l.signature]
  }

  function TailPieces(k: Package): seq<Piece> {
    [k.extensions, k.signature]
  }

  function LeafPieces(l: Leaf): seq<Piece>
    requires LeafOk(l)
  {
    CredentialPieces(l) + CapabilityPieces(l) + SourcePieces(l)
  }

  function Pieces(k: Package): (ps: seq<Piece>)
    requires PackageOk(k)
    ensures |ps| == 18
  {
    HeadPieces(k) + LeafPieces(k.leaf) + TailPieces(k)
  }

  /** `out` is the written form of `ps` under `items`, whatever the checks say. */
  predicate Spells(items: seq<Item>, ps: seq<Piece>, out: Bytes) {
    ShapeAll(items, ps) && WriteAll(items, ps) == out
  }

  lemma {:induction false} SpellsConcat(
    a: seq<Item>, ps: seq<Piece>, x: Bytes, b: seq<Item>, qs: seq<Piece>, y: Bytes)
    requires Spells(a, ps, x) && Spells(b, qs, y)
    ensures Spells(a + b, ps + qs, x + y)
    decreases |a|
  {
    hide Shaped, Write;
    if a == [] {
      assert a + b == b && ps + qs == qs && x + y == y;
    } else {
      SpellsConcat(a[1..], ps[1..], WriteAll(a[1..], ps[1..]), b, qs, y);
      assert (a + b)[1..] == a[1..] + b && (ps + qs)[1..] == ps[1..] + qs;
      assert x + y == Write(a[0], ps[0]) + (WriteAll(a[1..], ps[1..]) + y);
    }
  }

  lemma SpellsOne(item: Item, p: Piece)
    requires Shaped(item.kind, p)
    ensures Spells([item], [p], Write(item, p))
  {
    hide Shaped, Write;
    assert ShapeAll([item][1..], [p][1..]);
    assert WriteAll([item][1..], [p][1..]) == [];
    assert Write(item, p) + [] == Write(item, p);
  }

  lemma SpellsTwo(i: Item, p: Piece, j: Item, q: Piece)
    requires Shaped(i.kind, p) && Shaped(j.kind, q)
    ensures Spells([i, j], [p, q], Write(i, p) + Write(j, q))
  {
    hide Spells, Shaped, Write;
    SpellsOne(i, p);
    SpellsOne(j, q);
    SpellsConcat([i], [p], Write(i, p), [j], [q], Write(j, q));
    assert [i] + [j] == [i, j] && [p] + [q] == [p, q];
  }

  /** One more piece behind those already written. */
  lemma SpellsPush(items: seq<Item>, ps: seq<Piece>, out: Bytes, item: Item, p: Piece)
    requires Spells(items, ps, out) && Shaped(item.kind, p)
    ensures Spells(items + [item], ps + [p], out + Write(item, p))
  {
    hide Spells, Shaped, Write;
    SpellsOne(item, p);
    SpellsConcat(items, ps, out, [item], [p], Write(item, p));
  }

  lemma SpellsThree(i: Item, p: Piece, j: Item, q: Piece, k: Item, r: Piece)
    requires Shaped(i.kind, p) && Shaped(j.kind, q) && Shaped(k.kind, r)
    ensures Spells([i, j, k], [p, q, r], Write(i, p) + Write(j, q) + Write(k, r))
  {
    hide Spells, Shaped, Write;
    SpellsTwo(i, p, j, q);
    SpellsPush([i, j], [p, q], Write(i, p) + Write(j, q), k, r);
    assert [i, j] + [k] == [i, j, k] && [p, q] + [r] == [p, q, r];
  }

  lemma SpellsFour(i: Item, p: Piece, j: Item, q: Piece, k: Item, r: Piece, l: Item, s: Piece)
    requires Shaped(i.kind, p) && Shaped(j.kind, q) && Shaped(k.kind, r) && Shaped(l.kind, s)
    ensures Spells([i, j, k, l], [p, q, r, s], Write(i, p) + Write(j, q) + Write(k, r) + Write(l, s))
  {
    hide Spells, Shaped, Write;
    SpellsThree(i, p, j, q, k, r);
    SpellsPush([i, j, k], [p, q, r], Write(i, p) + Write(j, q) + Write(k, r), l, s);
    assert [i, j, k] + [l] == [i, j, k, l] && [p, q, r] + [s] == [p, q, r, s];
  }

  lemma BlobShaped(check: Check, p: Piece)
    requires BlobOk(p)
    ensures Shaped(Var, p) && Write(Item(Var, check), p) == Blob(p)
  {
  }

  lemma FixedShaped(check: Check, data: Bytes)
    ensures Shaped(Fixed(|data|), Piece(0, data)) && Write(Item(Fixed(|data|), check), Piece(0, data)) == data
  {
  }

  lemma HeadSpells(k: Package)
    requires PackageOk(k)
    ensures Spells(HeadItems(), HeadPieces(k), EncodeHead(k))
  {
    hide Spells, Capacity, EncodeVar, Blob, Shaped, Write, LeafOk;
    var version, suite := EncodeU16(k.version), EncodeU16(k.cipherSuite);
    FixedShaped(Version, version);
    FixedShaped(Any, suite);
    BlobShaped(Any, k.initKey);
    SpellsThree(Item(Fixed(2), Version), Piece(0, version), Item(Fixed(2), Any), Piece(0, suite), Opaque(), k.initKey);
  }

  lemma CredentialSpells(l: Leaf)
    requires LeafOk(l)
    ensures Spells(CredentialItems(), CredentialPieces(l), EncodeCredential(l))
  {
    hide Spells, Capacity, EncodeVar, Blob, Shaped, Write;
    var credentialType := EncodeU16(l.credentialType);
    BlobShaped(Any, l.hpkeKey);
    BlobShaped(Any, l.signatureKey);
    FixedShaped(Credential, credentialType);
    BlobShaped(Identity, l.identity);
    SpellsFour(Opaque(), l.hpkeKey, Opaque(), l.signatureKey,
               Item(Fixed(2), Credential), Piece(0, credentialType), Item(Var, Identity), l.identity);
  }

  lemma CapabilitiesSpell(l: Leaf)
    requires LeafOk(l)
    ensures Spells(CapabilityItems(), CapabilityPieces(l), EncodeCapabilities(l))
  {
    hide Spells, Capacity, EncodeVar, Blob, Shaped, Write;
    BlobShaped(Any, l.versions);
    BlobShaped(Any, l.suites);
    BlobShaped(Any, l.extensionTypes);
    BlobShaped(Any, l.proposals);
    BlobShaped(Any, l.credentials);
    var o := Opaque();
    SpellsFour(o, l.versions, o, l.suites, o, l.extensionTypes, o, l.proposals);
    SpellsPush([o, o, o, o], [l.versions, l.suites, l.extensionTypes, l.proposals],
               Blob(l.versions) + Blob(l.suites) + Blob(l.extensionTypes) + Blob(l.proposals), o, l.credentials);
    assert [o, o, o, o] + [o] == CapabilityItems();
    assert [l.versions, l.suites, l.extensionTypes, l.proposals] + [l.credentials] == CapabilityPieces(l);
  }

  lemma SourceSpells(l: Leaf)
    requires LeafOk(l)
    ensures Spells(SourceItems(), SourcePieces(l), EncodeSource(l))
  {
    hide Spells, Capacity, EncodeVar, Blob, Shaped, Write;
    FixedShaped(Source, [l.source]);
    FixedShaped(Any, l.lifetime);
    BlobShaped(Any, l.extensions);
    BlobShaped(Any, l.signature);
    SpellsFour(Item(Fixed(1), Source), Piece(0, [l.source]), Item(Fixed(16), Any), Piece(0, l.lifetime),
               Opaque(), l.extensions, Opaque(), l.signature);
  }

  lemma TailSpells(k: Package)
    requires PackageOk(k)
    ensures Spells(TailItems(), TailPieces(k), EncodeTail(k))
  {
    hide Spells, Capacity, EncodeVar, Blob, Shaped, Write, LeafOk;
    BlobShaped(Extensions, k.extensions);
    BlobShaped(Any, k.signature);
    SpellsTwo(Item(Var, Extensions), k.extensions, Opaque(), k.signature);
  }

  lemma PackageSpells(k: Package)
    requires PackageOk(k)
    ensures Spells(KeyPackageItems(), Pieces(k), Encode(k))
  {
    hide Spells, HeadItems, CredentialItems, CapabilityItems, SourceItems, TailItems;
    hide HeadPieces, CredentialPieces, CapabilityPieces, SourcePieces, TailPieces;
    hide EncodeHead, EncodeCredential, EncodeCapabilities, EncodeSource, EncodeTail;
    var l := k.leaf;
    CredentialSpells(l);
    CapabilitiesSpell(l);
    SpellsConcat(CredentialItems(), CredentialPieces(l), EncodeCredential(l),
                 CapabilityItems(), CapabilityPieces(l), EncodeCapabilities(l));
    SourceSpells(l);
    SpellsConcat(CredentialItems() + CapabilityItems(), CredentialPieces(l) + CapabilityPieces(l),
                 EncodeCredential(l) + EncodeCapabilities(l), SourceItems(), SourcePieces(l), EncodeSource(l));
    HeadSpells(k);
    SpellsConcat(HeadItems(), HeadPieces(k), EncodeHead(k), LeafItems(), LeafPieces(l), EncodeLeaf(l));
    TailSpells(k);
    SpellsConcat(HeadItems() + LeafItems(), HeadPieces(k) + LeafPieces(l), EncodeHead(k) + EncodeLeaf(l),
                 TailItems(), TailPieces(k), EncodeTail(k));
  }

  // ----- Which field fails first -----

  function FirstOf(a: Option<Error>, b: Option<Error>): Option<Error> {
    if a.Some? then a else b
  }

  lemma {:induction false} FailureConcat(a: seq<Item>, ps: seq<Piece>, b: seq<Item>, qs: seq<Piece>, utf8: Utf8)
    requires |a| == |ps|
    ensures Failure(a + b, ps + qs, utf8) == FirstOf(Failure(a, ps, utf8), Failure(b, qs, utf8))
    decreases |a|
  {
    hide Verify;
    if a == [] {
      assert a + b == b && ps + qs == qs;
    } else {
      FailureConcat(a[1..], ps[1..], b, qs, utf8);
      assert (a + b)[1..] == a[1..] + b && (ps + qs)[1..] == ps[1..] + qs;
    }
  }

  lemma FailureOne(item: Item, p: Piece, utf8: Utf8)
    ensures Failure([item], [p], utf8) == Verify(item.check, p.data, utf8)
  {
    hide Verify;
    assert Failure([item][1..], [p][1..], utf8) == None;
  }

  lemma FailureFront(item: Item, p: Piece, items: seq<Item>, ps: seq<Piece>, utf8: Utf8)
    ensures Failure([item] + items, [p] + ps, utf8) ==
      FirstOf(Verify(item.check, p.data, utf8), Failure(items, ps, utf8))
  {
    hide Verify;
    FailureOne(item, p, utf8);
    FailureConcat([item], [p], items, ps, utf8);
  }

  /** Fields that nothing looks into never fail. */
  lemma {:induction false} OpaqueNeverFails(items: seq<Item>, ps: seq<Piece>, utf8: Utf8)
    requires forall i :: 0 <= i < |items| ==> items[i].check == Any
    ensures Failure(items, ps, utf8) == None
    decreases |items|
  {
    if items != [] && ps != [] {
      OpaqueNeverFails(items[1..], ps[1..], utf8);
    }
  }

  /** The number that a checked field must be, and the error when it is another. */
  lemma NumberChecks(n: nat, utf8: Utf8)
    requires n < 65536
    ensures Verify(Version, EncodeU16(n), utf8) == if n != 1 then Some(UnsupportedVersion(n)) else None
    ensures Verify(Credential, EncodeU16(n), utf8) == if n != 1 then Some(UnsupportedCredential(n)) else None
  {
    NumberU16(n);
  }

  lemma SourceChecks(n: byte, utf8: Utf8)
    ensures Verify(Source, [n], utf8) == if n != 1 then Some(UnexpectedLeafNodeSource(n)) else None
  {
    BigEndianOne(0, n);
  }

  lemma HeadFailure(k: Package, utf8: Utf8)
    requires PackageOk(k)
    ensures Failure(HeadItems(), HeadPieces(k), utf8) ==
            if k.version != 1 then Some(UnsupportedVersion(k.version)) else None
  {
    hide Verify, LeafOk;
    var item, p := Item(Fixed(2), Version), Piece(0, EncodeU16(k.version));
    var items, ps := [Item(Fixed(2), Any), Opaque()], [Piece(0, EncodeU16(k.cipherSuite)), k.initKey];
    assert HeadItems() == [item] + items && HeadPieces(k) == [p] + ps;
    FailureFront(item, p, items, ps, utf8);
    OpaqueNeverFails(items, ps, utf8);
    NumberChecks(k.version, utf8);
  }

  lemma CredentialFailure(l: Leaf, utf8: Utf8)
    requires LeafOk(l)
    ensures Failure(CredentialItems(), CredentialPieces(l), utf8) ==
            if l.credentialType != 1 then Some(UnsupportedCredential(l.credentialType))
            else if !utf8(l.identity.data) then Some(InvalidIdentity)
            else None
  {
    hide Verify;
    var o := Opaque();
    var item, p := Item(Fixed(2), Credential), Piece(0, EncodeU16(l.credentialType));
    var items, ps := [Item(Var, Identity)], [l.identity];
    assert CredentialItems() == [o, o] + ([item] + items);
    assert CredentialPieces(l) == [l.hpkeKey, l.signatureKey] + ([p] + ps);
    FailureConcat([o, o], [l.hpkeKey, l.signatureKey], [item] + items, [p] + ps, utf8);
    OpaqueNeverFails([o, o], [l.hpkeKey, l.signatureKey], utf8);
    FailureFront(item, p, items, ps, utf8);
    FailureOne(Item(Var, Identity), l.identity, utf8);
    NumberChecks(l.credentialType, utf8);
    IdentityCheck(l.identity.data, utf8);
  }

  lemma IdentityCheck(data: Bytes, utf8: Utf8)
    ensures Verify(Identity, data, utf8) == if !utf8(data) then Some(InvalidIdentity) else None
  {
  }

  lemma SourceFailure(l: Leaf, utf8: Utf8)
    requires LeafOk(l)
    ensures Failure(SourceItems(), SourcePieces(l), utf8) ==
            if l.source != 1 then Some(UnexpectedLeafNodeSource(l.source)) else None
  {
    hide Verify;
    var item, p := Item(Fixed(1), Source), Piece(0, [l.source]);
    var items, ps := [Item(Fixed(16), Any), Opaque(), Opaque()], [Piece(0, l.lifetime), l.extensions, l.signature];
    assert SourceItems() == [item] + items && SourcePieces(l) == [p] + ps;
    FailureFront(item, p, items, ps, utf8);
    OpaqueNeverFails(items, ps, utf8);
    SourceChecks(l.source, utf8);
  }

  lemma TailFailure(k: Package, utf8: Utf8)
    ensures var found := Detect(k.extensions.data, 0);
            Failure(TailItems(), TailPieces(k), utf8) == if found.Err? then Some(found.error) else None
  {
    hide Verify, Detect;
    var item := Item(Var, Extensions);
    assert TailItems() == [item] + [Opaque()] && TailPieces(k) == [k.extensions] + [k.signature];
    FailureFront(item, k.extensions, [Opaque()], [k.signature], utf8);
    OpaqueNeverFails([Opaque()], [k.signature], utf8);
    ExtensionsCheck(k.extensions.data, utf8);
  }

  lemma ExtensionsCheck(data: Bytes, utf8: Utf8)
    ensures Verify(Extensions, data, utf8) == if Detect(data, 0).Err? then Some(Detect(data, 0).error) else None
  {
    hide Detect;
  }

  lemma LeafFailure(l: Leaf, utf8: Utf8)
    requires LeafOk(l)
    ensures Failure(LeafItems(), LeafPieces(l), utf8) ==
            FirstOf(Failure(CredentialItems(), CredentialPieces(l), utf8),
                     Failure(SourceItems(), SourcePieces(l), utf8))
  {
    hide Verify, Failure;
    FailureConcat(CredentialItems(), CredentialPieces(l), CapabilityItems(), CapabilityPieces(l), utf8);
    FailureConcat(CredentialItems() + CapabilityItems(), CredentialPieces(l) + CapabilityPieces(l),
                  SourceItems(), SourcePieces(l), utf8);
    OpaqueNeverFails(CapabilityItems(), CapabilityPieces(l), utf8);
  }

  /** The checks in the order in which the walk meets them. */
  lemma PackageFailure(k: Package, utf8: Utf8)
    requires PackageOk(k)
    ensures var found := Detect(k.extensions.data, 0);
            Failure(KeyPackageItems(), Pieces(k), utf8) ==
            if k.version != 1 then Some(UnsupportedVersion(k.version))
            else if k.leaf.credentialType != 1 then Some(UnsupportedCredential(k.leaf.credentialType))
            else if !utf8(k.leaf.identity.data) then Some(InvalidIdentity)
            else if k.leaf.source != 1 then Some(UnexpectedLeafNodeSource(k.leaf.source))
            else if found.Err? then Some(found.error)
            else None
  {
    hide Verify, Failure, Detect, LeafOk;
    var l := k.leaf;
    HeadLengths(k);
    FailureConcat(HeadItems(), HeadPieces(k), LeafItems(), LeafPieces(l), utf8);
    FailureConcat(HeadItems() + LeafItems(), HeadPieces(k) + LeafPieces(l), TailItems(), TailPieces(k), utf8);
    HeadFailure(k, utf8);
    LeafFailure(l, utf8);
    CredentialFailure(l, utf8);
    SourceFailure(l, utf8);
    TailFailure(k, utf8);
  }

  lemma HeadLengths(k: Package)
    requires PackageOk(k)
    ensures |HeadItems()| == |HeadPieces(k)| && |LeafItems()| == |LeafPieces(k.leaf)|
  {
  }

  // ----- The verdict -----

  /** What a spelled layout, with any bytes behind it, is answered. */
  lemma ParseSpelled(ps: seq<Piece>, out: Bytes, more: Bytes, utf8: Utf8)
    requires Spells(KeyPackageItems(), ps, out)
    ensures |ps| == 18
    ensures var failure, found := Failure(KeyPackageItems(), ps, utf8), Detect(ps[16].data, 0);
            Parse(out + more, utf8) ==
            if failure.Some? then Err(failure.value)
            else if more != [] then Err(TrailingData)
            else Ok(Parsed(ps[6].data, Number(ps[1].data), found.Ok? && found.value))
  {
    hide Walk, Detect, KeyPackageItems, ShapeAll, WriteAll, Failure, At;
    FitIffShaped(KeyPackageItems(), ps, utf8);
    AtWhole(out + more);
    AtSplit(out + more, 0, out, more);
    WalkWritten(out + more, 0, KeyPackageItems(), ps, [], utf8);
    assert [] + Datas(ps) == Datas(ps);
  }

  lemma PieceData(k: Package)
    requires PackageOk(k)
    ensures var ps := Pieces(k);
            ps[1].data == EncodeU16(k.cipherSuite) && ps[6] == k.leaf.identity && ps[16] == k.extensions
  {
  }

  /** Every key package the grammar can write, with any bytes behind it, has this verdict:
      the first of the fields below that is not as required decides, with its own value
      in the error; then bytes behind the package; and otherwise identity, cipher suite
      and last-resort marker come back. */
  lemma EveryPackageHasItsVerdict(k: Package, more: Bytes, utf8: Utf8)
    requires PackageOk(k)
    ensures var found := Detect(k.extensions.data, 0);
            Parse(Encode(k) + more, utf8) ==
            if k.version != 1 then Err(UnsupportedVersion(k.version))
            else if k.leaf.credentialType != 1 then Err(UnsupportedCredential(k.leaf.credentialType))
            else if !utf8(k.leaf.identity.data) then Err(InvalidIdentity)
            else if k.leaf.source != 1 then Err(UnexpectedLeafNodeSource(k.leaf.source))
            else if found.Err? then Err(found.error)
            else if more != [] then Err(TrailingData)
            else Ok(Parsed(k.leaf.identity.data, k.cipherSuite, found.value))
  {
    hide Spells, Parse, Detect, Encode, Failure, Number, EncodeU16, Pieces, PackageOk;
    PackageSpells(k);
    ParseSpelled(Pieces(k), Encode(k), more, utf8);
    PackageFailure(k, utf8);
    PieceData(k);
    SuiteInRange(k);
    NumberU16(k.cipherSuite);
  }

  lemma SuiteInRange(k: Package)
    requires PackageOk(k)
    ensures k.cipherSuite < 65536
  {
  }

  /** Parse after encode, for the packages that are supported. */
  lemma ParseEncoded(k: Package, es: seq<Extension>, utf8: Utf8)
    requires PackageOk(k) && k.version == 1 && k.leaf.credentialType == 1 && k.leaf.source == 1
    requires utf8(k.leaf.identity.data) && ExtensionsOk(es) && k.extensions.data == EncodeExtensions(es)
    ensures Parse(Encode(k), utf8) == Ok(Parsed(k.leaf.identity.data, k.cipherSuite, HasMarker(es)))
  {
    hide Parse, Detect, Encode, PackageOk, EncodeExtensions, ExtensionsOk, HasMarker;
    EveryPackageHasItsVerdict(k, [], utf8);
    assert Encode(k) + [] == Encode(k);
    DetectIsExact(es);
  }

  // ----- What is accepted -----

  lemma AcceptsExactlyLayouts(buf: Bytes, utf8: Utf8)
    ensures Parse(buf, utf8).Ok? <==>
            exists ps :: Spells(KeyPackageItems(), ps, buf) && Failure(KeyPackageItems(), ps, utf8).None?
  {
    hide KeyPackageItems, Walk, Detect, FitAll, ShapeAll, Failure;
    var items := KeyPackageItems();
    if Parse(buf, utf8).Ok? {
      WalkIsWritten(buf, 0, items, utf8);
      var ps := Layout(buf, 0, items, utf8);
      FitIffShaped(items, ps, utf8);
      assert buf[0..|buf|] == buf;
      assert Spells(items, ps, buf);
    }
    if ps :| Spells(items, ps, buf) && Failure(items, ps, utf8).None? {
      ParseSpelled(ps, buf, [], utf8);
      assert buf + [] == buf;
    }
  }

  lemma {:induction false} ShapedAt(items: seq<Item>, ps: seq<Piece>, i: nat)
    requires ShapeAll(items, ps) && i < |items|
    ensures |items| == |ps| && Shaped(items[i].kind, ps[i])
    decreases i
  {
    hide Shaped;
    FitIffShaped(items, ps, (_: Bytes) => true);
    if i > 0 {
      ShapedAt(items[1..], ps[1..], i - 1);
    }
  }

  /** The written form of a fixed field does not depend on the form noted for it. */
  lemma {:induction false} SameWriting(items: seq<Item>, ps: seq<Piece>, qs: seq<Piece>)
    requires ShapeAll(items, ps) && |ps| == |qs|
    requires forall i :: 0 <= i < |items| && i < |ps| ==>
               qs[i].data == ps[i].data && (items[i].kind.Var? ==> qs[i] == ps[i])
    ensures ShapeAll(items, qs) && WriteAll(items, qs) == WriteAll(items, ps)
    decreases |items|
  {
    if items != [] {
      assert forall i :: 0 <= i < |items| - 1 && i < |ps| - 1 ==> qs[1..][i] == qs[i + 1] && ps[1..][i] == ps[i + 1];
      SameWriting(items[1..], ps[1..], qs[1..]);
    }
  }

  /** The package that a list of 18 pieces spells. */
  function AsPackage(ps: seq<Piece>): Package
    requires |ps| == 18 && |ps[12].data| == 1
  {
    Package(Number(ps[0].data), Number(ps[1].data), ps[2],
            Leaf(ps[3], ps[4], Number(ps[5].data), ps[6], ps[7], ps[8], ps[9], ps[10], ps[11],
                 ps[12].data[0], ps[13].data, ps[14], ps[15]),
            ps[16], ps[17])
  }

  lemma KindsByPosition()
    ensures forall i :: 0 <= i < 18 ==>
              KeyPackageItems()[i].kind ==
              if i == 0 || i == 1 || i == 5 then Fixed(2)
              else if i == 12 then Fixed(1)
              else if i == 13 then Fixed(16)
              else Var
  {
  }

  lemma SpelledShapes(ps: seq<Piece>)
    requires ShapeAll(KeyPackageItems(), ps)
    ensures |ps| == 18
    ensures |ps[0].data| == |ps[1].data| == |ps[5].data| == 2 && |ps[12].data| == 1 && |ps[13].data| == 16
    ensures forall i :: 0 <= i < 18 && i != 0 && i != 1 && i != 5 && i != 12 && i != 13 ==> BlobOk(ps[i])
  {
    hide KeyPackageItems, ShapeAll;
    KindsByPosition();
    forall i | 0 <= i < 18
      ensures |ps| == 18 && Shaped(KeyPackageItems()[i].kind, ps[i])
    {
      ShapedAt(KeyPackageItems(), ps, i);
    }
    ShapedAt(KeyPackageItems(), ps, 0);
  }

  /** Any spelled layout is the encoding of a package. */
  lemma SpelledIsEncoded(ps: seq<Piece>, buf: Bytes, utf8: Utf8) returns (k: Package)
    requires Spells(KeyPackageItems(), ps, buf)
    ensures PackageOk(k) && Encode(k) == buf
  {
    hide Encode, ShapeAll, WriteAll, Capacity, Number, EncodeU16;
    SpelledShapes(ps);
    U16Number(ps[0].data);
    U16Number(ps[1].data);
    U16Number(ps[5].data);
    k := AsPackage(ps);
    PackageSpells(k);
    SamePieces(ps, k);
    KindsByPosition();
    SameWriting(KeyPackageItems(), ps, Pieces(k));
  }

  lemma SamePieces(ps: seq<Piece>, k: Package)
    requires |ps| == 18 && |ps[12].data| == 1 && PackageOk(k) && k == AsPackage(ps)
    requires EncodeU16(Number(ps[0].data)) == ps[0].data && EncodeU16(Number(ps[1].data)) == ps[1].data
    requires EncodeU16(Number(ps[5].data)) == ps[5].data
    ensures var qs := Pieces(k);
            && (forall i :: 0 <= i < 18 ==> qs[i].data == ps[i].data)
            && (forall i :: 0 <= i < 18 && i != 0 && i != 1 && i != 5 && i != 12 && i != 13 ==> qs[i] == ps[i])
  {
    hide Number, EncodeU16, PackageOk;
    assert [ps[12].data[0]] == ps[12].data;
  }

  /** A string is accepted if and only if it is the encoding of a package of version 1 with
      a basic credential, a valid identity and a key-package source, whose extensions are
      a well-formed list without a marker, or one up to and including a marker. */
  lemma AcceptedIff(buf: Bytes, utf8: Utf8)
    ensures Parse(buf, utf8).Ok? <==>
            exists k :: Supported(k, utf8) && buf == Encode(k)
  {
    hide Parse, Detect, Encode, KeyPackageItems, Spells, Failure, Markerless, MarkedSomewhere, PackageOk, Verify;
    if Parse(buf, utf8).Ok? {
      AcceptsExactlyLayouts(buf, utf8);
      var ps :| Spells(KeyPackageItems(), ps, buf) && Failure(KeyPackageItems(), ps, utf8).None?;
      var k := SpelledIsEncoded(ps, buf, utf8);
      EveryPackageHasItsVerdict(k, [], utf8);
      assert Encode(k) + [] == Encode(k);
      ExtensionsCheck(k.extensions.data, utf8);
      ExtensionsPassIff(k.extensions.data, utf8);
      assert Supported(k, utf8);
    }
    if k :| Supported(k, utf8) && buf == Encode(k) {
      EveryPackageHasItsVerdict(k, [], utf8);
      assert Encode(k) + [] == Encode(k);
      ExtensionsCheck(k.extensions.data, utf8);
      ExtensionsPassIff(k.extensions.data, utf8);
    }
  }

  ghost predicate Supported(k: Package, utf8: Utf8) {
    && PackageOk(k) && k.version == 1 && k.leaf.credentialType == 1 && k.leaf.source == 1
    && utf8(k.leaf.identity.data)
    && (Markerless(k.extensions.data) || MarkedSomewhere(k.extensions.data))
  }

  /** The first field that fails its check decides the error, whatever follows it. */
  lemma {:induction false} FirstBadFieldDecides(buf: Bytes, k: nat, ps: seq<Piece>, out: Bytes, p: Piece, utf8: Utf8)
    requires k < 18 && Spells(KeyPackageItems()[..k], ps, out) && Failure(KeyPackageItems()[..k], ps, utf8).None?
    requires Shaped(KeyPackageItems()[k].kind, p) && Verify(KeyPackageItems()[k].check, p.data, utf8).Some?
    requires At(buf, 0, out + Write(KeyPackageItems()[k], p))
    ensures Parse(buf, utf8) == Err(Verify(KeyPackageItems()[k].check, p.data, utf8).value)
  {
    hide KeyPackageItems, Walk, Take, Verify, Shaped, Write, At, ShapeAll, WriteAll, Failure, Detect;
    var items := KeyPackageItems();
    AtSplit(buf, 0, out, Write(items[k], p));
    assert items[..k] + items[k..] == items;
    WalkThrough(buf, 0, items[..k], ps, items[k..], [], utf8);
    assert items[k..][0] == items[k];
    TakeWritten(buf, |out|, items[k], p, utf8);
    WalkFails(buf, |out|, items[k..], [] + Datas(ps), utf8);
  }

  /** A field in the reserved 8-byte form decides the error too, whatever follows it. */
  lemma ReservedLengthDecides(buf: Bytes, k: nat, ps: seq<Piece>, out: Bytes, utf8: Utf8)
    requires k < 18 && Spells(KeyPackageItems()[..k], ps, out) && Failure(KeyPackageItems()[..k], ps, utf8).None?
    requires KeyPackageItems()[k].kind.Var? && At(buf, 0, out) && |out| < |buf| && buf[|out|] >= 192
    ensures Parse(buf, utf8) == Err(UnsupportedLengthPrefix)
  {
    hide KeyPackageItems, Walk, Verify, At, ShapeAll, WriteAll, Failure, Detect;
    var items := KeyPackageItems();
    assert items[..k] + items[k..] == items;
    WalkThrough(buf, 0, items[..k], ps, items[k..], [], utf8);
    assert items[k..][0] == items[k];
    WalkFails(buf, |out|, items[k..], [] + Datas(ps), utf8);
  }
}
