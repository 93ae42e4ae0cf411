/** The walker as the program runs it: a cursor that moves along the buffer and
    loops over an offset, proved equal to the functions of MlsWalker. */
module MlsParser {
  import opened Seqs
  import opened Records
  import opened MlsFormat
  import opened MlsExtensions
  import opened MlsWalker

  lemma BigEndianNext(acc: nat, buf: Bytes, start: nat, k: nat)
    requires start <= k < |buf|
    ensures BigEndian(acc, buf[start..k + 1]) == BigEndian(acc, buf[start..k]) * 256 + buf[k]
  {
    assert Front(buf[start..k + 1]) == buf[start..k];
  }

  method ReadLength(buf: Bytes, offset: nat, size: nat) returns (length: nat)
    requires size > 0 && offset + size <= |buf|
    ensures length == BigEndian(buf[offset] % 64, buf[offset + 1..offset + size])
  {
    length := buf[offset] % 64;
    for k := 1 to size
      invariant length == BigEndian(buf[offset] % 64, buf[offset + 1..offset + k])
    {
      BigEndianNext(buf[offset] % 64, buf, offset + 1, offset + k);
      length := length * 256 + buf[offset + k];
    }
  }

  method ReadVarBytes(buf: Bytes, offset: nat) returns (r: Result<(Bytes, nat)>)
    ensures r == ReadVar(buf, offset)
    ensures r.Ok? ==> offset < r.value.1 <= |buf|
  {
    if offset >= |buf| {
      return Err(UnexpectedEof);
    }
    var prefix := buf[offset] / 64;
    if prefix == 3 {
      return Err(UnsupportedLengthPrefix);
    }
    var size := if prefix == 0 then 1 else if prefix == 1 then 2 else 4;
    if offset + size > |buf| {
      return Err(UnexpectedEof);
    }
    var length := ReadLength(buf, offset, size);
    var start := offset + size;
    var end := start + length;
    if end > |buf| {
      return Err(UnexpectedEof);
    }
    return Ok((buf[start..end], end));
  }

  method IsLastResortExtension(data: Bytes) returns (r: Result<bool>)
    ensures r == IsLastResort(data)
  {
    var field :- ReadVarBytes(data, 0);
    var dictionary := field.0;
    if field.1 != |data| {
      return Err(InvalidAppDataDictionary);
    }
    var offset := 0;
    while offset < |dictionary|
      invariant ScanDictionary(dictionary, offset) == ScanDictionary(dictionary, 0)
      decreases |dictionary| - offset
    {
      if offset + 1 >= |dictionary| {
        return Err(UnexpectedEof);
      }
      var componentId := Number(dictionary[offset..offset + 2]);
      var component :- ReadVarBytes(dictionary, offset + 2);
      offset := component.1;
      if componentId == LAST_RESORT_COMPONENT && component.0 == [] {
        return Ok(true);
      }
    }
    return Ok(false);
  }

  method DetectLastResort(extensions: Bytes) returns (r: Result<bool>)
    ensures r == Detect(extensions, 0)
  {
    var i := 0;
    while i < |extensions|
      invariant Detect(extensions, i) == Detect(extensions, 0)
      decreases |extensions| - i
    {
      if i + 1 >= |extensions| {
        return Err(UnexpectedEof);
      }
      var extType := Number(extensions[i..i + 2]);
      var ext :- ReadVarBytes(extensions, i + 2);
      i := ext.1;
      if extType == APP_DATA_DICTIONARY {
        var found :- IsLastResortExtension(ext.0);
        if found {
          return Ok(true);
        }
      }
    }
    return Ok(false);
  }

  /** A read returns the field at the cursor and moves past it, or fails and stays. */
  ghost predicate Reads(b: Bytes, was: nat, kind: Kind, data: Result<Bytes>, now: nat) {
    match Field(b, was, kind)
    case Err(e) => data == Err(e) && now == was
    case Ok(f) => data == Ok(f.0) && now == f.1
  }

  ghost predicate ReadsNumber(b: Bytes, was: nat, size: nat, n: Result<nat>, now: nat) {
    match Field(b, was, Fixed(size))
    case Err(e) => n == Err(e) && now == was
    case Ok(f) => n == Ok(Number(f.0)) && now == f.1
  }

  class Cursor {
    const b: Bytes
    var i: nat

    constructor (b: Bytes)
      ensures this.b == b && i == 0
    {
      this.b := b;
      i := 0;
    }

    method U8() returns (r: Result<nat>)
      modifies this
      ensures ReadsNumber(b, old(i), 1, r, i)
    {
      if i >= |b| {
        return Err(UnexpectedEof);
      }
      BigEndianOne(0, b[i]);
      assert b[i..i + 1] == [b[i]];
      r := Ok(b[i]);
      i := i + 1;
    }

    method U16() returns (r: Result<nat>)
      modifies this
      ensures ReadsNumber(b, old(i), 2, r, i)
    {
      if i + 2 > |b| {
        return Err(UnexpectedEof);
      }
      var high: nat, low: nat := b[i], b[i + 1];
      BigEndianOne(0, b[i]);
      assert b[i..i + 2] == [b[i], b[i + 1]] && Front([b[i], b[i + 1]]) == [b[i]];
      r := Ok(high * 256 + low);
      i := i + 2;
    }

    method VarBytes() returns (r: Result<Bytes>)
      modifies this
      ensures Reads(b, old(i), Var, r, i)
    {
      var field :- ReadVarBytes(b, i);
      i := field.1;
      return Ok(field.0);
    }

    method Skip(n: nat) returns (r: Result<Bytes>)
      modifies this
      ensures Reads(b, old(i), Fixed(n), r, i)
    {
      if i + n > |b| {
        return Err(UnexpectedEof);
      }
      r := Ok(b[i..i + n]);
      i := i + n;
    }
  }

  /** After `k` fields, read as `got`, the walk continues at offset `i`. */
  ghost predicate Reached(buf: Bytes, utf8: Utf8, k: nat, i: nat, got: seq<Bytes>) {
    && k <= 18 && |got| == k
    && Walk(buf, 0, KeyPackageItems(), [], utf8) == Walk(buf, i, KeyPackageItems()[k..], got, utf8)
  }

  lemma Start(buf: Bytes, utf8: Utf8)
    ensures Reached(buf, utf8, 0, 0, [])
  {
    hide KeyPackageItems;
    assert KeyPackageItems()[0..] == KeyPackageItems();
  }

  lemma Next(buf: Bytes, utf8: Utf8, k: nat, i: nat, got: seq<Bytes>, item: Item)
    requires Reached(buf, utf8, k, i, got) && k < 18 && item == KeyPackageItems()[k]
    ensures match Field(buf, i, item.kind)
            case Err(e) => Parse(buf, utf8) == Err(e)
            case Ok(f) =>
              match Verify(item.check, f.0, utf8)
              case Some(e) => Parse(buf, utf8) == Err(e)
              case None => Reached(buf, utf8, k + 1, f.1, got + [f.0])
  {
    hide KeyPackageItems, Field, Verify, Detect;
    assert KeyPackageItems()[k..][1..] == KeyPackageItems()[k + 1..];
  }

  lemma Finished(buf: Bytes, utf8: Utf8, i: nat, got: seq<Bytes>)
    requires Reached(buf, utf8, 18, i, got)
    ensures Parse(buf, utf8) == if i != |buf| then Err(TrailingData) else
              Ok(Parsed(got[6], Number(got[1]), Detect(got[16], 0).Ok? && Detect(got[16], 0).value))
  {
    hide KeyPackageItems, Detect;
    assert KeyPackageItems()[18..] == [];
  }

  lemma ItemsByPosition()
    ensures var items := KeyPackageItems();
            && items[0] == Item(Fixed(2), Version) && items[1] == Item(Fixed(2), Any)
            && items[5] == Item(Fixed(2), Credential) && items[6] == Item(Var, Identity)
            && items[12] == Item(Fixed(1), Source) && items[13] == Item(Fixed(16), Any)
            && items[16] == Item(Var, Extensions)
  {
  }

  predicate IsOpaque(k: nat) {
    2 <= k <= 4 || 7 <= k <= 11 || k == 14 || k == 15 || k == 17
  }

  lemma OpaqueItems(k: nat)
    requires IsOpaque(k)
    ensures KeyPackageItems()[k] == Opaque()
  {
  }

  /** A length-prefixed field that nothing looks into. */
  method PassOpaque(c: Cursor, utf8: Utf8, ghost k: nat, ghost got: seq<Bytes>) returns (r: Result<Bytes>)
    requires Reached(c.b, utf8, k, c.i, got) && IsOpaque(k)
    modifies c
    ensures r.Err? ==> Parse(c.b, utf8) == Err(r.error)
    ensures r.Ok? ==> Reached(c.b, utf8, k + 1, c.i, got + [r.value])
  {
    hide Field, Parse, Reached, KeyPackageItems;
    OpaqueItems(k);
    Next(c.b, utf8, k, c.i, got, Opaque());
    r := c.VarBytes();
  }

  /** The five capability lists. */
  method PassCapabilities(c: Cursor, utf8: Utf8, ghost read: seq<Bytes>) returns (r: Result<()>, ghost got: seq<Bytes>)
    requires Reached(c.b, utf8, 7, c.i, read) && |read| == 7
    modifies c
    ensures r.Err? ==> Parse(c.b, utf8) == Err(r.error)
    ensures r.Ok? ==> Reached(c.b, utf8, 12, c.i, got) && |got| == 12 && got[..7] == read
  {
    hide Parse, Reached;
    got := read;
    for k := 0 to 5
      invariant Reached(c.b, utf8, 7 + k, c.i, got)
      invariant |got| == 7 + k && got[..7] == read
    {
      var skipped := PassOpaque(c, utf8, 7 + k, got);
      if skipped.Err? {
        return Err(skipped.error), got;
      }
      got := got + [skipped.value];
    }
    r := Ok(());
  }

  /** Version, cipher suite and init key. */
  method ReadHead(c: Cursor, utf8: Utf8) returns (r: Result<nat>, ghost got: seq<Bytes>)
    requires c.i == 0
    modifies c
    ensures r.Err? ==> Parse(c.b, utf8) == Err(r.error)
    ensures r.Ok? ==> Reached(c.b, utf8, 3, c.i, got) && |got| == 3 && Number(got[1]) == r.value
  {
    hide Field, Parse, Reached, KeyPackageItems, Number;
    ItemsByPosition();
    got := [];
    Start(c.b, utf8);
    Next(c.b, utf8, 0, 0, got, Item(Fixed(2), Version));
    ghost var first := Field(c.b, 0, Fixed(2));
    var version :- c.U16();
    if version != 1 {
      return Err(UnsupportedVersion(version)), got;
    }
    got := got + [first.value.0];
    Next(c.b, utf8, 1, c.i, got, Item(Fixed(2), Any));
    ghost var second := Field(c.b, c.i, Fixed(2));
    var cipherSuite :- c.U16();
    got := got + [second.value.0];
    var initKey :- PassOpaque(c, utf8, 2, got);
    got := got + [initKey];
    r := Ok(cipherSuite);
  }

  /** Leaf keys and the basic credential. */
  method ReadCredential(c: Cursor, utf8: Utf8, ghost read: seq<Bytes>) returns (r: Result<Bytes>, ghost got: seq<Bytes>)
    requires Reached(c.b, utf8, 3, c.i, read) && |read| == 3
    modifies c
    ensures r.Err? ==> Parse(c.b, utf8) == Err(r.error)
    ensures r.Ok? ==> Reached(c.b, utf8, 7, c.i, got) && |got| == 7 && got[..3] == read && got[6] == r.value
  {
    hide Field, Parse, Reached, KeyPackageItems, Number;
    got := read;
    var hpkeKey :- PassOpaque(c, utf8, 3, got);
    got := got + [hpkeKey];
    var signatureKey :- PassOpaque(c, utf8, 4, got);
    got := got + [signatureKey];
    ItemsByPosition();
    Next(c.b, utf8, 5, c.i, got, Item(Fixed(2), Credential));
    ghost var field := Field(c.b, c.i, Fixed(2));
    var credentialType :- c.U16();
    if credentialType != 1 {
      return Err(UnsupportedCredential(credentialType)), got;
    }
    got := got + [field.value.0];
    Next(c.b, utf8, 6, c.i, got, Item(Var, Identity));
    var identity :- c.VarBytes();
    if !utf8(identity) {
      return Err(InvalidIdentity), got;
    }
    got := got + [identity];
    r := Ok(identity);
  }

  /** Leaf source, lifetime, extensions and signature. */
  method ReadSource(c: Cursor, utf8: Utf8, ghost read: seq<Bytes>) returns (r: Result<()>, ghost got: seq<Bytes>)
    requires Reached(c.b, utf8, 12, c.i, read) && |read| == 12
    modifies c
    ensures r.Err? ==> Parse(c.b, utf8) == Err(r.error)
    ensures r.Ok? ==> Reached(c.b, utf8, 16, c.i, got) && |got| == 16 && got[..12] == read
  {
    hide Field, Parse, Reached, KeyPackageItems, Number;
    got := read;
    ItemsByPosition();
    Next(c.b, utf8, 12, c.i, got, Item(Fixed(1), Source));
    ghost var field := Field(c.b, c.i, Fixed(1));
    var source :- c.U8();
    if source != 1 {
      return Err(UnexpectedLeafNodeSource(source)), got;
    }
    got := got + [field.value.0];
    Next(c.b, utf8, 13, c.i, got, Item(Fixed(16), Any));
    var lifetime :- c.Skip(16);
    got := got + [lifetime];
    var extensions :- PassOpaque(c, utf8, 14, got);
    got := got + [extensions];
    var signature :- PassOpaque(c, utf8, 15, got);
    got := got + [signature];
    r := Ok(());
  }

  /** The key-package extensions and the closing signature. */
  method ReadTail(c: Cursor, utf8: Utf8, ghost read: seq<Bytes>) returns (r: Result<bool>, ghost got: seq<Bytes>)
    requires Reached(c.b, utf8, 16, c.i, read) && |read| == 16
    modifies c
    ensures r.Err? ==> Parse(c.b, utf8) == Err(r.error)
    ensures r.Ok? ==> Reached(c.b, utf8, 18, c.i, got) && |got| == 18 && got[..16] == read
    ensures r.Ok? ==> Detect(got[16], 0) == Ok(r.value)
  {
    hide Field, Parse, Reached, KeyPackageItems, Number, Detect;
    got := read;
    ItemsByPosition();
    Next(c.b, utf8, 16, c.i, got, Item(Var, Extensions));
    var extensions :- c.VarBytes();
    var isLastResort :- DetectLastResort(extensions);
    got := got + [extensions];
    var signature :- PassOpaque(c, utf8, 17, got);
    got := got + [signature];
    r := Ok(isLastResort);
  }

  method ParseKeyPackage(bytes: Bytes, utf8: Utf8) returns (r: Result<Parsed>)
    ensures r == Parse(bytes, utf8)
  {
    hide Parse, Reached, Number, Detect;
    var c := new Cursor(bytes);
    var cipherSuite, head :- ReadHead(c, utf8);
    var identity, credential :- ReadCredential(c, utf8, head);
    var _, capabilities :- PassCapabilities(c, utf8, credential);
    var _, leaf :- ReadSource(c, utf8, capabilities);
    var isLastResort, got :- ReadTail(c, utf8, leaf);
    Finished(bytes, utf8, c.i, got);
    if c.i != |bytes| {
      return Err(TrailingData);
    }
    r := Ok(Parsed(identity, cipherSuite, isLastResort));
  }
}
