/** Extension lists and app-data dictionaries: both are lists of a 16-bit tag and
    a length-prefixed field. The last-resort marker is component 4 with no data in
    an extension of type 6. */
module MlsExtensions {
  import opened Seqs
  import opened Records
  import opened MlsFormat

  /** A tag, its data, and the offset just past both. */
  function ReadTagged(buf: Bytes, i: nat): (r: Result<(nat, Bytes, nat)>)
    ensures r.Ok? ==> i + 2 < r.value.2 <= |buf|
  {
    if i + 2 > |buf| then Err(UnexpectedEof)
    else
      match ReadVar(buf, i + 2)
      case Err(e) => Err(e)
      case Ok(field) => Ok((Number(buf[i..i + 2]), field.0, field.1))
  }

  function ScanDictionary(dict: Bytes, i: nat): Result<bool>
    decreases |dict| - i
  {
    if i >= |dict| then Ok(false)
    else
      match ReadTagged(dict, i)
      case Err(e) => Err(e)
      case Ok(c) => if c.0 == LAST_RESORT_COMPONENT && c.1 == [] then Ok(true) else ScanDictionary(dict, c.2)
  }

  function IsLastResort(data: Bytes): Result<bool> {
    match ReadVar(data, 0)
    case Err(e) => Err(e)
    case Ok(field) => if field.1 != |data| then Err(InvalidAppDataDictionary) else ScanDictionary(field.0, 0)
  }

  function Detect(ext: Bytes, i: nat): Result<bool>
    decreases |ext| - i
  {
    if i >= |ext| then Ok(false)
    else
      match ReadTagged(ext, i)
      case Err(e) => Err(e)
      case Ok(e) =>
        if e.0 != APP_DATA_DICTIONARY then Detect(ext, e.2)
        else
          match IsLastResort(e.1)
          case Err(error) => Err(error)
          case Ok(found) => if found then Ok(true) else Detect(ext, e.2)
  }

  // ----- The abstract lists and their encodings -----

  datatype Tagged = Tagged(tag: nat, form: nat, data: Bytes)

  predicate TaggedOk(t: Tagged) {
    t.tag < 65536 && t.form < 3 && |t.data| < Capacity(t.form)
  }

  function EncodeU16(n: nat): Bytes
    requires n < 65536
  {
    [n / 256, n % 256]
  }

  function EncodeTagged(t: Tagged): Bytes
    requires TaggedOk(t)
  {
    EncodeU16(t.tag) + EncodeVar(t.form, t.data)
  }

  predicate AllOk(ts: seq<Tagged>) {
    forall i :: 0 <= i < |ts| ==> TaggedOk(ts[i])
  }

  function EncodeTags(ts: seq<Tagged>): Bytes
    requires AllOk(ts)
  {
    if ts == [] then [] else EncodeTagged(ts[0]) + EncodeTags(ts[1..])
  }

  lemma NumberU16(n: nat)
    requires n < 65536
    ensures Number(EncodeU16(n)) == n
  {
    assert Front(EncodeU16(n)) == [n / 256];
    BigEndianOne(0, n / 256);
  }

  lemma ReadTaggedEncoded(buf: Bytes, i: nat, t: Tagged)
    requires TaggedOk(t) && At(buf, i, EncodeTagged(t))
    ensures ReadTagged(buf, i) == Ok((t.tag, t.data, i + |EncodeTagged(t)|))
  {
    NumberU16(t.tag);
    AtSplit(buf, i, EncodeU16(t.tag), EncodeVar(t.form, t.data));
    ReadEncoded(buf, i + 2, t.form, t.data);
  }

  predicate Marks(t: Tagged) {
    t.tag == LAST_RESORT_COMPONENT && t.data == []
  }

  predicate AnyMarks(ts: seq<Tagged>) {
    ts != [] && (Marks(ts[0]) || AnyMarks(ts[1..]))
  }

  lemma ScanOne(buf: Bytes, i: nat, t: Tagged)
    requires TaggedOk(t) && At(buf, i, EncodeTagged(t))
    ensures ScanDictionary(buf, i) == if Marks(t) then Ok(true) else ScanDictionary(buf, i + |EncodeTagged(t)|)
  {
    hide ReadTagged, At, EncodeTagged;
    ReadTaggedEncoded(buf, i, t);
  }

  /** Scanning stops at the first marker; without one it goes on past the list. */
  lemma {:induction false} ScanEncoded(buf: Bytes, i: nat, ts: seq<Tagged>)
    requires AllOk(ts) && At(buf, i, EncodeTags(ts))
    ensures ScanDictionary(buf, i) == if AnyMarks(ts) then Ok(true) else ScanDictionary(buf, i + |EncodeTags(ts)|)
    decreases |ts|
  {
    hide ScanDictionary, At;
    if ts != [] {
      var head := EncodeTagged(ts[0]);
      AtSplit(buf, i, head, EncodeTags(ts[1..]));
      ScanOne(buf, i, ts[0]);
      ScanEncoded(buf, i + |head|, ts[1..]);
    }
  }

  datatype Extension =
    | Other(tag: nat, form: nat, data: Bytes)
    | Dictionary(form: nat, innerForm: nat, components: seq<Tagged>)

  predicate ExtensionOk(e: Extension) {
    match e
    case Other(tag, form, data) => tag != APP_DATA_DICTIONARY && TaggedOk(Tagged(tag, form, data))
    case Dictionary(form, inner, cs) =>
      && form < 3 && inner < 3 && AllOk(cs)
      && |EncodeTags(cs)| < Capacity(inner) && |EncodeVar(inner, EncodeTags(cs))| < Capacity(form)
  }

  function AsTagged(e: Extension): (t: Tagged)
    requires ExtensionOk(e)
    ensures TaggedOk(t)
  {
    match e
    case Other(tag, form, data) => Tagged(tag, form, data)
    case Dictionary(form, inner, cs) => Tagged(APP_DATA_DICTIONARY, form, EncodeVar(inner, EncodeTags(cs)))
  }

  predicate ExtensionsOk(es: seq<Extension>) {
    forall i :: 0 <= i < |es| ==> ExtensionOk(es[i])
  }

  function EncodeExtensions(es: seq<Extension>): Bytes
    requires ExtensionsOk(es)
  {
    if es == [] then [] else EncodeTagged(AsTagged(es[0])) + EncodeExtensions(es[1..])
  }

  predicate IsMarker(e: Extension) {
    e.Dictionary? && AnyMarks(e.components)
  }

  predicate HasMarker(es: seq<Extension>) {
    es != [] && (IsMarker(es[0]) || HasMarker(es[1..]))
  }

  /** The recursive tests mean what they say: some component of some dictionary
      extension has id 4 and no data. */
  lemma {:induction false} AnyMarksMeaning(ts: seq<Tagged>)
    ensures AnyMarks(ts) <==> exists t :: t in ts && t.tag == 4 && t.data == []
    decreases |ts|
  {
    if ts != [] {
      AnyMarksMeaning(ts[1..]);
      assert ts == [ts[0]] + ts[1..];
    }
  }

  /** Dictionaries are the extensions that are written with type 6. */
  lemma DictionaryIsTypeSix(e: Extension)
    requires ExtensionOk(e)
    ensures AsTagged(e).tag == 6 <==> e.Dictionary?
  {
  }

  lemma {:induction false} HasMarkerMeaning(es: seq<Extension>)
    ensures HasMarker(es) <==> exists e, t :: e in es && e.Dictionary? && t in e.components &&
                                              t.tag == 4 && t.data == []
    decreases |es|
  {
    if es != [] {
      HasMarkerMeaning(es[1..]);
      assert es == [es[0]] + es[1..];
      if es[0].Dictionary? {
        AnyMarksMeaning(es[0].components);
      }
    }
  }

  /** A well-formed dictionary is recognised by its components. */
  lemma DictionaryRecognised(e: Extension)
    requires ExtensionOk(e) && e.Dictionary?
    ensures IsLastResort(AsTagged(e).data) == Ok(IsMarker(e))
  {
    hide ReadVar, ScanDictionary, At, EncodeVar, EncodeTags;
    var dict := EncodeTags(e.components);
    AtWhole(EncodeVar(e.innerForm, dict));
    ReadEncoded(EncodeVar(e.innerForm, dict), 0, e.innerForm, dict);
    AtWhole(dict);
    ScanEncoded(dict, 0, e.components);
    ScanEnds(dict);
  }

  lemma ScanEnds(dict: Bytes)
    ensures ScanDictionary(dict, |dict|) == Ok(false)
  {
  }

  lemma DetectOne(buf: Bytes, i: nat, e: Extension)
    requires ExtensionOk(e) && At(buf, i, EncodeTagged(AsTagged(e)))
    ensures Detect(buf, i) == if IsMarker(e) then Ok(true) else Detect(buf, i + |EncodeTagged(AsTagged(e))|)
  {
    hide ReadTagged, IsLastResort, At, EncodeTagged;
    ReadTaggedEncoded(buf, i, AsTagged(e));
    if e.Dictionary? {
      DictionaryRecognised(e);
    }
  }

  /** Detection over well-formed extensions, whatever follows them: true at the
      first marker (what follows is then not looked at), otherwise on past them. */
  lemma {:induction false} DetectEncoded(buf: Bytes, i: nat, es: seq<Extension>)
    requires ExtensionsOk(es) && At(buf, i, EncodeExtensions(es))
    ensures Detect(buf, i) == if HasMarker(es) then Ok(true) else Detect(buf, i + |EncodeExtensions(es)|)
    decreases |es|
  {
    hide Detect, At, EncodeTagged, AsTagged;
    if es != [] {
      var head := EncodeTagged(AsTagged(es[0]));
      AtSplit(buf, i, head, EncodeExtensions(es[1..]));
      DetectOne(buf, i, es[0]);
      DetectEncoded(buf, i + |head|, es[1..]);
    }
  }

  /** On a well-formed extension list detection succeeds and finds exactly the marker. */
  lemma DetectIsExact(es: seq<Extension>)
    requires ExtensionsOk(es)
    ensures Detect(EncodeExtensions(es), 0) == Ok(HasMarker(es))
  {
    hide ReadTagged, IsLastResort, At, EncodeExtensions, HasMarker;
    AtWhole(EncodeExtensions(es));
    DetectEncoded(EncodeExtensions(es), 0, es);
  }
}
