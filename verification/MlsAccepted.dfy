/** Exactly which extension bytes are accepted, said by the encoder alone: a
    well-formed list without a marker, or one up to and including a marker with
    anything behind it, in the dictionary and in the list. */
module MlsAccepted {
  import opened Seqs
  import opened Records
  import opened MlsFormat
  import opened MlsExtensions
  import opened MlsWalker

  // ----- What was read was written -----

  lemma U16Number(bs: Bytes)
    requires |bs| == 2
    ensures Number(bs) < 65536 && EncodeU16(Number(bs)) == bs
  {
    var high: nat, low: nat := bs[0], bs[1];
    assert Front(bs) == [bs[0]];
    BigEndianOne(0, bs[0]);
    assert Number(bs) == high * 256 + low;
  }

  lemma TaggedIsEncoding(buf: Bytes, i: nat) returns (t: Tagged)
    requires ReadTagged(buf, i).Ok?
    ensures TaggedOk(t) && ReadTagged(buf, i) == Ok((t.tag, t.data, i + |EncodeTagged(t)|))
    ensures buf[i..i + |EncodeTagged(t)|] == EncodeTagged(t)
  {
    hide ReadVar, Number;
    var (tag, data, end) := ReadTagged(buf, i).value;
    U16Number(buf[i..i + 2]);
    ReadIsEncoding(buf, i + 2);
    t := Tagged(tag, buf[i + 2] / 64, data);
    assert buf[i..end] == buf[i..i + 2] + buf[i + 2..end];
  }

  lemma TagsPush(t: Tagged, ts: seq<Tagged>)
    requires TaggedOk(t) && AllOk(ts)
    ensures AllOk([t] + ts) && EncodeTags([t] + ts) == EncodeTagged(t) + EncodeTags(ts)
    ensures AnyMarks([t] + ts) <==> Marks(t) || AnyMarks(ts)
  {
    assert ([t] + ts)[1..] == ts;
  }

  lemma Slices(buf: Bytes, i: nat, j: nat, head: Bytes, tail: Bytes)
    requires i <= j <= |buf| && buf[i..j] == head && buf[j..] == tail
    ensures buf[i..] == head + tail
  {
    assert buf[i..] == buf[i..j] + buf[j..];
  }

  /** A dictionary scanned without finding a marker is a list without one. */
  lemma {:induction false} ScanFalse(dict: Bytes, i: nat) returns (ts: seq<Tagged>)
    requires i <= |dict| && ScanDictionary(dict, i) == Ok(false)
    ensures AllOk(ts) && !AnyMarks(ts) && dict[i..] == EncodeTags(ts)
    decreases |dict| - i
  {
    hide ReadTagged, EncodeTagged;
    ts := [];
    if i < |dict| {
      ScanReads(dict, i);
      var t := TaggedIsEncoding(dict, i);
      var j := i + |EncodeTagged(t)|;
      var rest := ScanFalse(dict, j);
      TagsPush(t, rest);
      Slices(dict, i, j, EncodeTagged(t), EncodeTags(rest));
      ts := [t] + rest;
    }
  }

  lemma ScanReads(dict: Bytes, i: nat)
    requires i < |dict| && ScanDictionary(dict, i).Ok?
    ensures ReadTagged(dict, i).Ok? && i < ReadTagged(dict, i).value.2 <= |dict|
  {
  }

  /** One in which a marker is found is a list up to that marker, then anything. */
  lemma {:induction false} ScanTrue(dict: Bytes, i: nat) returns (ts: seq<Tagged>, t: Tagged, rest: Bytes)
    requires i <= |dict| && ScanDictionary(dict, i) == Ok(true)
    ensures AllOk(ts) && !AnyMarks(ts) && TaggedOk(t) && Marks(t)
    ensures dict[i..] == EncodeTags(ts) + EncodeTagged(t) + rest
    decreases |dict| - i
  {
    hide ReadTagged, EncodeTagged;
    ScanReads(dict, i);
    var head := TaggedIsEncoding(dict, i);
    var j := i + |EncodeTagged(head)|;
    if Marks(head) {
      ts, t, rest := [], head, dict[j..];
      Slices(dict, i, j, EncodeTagged(head), dict[j..]);
      assert EncodeTags([]) + EncodeTagged(head) == EncodeTagged(head);
    } else {
      var more;
      more, t, rest := ScanTrue(dict, j);
      TagsPush(head, more);
      Slices(dict, i, j, EncodeTagged(head), EncodeTags(more) + EncodeTagged(t) + rest);
      ts := [head] + more;
      assert EncodeTagged(head) + (EncodeTags(more) + EncodeTagged(t) + rest) ==
             EncodeTags(ts) + EncodeTagged(t) + rest;
    }
  }

  lemma DictionaryIsEncoding(data: Bytes) returns (form: nat, dict: Bytes)
    requires IsLastResort(data).Ok?
    ensures form < 3 && |dict| < Capacity(form) && data == EncodeVar(form, dict)
    ensures ScanDictionary(dict, 0) == IsLastResort(data)
  {
    hide ReadVar, ScanDictionary;
    ReadIsEncoding(data, 0);
    form, dict := data[0] / 64, ReadVar(data, 0).value.0;
    assert data[0..|data|] == data;
  }

  /** A dictionary extension without a marker is a well-formed one. */
  lemma PlainExtension(t: Tagged) returns (e: Extension)
    requires TaggedOk(t) && (t.tag == APP_DATA_DICTIONARY ==> IsLastResort(t.data) == Ok(false))
    ensures ExtensionOk(e) && AsTagged(e) == t && !IsMarker(e)
  {
    hide ReadVar, ScanDictionary, EncodeTags;
    if t.tag == APP_DATA_DICTIONARY {
      var form, dict := DictionaryIsEncoding(t.data);
      var ts := ScanFalse(dict, 0);
      assert dict[0..] == dict;
      e := Dictionary(t.form, form, ts);
    } else {
      e := Other(t.tag, t.form, t.data);
    }
  }

  lemma ExtensionsPush(e: Extension, es: seq<Extension>)
    requires ExtensionOk(e) && ExtensionsOk(es)
    ensures ExtensionsOk([e] + es)
    ensures EncodeExtensions([e] + es) == EncodeTagged(AsTagged(e)) + EncodeExtensions(es)
    ensures HasMarker([e] + es) <==> IsMarker(e) || HasMarker(es)
  {
    assert ([e] + es)[1..] == es;
  }

  /** What one extension does to the detection. */
  lemma DetectReads(ext: Bytes, i: nat)
    requires i < |ext| && Detect(ext, i).Ok?
    ensures ReadTagged(ext, i).Ok?
    ensures var (tag, data, end) := ReadTagged(ext, i).value;
            && i < end <= |ext|
            && (tag == APP_DATA_DICTIONARY ==> IsLastResort(data).Ok?)
            && Detect(ext, i) ==
               if tag == APP_DATA_DICTIONARY && IsLastResort(data).value then Ok(true) else Detect(ext, end)
  {
    hide ReadTagged, IsLastResort;
  }

  lemma {:induction false} DetectFalse(ext: Bytes, i: nat) returns (es: seq<Extension>)
    requires i <= |ext| && Detect(ext, i) == Ok(false)
    ensures ExtensionsOk(es) && !HasMarker(es) && ext[i..] == EncodeExtensions(es)
    decreases |ext| - i
  {
    hide ReadTagged, EncodeTagged, IsLastResort, AsTagged, IsMarker, ExtensionOk;
    es := [];
    if i < |ext| {
      DetectReads(ext, i);
      var t := TaggedIsEncoding(ext, i);
      var e := PlainExtension(t);
      var j := i + |EncodeTagged(t)|;
      var rest := DetectFalse(ext, j);
      ExtensionsPush(e, rest);
      Slices(ext, i, j, EncodeTagged(t), EncodeExtensions(rest));
      es := [e] + rest;
    }
  }

  // ----- Lists with a marker -----

  /** A list up to and including its first marker, and what follows it. */
  datatype Marked = Marked(
    before: seq<Extension>, form: nat, innerForm: nat, components: seq<Tagged>,
    marker: Tagged, rest: Bytes, tail: Bytes)

  predicate DictOk(m: Marked) {
    && AllOk(m.components) && !AnyMarks(m.components) && TaggedOk(m.marker) && Marks(m.marker)
  }

  function Dict(m: Marked): Bytes
    requires DictOk(m)
  {
    EncodeTags(m.components) + EncodeTagged(m.marker) + m.rest
  }

  predicate MarkedOk(m: Marked) {
    && ExtensionsOk(m.before) && !HasMarker(m.before) && DictOk(m)
    && m.form < 3 && m.innerForm < 3 && |Dict(m)| < Capacity(m.innerForm)
    && |EncodeVar(m.innerForm, Dict(m))| < Capacity(m.form)
  }

  function MarkedTag(m: Marked): (t: Tagged)
    requires MarkedOk(m)
    ensures TaggedOk(t)
  {
    Tagged(APP_DATA_DICTIONARY, m.form, EncodeVar(m.innerForm, Dict(m)))
  }

  function EncodeMarked(m: Marked): Bytes
    requires MarkedOk(m)
  {
    EncodeExtensions(m.before) + EncodeTagged(MarkedTag(m)) + m.tail
  }

  lemma MarkedExtension(t: Tagged) returns (m: Marked)
    requires TaggedOk(t) && t.tag == APP_DATA_DICTIONARY && IsLastResort(t.data) == Ok(true)
    ensures MarkedOk(m) && m.before == [] && MarkedTag(m) == t
  {
    hide ReadVar, ScanDictionary, EncodeTags, EncodeTagged, AnyMarks;
    var form, dict := DictionaryIsEncoding(t.data);
    var ts, marker, rest := ScanTrue(dict, 0);
    assert dict[0..] == dict;
    m := Marked([], t.form, form, ts, marker, rest, []);
    assert Dict(m) == dict;
  }

  lemma MarkedPush(e: Extension, m: Marked)
    requires ExtensionOk(e) && !IsMarker(e) && MarkedOk(m)
    ensures var n := m.(before := [e] + m.before);
            MarkedOk(n) && EncodeMarked(n) == EncodeTagged(AsTagged(e)) + EncodeMarked(m)
  {
    hide EncodeTags, EncodeTagged, AsTagged, IsMarker, ExtensionOk, AnyMarks, EncodeVar;
    ExtensionsPush(e, m.before);
    var n := m.(before := [e] + m.before);
    assert Dict(n) == Dict(m) && MarkedTag(n) == MarkedTag(m);
    assert EncodeMarked(n) ==
           EncodeTagged(AsTagged(e)) + (EncodeExtensions(m.before) + EncodeTagged(MarkedTag(m)) + m.tail);
  }

  lemma {:induction false} DetectTrue(ext: Bytes, i: nat) returns (m: Marked)
    requires i <= |ext| && Detect(ext, i) == Ok(true)
    ensures MarkedOk(m) && ext[i..] == EncodeMarked(m)
    decreases |ext| - i
  {
    hide ReadTagged, EncodeTagged, IsLastResort, AsTagged, IsMarker, ExtensionOk, DictOk, Dict, EncodeVar;
    DetectReads(ext, i);
    var t := TaggedIsEncoding(ext, i);
    var j := i + |EncodeTagged(t)|;
    if t.tag == APP_DATA_DICTIONARY && IsLastResort(t.data).value {
      var found := MarkedExtension(t);
      m := found.(tail := ext[j..]);
      SameMark(found, ext[j..]);
      Slices(ext, i, j, EncodeTagged(t), ext[j..]);
      assert EncodeExtensions([]) + EncodeTagged(t) == EncodeTagged(t);
    } else {
      var e := PlainExtension(t);
      var more := DetectTrue(ext, j);
      MarkedPush(e, more);
      Slices(ext, i, j, EncodeTagged(t), EncodeMarked(more));
      m := more.(before := [e] + more.before);
    }
  }

  lemma SameMark(m: Marked, tail: Bytes)
    requires MarkedOk(m)
    ensures MarkedOk(m.(tail := tail)) && MarkedTag(m.(tail := tail)) == MarkedTag(m)
  {
    assert Dict(m.(tail := tail)) == Dict(m);
  }

  // ----- And the other way -----

  lemma MarkedDictionary(m: Marked)
    requires MarkedOk(m)
    ensures IsLastResort(MarkedTag(m).data) == Ok(true)
  {
    hide ReadVar, ScanDictionary, At, EncodeTags, EncodeTagged, EncodeVar, AnyMarks;
    var dict := Dict(m);
    AtWhole(EncodeVar(m.innerForm, dict));
    ReadEncoded(EncodeVar(m.innerForm, dict), 0, m.innerForm, dict);
    AtWhole(dict);
    var head := EncodeTags(m.components);
    AtSplit(dict, 0, head + EncodeTagged(m.marker), m.rest);
    AtSplit(dict, 0, head, EncodeTagged(m.marker));
    ScanEncoded(dict, 0, m.components);
    ScanOne(dict, |head|, m.marker);
  }

  lemma MarkedIsFound(m: Marked)
    requires MarkedOk(m)
    ensures Detect(EncodeMarked(m), 0) == Ok(true)
  {
    hide ReadTagged, IsLastResort, At, EncodeTagged, EncodeExtensions, HasMarker, MarkedTag, DictOk, Dict;
    var b, head := EncodeMarked(m), EncodeExtensions(m.before);
    AtWhole(b);
    AtSplit(b, 0, head + EncodeTagged(MarkedTag(m)), m.tail);
    AtSplit(b, 0, head, EncodeTagged(MarkedTag(m)));
    DetectEncoded(b, 0, m.before);
    MarkedDictionary(m);
    TagIsDictionary(m);
    ReadTaggedEncoded(b, |head|, MarkedTag(m));
    TaggedTakesRoom(MarkedTag(m));
  }

  lemma TagIsDictionary(m: Marked)
    requires MarkedOk(m)
    ensures MarkedTag(m).tag == APP_DATA_DICTIONARY
  {
  }

  lemma TaggedTakesRoom(t: Tagged)
    requires TaggedOk(t)
    ensures |EncodeTagged(t)| > 0
  {
  }

  // ----- The exact conditions -----

  /** A well-formed list without a marker. */
  ghost predicate Markerless(b: Bytes) {
    exists es :: ExtensionsOk(es) && !HasMarker(es) && b == EncodeExtensions(es)
  }

  /** One that is well-formed and markerless up to a dictionary that is well-formed and
      markerless up to a marker, with any bytes behind the marker and the dictionary. */
  ghost predicate MarkedSomewhere(b: Bytes) {
    exists m :: MarkedOk(m) && b == EncodeMarked(m)
  }

  /** No marker is found exactly in the well-formed lists without one. */
  lemma NoMarkerIff(b: Bytes)
    ensures Detect(b, 0) == Ok(false) <==> Markerless(b)
  {
    hide Detect, ExtensionsOk, HasMarker, EncodeExtensions;
    if Detect(b, 0) == Ok(false) {
      var es := DetectFalse(b, 0);
      assert b[0..] == b;
    }
    if es :| ExtensionsOk(es) && !HasMarker(es) && b == EncodeExtensions(es) {
      DetectIsExact(es);
    }
  }

  /** A marker is found exactly in the lists that are marked somewhere. */
  lemma MarkerIff(b: Bytes)
    ensures Detect(b, 0) == Ok(true) <==> MarkedSomewhere(b)
  {
    hide Detect, MarkedOk, EncodeMarked;
    if Detect(b, 0) == Ok(true) {
      var m := DetectTrue(b, 0);
      assert b[0..] == b;
    }
    if m :| MarkedOk(m) && b == EncodeMarked(m) {
      MarkedIsFound(m);
    }
  }

  lemma YesOrNo(found: Result<bool>)
    ensures found == Ok(true) || found == Ok(false) || found.Err?
  {
    match found
    case Ok(yes) => assert found == if yes then Ok(true) else Ok(false);
    case Err(_) =>
  }

  /** So the extensions field of a key package passes exactly in these two forms, and is
      a last resort exactly in the second. */
  lemma ExtensionsPassIff(b: Bytes, utf8: Utf8)
    ensures Verify(Extensions, b, utf8).None? <==> Markerless(b) || MarkedSomewhere(b)
    ensures !(Markerless(b) && MarkedSomewhere(b))
  {
    hide Detect, Markerless, MarkedSomewhere;
    YesOrNo(Detect(b, 0));
    NoMarkerIff(b);
    MarkerIff(b);
  }

  /** Bytes behind the dictionary inside its extension are an error, whatever follows. */
  lemma TrailingDictionaryIsInvalid(es: seq<Extension>, form: nat, dict: Bytes, rest: Bytes, t: Tagged, more: Bytes)
    requires ExtensionsOk(es) && !HasMarker(es) && TaggedOk(t) && t.tag == 6
    requires form < 3 && |dict| < Capacity(form) && t.data == EncodeVar(form, dict) + rest && rest != []
    ensures Detect(EncodeExtensions(es) + EncodeTagged(t) + more, 0) == Err(InvalidAppDataDictionary)
  {
    hide ReadTagged, ReadVar, At, EncodeTagged, EncodeVar, EncodeExtensions, HasMarker, TaggedOk, ExtensionsOk;
    var head, tail := EncodeExtensions(es), EncodeTagged(t);
    var b := head + tail + more;
    AtWhole(b);
    AtSplit(b, 0, head + tail, more);
    AtSplit(b, 0, head, tail);
    DetectEncoded(b, 0, es);
    ReadTaggedEncoded(b, |head|, t);
    TaggedTakesRoom(t);
    AtWhole(t.data);
    AtSplit(t.data, 0, EncodeVar(form, dict), rest);
    ReadEncoded(t.data, 0, form, dict);
  }
}
