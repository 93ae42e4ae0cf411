/** The wire format walked by mls_parse.rs: length headers (section 2.1.2 of
    RFC 9420, without the 8-byte form), and a key package (section 10) as a list
    of fields with a check on some of them. */
module MlsFormat {
  import opened Seqs
  import opened Records

  datatype Error =
    | UnexpectedEof
    | UnsupportedVersion(version: nat)
    | UnsupportedCredential(credentialType: nat)
    | UnexpectedLeafNodeSource(source: nat)
    | UnsupportedLengthPrefix
    | InvalidAppDataDictionary
    | InvalidIdentity
    | TrailingData

  datatype Result<+T> = Ok(value: T) | Err(error: Error) {
    predicate IsFailure() {
      Err?
    }

    function PropagateFailure<U>(): Result<U>
      requires Err?
    {
      Err(error)
    }

    function Extract(): T
      requires Ok?
    {
      value
    }
  }

  const APP_DATA_DICTIONARY := 6
  const LAST_RESORT_COMPONENT := 4

  // ----- Numbers and length-prefixed fields -----

  /** The big-endian number whose leading digits are `acc`. */
  function BigEndian(acc: nat, bs: Bytes): nat {
    if bs == [] then acc else BigEndian(acc, Front(bs)) * 256 + Last(bs)
  }

  function Number(bs: Bytes): nat {
    BigEndian(0, bs)
  }

  /** Bytes in the header announced by its first byte. */
  function HeaderSize(first: byte): nat
    requires first / 64 < 3
  {
    if first / 64 == 0 then 1 else if first / 64 == 1 then 2 else 4
  }

  function Length(buf: Bytes, offset: nat): nat
    requires offset < |buf| && buf[offset] / 64 < 3 && offset + HeaderSize(buf[offset]) <= |buf|
  {
    BigEndian(buf[offset] % 64, buf[offset + 1..offset + HeaderSize(buf[offset])])
  }

  /** The data of the field at `offset` and the offset just past it. */
  function ReadVar(buf: Bytes, offset: nat): (r: Result<(Bytes, nat)>)
    ensures r.Ok? ==> offset < r.value.1 <= |buf| && offset < r.value.1 - |r.value.0|
    ensures r.Ok? ==> r.value.0 == buf[r.value.1 - |r.value.0|..r.value.1]
  {
    if offset >= |buf| then Err(UnexpectedEof)
    else if buf[offset] / 64 == 3 then Err(UnsupportedLengthPrefix)
    else
      var start := offset + HeaderSize(buf[offset]);
      if start > |buf| then Err(UnexpectedEof)
      else
        var end := start + Length(buf, offset);
        if end > |buf| then Err(UnexpectedEof) else Ok((buf[start..end], end))
  }

  /** Header bytes for `n`, in the form chosen by `form` (0, 1 or 2). */
  function Header(form: nat, n: nat): Bytes
    requires form < 3 && n < Capacity(form)
  {
    if form == 0 then [n]
    else if form == 1 then [64 + n / 256, n % 256]
    else [128 + n / 16777216, n / 65536 % 256, n / 256 % 256, n % 256]
  }

  /** Lengths below this fit the form; the largest, 2^30, bounds every field. */
  function Capacity(form: nat): nat
    requires form < 3
  {
    if form == 0 then 64 else if form == 1 then 16384 else 1073741824
  }

  function EncodeVar(form: nat, data: Bytes): Bytes
    requires form < 3 && |data| < Capacity(form)
  {
    Header(form, |data|) + data
  }

  lemma BigEndianOne(acc: nat, b: byte)
    ensures BigEndian(acc, [b]) == acc * 256 + b
  {
    assert Front([b]) == [];
  }

  lemma BigEndianThree(acc: nat, a: byte, b: byte, c: byte)
    ensures BigEndian(acc, [a, b, c]) == ((acc * 256 + a) * 256 + b) * 256 + c
  {
    assert Front([a, b, c]) == [a, b] && Front([a, b]) == [a];
    BigEndianOne(acc, a);
  }

  /** The four-byte form spells its number in base 256. */
  lemma FourDigits(n: nat)
    requires n < 1073741824
    ensures n / 16777216 < 64
    ensures ((n / 16777216 * 256 + n / 65536 % 256) * 256 + n / 256 % 256) * 256 + n % 256 == n
  {
    var a, b, c := n / 256, n / 65536, n / 16777216;
    assert a == n / 256 && n == a * 256 + n % 256;
    assert b == a / 256 && c == b / 256;
  }

  /** A header read at its own offset gives back its size and number. */
  lemma HeaderReads(form: nat, n: nat)
    requires form < 3 && n < Capacity(form)
    ensures var h := Header(form, n);
            h[0] / 64 == form && |h| == HeaderSize(h[0]) && BigEndian(h[0] % 64, h[1..]) == n
  {
    var h := Header(form, n);
    if form == 0 {
      assert h[1..] == [];
    } else if form == 1 {
      BigEndianOne(h[0] % 64, h[1]);
      assert h[1..] == [h[1]];
    } else {
      FourDigits(n);
      BigEndianThree(h[0] % 64, h[1], h[2], h[3]);
      assert h[1..] == [h[1], h[2], h[3]];
    }
  }

  /** The bytes `e` stand in `buf` at offset `i`. */
  predicate At(buf: Bytes, i: nat, e: Bytes) {
    i + |e| <= |buf| && buf[i..i + |e|] == e
  }

  lemma AtSplit(buf: Bytes, i: nat, a: Bytes, b: Bytes)
    ensures At(buf, i, a + b) <==> At(buf, i, a) && At(buf, i + |a|, b)
  {
    if At(buf, i, a + b) {
      assert a == (a + b)[..|a|] && b == (a + b)[|a|..];
      assert buf[i..i + |a|] == buf[i..i + |a + b|][..|a|];
      assert buf[i + |a|..i + |a + b|] == buf[i..i + |a + b|][|a|..];
    }
    if At(buf, i, a) && At(buf, i + |a|, b) {
      assert buf[i..i + |a + b|] == buf[i..i + |a|] + buf[i + |a|..i + |a| + |b|];
    }
  }

  lemma AtWhole(e: Bytes)
    ensures At(e, 0, e)
  {
    assert e[0..|e|] == e;
  }

  /** Every form a length can be written in is read back, minimal or not. */
  lemma ReadEncoded(buf: Bytes, i: nat, form: nat, data: Bytes)
    requires form < 3 && |data| < Capacity(form) && At(buf, i, EncodeVar(form, data))
    ensures ReadVar(buf, i) == Ok((data, i + |EncodeVar(form, data)|))
  {
    var h := Header(form, |data|);
    HeaderReads(form, |data|);
    AtSplit(buf, i, h, data);
    assert buf[i] == buf[i..i + |h|][0];
    assert buf[i + 1..i + |h|] == buf[i..i + |h|][1..];
  }

  lemma DigitsOf(a: nat, b: nat, c: nat, d: nat)
    requires a < 64 && b < 256 && c < 256 && d < 256
    ensures var n := ((a * 256 + b) * 256 + c) * 256 + d;
            && n < 1073741824 && n / 16777216 == a && n / 65536 % 256 == b && n / 256 % 256 == c && n % 256 == d
  {
    var n := ((a * 256 + b) * 256 + c) * 256 + d;
    assert n / 256 == (a * 256 + b) * 256 + c;
    assert n / 65536 == a * 256 + b;
  }

  lemma HeaderOf(h: Bytes)
    requires h != [] && h[0] / 64 < 3 && |h| == HeaderSize(h[0])
    ensures var n := BigEndian(h[0] % 64, h[1..]); n < Capacity(h[0] / 64) && Header(h[0] / 64, n) == h
  {
    if |h| == 1 {
      assert h[1..] == [];
    } else if |h| == 2 {
      assert h[1..] == [h[1]];
      BigEndianOne(h[0] % 64, h[1]);
    } else {
      assert h[1..] == [h[1], h[2], h[3]];
      BigEndianThree(h[0] % 64, h[1], h[2], h[3]);
      DigitsOf(h[0] % 64, h[1], h[2], h[3]);
      assert h == [h[0], h[1], h[2], h[3]];
    }
  }

  /** Whatever is read was an encoding, in the form its first byte announces. */
  lemma ReadIsEncoding(buf: Bytes, offset: nat)
    requires ReadVar(buf, offset).Ok?
    ensures var (data, end) := ReadVar(buf, offset).value; var form := buf[offset] / 64;
            form < 3 && |data| < Capacity(form) && buf[offset..end] == EncodeVar(form, data)
  {
    var (data, end) := ReadVar(buf, offset).value;
    var h := buf[offset..offset + HeaderSize(buf[offset])];
    assert h[1..] == buf[offset + 1..offset + HeaderSize(buf[offset])];
    HeaderOf(h);
    assert buf[offset..end] == h + data;
  }

  /** A field is read if and only if some encoding stands there; else a first byte of the
      reserved 8-byte form is answered as such, and anything else as an unexpected end. */
  lemma ReadVerdict(buf: Bytes, i: nat)
    ensures ReadVar(buf, i).Ok? <==>
            exists form: nat, data :: form < 3 && |data| < Capacity(form) && At(buf, i, EncodeVar(form, data))
    ensures ReadVar(buf, i).Err? ==>
              ReadVar(buf, i).error == if i < |buf| && buf[i] >= 192 then UnsupportedLengthPrefix else UnexpectedEof
  {
    hide EncodeVar;
    if ReadVar(buf, i).Ok? {
      ReadIsEncoding(buf, i);
      assert At(buf, i, EncodeVar(buf[i] / 64, ReadVar(buf, i).value.0));
    }
    if form: nat, data :| form < 3 && |data| < Capacity(form) && At(buf, i, EncodeVar(form, data)) {
      ReadEncoded(buf, i, form, data);
    }
  }
}
