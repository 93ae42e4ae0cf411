/** The key-package walker: a key package is a list of fields, fixed or
    length-prefixed, some of which are checked as soon as they are read. */
module MlsWalker {
  import opened Seqs
  import opened Records
  import opened MlsFormat
  import opened MlsExtensions

  datatype Kind = Fixed(size: nat) | Var

  datatype Check = Any | Version | Credential | Identity | Source | Extensions

  datatype Item = Item(kind: Kind, check: Check)

  /** UTF-8 validity is a parameter: the walker only asks whether the identity passes. */
  type Utf8 = Bytes -> bool

  datatype Parsed = Parsed(identity: Bytes, cipherSuite: nat, isLastResort: bool)

  function Opaque(): Item {
    Item(Var, Any)
  }

  // Section 10, section 7.2 and section 5.3 of RFC 9420, in wire order.

  function HeadItems(): seq<Item> {
    [Item(Fixed(2), Version), Item(Fixed(2), Any), Opaque()]
  }

  function CredentialItems(): seq<Item> {
    [Opaque(), Opaque(), Item(Fixed(2), Credential), Item(Var, Identity)]
  }

  function CapabilityItems(): seq<Item> {
    [Opaque(), Opaque(), Opaque(), Opaque(), Opaque()]
  }

  function SourceItems(): seq<Item> {
    [Item(Fixed(1), Source), Item(Fixed(16), Any), Opaque(), Opaque()]
  }

  function TailItems(): seq<Item> {
    [Item(Var, Extensions), Opaque()]
  }

  function LeafItems(): seq<Item> {
    CredentialItems() + CapabilityItems() + SourceItems()
  }

  function KeyPackageItems(): (items: seq<Item>)
    ensures |items| == 18
  {
    HeadItems() + LeafItems() + TailItems()
  }

  function Field(buf: Bytes, i: nat, kind: Kind): (r: Result<(Bytes, nat)>)
    ensures r.Ok? ==> i <= r.value.1 <= |buf|
  {
    match kind
    case Fixed(n) => if i + n > |buf| then Err(UnexpectedEof) else Ok((buf[i..i + n], i + n))
    case Var => ReadVar(buf, i)
  }

  function Verify(check: Check, data: Bytes, utf8: Utf8): Option<Error> {
    match check
    case Any => None
    case Version => if Number(data) != 1 then Some(UnsupportedVersion(Number(data))) else None
    case Credential => if Number(data) != 1 then Some(UnsupportedCredential(Number(data))) else None
    case Identity => if utf8(data) then None else Some(InvalidIdentity)
    case Source => if Number(data) != 1 then Some(UnexpectedLeafNodeSource(Number(data))) else None
    case Extensions => var found := Detect(data, 0); if found.Err? then Some(found.error) else None
  }

  /** Read one field and check it. */
  function Take(buf: Bytes, i: nat, item: Item, utf8: Utf8): (r: Result<(Bytes, nat)>)
    ensures r.Ok? ==> i <= r.value.1 <= |buf|
  {
    match Field(buf, i, item.kind)
    case Err(e) => Err(e)
    case Ok(f) =>
      var failure := Verify(item.check, f.0, utf8);
      if failure.Some? then Err(failure.value) else Ok(f)
  }

  /** The fields read from offset `i` on, after those already `got`, and where they end. */
  function Walk(buf: Bytes, i: nat, items: seq<Item>, got: seq<Bytes>, utf8: Utf8): (r: Result<(seq<Bytes>, nat)>)
    ensures r.Ok? ==> |r.value.0| == |got| + |items| && i <= r.value.1
    ensures r.Ok? && i <= |buf| ==> r.value.1 <= |buf|
    decreases |items|
  {
    if items == [] then Ok((got, i))
    else
      match Take(buf, i, items[0], utf8)
      case Err(e) => Err(e)
      case Ok(f) => Walk(buf, f.1, items[1..], got + [f.0], utf8)
  }

  function Parse(buf: Bytes, utf8: Utf8): Result<Parsed> {
    match Walk(buf, 0, KeyPackageItems(), [], utf8)
    case Err(e) => Err(e)
    case Ok(w) =>
      if w.1 != |buf| then Err(TrailingData)
      else
        var marked := Detect(w.0[16], 0);
        Ok(Parsed(w.0[6], Number(w.0[1]), marked.Ok? && marked.value))
  }

  // ----- Prefix-freeness -----

  lemma ReadVarExtended(buf: Bytes, more: Bytes, i: nat)
    requires ReadVar(buf, i).Ok?
    ensures ReadVar(buf + more, i) == ReadVar(buf, i)
  {
    ReadIsEncoding(buf, i);
    var (data, end) := ReadVar(buf, i).value;
    assert (buf + more)[i..end] == buf[i..end];
    ReadEncoded(buf + more, i, buf[i] / 64, data);
  }

  lemma TakeExtended(buf: Bytes, more: Bytes, i: nat, item: Item, utf8: Utf8)
    requires Take(buf, i, item, utf8).Ok?
    ensures Take(buf + more, i, item, utf8) == Take(buf, i, item, utf8)
  {
    hide ReadVar, Verify;
    match item.kind
    case Fixed(n) => assert (buf + more)[i..i + n] == buf[i..i + n];
    case Var => ReadVarExtended(buf, more, i);
  }

  /** What is walked successfully is walked the same with more bytes behind it. */
  lemma {:induction false} WalkExtended(buf: Bytes, more: Bytes, i: nat, items: seq<Item>, got: seq<Bytes>, utf8: Utf8)
    requires Walk(buf, i, items, got, utf8).Ok?
    ensures Walk(buf + more, i, items, got, utf8) == Walk(buf, i, items, got, utf8)
    decreases |items|
  {
    hide Take;
    if items != [] {
      TakeExtended(buf, more, i, items[0], utf8);
      var f := Take(buf, i, items[0], utf8).value;
      WalkExtended(buf, more, f.1, items[1..], got + [f.0], utf8);
    }
  }

  /** Cut short anywhere inside, a field ends unexpectedly; its header cannot change. */
  lemma ReadVarCut(buf: Bytes, i: nat, k: nat)
    requires ReadVar(buf, i).Ok? && i <= k < ReadVar(buf, i).value.1
    ensures ReadVar(buf[..k], i) == Err(UnexpectedEof)
  {
    var cut := buf[..k];
    if i < k && i + HeaderSize(buf[i]) <= k {
      assert cut[i + 1..i + HeaderSize(buf[i])] == buf[i + 1..i + HeaderSize(buf[i])];
    }
  }

  lemma TakeCut(buf: Bytes, i: nat, k: nat, item: Item, utf8: Utf8)
    requires Take(buf, i, item, utf8).Ok? && i <= k < Take(buf, i, item, utf8).value.1
    ensures Take(buf[..k], i, item, utf8) == Err(UnexpectedEof)
  {
    hide ReadVar, Verify;
    if item.kind.Var? {
      ReadVarCut(buf, i, k);
    }
  }

  lemma {:induction false} WalkCut(buf: Bytes, i: nat, k: nat, items: seq<Item>, got: seq<Bytes>, utf8: Utf8)
    requires Walk(buf, i, items, got, utf8).Ok? && i <= k < Walk(buf, i, items, got, utf8).value.1 <= |buf|
    ensures Walk(buf[..k], i, items, got, utf8) == Err(UnexpectedEof)
    decreases |items|
  {
    hide Take;
    var f := Take(buf, i, items[0], utf8).value;
    if k < f.1 {
      TakeCut(buf, i, k, items[0], utf8);
    } else {
      TakeCutBehind(buf, i, k, items[0], utf8);
      WalkCut(buf, f.1, k, items[1..], got + [f.0], utf8);
    }
  }

  /** A cut behind a field leaves it as it was. */
  lemma TakeCutBehind(buf: Bytes, i: nat, k: nat, item: Item, utf8: Utf8)
    requires Take(buf, i, item, utf8).Ok? && Take(buf, i, item, utf8).value.1 <= k <= |buf|
    ensures Take(buf[..k], i, item, utf8) == Take(buf, i, item, utf8)
  {
    hide ReadVar, Verify;
    match item.kind
    case Fixed(n) => assert buf[..k][i..i + n] == buf[i..i + n];
    case Var =>
      ReadIsEncoding(buf, i);
      var (data, end) := ReadVar(buf, i).value;
      assert buf[..k][i..end] == buf[i..end];
      ReadEncoded(buf[..k], i, buf[i] / 64, data);
  }

  /** Accepted strings are prefix-free: every strict prefix ends unexpectedly and
      every strict extension has trailing data. */
  lemma PrefixFree(buf: Bytes, utf8: Utf8)
    requires Parse(buf, utf8).Ok?
    ensures forall k :: 0 <= k < |buf| ==> Parse(buf[..k], utf8) == Err(UnexpectedEof)
    ensures forall more: Bytes :: more != [] ==> Parse(buf + more, utf8) == Err(TrailingData)
  {
    hide Walk, Detect, KeyPackageItems;
    forall k | 0 <= k < |buf|
      ensures Parse(buf[..k], utf8) == Err(UnexpectedEof)
    {
      WalkCut(buf, 0, k, KeyPackageItems(), [], utf8);
    }
    forall more: Bytes | more != []
      ensures Parse(buf + more, utf8) == Err(TrailingData)
    {
      WalkExtended(buf, more, 0, KeyPackageItems(), [], utf8);
    }
  }

  // ----- Layouts: what the walker accepts -----

  /** A field as it is written: its data and the form of its length header. */
  datatype Piece = Piece(form: nat, data: Bytes)

  predicate Shaped(kind: Kind, p: Piece) {
    match kind
    case Fixed(n) => |p.data| == n
    case Var => p.form < 3 && |p.data| < Capacity(p.form)
  }

  predicate Fits(item: Item, p: Piece, utf8: Utf8) {
    Shaped(item.kind, p) && Verify(item.check, p.data, utf8).None?
  }

  predicate FitAll(items: seq<Item>, ps: seq<Piece>, utf8: Utf8) {
    if items == [] || ps == [] then items == [] && ps == []
    else Fits(items[0], ps[0], utf8) && FitAll(items[1..], ps[1..], utf8)
  }

  predicate ShapeAll(items: seq<Item>, ps: seq<Piece>) {
    if items == [] || ps == [] then items == [] && ps == []
    else Shaped(items[0].kind, ps[0]) && ShapeAll(items[1..], ps[1..])
  }

  /** The error of the first field that fails its check. */
  function Failure(items: seq<Item>, ps: seq<Piece>, utf8: Utf8): Option<Error> {
    if items == [] || ps == [] then None
    else
      var here := Verify(items[0].check, ps[0].data, utf8);
      if here.Some? then here else Failure(items[1..], ps[1..], utf8)
  }

  lemma {:induction false} FitIffShaped(items: seq<Item>, ps: seq<Piece>, utf8: Utf8)
    ensures FitAll(items, ps, utf8) <==> ShapeAll(items, ps) && Failure(items, ps, utf8).None?
    ensures ShapeAll(items, ps) ==> |items| == |ps|
    decreases |items|
  {
    hide Shaped, Verify;
    if items != [] && ps != [] {
      FitIffShaped(items[1..], ps[1..], utf8);
    }
  }

  function Write(item: Item, p: Piece): Bytes {
    if item.kind.Var? && p.form < 3 && |p.data| < Capacity(p.form) then EncodeVar(p.form, p.data) else p.data
  }

  function WriteAll(items: seq<Item>, ps: seq<Piece>): Bytes {
    if items == [] || ps == [] then [] else Write(items[0], ps[0]) + WriteAll(items[1..], ps[1..])
  }

  function Datas(ps: seq<Piece>): (r: seq<Bytes>)
    ensures |r| == |ps| && forall i :: 0 <= i < |ps| ==> r[i] == ps[i].data
  {
    if ps == [] then [] else [ps[0].data] + Datas(ps[1..])
  }

  lemma DatasShift(ps: seq<Piece>, got: seq<Bytes>)
    requires ps != []
    ensures got + [ps[0].data] + Datas(ps[1..]) == got + Datas(ps)
  {
    assert Datas(ps) == [ps[0].data] + Datas(ps[1..]);
  }

  lemma TakeWritten(buf: Bytes, i: nat, item: Item, p: Piece, utf8: Utf8)
    requires Shaped(item.kind, p) && At(buf, i, Write(item, p))
    ensures Take(buf, i, item, utf8) ==
            match Verify(item.check, p.data, utf8)
            case None => Ok((p.data, i + |Write(item, p)|))
            case Some(e) => Err(e)
  {
    hide ReadVar, Verify;
    if item.kind.Var? {
      ReadEncoded(buf, i, p.form, p.data);
    }
  }

  /** A layout is its first field and the rest. */
  lemma ShapeSplits(items: seq<Item>, ps: seq<Piece>, utf8: Utf8)
    requires ShapeAll(items, ps)
    ensures items == [] ==> ps == [] && WriteAll(items, ps) == [] && Failure(items, ps, utf8) == None
    ensures items != [] ==>
              && ps != [] && Shaped(items[0].kind, ps[0]) && ShapeAll(items[1..], ps[1..])
              && WriteAll(items, ps) == Write(items[0], ps[0]) + WriteAll(items[1..], ps[1..])
              && var here := Verify(items[0].check, ps[0].data, utf8);
                 Failure(items, ps, utf8) == if here.Some? then here else Failure(items[1..], ps[1..], utf8)
  {
    hide Shaped, Write, Verify;
  }

  lemma WalkOne(buf: Bytes, i: nat, items: seq<Item>, got: seq<Bytes>, utf8: Utf8)
    requires items != [] && Take(buf, i, items[0], utf8).Ok?
    ensures var f := Take(buf, i, items[0], utf8).value;
            Walk(buf, i, items, got, utf8) == Walk(buf, f.1, items[1..], got + [f.0], utf8)
  {
    hide Take;
  }

  lemma WalkFails(buf: Bytes, i: nat, items: seq<Item>, got: seq<Bytes>, utf8: Utf8)
    requires items != [] && Take(buf, i, items[0], utf8).Err?
    ensures Walk(buf, i, items, got, utf8) == Err(Take(buf, i, items[0], utf8).error)
  {
    hide Take;
  }

  /** Fields that stand in the buffer as written are read off one by one, until one
      fails its check. */
  lemma {:induction false} WalkThrough(
    buf: Bytes, i: nat, items: seq<Item>, ps: seq<Piece>, rest: seq<Item>, got: seq<Bytes>, utf8: Utf8)
    requires ShapeAll(items, ps) && At(buf, i, WriteAll(items, ps))
    ensures Walk(buf, i, items + rest, got, utf8) ==
            match Failure(items, ps, utf8)
            case Some(e) => Err(e)
            case None => Walk(buf, i + |WriteAll(items, ps)|, rest, got + Datas(ps), utf8)
    decreases |items|
  {
    hide Walk, Take, Shaped, Verify, At, Write, Datas, ShapeAll, WriteAll, Failure;
    ShapeSplits(items, ps, utf8);
    if items == [] {
      assert got + Datas(ps) == got && items + rest == rest;
    } else {
      var head, tail := Write(items[0], ps[0]), WriteAll(items[1..], ps[1..]);
      assert |WriteAll(items, ps)| == |head| + |tail|;
      AtSplit(buf, i, head, tail);
      TakeWritten(buf, i, items[0], ps[0], utf8);
      assert (items + rest)[0] == items[0] && (items + rest)[1..] == items[1..] + rest;
      if Verify(items[0].check, ps[0].data, utf8).Some? {
        WalkFails(buf, i, items + rest, got, utf8);
      } else {
        WalkOne(buf, i, items + rest, got, utf8);
        DatasShift(ps, got);
        WalkThrough(buf, i + |head|, items[1..], ps[1..], rest, got + [ps[0].data], utf8);
      }
    }
  }

  lemma WalkWritten(buf: Bytes, i: nat, items: seq<Item>, ps: seq<Piece>, got: seq<Bytes>, utf8: Utf8)
    requires ShapeAll(items, ps) && At(buf, i, WriteAll(items, ps))
    ensures Walk(buf, i, items, got, utf8) ==
            match Failure(items, ps, utf8)
            case Some(e) => Err(e)
            case None => Ok((got + Datas(ps), i + |WriteAll(items, ps)|))
  {
    hide ShapeAll, At, WriteAll, Datas, Failure;
    WalkThrough(buf, i, items, ps, [], got, utf8);
    assert items + [] == items;
  }

  /** The form of each header found on a successful walk. */
  function Layout(buf: Bytes, i: nat, items: seq<Item>, utf8: Utf8): (ps: seq<Piece>)
    requires Walk(buf, i, items, [], utf8).Ok?
    ensures |ps| == |items|
    decreases |items|
  {
    if items == [] then []
    else
      var f := Take(buf, i, items[0], utf8).value;
      var form := if items[0].kind.Var? then buf[i] / 64 else 0;
      WalkAlone(buf, f.1, items[1..], f.0, utf8);
      [Piece(form, f.0)] + Layout(buf, f.1, items[1..], utf8)
  }

  /** The fields already read only lead the result. */
  lemma {:induction false} GotIrrelevant(
    buf: Bytes, i: nat, items: seq<Item>, got: seq<Bytes>, more: seq<Bytes>, utf8: Utf8)
    ensures Walk(buf, i, items, more + got, utf8) ==
            match Walk(buf, i, items, got, utf8) case Err(e) => Err(e) case Ok(w) => Ok((more + w.0, w.1))
    decreases |items|
  {
    hide Take;
    if items != [] && Take(buf, i, items[0], utf8).Ok? {
      var f := Take(buf, i, items[0], utf8).value;
      assert more + got + [f.0] == more + (got + [f.0]);
      GotIrrelevant(buf, f.1, items[1..], got + [f.0], more, utf8);
    }
  }

  lemma WalkAlone(buf: Bytes, i: nat, items: seq<Item>, data: Bytes, utf8: Utf8)
    ensures Walk(buf, i, items, [] + [data], utf8).Ok? <==> Walk(buf, i, items, [], utf8).Ok?
    ensures Walk(buf, i, items, [] + [data], utf8).Ok? ==>
              && Walk(buf, i, items, [] + [data], utf8).value.0 == [data] + Walk(buf, i, items, [], utf8).value.0
              && Walk(buf, i, items, [] + [data], utf8).value.1 == Walk(buf, i, items, [], utf8).value.1
  {
    hide Walk;
    GotIrrelevant(buf, i, items, [], [data], utf8);
    assert [data] + [] == [] + [data];
  }

  lemma TakeIsWritten(buf: Bytes, i: nat, item: Item, utf8: Utf8)
    requires Take(buf, i, item, utf8).Ok?
    ensures var f := Take(buf, i, item, utf8).value;
            var p := Piece(if item.kind.Var? then buf[i] / 64 else 0, f.0);
            Fits(item, p, utf8) && buf[i..f.1] == Write(item, p)
  {
    hide ReadVar, Verify;
    if item.kind.Var? {
      ReadIsEncoding(buf, i);
    }
  }

  /** The bytes consumed by a successful walk are the written form of its layout. */
  lemma {:induction false} WalkIsWritten(buf: Bytes, i: nat, items: seq<Item>, utf8: Utf8)
    requires i <= |buf| && Walk(buf, i, items, [], utf8).Ok?
    ensures var ps := Layout(buf, i, items, utf8);
            && FitAll(items, ps, utf8)
            && Walk(buf, i, items, [], utf8).value.0 == Datas(ps)
            && buf[i..Walk(buf, i, items, [], utf8).value.1] == WriteAll(items, ps)
    decreases |items|
  {
    hide Take, Fits, Write;
    if items == [] {
      assert buf[i..i] == [];
    } else {
      var f := Take(buf, i, items[0], utf8).value;
      TakeIsWritten(buf, i, items[0], utf8);
      WalkAlone(buf, f.1, items[1..], f.0, utf8);
      WalkIsWritten(buf, f.1, items[1..], utf8);
      var ps := Layout(buf, i, items, utf8);
      assert ps[1..] == Layout(buf, f.1, items[1..], utf8);
      var end := Walk(buf, i, items, [], utf8).value.1;
      assert buf[i..end] == buf[i..f.1] + buf[f.1..end];
    }
  }
}
