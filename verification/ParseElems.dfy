/** Parsing a management frame's elements into named fields (`rtw_ieee802_11_parse_elems`). */
module ParseElems {
  import opened Memory
  import opened Elements

  datatype ParseRes = ParseOK | ParseUnknown | ParseFailed

  /** The named fields: one for each known element id, and five kinds of vendor element. */
  datatype Field = Std(id: byte) | Wpa | Wme | WmeTspec | Wps | VendorHtCap

  /** Where a field's data starts in the buffer, and how long it is. */
  datatype Found = Found(pos: nat, len: nat)

  const VENDOR_SPECIFIC := 221

  const KNOWN_IDS: set<int> :=
    {0, 1, 2, 3, 4, 5, 6, 16, 42, 50, 48, 33, 36, 54, 55, 56, 45, 61, 191, 192, 199}

  /** The field a vendor element belongs to, by OUI, type and subtype. */
  function VendorField(data: seq<byte>): Option<Field> {
    if |data| < 4 then None
    else if data[..3] == [0x00, 0x50, 0xf2] then
      if data[3] == 1 then Some(Wpa)
      else if data[3] == 2 then
        if |data| < 5 then None
        else if data[4] == 0 || data[4] == 1 then Some(Wme)
        else if data[4] == 2 then Some(WmeTspec)
        else None
      else if data[3] == 4 then Some(Wps)
      else None
    else if data[..3] == [0x00, 0x90, 0x4c] then
      if data[3] == 0x33 then Some(VendorHtCap) else None
    else None
  }

  function FieldOf(e: Elem): Option<Field> {
    if e.id == VENDOR_SPECIFIC then VendorField(e.data)
    else if e.id in KNOWN_IDS then Some(Std(e.id))
    else None
  }

  /** The first four bytes of a vendor element: 221 is its id. */
  predicate Begins(e: Elem, a: byte, b: byte, c: byte, d: byte) {
    e.id == 221 && |e.data| >= 4 && e.data[0] == a && e.data[1] == b && e.data[2] == c && e.data[3] == d
  }

  /** Which elements belong to which field, by their bytes. */
  predicate Meets(f: Field, e: Elem) {
    match f
    case Wpa => Begins(e, 0x00, 0x50, 0xf2, 1)
    case Wme => Begins(e, 0x00, 0x50, 0xf2, 2) && |e.data| >= 5 && (e.data[4] == 0 || e.data[4] == 1)
    case WmeTspec => Begins(e, 0x00, 0x50, 0xf2, 2) && |e.data| >= 5 && e.data[4] == 2
    case Wps => Begins(e, 0x00, 0x50, 0xf2, 4)
    case VendorHtCap => Begins(e, 0x00, 0x90, 0x4c, 0x33)
    case Std(id) =>
      && e.id == id
      && (id <= 6 || id == 16 || id == 33 || id == 36 || id == 42 || id == 45 || id == 48 || id == 50 || id == 54 || id == 55 || id == 56
          || id == 61 || id == 191 || id == 192 || id == 199)
  }

  lemma FieldOfMeets(e: Elem, f: Field)
    ensures FieldOf(e) == Some(f) <==> Meets(f, e)
  {
    var d := e.data;
    if |d| >= 4 {
      assert d[..3] == [d[0], d[1], d[2]];
    }
  }

  lemma NoneMeets(e: Elem)
    ensures FieldOf(e) == None <==> forall f :: !Meets(f, e)
  {
    hide FieldOf, Meets;
    match FieldOf(e) {
      case Some(f) => FieldOfMeets(e, f);
      case None =>
        forall f
          ensures !Meets(f, e)
        {
          FieldOfMeets(e, f);
        }
    }
  }

  /** The whole elements at the front of some bytes, as many as there are. */
  function Front(s: seq<byte>): seq<Elem> {
    if !StartsElem(s) then [] else [FrontElem(s)] + Front(s[2 + |FrontElem(s).data|..])
  }

  /** Bytes split exactly into elements just when their whole elements are all there is. */
  lemma {:induction false} SplitsExactly(s: seq<byte>)
    ensures At(s, 0, Encode(Front(s)))
    ensures Decode(s).Some? <==> |Encode(Front(s))| == |s|
    ensures Decode(s).Some? ==> Decode(s) == Some(Front(s))
    ensures !StartsElem(s[|Encode(Front(s))|..])
  {
    if StartsElem(s) {
      var e := FrontElem(s);
      var rest := s[2 + |e.data|..];
      SplitsExactly(rest);
      assert Front(s) == [e] + Front(rest);
      assert Decode(s).Some? <==> Decode(rest).Some?;
      assert Decode(s).Some? ==> Decode(s) == Some([e] + Decode(rest).value);
      hide Encode, Decode, ElemBytes, Front;
      EncodeCons(e, Front(rest));
      FrontElemBytes(s);
      AtShift(ElemBytes(e), rest, Encode(Front(rest)));
    }
  }

  lemma AtShift(a: seq<byte>, s: seq<byte>, b: seq<byte>)
    requires At(s, 0, b)
    ensures At(a + s, 0, a + b)
  {
    assert (a + s)[0..|a + b|] == a + s[0..|b|];
  }

  /** What the fields must say: each names the last element of its kind, and no other field is set. */
  ghost predicate NamesLast(elems: map<Field, Found>, es: seq<Elem>, start: nat) {
    && (forall f :: f in elems ==> exists k: nat :: IsLast(es, k, f))
    && (forall k: nat, f :: IsLast(es, k, f) ==>
          f in elems && elems[f] == Found(start + |Encode(es[..k])| + 2, |es[k].data|))
  }

  ghost predicate IsLast(es: seq<Elem>, k: nat, f: Field) {
    && k < |es|
    && Meets(f, es[k])
    && forall j :: k < j < |es| ==> !Meets(f, es[j])
  }

  /** Some element belongs to no field. */
  ghost predicate HasUnknown(es: seq<Elem>) {
    exists e :: e in es && forall f :: !Meets(f, e)
  }

  lemma LastOfLonger(es: seq<Elem>, e: Elem, k: nat, f: Field)
    ensures IsLast(es + [e], k, f) <==>
            if FieldOf(e) == Some(f) then k == |es| else IsLast(es, k, f)
  {
    hide Meets, FieldOf;
    FieldOfMeets(e, f);
    var t := es + [e];
    assert forall j :: 0 <= j < |es| ==> t[j] == es[j];
    assert t[|es|] == e;
    if FieldOf(e) != Some(f) && IsLast(t, k, f) {
      assert forall j :: k < j < |es| ==> !Meets(f, t[j]);
    }
  }

  lemma NamesLastStep(elems: map<Field, Found>, elems': map<Field, Found>, es: seq<Elem>, e: Elem, start: nat)
    requires NamesLast(elems, es, start)
    requires elems' == match FieldOf(e)
      case Some(f) => elems[f := Found(start + |Encode(es)| + 2, |e.data|)]
      case None => elems
    ensures NamesLast(elems', es + [e], start)
  {
    hide Encode, FieldOf, IsLast;
    var t := es + [e];
    forall f | f in elems' ensures exists k: nat :: IsLast(t, k, f) {
      var k: nat := |es|;
      if FieldOf(e) != Some(f) {
        k :| IsLast(es, k, f);
      }
      LastOfLonger(es, e, k, f);
      assert IsLast(t, k, f);
    }
    forall k: nat, f | IsLast(t, k, f)
      ensures k < |t| && f in elems' && elems'[f] == Found(start + |Encode(t[..k])| + 2, |t[k].data|)
    {
      LastOfLonger(es, e, k, f);
      LastInRange(t, k, f);
      if FieldOf(e) != Some(f) {
        LastInRange(es, k, f);
      }
      assert t[..k] == if k == |es| then es else es[..k];
    }
    LastInRangeAll(t);
  }

  lemma LastInRange(es: seq<Elem>, k: nat, f: Field)
    requires IsLast(es, k, f)
    ensures k < |es|
  {
  }

  lemma LastInRangeAll(es: seq<Elem>)
    ensures forall k: nat, f :: IsLast(es, k, f) ==> k < |es|
  {
  }

  lemma UnknownStep(es: seq<Elem>, e: Elem)
    ensures HasUnknown(es + [e]) <==> HasUnknown(es) || FieldOf(e) == None
  {
    hide FieldOf, Meets;
    NoneMeets(e);
    var t := es + [e];
    assert e in t && forall x :: x in t <==> x in es || x == e;
  }

  /** Fails exactly when the bytes do not split into elements; in every case the fields name the last
      element of each kind among the whole elements at the front. */
  method Parse(buf: array<byte>, start: nat, len: nat) returns (res: ParseRes, elems: map<Field, Found>)
    requires start + len <= buf.Length
    ensures res == ParseFailed <==> Decode(buf[start..start + len]) == None
    ensures NamesLast(elems, Front(buf[start..start + len]), start)
    ensures res != ParseFailed ==> (res == ParseUnknown <==> HasUnknown(Decode(buf[start..start + len]).value))
  {
    hide Encode, FieldOf, NamesLast, HasUnknown, Decode, Front;
    ghost var s := buf[start..start + len];
    ghost var done: seq<Elem> := [];
    var left: nat, pos: nat, unknown: nat := len, start, 0;
    elems := map[];
    NothingParsed(start, s);
    while left >= 2
      invariant left <= len && pos == start + len - left
      invariant Front(s) == done + Front(s[len - left..])
      invariant |Encode(done)| == len - left
      invariant NamesLast(elems, done, start)
      invariant unknown > 0 <==> HasUnknown(done)
    {
      var id, elen := buf[pos], buf[pos + 1];
      ghost var r := s[len - left..];
      assert r[0] == id && r[1] == elen;
      pos, left := pos + 2, left - 2;
      if elen > left {
        FrontEnds(r);
        NotExact(s, done);
        return ParseFailed, elems;
      }
      var e := Elem(id, buf[pos..pos + elen]);
      FrontStep(s, r, done, e);
      ghost var was := elems;
      match FieldOf(e) {
        case Some(f) => elems := elems[f := Found(pos, elen)];
        case None => unknown := unknown + 1;
      }
      NamesLastStep(was, elems, done, e, start);
      UnknownStep(done, e);
      done := done + [e];
      left, pos := left - elen, pos + elen;
      assert r[2 + elen..] == s[len - left..];
    }
    FrontEnds(s[len - left..]);
    NotExact(s, done);
    if left > 0 {
      return ParseFailed, elems;
    }
    return if unknown > 0 then ParseUnknown else ParseOK, elems;
  }

  lemma NothingParsed(start: nat, s: seq<byte>)
    ensures NamesLast(map[], [], start) && [] + Front(s) == Front(s) && s[0..] == s && !HasUnknown([]) && Encode([]) == []
  {
  }

  lemma FrontEnds(r: seq<byte>)
    requires !StartsElem(r)
    ensures Front(r) == []
  {
  }

  lemma FrontStep(s: seq<byte>, r: seq<byte>, done: seq<Elem>, e: Elem)
    requires StartsElem(r) && e == FrontElem(r)
    requires Front(s) == done + Front(r)
    ensures Front(s) == done + [e] + Front(r[2 + |e.data|..])
    ensures |Encode(done + [e])| == |Encode(done)| + 2 + |e.data|
  {
    assert Front(r) == [e] + Front(r[2 + |e.data|..]);
    hide Front, Encode;
    EncodeAppend(done, [e]);
    EncodeOne(e);
    Assoc(done, [e], Front(r[2 + |e.data|..]));
  }

  lemma NotExact(s: seq<byte>, done: seq<Elem>)
    requires Front(s) == done + []
    ensures Decode(s).Some? <==> |Encode(done)| == |s|
    ensures Front(s) == done
    ensures Decode(s).Some? ==> Decode(s).value == done
  {
    SplitsExactly(s);
  }

  /** A list written element by element parses, and no field names anything but the last of its kind. */
  lemma {:induction false} WrittenListParses(es: seq<Elem>)
    ensures Decode(Encode(es)) != None && Front(Encode(es)) == es
  {
    DecodeEncode(es);
    SplitsExactly(Encode(es));
  }
}
