/** IEEE 802.11-2012, section 8.4.2.1: a list of information elements and its bytes.
    An element is an id byte, a length byte and that many data bytes. */
module Elements {
  import opened Memory

  type Body = s: seq<byte> | |s| <= 255 witness []

  datatype Elem = Elem(id: byte, data: Body)

  function ElemBytes(e: Elem): (s: seq<byte>)
    ensures |s| == 2 + |e.data|
  {
    [e.id, |e.data|] + e.data
  }

  /** The bytes of an element list. */
  function Encode(es: seq<Elem>): seq<byte> {
    if es == [] then [] else ElemBytes(es[0]) + Encode(es[1..])
  }

  lemma EncodeStep(es: seq<Elem>)
    requires es != []
    ensures Encode(es) == ElemBytes(es[0]) + Encode(es[1..])
  {
  }

  lemma EncodeCons(e: Elem, es: seq<Elem>)
    ensures Encode([e] + es) == ElemBytes(e) + Encode(es)
  {
    TailOfSum([e], es);
  }

  /** Some bytes start with a whole element. */
  predicate StartsElem(s: seq<byte>) {
    2 <= |s| && 2 + s[1] <= |s|
  }

  function FrontElem(s: seq<byte>): (e: Elem)
    requires StartsElem(s)
    ensures 2 + |e.data| <= |s|
  {
    Elem(s[0], s[2..2 + s[1]])
  }

  lemma FrontElemBytes(s: seq<byte>)
    requires StartsElem(s)
    ensures s == ElemBytes(FrontElem(s)) + s[2 + |FrontElem(s).data|..]
  {
  }

  /** The element list that the bytes split into exactly, if there is one. */
  function Decode(s: seq<byte>): Option<seq<Elem>> {
    if s == [] then Some([])
    else if !StartsElem(s) then None
    else
      match Decode(s[2 + |FrontElem(s).data|..])
      case None => None
      case Some(es) => Some([FrontElem(s)] + es)
  }

  lemma DecodeCons(e: Elem, s: seq<byte>)
    ensures Decode(ElemBytes(e) + s).Some? <==> Decode(s).Some?
    ensures Decode(s).Some? ==> Decode(ElemBytes(e) + s).value == [e] + Decode(s).value
  {
    var t := ElemBytes(e) + s;
    DropPrefix(ElemBytes(e), s);
    assert t[0] == e.id && t[1] == |e.data|;
    assert t[2..2 + |e.data|] == e.data;
    assert StartsElem(t) && FrontElem(t) == e;
  }

  /** An element list is read back from its bytes. */
  lemma {:induction false} DecodeEncode(es: seq<Elem>)
    ensures Decode(Encode(es)) == Some(es)
  {
    if es != [] {
      hide Encode, Decode, ElemBytes;
      EncodeStep(es);
      DecodeEncode(es[1..]);
      DecodeCons(es[0], Encode(es[1..]));
      assert es == [es[0]] + es[1..];
    }
  }

  /** Only the bytes of a list split into that list. */
  lemma {:induction false} EncodeDecode(s: seq<byte>)
    requires Decode(s).Some?
    ensures Encode(Decode(s).value) == s
  {
    if s != [] {
      var e := FrontElem(s);
      var rest := s[2 + |e.data|..];
      assert Decode(s) == Some([e] + Decode(rest).value);
      EncodeDecode(rest);
      hide Encode, Decode, ElemBytes;
      EncodeCons(e, Decode(rest).value);
      FrontElemBytes(s);
    }
  }

  lemma {:induction false} EncodeAppend(a: seq<Elem>, b: seq<Elem>)
    ensures Encode(a + b) == Encode(a) + Encode(b)
  {
    if a == [] {
      PlusNothing(b);
      PlusNothing(Encode(b));
    } else {
      hide Encode, ElemBytes;
      TailOfSum(a, b);
      EncodeStep(a);
      EncodeStep(a + b);
      EncodeAppend(a[1..], b);
      Assoc(ElemBytes(a[0]), Encode(a[1..]), Encode(b));
    }
  }

  lemma {:induction false} EncodeOne(e: Elem)
    ensures Encode([e]) == ElemBytes(e)
  {
    assert Encode([e]) == ElemBytes(e) + Encode([]);
  }

  lemma {:induction false} EncodeCut(es: seq<Elem>, k: nat)
    requires k <= |es|
    ensures Encode(es) == Encode(es[..k]) + Encode(es[k..])
  {
    assert es == es[..k] + es[k..];
    EncodeAppend(es[..k], es[k..]);
  }

  /** The bytes of a list, split around its element k. */
  lemma {:induction false} EncodeSplit(es: seq<Elem>, k: nat)
    requires k < |es|
    ensures Encode(es[k..]) == ElemBytes(es[k]) + Encode(es[k + 1..])
    ensures Encode(es[..k + 1]) == Encode(es[..k]) + ElemBytes(es[k])
    ensures Encode(es) == Encode(es[..k]) + ElemBytes(es[k]) + Encode(es[k + 1..])
  {
    assert es[k..][1..] == es[k + 1..];
    assert Encode(es[..k + 1]) == Encode(es[..k]) + ElemBytes(es[k]) by {
      assert es[..k + 1] == es[..k] + [es[k]];
      EncodeAppend(es[..k], [es[k]]);
      EncodeOne(es[k]);
    }
    EncodeCut(es, k + 1);
  }

  /** An element matches an id and a vendor prefix; an empty prefix stands for no prefix. */
  predicate Matches(e: Elem, id: int, oui: seq<byte>) {
    e.id == id && oui <= e.data
  }

  /** Position of the first matching element, or the number of elements. */
  function IndexOf(es: seq<Elem>, id: int, oui: seq<byte>): (k: nat)
    ensures k <= |es|
    ensures k < |es| ==> Matches(es[k], id, oui)
    ensures forall j :: 0 <= j < k ==> !Matches(es[j], id, oui)
  {
    if es == [] then 0
    else if Matches(es[0], id, oui) then 0
    else
      var k := IndexOf(es[1..], id, oui);
      assert forall j :: 0 < j < k + 1 ==> es[j] == es[1..][j - 1];
      k + 1
  }

  /** The elements that do not match, in order. */
  function Without(es: seq<Elem>, id: int, oui: seq<byte>): seq<Elem> {
    if es == [] then []
    else (if Matches(es[0], id, oui) then [] else [es[0]]) + Without(es[1..], id, oui)
  }

  lemma {:induction false} WithoutAppend(a: seq<Elem>, b: seq<Elem>, id: int, oui: seq<byte>)
    ensures Without(a + b, id, oui) == Without(a, id, oui) + Without(b, id, oui)
  {
    if a == [] {
      assert a + b == b;
    } else {
      assert (a + b)[1..] == a[1..] + b;
      WithoutAppend(a[1..], b, id, oui);
    }
  }

  lemma {:induction false} WithoutNone(es: seq<Elem>, id: int, oui: seq<byte>)
    requires forall j :: 0 <= j < |es| ==> !Matches(es[j], id, oui)
    ensures Without(es, id, oui) == es
  {
    if es != [] {
      assert forall j :: 0 <= j < |es[1..]| ==> es[1..][j] == es[j + 1];
      WithoutNone(es[1..], id, oui);
      assert es == [es[0]] + es[1..];
    }
  }

  /** The first match, by the elements' own fields. */
  lemma IndexOfExactly(es: seq<Elem>, id: int, oui: seq<byte>, k: nat)
    requires k <= |es|
    requires forall j :: 0 <= j < k ==> es[j].id != id || |es[j].data| < |oui| || es[j].data[..|oui|] != oui
    requires k < |es| ==> es[k].id == id && |oui| <= |es[k].data| && es[k].data[..|oui|] == oui
    ensures IndexOf(es, id, oui) == k
  {
  }

  /** An element stays unless it has the id and begins with the prefix. */
  lemma {:induction false} WithoutAt(a: seq<Elem>, e: Elem, b: seq<Elem>, id: int, oui: seq<byte>)
    ensures
      var gone := e.id == id && |oui| <= |e.data| && e.data[..|oui|] == oui;
      Without(a + [e] + b, id, oui) == Without(a, id, oui) + (if gone then [] else [e]) + Without(b, id, oui)
  {
    WithoutAppend(a + [e], b, id, oui);
    WithoutAppend(a, [e], id, oui);
    assert [e][1..] == [];
  }
}
