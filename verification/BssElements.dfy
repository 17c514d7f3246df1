/** Deleting P2P or WFD attributes from every such element of a BSS description, in place. */
module BssElements {
  import opened Memory
  import opened Elements
  import opened Ieee80211
  import opened VendorAttributes

  // ---------- rtw_get_p2p_ie, rtw_get_wfd_ie ----------

  /** The search as the code walks it: it needs 6 bytes for an element and gives up at `MAX_IE_SZ`. */
  function FirstVendorIe(s: seq<byte>, off: nat, cnt: nat, inLen: nat, kind: Kind): Option<nat>
    requires off + inLen <= |s|
    decreases if cnt < inLen then inLen - cnt else 0
  {
    if inLen <= cnt + 5 || MAX_IE_SZ <= cnt + 5 then None
    else if s[off + cnt] == VENDOR && s[off + cnt + 2..off + cnt + 6] == kind.Oui() then Some(off + cnt)
    else FirstVendorIe(s, off, cnt + 2 + s[off + cnt + 1], inLen, kind)
  }

  method GetVendorIe(buf: array<byte>, off: nat, inLen: nat, kind: Kind) returns (ie: Option<nat>, ielen: nat)
    requires off + inLen <= buf.Length
    ensures ie == FirstVendorIe(buf[..], off, 0, inLen, kind)
    ensures ie.Some? ==> ie.value + 1 < buf.Length && ielen == 2 + buf[ie.value + 1] as int
    ensures ie.None? ==> ielen == 0
  {
    ie, ielen := None, 0;
    if inLen <= 0 {
      return;
    }
    ghost var s := buf[..];
    var cnt: nat := 0;
    while cnt + 1 + 4 < inLen
      invariant FirstVendorIe(s, off, 0, inLen, kind) == FirstVendorIe(s, off, cnt, inLen, kind)
      decreases inLen - cnt
    {
      var eid := buf[off + cnt];
      if cnt + 1 + 4 >= MAX_IE_SZ {
        return;
      }
      assert s[off + cnt + 2..off + cnt + 6] == buf[off + cnt + 2..off + cnt + 6];
      if eid == VENDOR && buf[off + cnt + 2..off + cnt + 6] == kind.Oui() {
        return Some(off + cnt), 2 + buf[off + cnt + 1] as int;
      }
      cnt := cnt + 2 + buf[off + cnt + 1];
    }
  }

  lemma VendorAtElement(s: seq<byte>, off: nat, cnt: nat, inLen: nat, kind: Kind, e: Elem)
    requires off + inLen <= |s| && cnt + 2 + |e.data| <= inLen <= MAX_IE_SZ
    requires At(s, off + cnt, ElemBytes(e)) && (e.id == VENDOR ==> 4 <= |e.data|)
    requires cnt + 5 < inLen
    ensures FirstVendorIe(s, off, cnt, inLen, kind)
      == if IsKind(kind, e) then Some(off + cnt) else FirstVendorIe(s, off, cnt + 2 + |e.data|, inLen, kind)
  {
    AtByte(s, off + cnt, ElemBytes(e), 0);
    AtByte(s, off + cnt, ElemBytes(e), 1);
    if e.id == VENDOR {
      PrefixAt(s, off + cnt, e, kind.Oui());
    }
  }

  lemma ShortTailStops(s: seq<byte>, off: nat, cnt: nat, inLen: nat, kind: Kind)
    requires off + inLen <= |s| && inLen <= cnt + 5
    ensures FirstVendorIe(s, off, cnt, inLen, kind) == None
  {
  }

  lemma {:induction false} ShortTailHasNone(es: seq<Elem>, kind: Kind)
    requires |Encode(es)| <= 5
    ensures IndexOf(es, VENDOR, kind.Oui()) == |es|
  {
    if es != [] {
      ShortTailHasNone(es[1..], kind);
    }
  }

  /** On a list of elements the search finds the first element of its kind. */
  lemma {:induction false} FirstVendorIeFindsElement(s: seq<byte>, off: nat, cnt: nat, es: seq<Elem>, kind: Kind)
    requires At(s, off + cnt, Encode(es)) && cnt + |Encode(es)| <= MAX_IE_SZ
    requires HoldsPrefix(es, VENDOR, kind.Oui())
    ensures FirstVendorIe(s, off, cnt, cnt + |Encode(es)|, kind) == Place(off + cnt, es, IndexOf(es, VENDOR, kind.Oui()))
    decreases |es|
  {
    hide At, FirstVendorIe, Place;
    var inLen := cnt + |Encode(es)|;
    assert off + inLen <= |s| by { AtInRange(s, off + cnt, Encode(es)); }
    PlaceIs(off + cnt, es, |es|);
    if inLen <= cnt + 5 {
      ShortTailHasNone(es, kind);
      ShortTailStops(s, off, cnt, inLen, kind);
    } else {
      var e, rest := es[0], es[1..];
      assert e in es;
      AtSplit(s, off + cnt, ElemBytes(e), Encode(rest));
      VendorAtElement(s, off, cnt, inLen, kind, e);
      if IsKind(kind, e) {
        PlaceStep(off + cnt, es, 0);
      } else {
        assert HoldsPrefix(rest, VENDOR, kind.Oui()) by { assert forall x :: x in rest ==> x in es; }
        FirstVendorIeFindsElement(s, off, cnt + 2 + |e.data|, rest, kind);
        PlaceStep(off + cnt, es, IndexOf(rest, VENDOR, kind.Oui()));
      }
    }
  }

  lemma AtInRange(s: seq<byte>, off: nat, b: seq<byte>)
    requires At(s, off, b)
    ensures off + |b| <= |s|
  {
  }

  // ---------- rtw_bss_ex_del_p2p_attr, rtw_bss_ex_del_wfd_attr ----------

  /** The part of `WLAN_BSSID_EX` that carries elements. */
  class BssEx {
    var reserved0: byte
    var ieLength: nat
    const ies: array<byte>

    constructor (reserved0: byte, ieLength: nat, content: seq<byte>)
      requires |content| == MAX_IE_SZ && ieLength <= MAX_IE_SZ && (if reserved0 == 2 then 0 else 12) <= ieLength
      ensures Valid() && fresh(ies) && this.reserved0 == reserved0 && this.ieLength == ieLength && ies[..] == content
    {
      this.reserved0, this.ieLength := reserved0, ieLength;
      ies := new byte[|content|](i requires 0 <= i < |content| => content[i]);
    }

    /** A probe request has no fixed part before its elements; every other frame has 12 bytes. */
    function FixedOffset(): nat
      reads this
    {
      if reserved0 == 2 then 0 else 12
    }

    ghost predicate Valid()
      reads this
    {
      ies.Length == MAX_IE_SZ && FixedOffset() <= ieLength <= MAX_IE_SZ
    }

    /** The description carries this element list behind its fixed part. */
    ghost predicate Carries(es: seq<Elem>)
      reads this, ies
    {
      Valid() && ieLength == FixedOffset() + |Encode(es)| && At(ies[..], FixedOffset(), Encode(es))
    }

    /** Deletes every attribute with one id from every element of one kind. */
    method DelAttrs(kind: Kind, attrId: byte, ghost es: seq<Elem>)
      requires Carries(es) && HoldsPrefix(es, VENDOR, kind.Oui())
      requires forall e :: e in es && IsKind(kind, e) ==> Deletable(kind, e.data[4..], attrId)
      modifies this`ieLength, ies
      ensures Carries(StripAll(kind, es, attrId))
      ensures At(ies[..], 0, old(ies[..])[..FixedOffset()])
      ensures ieLength <= old(ieLength) && At(ies[..], ieLength, Zeros(old(ieLength) - ieLength))
      ensures At(ies[..], old(ieLength), old(ies[..])[old(ieLength)..])
    {
      hide Encode, FirstVendorIe, IndexOf, StripAll, StripElem, At, Put, Deletable, Place;
      var fixedLen := FixedOffset();
      var start, len: nat := fixedLen, ieLength - fixedLen;
      ghost var s0 := ies[..];
      ghost var total := ieLength;
      ghost var done: seq<Elem>, rest: seq<Elem> := [], es;
      DelStarts(s0, fixedLen, total, es, kind, attrId);
      while true
        invariant ieLength == start + len <= total
        invariant Progress(s0, ies[..], fixedLen, total, ieLength, done, rest)
        invariant start == fixedLen + |Encode(done)| && len == |Encode(rest)|
        invariant HoldsPrefix(rest, VENDOR, kind.Oui())
        invariant forall e :: e in rest ==> e in es
        invariant StripAll(kind, es, attrId) == done + StripAll(kind, rest, attrId)
        decreases |rest|
      {
        FirstVendorIeFindsElement(ies[..], start, 0, rest, kind);
        var ie, ieLenOri := GetVendorIe(ies, start, len, kind);
        ghost var k := IndexOf(rest, VENDOR, kind.Oui());
        PlaceIs(start, rest, k);
        if ie.None? {
          DelEnds(s0, ies[..], fixedLen, total, ieLength, done, rest, kind, attrId);
          break;
        }
        var t := ie.value;
        ghost var e := rest[k];
        ghost var e' := StripElem(kind, e, attrId);
        AtElement(ies[..], start, rest, k);
        var nextOri := t + ieLenOri;
        var remainLen := ieLength - nextOri;
        assert e in rest;
        DelStep(s0, ies[..], fixedLen, total, ieLength, done, rest, k, e');
        StripStep(done, rest, kind, attrId, k);
        var ieLen := DelAttr(ies, t, ieLenOri, kind, attrId, e);
        var next := t + ieLen;
        if ieLen != ieLenOri {
          Memmove(ies, next, nextOri, remainLen);
          Memzero(ies, next + remainLen, ieLenOri - ieLen);
          ieLength := ieLength - (ieLenOri - ieLen);
          start := next;
        } else {
          start := nextOri;
        }
        len := remainLen;
        done, rest := done + rest[..k] + [e'], rest[k + 1..];
      }
    }
  }

  lemma PlaceIs(off: nat, es: seq<Elem>, k: nat)
    ensures Place(off, es, k) == if k < |es| then Some(off + |Encode(es[..k])|) else None
  {
  }

  /** The buffer during deletion: the fixed part, the finished elements, the elements still to be
      visited, zeros up to the first length, and what was behind that. */
  ghost predicate Progress(s0: seq<byte>, s: seq<byte>, off: nat, total: nat, now: nat, done: seq<Elem>, rest: seq<Elem>) {
    && |s| == |s0| && off <= now <= total <= |s0|
    && now == off + |Encode(done)| + |Encode(rest)|
    && At(s, 0, s0[..off])
    && At(s, off, Encode(done))
    && At(s, off + |Encode(done)|, Encode(rest))
    && At(s, now, Zeros(total - now))
    && At(s, total, s0[total..])
  }

  lemma DelStarts(s: seq<byte>, off: nat, total: nat, es: seq<Elem>, kind: Kind, id: byte)
    requires total <= |s| && total == off + |Encode(es)| && At(s, off, Encode(es))
    ensures Progress(s, s, off, total, total, [], es)
    ensures Encode([]) == [] && StripAll(kind, es, id) == [] + StripAll(kind, es, id)
  {
    AtFrame(s, off, total);
  }

  lemma DelEnds(s0: seq<byte>, s: seq<byte>, off: nat, total: nat, now: nat, done: seq<Elem>, rest: seq<Elem>, kind: Kind, id: byte)
    requires Progress(s0, s, off, total, now, done, rest)
    requires IndexOf(rest, VENDOR, kind.Oui()) == |rest|
    ensures StripAll(kind, rest, id) == rest
    ensures Encode(done + rest) == Encode(done) + Encode(rest) && At(s, off, Encode(done + rest))
    ensures At(s, 0, s0[..off]) && At(s, now, Zeros(total - now)) && At(s, total, s0[total..])
  {
    hide Encode, At;
    StripNone(kind, rest, id);
    EncodeAppend(done, rest);
    AtSplit(s, off, Encode(done), Encode(rest));
  }

  lemma {:induction false} StripNone(kind: Kind, es: seq<Elem>, id: byte)
    requires forall j :: 0 <= j < |es| ==> !IsKind(kind, es[j])
    ensures StripAll(kind, es, id) == es
  {
    if es != [] {
      assert forall j :: 0 <= j < |es[1..]| ==> es[1..][j] == es[j + 1];
      StripNone(kind, es[1..], id);
    }
  }

  lemma StripAllStep(kind: Kind, es: seq<Elem>, id: byte)
    requires es != []
    ensures StripAll(kind, es, id) == [StripElem(kind, es[0], id)] + StripAll(kind, es[1..], id)
  {
  }

  lemma {:induction false} StripAppend(kind: Kind, a: seq<Elem>, b: seq<Elem>, id: byte)
    ensures StripAll(kind, a + b, id) == StripAll(kind, a, id) + StripAll(kind, b, id)
  {
    if a == [] {
      PlusNothing(b);
      PlusNothing(StripAll(kind, b, id));
    } else {
      hide StripElem, StripAll;
      TailOfSum(a, b);
      StripAllStep(kind, a, id);
      StripAllStep(kind, a + b, id);
      StripAppend(kind, a[1..], b, id);
      Assoc([StripElem(kind, a[0], id)], StripAll(kind, a[1..], id), StripAll(kind, b, id));
    }
  }

  lemma StripStep(done: seq<Elem>, rest: seq<Elem>, kind: Kind, id: byte, k: nat)
    requires k < |rest| && k == IndexOf(rest, VENDOR, kind.Oui())
    ensures done + StripAll(kind, rest, id)
      == done + rest[..k] + [StripElem(kind, rest[k], id)] + StripAll(kind, rest[k + 1..], id)
  {
    hide StripElem, StripAll;
    assert rest == rest[..k] + rest[k..];
    StripAppend(kind, rest[..k], rest[k..], id);
    StripNone(kind, rest[..k], id);
    StripAllStep(kind, rest[k..], id);
    assert rest[k..][1..] == rest[k + 1..];
  }

  /** A block of some size in s shrinks by d to b, the n bytes behind it move up, and zeros fill the end. */
  function Shrink(s: seq<byte>, t: nat, b: seq<byte>, n: nat, d: nat): (s2: seq<byte>)
    requires t + |b| + d + n <= |s|
    ensures |s2| == |s|
  {
    var s1 := Put(s, t, b + Zeros(d));
    var next := t + |b|;
    if d == 0 then s1 else Put(Put(s1, next, s1[next + d..next + d + n]), next + n, Zeros(d))
  }

  /** Blocks on either side of the shrinking range stay. */
  lemma ShrinkKeeps(s: seq<byte>, t: nat, b: seq<byte>, n: nat, d: nat, o: nat, x: seq<byte>)
    requires t + |b| + d + n <= |s| && At(s, o, x)
    requires o + |x| <= t || t + |b| + d + n <= o
    ensures At(Shrink(s, t, b, n, d), o, x)
  {
    hide At, Put;
    var s1 := Put(s, t, b + Zeros(d));
    var next := t + |b|;
    AtPut(s, t, b + Zeros(d), o, x);
    if d != 0 {
      var m := s1[next + d..next + d + n];
      AtPut(s1, next, m, o, x);
      AtPut(Put(s1, next, m), next + n, Zeros(d), o, x);
    }
  }

  lemma ShrinkMoves(s: seq<byte>, t: nat, b: seq<byte>, d: nat, m: seq<byte>)
    requires At(s, t + |b| + d, m) && t + |b| + d + |m| <= |s|
    ensures
      var s2 := Shrink(s, t, b, |m|, d);
      At(s2, t, b) && At(s2, t + |b|, m) && At(s2, t + |b| + |m|, Zeros(d))
  {
    hide At, Put;
    var s1 := Put(s, t, b + Zeros(d));
    var next := t + |b|;
    AtPut(s, t, b + Zeros(d), next + d, m);
    AtSplit(s1, t, b, Zeros(d));
    AtSlice(s1, next + d, m);
    if d == 0 {
      AtEmpty(s1, next + |m|, Zeros(0));
    } else {
      var s1' := Put(s1, next, m);
      AtPut(s1, next, m, t, b);
      AtPut(s1', next + |m|, Zeros(d), t, b);
      AtPut(s1', next + |m|, Zeros(d), next, m);
    }
  }

  lemma AtSlice(s: seq<byte>, off: nat, b: seq<byte>)
    requires At(s, off, b)
    ensures off + |b| <= |s| && s[off..off + |b|] == b
  {
  }

  lemma AtEmpty(s: seq<byte>, off: nat, b: seq<byte>)
    requires off <= |s| && |b| == 0
    ensures At(s, off, b)
  {
  }

  /** The writes for element k of the unvisited elements: the element shrinks to e', what follows it
      moves up, and the freed end is cleared. */
  lemma DelStep(s0: seq<byte>, s: seq<byte>, off: nat, total: nat, now: nat, done: seq<Elem>, rest: seq<Elem>, k: nat, e': Elem)
    requires Progress(s0, s, off, total, now, done, rest) && k < |rest| && |e'.data| <= |rest[k].data|
    ensures
      var t, n := off + |Encode(done)| + |Encode(rest[..k])|, |Encode(rest[k + 1..])|;
      var d := |rest[k].data| - |e'.data|;
      && t + 2 + |rest[k].data| + n == now <= |s|
      && Progress(s0, Shrink(s, t, ElemBytes(e'), n, d), off, total, now - d, done + rest[..k] + [e'], rest[k + 1..])
      && |Encode(done + rest[..k] + [e'])| == |Encode(done)| + |Encode(rest[..k])| + 2 + |e'.data|
  {
    hide Encode, At, Shrink;
    var t, m := off + |Encode(done)| + |Encode(rest[..k])|, Encode(rest[k + 1..]);
    var d := |rest[k].data| - |e'.data|;
    AtElement(s, off + |Encode(done)|, rest, k);
    EncodeAppend(done, rest[..k]);
    EncodeAppend(done + rest[..k], [e']);
    EncodeOne(e');
    AtSplit(s, off, Encode(done), Encode(rest[..k]));
    var s2 := Shrink(s, t, ElemBytes(e'), |m|, d);
    ShrinkKeeps(s, t, ElemBytes(e'), |m|, d, 0, s0[..off]);
    ShrinkKeeps(s, t, ElemBytes(e'), |m|, d, off, Encode(done + rest[..k]));
    ShrinkKeeps(s, t, ElemBytes(e'), |m|, d, now, Zeros(total - now));
    ShrinkKeeps(s, t, ElemBytes(e'), |m|, d, total, s0[total..]);
    ShrinkMoves(s, t, ElemBytes(e'), d, m);
    AtSplit(s2, off, Encode(done + rest[..k]), ElemBytes(e'));
    AtSplit(s2, now - d, Zeros(d), Zeros(total - now));
    assert Zeros(d) + Zeros(total - now) == Zeros(total - now + d);
  }
}
