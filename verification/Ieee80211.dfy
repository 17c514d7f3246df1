/** Writing, finding, removing and parsing information elements in a byte buffer. */
module Ieee80211 {
  import opened Memory
  import opened Elements

  // ---------- the search as the code walks it ----------

  /** The search over raw bytes: from i, hop over headers until one matches or `end` is reached. */
  function FirstIe(s: seq<byte>, i: nat, end: nat, id: int, oui: seq<byte>): Option<nat>
    decreases if i < end then end - i else 0
  {
    if end <= i || |s| <= i + 1 then None
    else if s[i] == id && i + 2 + |oui| <= |s| && s[i + 2..i + 2 + |oui|] == oui then Some(i)
    else FirstIe(s, i + 2 + s[i + 1], end, id, oui)
  }

  /** Every element with this id is long enough to hold the vendor prefix it is compared with. */
  predicate HoldsPrefix(es: seq<Elem>, id: int, oui: seq<byte>) {
    forall e :: e in es && e.id == id ==> |oui| <= |e.data|
  }

  /** The bytes the search may look at are in the buffer: either it has slack behind the searched
      range, or the range splits exactly into elements that hold the prefix. */
  predicate Searchable(s: seq<byte>, off: nat, len: nat, id: int, oui: seq<byte>) {
    || off + len + 1 + |oui| <= |s|
    || (&& off + len <= |s|
        && Decode(s[off..off + len]).Some?
        && HoldsPrefix(Decode(s[off..off + len]).value, id, oui))
  }

  lemma SearchableStep(s: seq<byte>, off: nat, len: nat, id: int, oui: seq<byte>)
    requires Searchable(s, off, len, id, oui) && 0 < len
    ensures off + 1 < |s|
    ensures s[off] == id ==> off + 2 + |oui| <= |s|
    ensures 2 + s[off + 1] < len ==> Searchable(s, off + 2 + s[off + 1], len - 2 - s[off + 1], id, oui)
  {
    if off + len + 1 + |oui| > |s| {
      var r := s[off..off + len];
      assert Decode(r).value == [FrontElem(r)] + Decode(r[2 + |FrontElem(r).data|..]).value;
      var es, rest := Decode(r).value, Decode(r[2 + |FrontElem(r).data|..]).value;
      hide Decode;
      assert es[0] == FrontElem(r) && es[0] in es;
      assert r[2 + r[1]..] == s[off + 2 + s[off + 1]..off + len];
      assert forall e :: e in rest ==> e in es;
    }
  }

  lemma PrefixAt(s: seq<byte>, off: nat, e: Elem, oui: seq<byte>)
    requires At(s, off, ElemBytes(e)) && |oui| <= |e.data|
    ensures s[off + 2..off + 2 + |oui|] == oui <==> oui <= e.data
  {
    AtPart(s, off, ElemBytes(e), 2, 2 + |oui|);
    assert ElemBytes(e)[2..2 + |oui|] == e.data[..|oui|];
  }

  lemma FirstIeAtElement(s: seq<byte>, off: nat, end: nat, e: Elem, id: int, oui: seq<byte>)
    requires At(s, off, ElemBytes(e)) && off < end && (e.id == id ==> |oui| <= |e.data|)
    ensures FirstIe(s, off, end, id, oui)
      == if Matches(e, id, oui) then Some(off) else FirstIe(s, off + 2 + |e.data|, end, id, oui)
  {
    AtByte(s, off, ElemBytes(e), 0);
    AtByte(s, off, ElemBytes(e), 1);
    if e.id == id {
      PrefixAt(s, off, e, oui);
    }
  }

  /** Where element k of a list that starts at `off` starts, if the list has an element k. */
  function Place(off: nat, es: seq<Elem>, k: nat): Option<nat> {
    if k < |es| then Some(off + |Encode(es[..k])|) else None
  }

  lemma PlaceStep(off: nat, es: seq<Elem>, k: nat)
    requires es != []
    ensures Place(off, es, 0) == Some(off)
    ensures Place(off, es, k + 1) == Place(off + 2 + |es[0].data|, es[1..], k)
  {
    assert es[..0] == [];
    if k + 1 < |es| {
      assert es[..k + 1][0] == es[0] && es[..k + 1][1..] == es[1..][..k];
    }
  }

  /** On a list of elements the walk finds exactly the first matching element. */
  lemma {:induction false} FirstIeFindsElement(s: seq<byte>, off: nat, es: seq<Elem>, id: int, oui: seq<byte>)
    requires At(s, off, Encode(es)) && HoldsPrefix(es, id, oui)
    ensures FirstIe(s, off, off + |Encode(es)|, id, oui) == Place(off, es, IndexOf(es, id, oui))
    decreases |es|
  {
    if es != [] {
      hide Encode, At, FirstIe, Place, ElemBytes;
      var e, rest := es[0], es[1..];
      assert e in es;
      EncodeStep(es);
      AtSplit(s, off, ElemBytes(e), Encode(rest));
      FirstIeAtElement(s, off, off + |Encode(es)|, e, id, oui);
      if Matches(e, id, oui) {
        PlaceStep(off, es, 0);
      } else {
        assert HoldsPrefix(rest, id, oui) by { assert forall x :: x in rest ==> x in es; }
        FirstIeFindsElement(s, off + 2 + |e.data|, rest, id, oui);
        PlaceStep(off, es, IndexOf(rest, id, oui));
      }
    }
  }

  // ---------- rtw_set_ie ----------

  /** Appends one element at `pos`; the id and length are cut to a byte, the data is not. */
  method SetIe(buf: array<byte>, pos: nat, index: int, source: seq<byte>, frlen: nat) returns (next: nat, frlen': nat)
    requires pos + 2 + |source| <= buf.Length
    modifies buf
    ensures next == pos + 2 + |source| && frlen' == frlen + 2 + |source|
    ensures buf[..] == Put(old(buf[..]), pos, [index % 256, |source| % 256] + source)
  {
    buf[pos] := index % 256;
    buf[pos + 1] := |source| % 256;
    if |source| > 0 {
      Memcpy(buf, pos + 2, source);
    }
    frlen' := frlen + |source| + 2;
    next := pos + |source| + 2;
  }

  /** A buffer that holds a written list holds a list one element longer after one more `SetIe`. */
  lemma {:induction false} SetIeAppends(s: seq<byte>, off: nat, written: seq<Elem>, e: Elem)
    requires At(s, off, Encode(written)) && off + |Encode(written)| + 2 + |e.data| <= |s|
    ensures
      var t := Put(s, off + |Encode(written)|, [e.id, |e.data|] + e.data);
      At(t, off, Encode(written + [e])) && Decode(Encode(written + [e])) == Some(written + [e])
  {
    hide Encode, Decode;
    var pos := off + |Encode(written)|;
    AtPut(s, pos, ElemBytes(e), off, Encode(written));
    EncodeAppend(written, [e]);
    EncodeOne(e);
    AtSplit(Put(s, pos, ElemBytes(e)), off, Encode(written), ElemBytes(e));
    DecodeEncode(written + [e]);
  }

  // ---------- rtw_get_ie, rtw_get_ie_ex ----------

  method GetIe(buf: array<byte>, off: nat, index: int, limit: int) returns (p: Option<nat>, len: byte)
    requires limit >= 1 ==> Searchable(buf[..], off, limit, index, [])
    ensures p == if limit < 1 then None else FirstIe(buf[..], off, off + limit, index, [])
    ensures p.Some? ==> p.value + 1 < buf.Length && len == buf[p.value + 1]
    ensures p.None? ==> len == 0
  {
    hide Searchable;
    len := 0;
    if limit < 1 {
      return None, 0;
    }
    ghost var s := buf[..];
    var i: nat := 0;
    while true
      invariant 0 <= i < limit && Searchable(s, off + i, limit - i, index, [])
      invariant FirstIe(s, off, off + limit, index, []) == FirstIe(s, off + i, off + limit, index, [])
      decreases limit - i
    {
      SearchableStep(s, off + i, limit - i, index, []);
      assert s[off + i + 2..off + i + 2] == [];
      if buf[off + i] == index {
        return Some(off + i), buf[off + i + 1];
      }
      i := i + 2 + buf[off + i + 1];
      if i >= limit {
        break;
      }
    }
    return None, 0;
  }

  /** Searches for an id and, unless the prefix is empty, a vendor prefix; `ielen` counts the header. */
  method GetIeEx(buf: array<byte>, off: nat, inLen: nat, eid: byte, oui: seq<byte>)
    returns (target: Option<nat>, ielen: nat)
    requires inLen > 0 ==> Searchable(buf[..], off, inLen, eid, oui)
    ensures target == FirstIe(buf[..], off, off + inLen, eid, oui)
    ensures target.Some? ==> target.value + 1 < buf.Length && ielen == 2 + buf[target.value + 1] as int
    ensures target.None? ==> ielen == 0
  {
    hide Searchable;
    target, ielen := None, 0;
    if inLen <= 0 {
      return;
    }
    ghost var s := buf[..];
    var cnt: nat := 0;
    while cnt < inLen
      invariant cnt < inLen ==> Searchable(s, off + cnt, inLen - cnt, eid, oui)
      invariant FirstIe(s, off, off + inLen, eid, oui) == FirstIe(s, off + cnt, off + inLen, eid, oui)
    {
      SearchableStep(s, off + cnt, inLen - cnt, eid, oui);
      assert oui == [] ==> s[off + cnt + 2..off + cnt + 2 + |oui|] == oui;
      assert s[off + cnt] == eid ==> s[off + cnt + 2..off + cnt + 2 + |oui|] == buf[off + cnt + 2..off + cnt + 2 + |oui|];
      if eid == buf[off + cnt] && (oui == [] || buf[off + cnt + 2..off + cnt + 2 + |oui|] == oui) {
        return Some(off + cnt), 2 + buf[off + cnt + 1] as int;
      }
      cnt := cnt + buf[off + cnt + 1] + 2;
    }
  }

  // ---------- rtw_ies_remove_ie ----------

  /** Removes every matching element behind `offset`, in place. */
  method IesRemoveIe(buf: array<byte>, iesLen: nat, offset: nat, eid: byte, oui: seq<byte>, ghost es: seq<Elem>)
    returns (ret: bool, newLen: nat)
    requires iesLen <= buf.Length
    requires offset < iesLen ==>
      iesLen == offset + |Encode(es)| && At(buf[..], offset, Encode(es)) && HoldsPrefix(es, eid, oui)
    modifies buf
    ensures iesLen <= offset ==> !ret && newLen == iesLen && buf[..] == old(buf[..])
    ensures offset < iesLen ==>
      && newLen == offset + |Encode(Without(es, eid, oui))|
      && At(buf[..], 0, old(buf[..])[..offset])
      && At(buf[..], offset, Encode(Without(es, eid, oui)))
      && At(buf[..], iesLen, old(buf[..])[iesLen..])
      && (ret <==> exists e :: e in es && Matches(e, eid, oui))
  {
    hide Searchable, Encode, FirstIe, Without, At, Put;
    ret, newLen := false, iesLen;
    if iesLen <= offset {
      return;
    }
    var start, searchLen: nat := offset, iesLen - offset;
    ghost var done: seq<Elem>, rest: seq<Elem> := [], es;
    NothingRemoved(buf[..], offset, es, eid, oui);
    AtFrame(buf[..], offset, iesLen);
    while true
      invariant start == offset + |Encode(done)| && searchLen == |Encode(rest)| && newLen == start + searchLen <= iesLen
      invariant At(buf[..], 0, old(buf[..])[..offset]) && At(buf[..], iesLen, old(buf[..])[iesLen..])
      invariant At(buf[..], offset, Encode(done)) && At(buf[..], start, Encode(rest))
      invariant HoldsPrefix(rest, eid, oui)
      invariant Without(es, eid, oui) == done + Without(rest, eid, oui)
      invariant ret ==> exists e :: e in es && Matches(e, eid, oui)
      invariant !ret ==> rest == es && done == []
      invariant forall e :: e in rest ==> e in es
      decreases |rest|
    {
      SearchableElements(buf[..], start, rest, eid, oui);
      var target, ielen := GetIeEx(buf, start, searchLen, eid, oui);
      FirstIeFindsElement(buf[..], start, rest, eid, oui);
      ghost var k := IndexOf(rest, eid, oui);
      if target.Some? && ielen > 0 {
        var t := target.value;
        AtElement(buf[..], start, rest, k);
        var remain := t + ielen;
        var remainLen := searchLen - (remain - start);
        CloseGap(buf[..], offset, done, rest, k);
        KeepFrame(buf[..], t, remain, remainLen, offset, iesLen, old(buf[..]));
        Memmove(buf, t, remain, remainLen);
        newLen := newLen - ielen;
        RemoveOne(done, rest, k, eid, oui);
        assert rest[k] in rest;
        ret, start, searchLen := true, t, remainLen;
        done, rest := done + rest[..k], rest[k + 1..];
      } else {
        WithoutNone(rest, eid, oui);
        EncodeAppend(done, rest);
        AtSplit(buf[..], offset, Encode(done), Encode(rest));
        break;
      }
    }
  }

  lemma NothingRemoved(s: seq<byte>, off: nat, es: seq<Elem>, id: int, oui: seq<byte>)
    requires off <= |s|
    ensures Encode([]) == [] && At(s, off, Encode([])) && [] + Without(es, id, oui) == Without(es, id, oui)
  {
  }

  lemma AtFrame(s: seq<byte>, lo: nat, hi: nat)
    requires lo <= |s| && hi <= |s|
    ensures At(s, 0, s[..lo]) && At(s, hi, s[hi..])
  {
  }

  lemma KeepFrame(s: seq<byte>, dst: nat, src: nat, n: nat, lo: nat, hi: nat, was: seq<byte>)
    requires lo <= dst && dst + n <= hi <= |s| == |was| && src + n <= |s|
    requires At(s, 0, was[..lo]) && At(s, hi, was[hi..])
    ensures At(Put(s, dst, s[src..src + n]), 0, was[..lo]) && At(Put(s, dst, s[src..src + n]), hi, was[hi..])
  {
    AtPut(s, dst, s[src..src + n], 0, was[..lo]);
    AtPut(s, dst, s[src..src + n], hi, was[hi..]);
  }

  lemma SearchableElements(s: seq<byte>, off: nat, es: seq<Elem>, id: int, oui: seq<byte>)
    requires At(s, off, Encode(es)) && HoldsPrefix(es, id, oui)
    ensures Searchable(s, off, |Encode(es)|, id, oui)
  {
    DecodeEncode(es);
  }

  lemma AtElement(s: seq<byte>, off: nat, es: seq<Elem>, k: nat)
    requires At(s, off, Encode(es)) && k < |es|
    ensures
      var t := off + |Encode(es[..k])|;
      && At(s, off, Encode(es[..k])) && At(s, t, ElemBytes(es[k]))
      && At(s, t + 2 + |es[k].data|, Encode(es[k + 1..]))
      && t + 1 < |s| && s[t] == es[k].id && s[t + 1] == |es[k].data|
      && |Encode(es)| == |Encode(es[..k])| + 2 + |es[k].data| + |Encode(es[k + 1..])|
      && off + |Encode(es)| <= |s|
  {
    hide Encode;
    EncodeSplit(es, k);
    AtSplit(s, off, Encode(es[..k]) + ElemBytes(es[k]), Encode(es[k + 1..]));
    AtSplit(s, off, Encode(es[..k]), ElemBytes(es[k]));
    AtByte(s, off + |Encode(es[..k])|, ElemBytes(es[k]), 0);
    AtByte(s, off + |Encode(es[..k])|, ElemBytes(es[k]), 1);
  }

  /** Moving what follows element k of `rest` over that element leaves its neighbours side by side. */
  lemma CloseGap(s: seq<byte>, off: nat, done: seq<Elem>, rest: seq<Elem>, k: nat)
    requires k < |rest| && At(s, off, Encode(done)) && At(s, off + |Encode(done)|, Encode(rest))
    ensures Encode(done + rest[..k]) == Encode(done) + Encode(rest[..k])
    ensures
      var gap := off + |Encode(done)| + |Encode(rest[..k])|;
      var after := gap + 2 + |rest[k].data|;
      var n := |Encode(rest[k + 1..])|;
      && after + n <= |s|
      && At(Put(s, gap, s[after..after + n]), off, Encode(done + rest[..k]))
      && At(Put(s, gap, s[after..after + n]), gap, Encode(rest[k + 1..]))
  {
    hide Encode;
    EncodeAppend(done, rest[..k]);
    AtElement(s, off + |Encode(done)|, rest, k);
    AtSplit(s, off, Encode(done), Encode(rest[..k]));
    var gap := off + |Encode(done + rest[..k])|;
    AtPut(s, gap, Encode(rest[k + 1..]), off, Encode(done + rest[..k]));
  }

  lemma RemoveOne(done: seq<Elem>, rest: seq<Elem>, k: nat, id: int, oui: seq<byte>)
    requires k < |rest| && k == IndexOf(rest, id, oui)
    ensures done + Without(rest, id, oui) == done + rest[..k] + Without(rest[k + 1..], id, oui)
  {
    assert rest == rest[..k] + rest[k..];
    WithoutAppend(rest[..k], rest[k..], id, oui);
    WithoutNone(rest[..k], id, oui);
    assert rest[k..][1..] == rest[k + 1..];
  }
}
