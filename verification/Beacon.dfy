/** Editing the beacon's element list in place: adding and removing an element by id, refreshing the
    traffic indication map (TIM), and refreshing the ERP byte (`rtw_add_bcn_ie`, `rtw_remove_bcn_ie`,
    `update_BCNTIM`, `update_bcn_erpinfo_ie`). */
module Beacon {
  import opened Memory
  import opened Elements
  import opened Ieee80211
  import opened BssElements
  import VendorAttributes

  const FIXED_IE_LENGTH: nat := 12
  const SSID_IE: byte := 0
  const RATES_IE: byte := 1
  const TIM_IE: byte := 5
  const ERPINFO_IE: byte := 42
  const MAX_IE_SZ: nat := VendorAttributes.MAX_IE_SZ

  // ---------- splicing ----------

  /** The list with the elements from lo up to hi replaced by `mid`. */
  function Splice(es: seq<Elem>, lo: nat, hi: nat, mid: seq<Elem>): seq<Elem>
    requires lo <= hi <= |es|
  {
    es[..lo] + mid + es[hi..]
  }

  lemma SpliceBytes(es: seq<Elem>, lo: nat, hi: nat, mid: seq<Elem>)
    requires lo <= hi <= |es|
    ensures Encode(Splice(es, lo, hi, mid)) == Encode(es[..lo]) + Encode(mid) + Encode(es[hi..])
  {
    hide Encode;
    EncodeAppend(es[..lo], mid);
    EncodeAppend(es[..lo] + mid, es[hi..]);
  }

  /** The bytes in front of, and behind, a cut in the list. */
  lemma AtCut(s: seq<byte>, off: nat, es: seq<Elem>, k: nat)
    requires At(s, off, Encode(es)) && k <= |es|
    ensures At(s, off, Encode(es[..k])) && At(s, off + |Encode(es[..k])|, Encode(es[k..]))
    ensures |Encode(es)| == |Encode(es[..k])| + |Encode(es[k..])| && off + |Encode(es)| <= |s|
  {
    hide Encode;
    EncodeCut(es, k);
    AtSplit(s, off, Encode(es[..k]), Encode(es[k..]));
  }

  /** A beacon whose elements start right behind the 12 fixed bytes. */
  ghost predicate IsBeacon(bss: BssEx, es: seq<Elem>)
    reads bss, bss.ies
  {
    bss.reserved0 != 2 && bss.Carries(es)
  }

  /** Writes one element at `t` and what followed the edited place behind it. */
  method WriteElement(bss: BssEx, t: nat, id: byte, data: Body, remainder: seq<byte>,
                      ghost es: seq<Elem>, ghost lo: nat, ghost hi: nat)
    requires IsBeacon(bss, es) && lo <= hi <= |es|
    requires t == FIXED_IE_LENGTH + |Encode(es[..lo])| && remainder == Encode(es[hi..])
    requires FIXED_IE_LENGTH + |Encode(Splice(es, lo, hi, [Elem(id, data)]))| <= MAX_IE_SZ
    modifies bss`ieLength, bss.ies
    ensures IsBeacon(bss, Splice(es, lo, hi, [Elem(id, data)]))
    ensures At(bss.ies[..], 0, old(bss.ies[..])[..FIXED_IE_LENGTH])
  {
    hide Encode, At, Put, Splice;
    var e := Elem(id, data);
    ghost var s0 := bss.ies[..];
    SpliceBytes(es, lo, hi, [e]);
    EncodeOne(e);
    AtCut(s0, FIXED_IE_LENGTH, es, lo);
    AtFrame(s0, FIXED_IE_LENGTH, FIXED_IE_LENGTH);
    bss.ies[t] := id;
    bss.ies[t + 1] := |data|;
    Memcpy(bss.ies, t + 2, data);
    ghost var s1 := bss.ies[..];
    WriteHeader(s0, t, e);
    Memcpy(bss.ies, t + 2 + |data|, remainder);
    bss.ieLength := t + 2 + |data| + |remainder|;
    ghost var s2 := bss.ies[..];
    forall o: nat, x | o + |x| <= t && At(s0, o, x) ensures At(s2, o, x) {
      AtPut(s0, t, ElemBytes(e), o, x);
      AtPut(s1, t + 2 + |data|, remainder, o, x);
    }
    AtPut(s0, t, ElemBytes(e), t, ElemBytes(e));
    AtPut(s1, t + 2 + |data|, remainder, t, ElemBytes(e));
    AtSplit(s2, FIXED_IE_LENGTH, Encode(es[..lo]), ElemBytes(e));
    AtSplit(s2, FIXED_IE_LENGTH, Encode(es[..lo]) + ElemBytes(e), remainder);
  }

  lemma WriteHeader(s: seq<byte>, t: nat, e: Elem)
    requires t + 2 + |e.data| <= |s|
    ensures Put(s[t := e.id][t + 1 := |e.data|], t + 2, e.data) == Put(s, t, ElemBytes(e))
  {
  }

  // ---------- rtw_add_bcn_ie ----------

  /** How many elements precede the first one whose id is not smaller. */
  function AddPoint(es: seq<Elem>, id: byte): (k: nat)
    ensures k <= |es|
    ensures k < |es| ==> id <= es[k].id
    ensures forall j :: 0 <= j < k ==> es[j].id < id
  {
    if es == [] || id <= es[0].id then 0
    else
      var k := AddPoint(es[1..], id);
      assert forall j :: 0 < j < k + 1 ==> es[j] == es[1..][j - 1];
      k + 1
  }

  /** The scan stopped at an element with this id. */
  predicate Meets(es: seq<Elem>, id: byte) {
    AddPoint(es, id) < |es| && es[AddPoint(es, id)].id == id
  }

  /** The scan stopped behind an element that has data. */
  predicate Inserts(es: seq<Elem>, id: byte) {
    var k := AddPoint(es, id);
    !Meets(es, id) && k > 0 && es[k - 1].data != []
  }

  predicate Replaces(es: seq<Elem>, id: byte) {
    Meets(es, id) && es[AddPoint(es, id)].data != []
  }

  /** What adding does: the met element is replaced, or the new one goes behind the last smaller id; if
      the element the edit would start from is missing or empty, nothing happens. */
  function Added(es: seq<Elem>, id: byte, data: Body): seq<Elem> {
    var k := AddPoint(es, id);
    if Replaces(es, id) then Splice(es, k, k + 1, [Elem(id, data)])
    else if Inserts(es, id) then Splice(es, k, k, [Elem(id, data)])
    else es
  }

  /** The scan of `rtw_add_bcn_ie`: the element met, or else the last one with a smaller id. */
  method ScanBcnIe(bss: BssEx, index: byte, ghost es: seq<Elem>) returns (p: Option<nat>, ielen: nat, bmatch: bool)
    requires IsBeacon(bss, es)
    ensures bmatch <==> Meets(es, index)
    ensures
      var k := AddPoint(es, index);
      var at := if bmatch then k else k - 1;
      if at < 0 then p == None
      else p == Some(FIXED_IE_LENGTH + |Encode(es[..at])|) && ielen == |es[at].data|
  {
    hide Encode, At, AddPoint;
    p, ielen, bmatch := None, 0, false;
    var i: nat := FIXED_IE_LENGTH;
    ghost var k: nat := 0;
    NoBytes(es);
    while i < bss.ieLength
      invariant k <= |es| && i == FIXED_IE_LENGTH + |Encode(es[..k])| <= bss.ieLength
      invariant forall j :: 0 <= j < k ==> es[j].id < index
      invariant k == 0 ==> p == None
      invariant k > 0 ==> p == Some(FIXED_IE_LENGTH + |Encode(es[..k - 1])|) && ielen == |es[k - 1].data|
      invariant !bmatch
    {
      CutIsEnd(es, k);
      AtElement(bss.ies[..], FIXED_IE_LENGTH, es, k);
      EncodeSplit(es, k);
      if bss.ies[i] > index {
        ScanResult(es, index, k);
        return;
      } else if bss.ies[i] == index {
        ScanResult(es, index, k);
        return Some(i), bss.ies[i + 1], true;
      }
      p, ielen := Some(i), bss.ies[i + 1];
      i, k := i + ielen + 2, k + 1;
    }
    CutIsEnd(es, k);
    ScanResult(es, index, k);
  }

  method AddBcnIe(bss: BssEx, index: byte, data: Body, ghost es: seq<Elem>)
    requires IsBeacon(bss, es)
    requires FIXED_IE_LENGTH + |Encode(Added(es, index, data))| <= MAX_IE_SZ
    modifies bss`ieLength, bss.ies
    ensures IsBeacon(bss, Added(es, index, data))
    ensures At(bss.ies[..], 0, old(bss.ies[..])[..FIXED_IE_LENGTH])
  {
    hide Encode, At, Put, Splice, AddPoint;
    ghost var s := bss.ies[..];
    AtFrame(s, FIXED_IE_LENGTH, FIXED_IE_LENGTH);
    var p, ielen, bmatch := ScanBcnIe(bss, index, es);
    if p.None? || ielen == 0 {
      return;
    }
    ghost var k := AddPoint(es, index);
    ghost var at := if bmatch then k else k - 1;
    AtElement(s, FIXED_IE_LENGTH, es, at);
    EncodeSplit(es, at);
    var premainder := p.value + ielen + 2;
    AtBytes(s, premainder, Encode(es[at + 1..]));
    var dst := if bmatch then p.value else premainder;
    var remainder := bss.ies[premainder..bss.ieLength];
    WriteElement(bss, dst, index, data, remainder, es, k, at + 1);
  }

  lemma NoBytes(es: seq<Elem>)
    ensures es[..0] == [] && Encode([]) == []
  {
  }

  lemma CutIsEnd(es: seq<Elem>, k: nat)
    requires k <= |es|
    ensures k < |es| <==> |Encode(es[..k])| < |Encode(es)|
  {
    if k < |es| {
      EncodeSplit(es, k);
    } else {
      assert es[..k] == es;
    }
  }

  lemma AtBytes(s: seq<byte>, off: nat, b: seq<byte>)
    requires At(s, off, b)
    ensures off + |b| <= |s| && s[off..off + |b|] == b
  {
  }

  lemma ScanResult(es: seq<Elem>, id: byte, k: nat)
    requires k <= |es| && (forall j :: 0 <= j < k ==> es[j].id < id) && (k < |es| ==> id <= es[k].id)
    ensures AddPoint(es, id) == k
  {
  }

  // ---------- rtw_remove_bcn_ie ----------

  predicate Removes(es: seq<Elem>, id: byte) {
    var k := IndexOf(es, id, []);
    k < |es| && es[k].data != []
  }

  /** What removing does: the first element with this id goes, unless it is empty. */
  function Removed(es: seq<Elem>, id: byte): seq<Elem> {
    var k := IndexOf(es, id, []);
    if Removes(es, id) then Splice(es, k, k + 1, []) else es
  }

  method RemoveBcnIe(bss: BssEx, index: byte, ghost es: seq<Elem>)
    requires IsBeacon(bss, es)
    modifies bss`ieLength, bss.ies
    ensures IsBeacon(bss, Removed(es, index))
    ensures At(bss.ies[..], 0, old(bss.ies[..])[..FIXED_IE_LENGTH])
  {
    hide Encode, At, Put, Splice, Searchable, FirstIe, Place;
    ghost var s := bss.ies[..];
    ghost var k := IndexOf(es, index, []);
    SearchableElements(s, FIXED_IE_LENGTH, es, index, []);
    FirstIeFindsElement(s, FIXED_IE_LENGTH, es, index, []);
    PlaceIs(FIXED_IE_LENGTH, es, k);
    AtFrame(s, FIXED_IE_LENGTH, FIXED_IE_LENGTH);
    EmptySearch(es);
    var p, ielen := GetIe(bss.ies, FIXED_IE_LENGTH, index, bss.ieLength - FIXED_IE_LENGTH);
    if k < |es| {
      AtElement(s, FIXED_IE_LENGTH, es, k);
      EncodeSplit(es, k);
    }
    if p.None? || ielen == 0 {
      return;
    }
    var t := p.value;
    var premainder := t + 2 + ielen;
    AtBytes(s, premainder, Encode(es[k + 1..]));
    var remainder := bss.ies[premainder..bss.ieLength];
    SpliceBytes(es, k, k + 1, []);
    NoBytes(es);
    Memcpy(bss.ies, t, remainder);
    bss.ieLength := t + |remainder|;
    AtPut(s, t, remainder, 0, s[..FIXED_IE_LENGTH]);
    AtPut(s, t, remainder, FIXED_IE_LENGTH, Encode(es[..k]));
    AtSplit(bss.ies[..], FIXED_IE_LENGTH, Encode(es[..k]), remainder);
    PlusNothing(Encode(es[..k]));
  }

  lemma EmptySearch(es: seq<Elem>)
    ensures |Encode(es)| < 1 ==> es == []
  {
    if es != [] {
      EncodeStep(es);
    }
  }

  // ---------- what adding and removing keep ----------

  predicate Sorted(es: seq<Elem>) {
    forall i, j :: 0 <= i < j < |es| ==> es[i].id <= es[j].id
  }

  lemma {:induction false} AddKeepsSorted(es: seq<Elem>, id: byte, data: Body)
    requires Sorted(es)
    ensures Sorted(Added(es, id, data))
  {
    var k := AddPoint(es, id);
    assert forall j :: k <= j < |es| ==> id <= es[j].id;
  }

  lemma {:induction false} WithoutSplice(es: seq<Elem>, lo: nat, hi: nat, mid: seq<Elem>, id: int)
    requires lo <= hi <= |es|
    ensures Without(Splice(es, lo, hi, mid), id, []) == Without(es[..lo], id, []) + Without(mid, id, []) + Without(es[hi..], id, [])
  {
    hide Without;
    WithoutAppend(es[..lo], mid, id, []);
    WithoutAppend(es[..lo] + mid, es[hi..], id, []);
  }

  lemma WithoutGap(es: seq<Elem>, lo: nat, hi: nat, mid: seq<Elem>, id: int)
    requires lo <= hi <= |es|
    requires Without(mid, id, []) == [] && Without(es[lo..hi], id, []) == []
    ensures Without(Splice(es, lo, hi, mid), id, []) == Without(es, id, [])
  {
    hide Without;
    WithoutSplice(es, lo, hi, mid, id);
    WithoutSplice(es, lo, hi, es[lo..hi], id);
    assert Splice(es, lo, hi, es[lo..hi]) == es;
  }

  lemma WithoutSame(e: Elem)
    ensures Without([e], e.id, []) == [] && Without([], e.id, []) == []
  {
    assert Matches(e, e.id, []);
  }

  /** Adding and removing touch no element with another id. */
  lemma {:induction false} AddRemoveKeepOthers(es: seq<Elem>, id: byte, data: Body)
    ensures Without(Added(es, id, data), id, []) == Without(es, id, [])
    ensures Without(Removed(es, id), id, []) == Without(es, id, [])
  {
    hide Without, Splice;
    WithoutSame(Elem(id, data));
    var k := AddPoint(es, id);
    if Replaces(es, id) {
      assert es[k..k + 1] == [es[k]];
      WithoutSame(es[k]);
      WithoutGap(es, k, k + 1, [Elem(id, data)], id);
    } else if Inserts(es, id) {
      assert es[k..k] == [];
      WithoutGap(es, k, k, [Elem(id, data)], id);
    }
    if Removes(es, id) {
      var j := IndexOf(es, id, []);
      assert es[j..j + 1] == [es[j]];
      WithoutSame(es[j]);
      WithoutGap(es, j, j + 1, [], id);
    }
  }

  lemma IndexIs(es: seq<Elem>, id: int, k: nat)
    requires k <= |es| && (forall j :: 0 <= j < k ==> es[j].id != id) && (k < |es| ==> es[k].id == id)
    ensures IndexOf(es, id, []) == k
  {
    assert k < |es| ==> Matches(es[k], id, []);
    assert forall j :: 0 <= j < k ==> !Matches(es[j], id, []);
  }

  /** Adding an element and removing its id gives the first list back exactly when the element was
      inserted with data, or when neither call had anything to edit. */
  lemma {:induction false} AddThenRemove(es: seq<Elem>, id: byte, data: Body)
    ensures Removed(Added(es, id, data), id) == es <==>
      (Inserts(es, id) && data != []) || (!Inserts(es, id) && !Replaces(es, id) && !Removes(es, id))
  {
    hide Added, Removed, Inserts, Replaces, Removes;
    if Inserts(es, id) {
      InsertThenRemove(es, id, data);
    } else if Replaces(es, id) {
      ReplaceThenRemove(es, id, data);
    } else {
      OnlyRemove(es, id, data);
    }
  }

  lemma {:induction false} InsertThenRemove(es: seq<Elem>, id: byte, data: Body)
    requires Inserts(es, id)
    ensures Removed(Added(es, id, data), id) == es <==> data != []
  {
    var k := AddPoint(es, id);
    var t := Added(es, id, data);
    assert t[k] == Elem(id, data) && forall j :: 0 <= j < k ==> t[j] == es[j];
    IndexIs(t, id, k);
    if data != [] {
      assert Removed(t, id) == t[..k] + [] + t[k + 1..];
      assert t[..k] == es[..k] && t[k + 1..] == es[k..];
    } else {
      assert |Removed(t, id)| == |es| + 1;
    }
  }

  lemma {:induction false} ReplaceThenRemove(es: seq<Elem>, id: byte, data: Body)
    requires Replaces(es, id)
    ensures !Inserts(es, id) && Removed(Added(es, id, data), id) != es
  {
    var k := AddPoint(es, id);
    var t := Added(es, id, data);
    assert t[k] == Elem(id, data) && forall j :: 0 <= j < k ==> t[j] == es[j];
    IndexIs(t, id, k);
    if data != [] {
      assert |Removed(t, id)| == |es| - 1;
    } else {
      assert Removed(t, id)[k] == Elem(id, []);
    }
  }

  lemma {:induction false} OnlyRemove(es: seq<Elem>, id: byte, data: Body)
    requires !Inserts(es, id) && !Replaces(es, id)
    ensures Removed(Added(es, id, data), id) == es <==> !Removes(es, id)
  {
    if Removes(es, id) {
      assert |Removed(es, id)| == |es| - 1;
    }
  }

  /** The case the calls are used for: an id that is not in the list. */
  lemma {:induction false} AddThenRemoveFreshId(es: seq<Elem>, id: byte, data: Body)
    requires forall e :: e in es ==> e.id != id
    requires data != []
    ensures Removed(Added(es, id, data), id) == es
  {
    AddThenRemove(es, id, data);
  }

  // ---------- by position ----------

  /** What adding does, by the ids around the place: an element with the id that is reached first is replaced if
      it has data; otherwise the new one goes behind the smaller ids, if the last of them has data. */
  lemma {:induction false} AddedExactly(es: seq<Elem>, id: byte, data: Body, k: nat)
    requires k <= |es| && (forall j :: 0 <= j < k ==> es[j].id < id) && (k < |es| ==> es[k].id >= id)
    ensures
      Added(es, id, data) ==
        if k < |es| && es[k].id == id then if es[k].data != [] then es[k := Elem(id, data)] else es
        else if k > 0 && es[k - 1].data != [] then es[..k] + [Elem(id, data)] + es[k..]
        else es
  {
    hide AddPoint;
    assert AddPoint(es, id) == k;
  }

  /** And what removing does: the first element with the id goes if it has data. */
  lemma {:induction false} RemovedExactly(es: seq<Elem>, id: byte, k: nat)
    requires k <= |es| && (forall j :: 0 <= j < k ==> es[j].id != id) && (k < |es| ==> es[k].id == id)
    ensures Removed(es, id) == if k < |es| && es[k].data != [] then es[..k] + es[k + 1..] else es
  {
    IndexIs(es, id, k);
    hide IndexOf;
    if k < |es| {
      assert es[..k] + [] == es[..k];
    }
  }
}
