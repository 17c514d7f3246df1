/** The traffic indication map: the element that `update_BCNTIM` writes, what a station reads from it
    (IEEE 802.11-2012, section 8.4.2.7), where it is written, and the ERP byte beside it. */
module Tim {
  import opened Memory
  import opened Elements
  import opened Ieee80211
  import opened BssElements
  import opened Beacon

  // ---------- bits ----------

  /** Bit k of a number. */
  predicate Bit(x: nat, k: nat) {
    if k == 0 then x % 2 == 1 else Bit(x / 2, k - 1)
  }

  /** A number without its low m bits. */
  function Upper(x: nat, m: nat): nat {
    if m == 0 then x else Upper(x / 2, m - 1)
  }

  lemma {:induction false} UpperTwice(x: nat, m: nat, n: nat)
    ensures Upper(x, m + n) == Upper(Upper(x, m), n)
    decreases m
  {
    if m > 0 {
      UpperTwice(x / 2, m - 1, n);
    }
  }

  lemma UpperOf2(x: nat)
    ensures Upper(x, 2) == x / 4
  {
    assert Upper(x, 2) == Upper(x / 2, 1) == Upper(x / 2 / 2, 0) == x / 2 / 2;
  }

  lemma UpperOf4(x: nat)
    ensures Upper(x, 4) == x / 16
  {
    UpperTwice(x, 2, 2);
    UpperOf2(x);
    UpperOf2(x / 4);
  }

  lemma UpperOf8(x: nat)
    ensures Upper(x, 8) == x / 256
  {
    UpperTwice(x, 4, 4);
    UpperOf4(x);
    UpperOf4(x / 16);
  }

  /** The bits from m on are the bits of what is left without the low m bits. */
  lemma {:induction false} BitOfHigh(x: nat, m: nat, k: nat)
    ensures Bit(x, k + m) == Bit(Upper(x, m), k)
    decreases m
  {
    if m > 0 {
      BitOfHigh(x / 2, m - 1, k);
    }
  }

  /** The low m bits of a number. */
  function Lower(x: nat, m: nat): nat {
    if m == 0 then 0 else x % 2 + 2 * Lower(x / 2, m - 1)
  }

  lemma LowerPast2(x: nat, n: nat)
    ensures Lower(x, n + 2) == x % 4 + 4 * Lower(x / 4, n)
  {
    assert Lower(x, n + 2) == x % 2 + 2 * Lower(x / 2, n + 1);
    assert Lower(x / 2, n + 1) == (x / 2) % 2 + 2 * Lower(x / 2 / 2, n);
    assert x / 2 / 2 == x / 4;
  }

  lemma LowerOf4(x: nat)
    ensures Lower(x, 4) == x % 16
  {
    LowerPast2(x, 2);
    LowerPast2(x / 4, 0);
    Digits4(x);
  }

  lemma LowerOf8(x: nat)
    ensures Lower(x, 8) == x % 256
  {
    LowerPast2(x, 6);
    LowerPast2(x / 4, 4);
    LowerOf4(x / 4 / 4);
    assert x / 4 / 4 == x / 16;
    Digits4(x);
    Digits16(x);
  }

  lemma Digits4(x: nat)
    ensures x % 16 == x % 4 + 4 * ((x / 4) % 4)
  {
    var q, r := x / 16, x % 16;
    assert x / 4 == 4 * q + r / 4;
  }

  lemma Digits16(x: nat)
    ensures x % 256 == x % 16 + 16 * ((x / 16) % 16)
  {
    var q, r := x / 256, x % 256;
    assert x / 16 == 16 * q + r / 16;
  }

  lemma {:induction false} BitOfLow(x: nat, m: nat, k: nat)
    requires k < m
    ensures Bit(Lower(x, m), k) == Bit(x, k)
    decreases k
  {
    assert Lower(x, m) / 2 == Lower(x / 2, m - 1);
    if k > 0 {
      BitOfLow(x / 2, m - 1, k - 1);
    }
  }

  lemma {:induction false} SomeBit(x: nat, m: nat) returns (k: nat)
    requires 0 < x && Upper(x, m) == 0
    ensures k < m && Bit(x, k)
    decreases m
  {
    if x % 2 == 1 {
      k := 0;
    } else {
      k := SomeBit(x / 2, m - 1);
      k := k + 1;
    }
  }

  function Weight(m: nat): nat {
    if m == 0 then 1 else 2 * Weight(m - 1)
  }

  /** A number with bit k set. */
  function SetBit(x: nat, k: nat): nat {
    if k == 0 then x - x % 2 + 1 else 2 * SetBit(x / 2, k - 1) + x % 2
  }

  lemma {:induction false} SetBitIs(x: nat, k: nat, j: nat)
    ensures Bit(SetBit(x, k), j) <==> Bit(x, j) || j == k
    decreases k
  {
    if k > 0 && j > 0 {
      SetBitIs(x / 2, k - 1, j - 1);
    }
  }

  lemma {:induction false} SetBitFits(x: nat, k: nat, m: nat)
    requires x < Weight(m) && k < m
    ensures SetBit(x, k) < Weight(m)
    decreases k
  {
    if k > 0 {
      SetBitFits(x / 2, k - 1, m - 1);
    }
  }

  /** `bitmap |= BIT(aid)` on the driver's 16-bit bitmap. */
  function OrBit(bm: Bitmap, aid: nat): Bitmap {
    if aid > 15 then bm
    else
      Weights();
      SetBitFits(bm, aid, 16);
      SetBit(bm, aid)
  }

  /** A number with bit k clear. */
  function ClearBit(x: nat, k: nat): (y: nat)
    ensures y <= x
  {
    if k == 0 then x - x % 2 else 2 * ClearBit(x / 2, k - 1) + x % 2
  }

  lemma {:induction false} ClearBitIs(x: nat, k: nat, j: nat)
    ensures Bit(ClearBit(x, k), j) <==> Bit(x, j) && j != k
    decreases k
  {
    if k > 0 && j > 0 {
      ClearBitIs(x / 2, k - 1, j - 1);
    }
  }

  /** `bitmap &= ~BIT(aid)` */
  function AndNotBit(bm: Bitmap, aid: nat): Bitmap {
    if aid > 15 then bm else ClearBit(bm, aid)
  }

  lemma OrBitIs(bm: Bitmap, aid: nat, a: nat)
    requires a <= 15
    ensures Bit(OrBit(bm, aid), a) <==> Bit(bm, a) || a == aid
    ensures Bit(AndNotBit(bm, aid), a) <==> Bit(bm, a) && a != aid
  {
    hide Bit, SetBit, ClearBit;
    if aid <= 15 {
      SetBitIs(bm, aid, a);
      ClearBitIs(bm, aid, a);
    }
  }

  lemma {:induction false} WeightSum(m: nat, n: nat)
    ensures Weight(m + n) == Weight(m) * Weight(n)
  {
    if n > 0 {
      WeightSum(m, n - 1);
    }
  }

  lemma Weights()
    ensures Weight(8) == 256 && Weight(4) == 16 && Weight(16) == 0x10000
  {
    assert Weight(2) == 2 * Weight(1) == 4;
    assert Weight(4) == 2 * (2 * Weight(2)) == 16;
    WeightSum(4, 4);
    WeightSum(8, 8);
  }

  lemma {:induction false} NoBit(k: nat)
    ensures !Bit(0, k)
  {
    if k > 0 {
      NoBit(k - 1);
    }
  }

  // ---------- the element ----------

  /** The driver's bitmap: bit 0 for group traffic, bit a for association id a. */
  type Bitmap = b: int | 0 <= b < 0x10000

  /** Some association id from 1 to 7 is set. */
  predicate HasLow(bm: Bitmap) {
    (bm % 256) / 2 != 0
  }

  /** Some association id from 8 to 15 is set. */
  predicate HasHigh(bm: Bitmap) {
    bm / 256 != 0
  }

  function PartialBitmap(bm: Bitmap): (v: seq<byte>)
    ensures 1 <= |v| <= 2
  {
    if HasHigh(bm) && HasLow(bm) then [bm % 256, bm / 256]
    else if HasLow(bm) then [bm % 256]
    else if HasHigh(bm) then [bm / 256]
    else [bm % 256]
  }

  /** DTIM count 0, DTIM period 1, bitmap control with the group bit, and the partial bitmap. */
  function TimElem(bm: Bitmap): (e: Elem)
    ensures e.id == TIM_IE && e.data != []
  {
    Elem(TIM_IE, [0, 1, bm % 2] + PartialBitmap(bm))
  }

  /** What a station reads: the control byte's upper bits give the first octet of the virtual bitmap
      that is present, in units of two; bit a % 8 of octet a / 8 stands for association id a. */
  predicate Indicates(data: seq<byte>, aid: nat)
    requires |data| >= 3
  {
    var first := 2 * (data[2] / 2);
    var octet := aid / 8;
    first <= octet < first + |data| - 3 && Bit(data[3 + octet - first], aid % 8)
  }

  predicate IndicatesGroup(data: seq<byte>)
    requires |data| >= 3
  {
    data[2] % 2 == 1
  }

  /** A station reads exactly the bitmap's association ids if and only if no id above 7 is set or some
      id below 8 is; the group bit is always right, and no id above 15 is ever shown. */
  lemma {:induction false} TimReadsBack(bm: Bitmap)
    ensures IndicatesGroup(TimElem(bm).data) <==> Bit(bm, 0)
    ensures (forall a :: 1 <= a <= 15 ==> (Indicates(TimElem(bm).data, a) <==> Bit(bm, a)))
      <==> !HasHigh(bm) || HasLow(bm)
    ensures forall a :: a > 15 ==> !Indicates(TimElem(bm).data, a)
  {
    TimControl(bm);
    if !HasHigh(bm) || HasLow(bm) {
      forall a | 1 <= a <= 15 ensures Indicates(TimElem(bm).data, a) <==> Bit(bm, a) {
        ReadsBackWhenLow(bm, a);
      }
    } else {
      var a := MisplacedWhenOnlyHigh(bm);
    }
  }

  lemma TimControl(bm: Bitmap)
    ensures
      var d := TimElem(bm).data;
      && |d| == 3 + |PartialBitmap(bm)| && d[2] == bm % 2 && d[3] == PartialBitmap(bm)[0]
      && (|d| == 5 ==> d[4] == PartialBitmap(bm)[1])
  {
  }

  lemma ReadsBackWhenLow(bm: Bitmap, a: nat)
    requires a <= 15 && (!HasHigh(bm) || HasLow(bm))
    ensures Indicates(TimElem(bm).data, a) <==> Bit(bm, a)
  {
    hide Bit, TimElem;
    TimControl(bm);
    BitsOfHalves(bm, a);
    var d := TimElem(bm).data;
    assert 2 * (d[2] / 2) == 0 && d[3] == bm % 256;
    if a < 8 {
      assert a / 8 == 0 && a % 8 == a;
    } else {
      assert a / 8 == 1 && a % 8 == a - 8;
    }
  }

  lemma MisplacedWhenOnlyHigh(bm: Bitmap) returns (a: nat)
    requires HasHigh(bm) && !HasLow(bm)
    ensures 8 <= a <= 15 && Bit(bm, a) && !Indicates(TimElem(bm).data, a)
  {
    hide Bit;
    TimControl(bm);
    UpperOf8(bm / 256);
    var k := SomeBit(bm / 256, 8);
    a := k + 8;
    BitsOfHalves(bm, a);
  }

  lemma BitsOfHalves(bm: Bitmap, a: nat)
    requires a <= 15
    ensures a < 8 ==> Bit(bm, a) == Bit(bm % 256, a)
    ensures a >= 8 ==> Bit(bm, a) == Bit(bm / 256, a - 8)
    ensures !HasHigh(bm) && a >= 8 ==> !Bit(bm, a)
  {
    UpperOf8(bm);
    LowerOf8(bm);
    if a < 8 {
      BitOfLow(bm, 8, a);
    } else {
      BitOfHigh(bm, 8, a - 8);
      if !HasHigh(bm) {
        NoBit(a - 8);
      }
    }
  }

  /** The failing branch: with only id 8 set, the octet is written where id 0 belongs. */
  lemma OnlyHighIdsAreMisplaced()
    ensures TimElem(0x0100).data == [0, 1, 0, 1]
    ensures Bit(0x0100, 8) && !Indicates(TimElem(0x0100).data, 8)
    ensures Indicates(TimElem(0x0200).data, 1) && !Bit(0x0200, 1)
  {
    TimReadsBack(0x0100);
    BitOfHigh(0x0100, 8, 0);
    UpperOf8(0x0100);
    BitOfLow(0x0200, 8, 1);
    LowerOf8(0x0200);
    NoBit(1);
  }

  // ---------- where the element goes ----------

  predicate HasNonEmpty(es: seq<Elem>, id: byte) {
    var k := IndexOf(es, id, []);
    k < |es| && es[k].data != []
  }

  /** Bytes of the first element with this id, or none. */
  function SizeOf(es: seq<Elem>, id: byte): nat {
    var k := IndexOf(es, id, []);
    if k < |es| then 2 + |es[k].data| else 0
  }

  /** The code's idea of where the TIM belongs: behind the SSID, the rates and 3 bytes of DS parameters. */
  function HeadLen(es: seq<Elem>): nat {
    SizeOf(es, SSID_IE) + SizeOf(es, RATES_IE) + 3
  }

  /** How many elements fill the first n bytes exactly, if some do. */
  function CutAt(es: seq<Elem>, n: nat): (r: Option<nat>)
    ensures r.Some? ==> r.value <= |es|
  {
    if n == 0 then Some(0)
    else if es == [] || n < 2 + |es[0].data| then None
    else
      match CutAt(es[1..], n - 2 - |es[0].data|)
      case None => None
      case Some(k) => Some(k + 1)
  }

  lemma {:induction false} CutAtIs(es: seq<Elem>, n: nat)
    ensures CutAt(es, n).Some? ==> |Encode(es[..CutAt(es, n).value])| == n
  {
    if n > 0 && CutAt(es, n).Some? {
      CutAtIs(es[1..], n - 2 - |es[0].data|);
      var k := CutAt(es, n).value;
      assert es[..k][0] == es[0] && es[..k][1..] == es[1..][..k - 1];
      EncodeStep(es[..k]);
    }
  }

  /** The update has a place to write: an old TIM with data, or an element boundary behind the head. */
  predicate HasPlace(es: seq<Elem>) {
    HasNonEmpty(es, TIM_IE) || CutAt(es, HeadLen(es)).Some?
  }

  function TimPoint(es: seq<Elem>): (k: nat)
    requires HasPlace(es)
    ensures k <= |es| && (HasNonEmpty(es, TIM_IE) ==> k < |es|)
  {
    if HasNonEmpty(es, TIM_IE) then IndexOf(es, TIM_IE, []) else CutAt(es, HeadLen(es)).value
  }

  function TimUpdated(es: seq<Elem>, bm: Bitmap): seq<Elem>
    requires HasPlace(es)
  {
    var k := TimPoint(es);
    Splice(es, k, if HasNonEmpty(es, TIM_IE) then k + 1 else k, [TimElem(bm)])
  }

  /** Every usual beacon has a place: SSID, supported rates and a one-byte DS parameter set come first. */
  lemma UsualBeaconHasPlace(ssid: Body, rates: Body, ds: Body, rest: seq<Elem>)
    requires |ds| == 1
    ensures
      var es := [Elem(SSID_IE, ssid), Elem(RATES_IE, rates), Elem(3, ds)] + rest;
      HasPlace(es) && (!HasNonEmpty(es, TIM_IE) ==> TimPoint(es) == 3)
  {
    var es := [Elem(SSID_IE, ssid), Elem(RATES_IE, rates), Elem(3, ds)] + rest;
    IndexIs(es, SSID_IE, 0);
    IndexIs(es, RATES_IE, 1);
    assert es[1..][0] == es[1] && es[1..][1..][0] == es[2];
    assert CutAt(es[1..][1..][1..], 0) == Some(0);
    assert CutAt(es[1..][1..], 3) == Some(1);
    assert CutAt(es[1..], 5 + |rates|) == Some(2);
  }

  // ---------- update_BCNTIM ----------

  /** Reads one element's size from the beacon's list: the `tmp_len + 2` of the code, or 0. */
  method FindSize(bss: BssEx, id: byte, ghost es: seq<Elem>) returns (p: Option<nat>, len: byte)
    requires IsBeacon(bss, es)
    ensures
      var k := IndexOf(es, id, []);
      if k < |es| then p == Some(FIXED_IE_LENGTH + |Encode(es[..k])|) && len == |es[k].data|
      else p == None && len == 0
  {
    hide Encode, At, Searchable, FirstIe, Place;
    ghost var s := bss.ies[..];
    ghost var k := IndexOf(es, id, []);
    SearchableElements(s, FIXED_IE_LENGTH, es, id, []);
    FirstIeFindsElement(s, FIXED_IE_LENGTH, es, id, []);
    PlaceIs(FIXED_IE_LENGTH, es, k);
    EmptySearch(es);
    p, len := GetIe(bss.ies, FIXED_IE_LENGTH, id, bss.ieLength - FIXED_IE_LENGTH);
    if k < |es| {
      AtElement(s, FIXED_IE_LENGTH, es, k);
    }
  }

  /** Where to write, and where the bytes begin that must follow the new TIM. */
  method FindTimPlace(bss: BssEx, ghost es: seq<Elem>) returns (dst: nat, premainder: nat)
    requires IsBeacon(bss, es) && HasPlace(es)
    ensures dst == FIXED_IE_LENGTH + |Encode(es[..TimPoint(es)])|
    ensures premainder == FIXED_IE_LENGTH + |Encode(es[..if HasNonEmpty(es, TIM_IE) then TimPoint(es) + 1 else TimPoint(es)])|
  {
    hide Encode, At, CutAt;
    var p, timLen := FindSize(bss, TIM_IE, es);
    if p.Some? && timLen > 0 {
      EncodeSplit(es, TimPoint(es));
      premainder := p.value + 2 + timLen as int;
      dst := p.value;
    } else {
      var offset: nat := FIXED_IE_LENGTH;
      var q, tmpLen := FindSize(bss, SSID_IE, es);
      if q.Some? {
        offset := offset + 2 + tmpLen as int;
      }
      q, tmpLen := FindSize(bss, RATES_IE, es);
      if q.Some? {
        offset := offset + 2 + tmpLen as int;
      }
      offset := offset + 3;
      CutAtIs(es, HeadLen(es));
      premainder, dst := offset, offset;
    }
  }

  /** Writes the TIM for the bitmap over the old one, or behind the head if there is none with data. */
  method UpdateBcnTim(bss: BssEx, timBitmap: Bitmap, ghost es: seq<Elem>)
    requires IsBeacon(bss, es) && HasPlace(es)
    requires FIXED_IE_LENGTH + |Encode(TimUpdated(es, timBitmap))| <= MAX_IE_SZ
    modifies bss`ieLength, bss.ies
    ensures IsBeacon(bss, TimUpdated(es, timBitmap))
    ensures At(bss.ies[..], 0, old(bss.ies[..])[..FIXED_IE_LENGTH])
  {
    hide Encode, At, Put, Splice, HasPlace, TimPoint;
    var dst, premainder := FindTimPlace(bss, es);
    ghost var k := TimPoint(es);
    ghost var hi := if HasNonEmpty(es, TIM_IE) then k + 1 else k;
    AtCut(bss.ies[..], FIXED_IE_LENGTH, es, hi);
    AtBytes(bss.ies[..], premainder, Encode(es[hi..]));
    var remainder := bss.ies[premainder..bss.ieLength];

    var control: byte := if timBitmap % 2 == 1 then 1 else 0;
    var pvb: seq<byte>;
    if timBitmap / 256 != 0 && (timBitmap % 256) / 2 != 0 {
      pvb := [timBitmap % 256, timBitmap / 256];
    } else if (timBitmap % 256) / 2 != 0 {
      pvb := [timBitmap % 256];
    } else if timBitmap / 256 != 0 {
      pvb := [timBitmap / 256];
    } else {
      pvb := [timBitmap % 256];
    }
    WriteElement(bss, dst, TIM_IE, [0, 1, control] + pvb, remainder, es, k, hi);
  }

  // ---------- what an update keeps ----------

  function Count(es: seq<Elem>, id: byte): nat {
    if es == [] then 0 else (if es[0].id == id then 1 else 0) + Count(es[1..], id)
  }

  lemma {:induction false} CountAppend(a: seq<Elem>, b: seq<Elem>, id: byte)
    ensures Count(a + b, id) == Count(a, id) + Count(b, id)
  {
    if a == [] {
      PlusNothing(b);
    } else {
      TailOfSum(a, b);
      CountAppend(a[1..], b, id);
    }
  }

  lemma CountSplice(es: seq<Elem>, lo: nat, hi: nat, mid: seq<Elem>, id: byte)
    requires lo <= hi <= |es|
    ensures Count(Splice(es, lo, hi, mid), id) == Count(es, id) - Count(es[lo..hi], id) + Count(mid, id)
  {
    hide Count;
    CountAppend(es[..lo], mid, id);
    CountAppend(es[..lo] + mid, es[hi..], id);
    CountAppend(es[..lo], es[lo..hi], id);
    CountAppend(es[..lo] + es[lo..hi], es[hi..], id);
    assert es == es[..lo] + es[lo..hi] + es[hi..];
  }

  lemma {:induction false} CountFirst(es: seq<Elem>, id: byte)
    ensures Count(es, id) == 0 <==> IndexOf(es, id, []) == |es|
  {
    if es != [] {
      CountFirst(es[1..], id);
    }
  }

  /** All other elements stay, in order; where there was at most one TIM and it was not empty, there is
      one afterwards. */
  lemma {:induction false} TimUpdateKeepsOthers(es: seq<Elem>, bm: Bitmap)
    requires HasPlace(es)
    ensures Without(TimUpdated(es, bm), TIM_IE, []) == Without(es, TIM_IE, [])
    ensures Count(TimUpdated(es, bm), TIM_IE) == if HasNonEmpty(es, TIM_IE) then Count(es, TIM_IE) else Count(es, TIM_IE) + 1
    ensures Count(es, TIM_IE) == 0 || (Count(es, TIM_IE) == 1 && HasNonEmpty(es, TIM_IE)) ==>
      Count(TimUpdated(es, bm), TIM_IE) == 1
  {
    hide Without, Splice;
    var k := TimPoint(es);
    var e := TimElem(bm);
    WithoutSame(e);
    CountFirst(es, TIM_IE);
    if HasNonEmpty(es, TIM_IE) {
      assert es[k..k + 1] == [es[k]];
      WithoutSame(es[k]);
      WithoutGap(es, k, k + 1, [e], TIM_IE);
      CountSplice(es, k, k + 1, [e], TIM_IE);
    } else {
      assert es[k..k] == [];
      WithoutGap(es, k, k, [e], TIM_IE);
      CountSplice(es, k, k, [e], TIM_IE);
    }
  }

  /** A second update with the same bitmap changes nothing, exactly unless the first one was put behind
      an empty TIM, which hides it from the next search. */
  lemma {:induction false} TimUpdateIdempotent(es: seq<Elem>, bm: Bitmap)
    requires HasPlace(es)
    ensures
      var t := TimUpdated(es, bm);
      var hidden := !HasNonEmpty(es, TIM_IE) && IndexOf(es, TIM_IE, []) < TimPoint(es);
      && (!hidden ==> HasPlace(t) && TimUpdated(t, bm) == t)
      && (hidden ==> !HasNonEmpty(t, TIM_IE) && (HasPlace(t) ==> TimUpdated(t, bm) != t))
  {
    if HasNonEmpty(es, TIM_IE) || TimPoint(es) <= IndexOf(es, TIM_IE, []) {
      SecondUpdateFinds(es, bm);
    } else {
      SecondUpdateMisses(es, bm);
    }
  }

  lemma SecondUpdateFinds(es: seq<Elem>, bm: Bitmap)
    requires HasPlace(es) && (HasNonEmpty(es, TIM_IE) || TimPoint(es) <= IndexOf(es, TIM_IE, []))
    ensures HasPlace(TimUpdated(es, bm)) && TimUpdated(TimUpdated(es, bm), bm) == TimUpdated(es, bm)
  {
    hide CutAt, TimElem, HeadLen, IndexOf;
    var k := TimPoint(es);
    var t := TimUpdated(es, bm);
    assert t[k] == TimElem(bm) && forall i :: 0 <= i < k ==> t[i] == es[i];
    assert forall i :: 0 <= i < k ==> !Matches(es[i], TIM_IE, []);
    IndexIs(t, TIM_IE, k);
    hide Matches;
    assert HasNonEmpty(t, TIM_IE) && TimPoint(t) == k;
    SpliceSame(t, k, TimElem(bm));
  }

  lemma SpliceSame(es: seq<Elem>, k: nat, e: Elem)
    requires k < |es| && es[k] == e
    ensures Splice(es, k, k + 1, [e]) == es
  {
  }

  lemma SecondUpdateMisses(es: seq<Elem>, bm: Bitmap)
    requires HasPlace(es) && !HasNonEmpty(es, TIM_IE) && IndexOf(es, TIM_IE, []) < TimPoint(es)
    ensures !HasNonEmpty(TimUpdated(es, bm), TIM_IE)
    ensures HasPlace(TimUpdated(es, bm)) ==> TimUpdated(TimUpdated(es, bm), bm) != TimUpdated(es, bm)
  {
    hide CutAt, TimElem, HeadLen;
    var k, j := TimPoint(es), IndexOf(es, TIM_IE, []);
    var t := TimUpdated(es, bm);
    assert forall i :: 0 <= i < k ==> t[i] == es[i];
    assert forall i :: 0 <= i < j ==> !Matches(es[i], TIM_IE, []);
    IndexIs(t, TIM_IE, j);
    if HasPlace(t) {
      assert |TimUpdated(t, bm)| == |t| + 1;
    }
  }

  // ---------- update_bcn_erpinfo_ie ----------

  /** Bits 0 and 1 (NonERP_Present, Use_Protection) set together or cleared together. */
  function WithProtection(b: byte, on: bool): (r: byte) {
    b - b % 4 + if on then 3 else 0
  }

  /** Bit 2 (Barker_Preamble_Mode). */
  function WithBarker(b: byte, on: bool): (r: byte) {
    var clear := if (b / 4) % 2 == 1 then b - 4 else b;
    if on then clear + 4 else clear
  }

  predicate NonErpPresent(b: byte) { b % 2 == 1 }
  predicate UseProtection(b: byte) { (b / 2) % 2 == 1 }
  predicate BarkerPreamble(b: byte) { (b / 4) % 2 == 1 }

  lemma ErpBits(b: byte, protect: bool, barker: bool)
    ensures
      var r := WithBarker(WithProtection(b, protect), barker);
      && NonErpPresent(r) == UseProtection(r) == protect
      && BarkerPreamble(r) == barker
      && r / 8 == b / 8
  {
    hide WithProtection, WithBarker;
    ProtectionBits(b, protect);
    BarkerBits(WithProtection(b, protect), barker);
    LowBits(WithBarker(WithProtection(b, protect), barker));
  }

  lemma LowBits(b: byte)
    ensures b % 4 == 0 ==> b % 2 == 0 && (b / 2) % 2 == 0
    ensures b % 4 == 3 ==> b % 2 == 1 && (b / 2) % 2 == 1
  {
  }

  lemma ProtectionBits(b: byte, on: bool)
    ensures WithProtection(b, on) % 4 == (if on then 3 else 0) && WithProtection(b, on) / 4 == b / 4
  {
  }

  lemma BarkerBits(b: byte, on: bool)
    ensures
      var r := WithBarker(b, on);
      r % 4 == b % 4 && r / 8 == b / 8 && ((r / 4) % 2 == 1 <==> on)
  {
    var r := WithBarker(b, on);
    var q, m := b / 8, b % 4;
    assert b == 8 * q + 4 * ((b / 4) % 2) + m;
    assert r == 8 * q + m + if on then 4 else 0;
  }

  function ErpByte(es: seq<Elem>): byte
    requires HasNonEmpty(es, ERPINFO_IE)
  {
    es[IndexOf(es, ERPINFO_IE, [])].data[0]
  }

  function ErpUpdated(es: seq<Elem>, protect: bool, barker: bool): seq<Elem> {
    if HasNonEmpty(es, ERPINFO_IE) then
      var k := IndexOf(es, ERPINFO_IE, []);
      var d := es[k].data;
      es[k := Elem(ERPINFO_IE, d[0 := WithBarker(WithProtection(d[0], protect), barker)])]
    else es
  }

  /** Rewrites the ERP byte.  The protection bits are set when exactly one non-ERP station is counted. */
  method UpdateBcnErpInfo(bss: BssEx, erpEnable: bool, numNonErp: int, numNoShortPreamble: int, ghost es: seq<Elem>)
    requires IsBeacon(bss, es)
    modifies bss.ies
    ensures IsBeacon(bss, if erpEnable then ErpUpdated(es, numNonErp == 1, numNoShortPreamble > 0) else es)
    ensures At(bss.ies[..], 0, old(bss.ies[..])[..FIXED_IE_LENGTH])
  {
    hide Encode, At, Put, WithProtection, WithBarker;
    ghost var s := bss.ies[..];
    AtFrame(s, FIXED_IE_LENGTH, FIXED_IE_LENGTH);
    if !erpEnable {
      return;
    }
    var p, len := FindSize(bss, ERPINFO_IE, es);
    if p.Some? && len > 0 {
      var t := p.value;
      ghost var k := IndexOf(es, ERPINFO_IE, []);
      AtElement(s, FIXED_IE_LENGTH, es, k);
      AtByte(s, t, ElemBytes(es[k]), 2);
      var b := WithProtection(bss.ies[t + 2], numNonErp == 1);
      var v := WithBarker(b, numNoShortPreamble > 0);
      bss.ies[t + 2] := v;
      ByteInElement(s, FIXED_IE_LENGTH, es, k, v);
    }
  }

  /** Changing the first data byte of element k in the buffer changes just that byte of the list. */
  lemma ByteInElement(s: seq<byte>, off: nat, es: seq<Elem>, k: nat, v: byte)
    requires At(s, off, Encode(es)) && k < |es| && es[k].data != [] && off + |Encode(es)| <= |s|
    ensures
      var t := off + |Encode(es[..k])|;
      var e' := Elem(es[k].id, es[k].data[0 := v]);
      && t + 2 < |s|
      && |Encode(es[k := e'])| == |Encode(es)|
      && At(s[t + 2 := v], off, Encode(es[k := e']))
      && (forall x, o: nat {:trigger At(s, o, x)} :: o + |x| <= off && At(s, o, x) ==> At(s[t + 2 := v], o, x))
  {
    hide Encode, At, Put;
    var e := es[k];
    var e' := Elem(e.id, e.data[0 := v]);
    var t := off + |Encode(es[..k])|;
    AtElement(s, off, es, k);
    PutSame(s, t, ElemBytes(e));
    UpdateInside(s, t, ElemBytes(e), 2, v);
    assert ElemBytes(e)[2 := v] == ElemBytes(e');
    var s' := s[t + 2 := v];
    assert s' == Put(s, t, ElemBytes(e'));
    AtPut(s, t, ElemBytes(e'), off, Encode(es[..k]));
    AtPut(s, t, ElemBytes(e'), t + 2 + |e.data|, Encode(es[k + 1..]));
    var es' := es[k := e'];
    assert es'[..k] == es[..k] && es'[k + 1..] == es[k + 1..];
    EncodeSplit(es', k);
    AtSplit(s', off, Encode(es[..k]), ElemBytes(e'));
    AtSplit(s', off, Encode(es[..k]) + ElemBytes(e'), Encode(es[k + 1..]));
    forall x, o: nat | o + |x| <= off && At(s, o, x) ensures At(s', o, x) {
      AtPut(s, t, ElemBytes(e'), o, x);
    }
  }

  /** A TIM update leaves the ERP byte alone. */
  lemma {:induction false} TimUpdateKeepsErp(es: seq<Elem>, bm: Bitmap)
    requires HasPlace(es)
    ensures HasNonEmpty(TimUpdated(es, bm), ERPINFO_IE) <==> HasNonEmpty(es, ERPINFO_IE)
    ensures HasNonEmpty(es, ERPINFO_IE) ==> ErpByte(TimUpdated(es, bm)) == ErpByte(es)
  {
    hide CutAt, TimElem, HeadLen, IndexOf;
    var k, j := TimPoint(es), IndexOf(es, ERPINFO_IE, []);
    var t := TimUpdated(es, bm);
    var hi := if HasNonEmpty(es, TIM_IE) then k + 1 else k;
    var d := 1 + k - hi;
    assert j < |es| ==> es[j].id == ERPINFO_IE;
    assert hi == k + 1 ==> es[k].id == TIM_IE;
    var j' := if j < k then j else j + d;
    SpliceAt(es, k, hi, TimElem(bm));
    assert forall i :: 0 <= i < j ==> es[i].id != ERPINFO_IE by {
      assert forall i :: 0 <= i < j ==> !Matches(es[i], ERPINFO_IE, []);
    }
    IndexIs(t, ERPINFO_IE, j');
  }

  lemma SpliceAt(es: seq<Elem>, lo: nat, hi: nat, e: Elem)
    requires lo <= hi <= |es|
    ensures
      var t, d := Splice(es, lo, hi, [e]), 1 + lo - hi;
      && |t| == |es| + d && t[lo] == e
      && (forall i :: 0 <= i < lo ==> t[i] == es[i])
      && (forall i :: lo < i < |t| ==> t[i] == es[i - d])
  {
  }

  // ---------- room for every TIM ----------

  /** The beacon has a TIM with data, and room for the largest one in its place. */
  predicate TimReady(es: seq<Elem>) {
    && HasNonEmpty(es, TIM_IE)
    && FIXED_IE_LENGTH + |Encode(es)| - |es[IndexOf(es, TIM_IE, [])].data| + 5 <= MAX_IE_SZ
  }

  lemma TimReadyKept(es: seq<Elem>, bm: Bitmap)
    requires TimReady(es)
    ensures HasPlace(es) && FIXED_IE_LENGTH + |Encode(TimUpdated(es, bm))| <= MAX_IE_SZ
    ensures TimReady(TimUpdated(es, bm))
  {
    hide Encode, TimElem, CutAt, IndexOf;
    var k := TimPoint(es);
    var t := TimUpdated(es, bm);
    SpliceBytes(es, k, k + 1, [TimElem(bm)]);
    EncodeOne(TimElem(bm));
    EncodeSplit(es, k);
    SpliceAt(es, k, k + 1, TimElem(bm));
    assert forall j :: 0 <= j < k ==> !Matches(es[j], TIM_IE, []);
    IndexIs(t, TIM_IE, k);
    TimSize(bm);
  }

  lemma TimSize(bm: Bitmap)
    ensures |TimElem(bm).data| <= 5
  {
  }

  lemma TimReadyKeptByErp(es: seq<Elem>, protect: bool, barker: bool)
    requires TimReady(es)
    ensures TimReady(ErpUpdated(es, protect, barker))
  {
    if HasNonEmpty(es, ERPINFO_IE) {
      hide Encode, IndexOf, WithProtection, WithBarker;
      var k, j := IndexOf(es, TIM_IE, []), IndexOf(es, ERPINFO_IE, []);
      var t := ErpUpdated(es, protect, barker);
      EncodeSplit(es, j);
      assert t[..j] == es[..j] && t[j + 1..] == es[j + 1..];
      EncodeSplit(t, j);
      assert forall i :: 0 <= i < k ==> !Matches(es[i], TIM_IE, []);
      IndexIs(t, TIM_IE, k);
    }
  }

  // ---------- what the beacon tells ----------

  /** The TIM that stations read: the first one. */
  function TimOf(es: seq<Elem>): Elem
    requires HasNonEmpty(es, TIM_IE)
  {
    es[IndexOf(es, TIM_IE, [])]
  }

  lemma TimOfUpdated(es: seq<Elem>, bm: Bitmap)
    requires HasNonEmpty(es, TIM_IE)
    ensures HasPlace(es) && HasNonEmpty(TimUpdated(es, bm), TIM_IE) && TimOf(TimUpdated(es, bm)) == TimElem(bm)
  {
    hide TimElem, CutAt, IndexOf;
    var k := TimPoint(es);
    var t := TimUpdated(es, bm);
    SpliceAt(es, k, k + 1, TimElem(bm));
    assert forall j :: 0 <= j < k ==> !Matches(es[j], TIM_IE, []);
    IndexIs(t, TIM_IE, k);
  }

  lemma TimOfUpdatedAll(es: seq<Elem>)
    ensures HasNonEmpty(es, TIM_IE) ==> HasPlace(es)
    ensures forall bm: Bitmap :: HasNonEmpty(es, TIM_IE) ==>
      HasNonEmpty(TimUpdated(es, bm), TIM_IE) && TimOf(TimUpdated(es, bm)) == TimElem(bm)
  {
    hide TimElem, TimUpdated, HasNonEmpty, TimOf;
    if HasNonEmpty(es, TIM_IE) {
      TimOfUpdated(es, 0);
      forall bm: Bitmap
        ensures HasNonEmpty(TimUpdated(es, bm), TIM_IE) && TimOf(TimUpdated(es, bm)) == TimElem(bm)
      {
        TimOfUpdated(es, bm);
      }
    }
  }

  /** An ERP update leaves the TIM alone. */
  lemma ErpKeepsTim(es: seq<Elem>, protect: bool, barker: bool)
    ensures
      var t := ErpUpdated(es, protect, barker);
      && (HasNonEmpty(t, TIM_IE) <==> HasNonEmpty(es, TIM_IE))
      && (HasNonEmpty(es, TIM_IE) ==> TimOf(t) == TimOf(es))
  {
    if HasNonEmpty(es, ERPINFO_IE) {
      hide IndexOf, WithProtection, WithBarker;
      var k, j := IndexOf(es, TIM_IE, []), IndexOf(es, ERPINFO_IE, []);
      var t := ErpUpdated(es, protect, barker);
      assert k == |es| || (k != j && t[k] == es[k]);
      assert forall i :: 0 <= i < k ==> !Matches(es[i], TIM_IE, []);
      IndexIs(t, TIM_IE, k);
    }
  }

  /** A bitmap with the bits of another one and some more, without some. */
  predicate BitsAre(bm: Bitmap, bm0: Bitmap, more: set<nat>, less: set<nat>) {
    forall a :: 0 <= a <= 15 ==> (Bit(bm, a) <==> (Bit(bm0, a) || a in more) && a !in less)
  }

  /** Two bitmaps with the same bits are equal. */
  lemma {:induction false} SameBelow(x: nat, y: nat, m: nat)
    requires x < Weight(m) && y < Weight(m) && forall a :: 0 <= a < m ==> (Bit(x, a) <==> Bit(y, a))
    ensures x == y
    decreases m
  {
    if m > 0 {
      assert Bit(x, 0) <==> Bit(y, 0);
      forall a | 0 <= a < m - 1
        ensures Bit(x / 2, a) <==> Bit(y / 2, a)
      {
        assert Bit(x, a + 1) <==> Bit(y, a + 1);
      }
      SameBelow(x / 2, y / 2, m - 1);
    }
  }

  predicate BitsAgree(x: Bitmap, y: Bitmap) {
    forall a :: 0 <= a <= 15 ==> (Bit(x, a) <==> Bit(y, a))
  }

  lemma SameBits(x: Bitmap, y: Bitmap)
    ensures x == y <==> BitsAgree(x, y)
  {
    if BitsAgree(x, y) {
      Weights();
      SameBelow(x, y, 16);
    }
  }

  lemma BitsBegin(bm: Bitmap)
    ensures BitsAre(bm, bm, {}, {})
  {
  }

  lemma BitsMore(bm: Bitmap, bm0: Bitmap, more: set<nat>, less: set<nat>, aid: nat)
    requires BitsAre(bm, bm0, more, less) && aid !in less
    ensures BitsAre(OrBit(bm, aid), bm0, more + {aid}, less)
  {
    hide Bit, OrBit;
    forall a | 0 <= a <= 15
      ensures Bit(OrBit(bm, aid), a) <==> (Bit(bm0, a) || a in more + {aid}) && a !in less
    {
      OrBitIs(bm, aid, a);
    }
  }

  lemma BitsLess(bm: Bitmap, bm0: Bitmap, more: set<nat>, less: set<nat>, aid: nat)
    requires BitsAre(bm, bm0, more, less)
    ensures BitsAre(AndNotBit(bm, aid), bm0, more, less + {aid})
  {
    hide Bit, AndNotBit;
    forall a | 0 <= a <= 15
      ensures Bit(AndNotBit(bm, aid), a) <==> (Bit(bm0, a) || a in more) && a !in less + {aid}
    {
      OrBitIs(bm, aid, a);
    }
  }

  /** The element's bytes in front of the bitmap: DTIM count 0, period 1, and the group bit. */
  lemma TimBytes(bm: Bitmap)
    ensures TimElem(bm).id == 5 && |TimElem(bm).data| >= 4 && TimElem(bm).data[..3] == [0, 1, bm % 2]
  {
  }

  /** A TIM that has data is replaced where it stands; else the new one goes behind as many elements as make up
      the SSID, the rates and three more bytes. */
  lemma {:induction false} TimGoesThere(es: seq<Elem>, bm: Bitmap, k: nat)
    requires k <= |es| && (forall j :: 0 <= j < k ==> es[j].id != 5) && (k < |es| ==> es[k].id == 5)
    ensures k < |es| && es[k].data != [] ==> HasPlace(es) && TimUpdated(es, bm) == es[k := TimElem(bm)]
    ensures !(k < |es| && es[k].data != []) && HasPlace(es) ==>
      exists n :: 0 <= n <= |es| && TimUpdated(es, bm) == es[..n] + [TimElem(bm)] + es[n..] && |Encode(es[..n])| == HeadLen(es)
  {
    IndexIs(es, TIM_IE, k);
    hide IndexOf, TimElem, CutAt, HeadLen, Encode;
    if !(k < |es| && es[k].data != []) && HasPlace(es) {
      CutAtIs(es, HeadLen(es));
      assert 0 <= TimPoint(es) <= |es|;
    }
  }
}
