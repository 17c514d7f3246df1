/** Attributes nested in the P2P and WFD vendor elements: finding one, and deleting every one with a
    given id from an element, from an element list and from a BSS description.  The two kinds differ
    in the last OUI byte and in the byte order of the attribute length. */
module VendorAttributes {
  import opened Memory
  import opened Elements

  datatype Kind = P2p | Wfd {
    function Oui(): (o: seq<byte>)
      ensures |o| == 4
    {
      [0x50, 0x6F, 0x9A, if P2p? then 0x09 else 0x0A]
    }

    function Get16(b0: byte, b1: byte): (n: nat)
      ensures n < 0x10000
    {
      if P2p? then b0 + 256 * b1 else 256 * b0 + b1
    }
  }

  const VENDOR: byte := 221
  const MAX_IE_SZ: nat := 768

  // ---------- attribute lists ----------

  /** One attribute: an id byte, two length bytes and its data. */
  datatype Attr = Attr(id: byte, len0: byte, len1: byte, data: seq<byte>)

  predicate Proper(kind: Kind, a: Attr) {
    kind.Get16(a.len0, a.len1) == |a.data|
  }

  predicate AllProper(kind: Kind, attrs: seq<Attr>) {
    forall a :: a in attrs ==> Proper(kind, a)
  }

  function AttrBytes(a: Attr): (s: seq<byte>)
    ensures |s| == 3 + |a.data|
  {
    [a.id, a.len0, a.len1] + a.data
  }

  function EncodeAttrs(attrs: seq<Attr>): seq<byte> {
    if attrs == [] then [] else AttrBytes(attrs[0]) + EncodeAttrs(attrs[1..])
  }

  /** Length of the whole attribute at the front of some bytes, or 0 if there is none. */
  function HeadLen(kind: Kind, p: seq<byte>): (n: nat)
    ensures n <= |p| && (n != 0 ==> 3 <= n && n == 3 + kind.Get16(p[1], p[2]))
  {
    if |p| < 3 || 3 + kind.Get16(p[1], p[2]) > |p| then 0 else 3 + kind.Get16(p[1], p[2])
  }

  /** The whole attributes at the front of an element's payload. */
  function Attrs(kind: Kind, p: seq<byte>): seq<Attr> {
    var n := HeadLen(kind, p);
    if n == 0 then [] else [FrontAttr(kind, p)] + Attrs(kind, p[n..])
  }

  /** The bytes behind them: fewer than a header, or a header that claims more than is there. */
  function Leftover(kind: Kind, p: seq<byte>): seq<byte> {
    var n := HeadLen(kind, p);
    if n == 0 then p else Leftover(kind, p[n..])
  }

  lemma EncodeAttrsStep(attrs: seq<Attr>)
    requires attrs != []
    ensures EncodeAttrs(attrs) == AttrBytes(attrs[0]) + EncodeAttrs(attrs[1..])
  {
  }

  lemma EncodeAttrsCons(a: Attr, attrs: seq<Attr>)
    ensures EncodeAttrs([a] + attrs) == AttrBytes(a) + EncodeAttrs(attrs)
  {
    TailOfSum([a], attrs);
  }

  lemma EncodeAttrsOne(a: Attr)
    ensures EncodeAttrs([a]) == AttrBytes(a)
  {
    assert EncodeAttrs([a]) == AttrBytes(a) + EncodeAttrs([]);
  }

  function FrontAttr(kind: Kind, p: seq<byte>): Attr
    requires HeadLen(kind, p) != 0
  {
    Attr(p[0], p[1], p[2], p[3..HeadLen(kind, p)])
  }

  lemma FrontAttrBytes(kind: Kind, p: seq<byte>)
    requires HeadLen(kind, p) != 0
    ensures p == AttrBytes(FrontAttr(kind, p)) + p[HeadLen(kind, p)..]
    ensures Proper(kind, FrontAttr(kind, p)) && 3 + |FrontAttr(kind, p).data| == HeadLen(kind, p)
  {
    hide HeadLen;
  }

  lemma {:induction false} PayloadSplits(kind: Kind, p: seq<byte>)
    ensures p == EncodeAttrs(Attrs(kind, p)) + Leftover(kind, p)
    ensures AllProper(kind, Attrs(kind, p))
  {
    var n := HeadLen(kind, p);
    if n == 0 {
      PlusNothing(p);
    } else {
      var a, rest := FrontAttr(kind, p), p[n..];
      PayloadSplits(kind, rest);
      assert Attrs(kind, p) == [a] + Attrs(kind, rest) && Leftover(kind, p) == Leftover(kind, rest);
      hide HeadLen, Attrs, Leftover, EncodeAttrs, AttrBytes, Proper, FrontAttr;
      EncodeAttrsCons(a, Attrs(kind, rest));
      FrontAttrBytes(kind, p);
      Assoc(AttrBytes(a), EncodeAttrs(Attrs(kind, rest)), Leftover(kind, rest));
    }
  }

  lemma AttrAtFront(kind: Kind, a: Attr, tail: seq<byte>)
    requires Proper(kind, a)
    ensures HeadLen(kind, AttrBytes(a) + tail) == 3 + |a.data|
    ensures Attrs(kind, AttrBytes(a) + tail) == [a] + Attrs(kind, tail)
    ensures Leftover(kind, AttrBytes(a) + tail) == Leftover(kind, tail)
  {
    var p := AttrBytes(a) + tail;
    assert p[1] == a.len0 && p[2] == a.len1;
    assert p[3..3 + |a.data|] == a.data && p[3 + |a.data|..] == tail;
  }

  /** Attributes and a leftover are read back from their bytes. */
  lemma {:induction false} AttrsOfEncoded(kind: Kind, attrs: seq<Attr>, r: seq<byte>)
    requires AllProper(kind, attrs) && HeadLen(kind, r) == 0
    ensures Attrs(kind, EncodeAttrs(attrs) + r) == attrs && Leftover(kind, EncodeAttrs(attrs) + r) == r
    decreases |attrs|
  {
    hide HeadLen, Proper;
    var p := EncodeAttrs(attrs) + r;
    if attrs == [] {
      assert p == r;
    } else {
      var a, rest := attrs[0], attrs[1..];
      assert a in attrs;
      assert AllProper(kind, rest) by { assert forall x :: x in rest ==> x in attrs; }
      assert p == AttrBytes(a) + (EncodeAttrs(rest) + r);
      AttrAtFront(kind, a, EncodeAttrs(rest) + r);
      AttrsOfEncoded(kind, rest, r);
    }
  }

  lemma {:induction false} LeftoverEnds(kind: Kind, p: seq<byte>)
    ensures HeadLen(kind, Leftover(kind, p)) == 0
  {
    hide HeadLen;
    if HeadLen(kind, p) != 0 {
      LeftoverEnds(kind, p[HeadLen(kind, p)..]);
    }
  }

  lemma {:induction false} EncodeAttrsAppend(a: seq<Attr>, b: seq<Attr>)
    ensures EncodeAttrs(a + b) == EncodeAttrs(a) + EncodeAttrs(b)
  {
    if a == [] {
      PlusNothing(b);
      PlusNothing(EncodeAttrs(b));
    } else {
      hide EncodeAttrs, AttrBytes;
      TailOfSum(a, b);
      EncodeAttrsStep(a);
      EncodeAttrsStep(a + b);
      EncodeAttrsAppend(a[1..], b);
      Assoc(AttrBytes(a[0]), EncodeAttrs(a[1..]), EncodeAttrs(b));
    }
  }

  lemma {:induction false} EncodeAttrsSplit(attrs: seq<Attr>, k: nat)
    requires k < |attrs|
    ensures EncodeAttrs(attrs) == EncodeAttrs(attrs[..k]) + AttrBytes(attrs[k]) + EncodeAttrs(attrs[k + 1..])
    ensures EncodeAttrs(attrs[..k + 1]) == EncodeAttrs(attrs[..k]) + AttrBytes(attrs[k])
    ensures EncodeAttrs(attrs[..k] + attrs[k + 1..]) == EncodeAttrs(attrs[..k]) + EncodeAttrs(attrs[k + 1..])
  {
    hide EncodeAttrs, AttrBytes;
    EncodeAttrsOne(attrs[k]);
    assert attrs[..k + 1] == attrs[..k] + [attrs[k]];
    assert attrs == attrs[..k + 1] + attrs[k + 1..];
    EncodeAttrsAppend(attrs[..k], [attrs[k]]);
    EncodeAttrsAppend(attrs[..k + 1], attrs[k + 1..]);
    EncodeAttrsAppend(attrs[..k], attrs[k + 1..]);
  }

  function IndexOfAttr(attrs: seq<Attr>, id: byte): (k: nat)
    ensures k <= |attrs|
    ensures k < |attrs| ==> attrs[k].id == id
    ensures forall j :: 0 <= j < k ==> attrs[j].id != id
  {
    if attrs == [] || attrs[0].id == id then 0
    else
      var k := IndexOfAttr(attrs[1..], id);
      assert forall j :: 0 < j < k + 1 ==> attrs[j] == attrs[1..][j - 1];
      k + 1
  }

  // ---------- the search, round by round ----------

  /** The attribute size as the code computes it: in 16 bits. */
  function WireSize(kind: Kind, p: seq<byte>, i: nat): (n: nat)
    requires i + 3 <= |p|
    ensures n < 0x10000
  {
    (kind.Get16(p[i + 1], p[i + 2]) + 3) % 0x10000
  }

  /** Where a search stands: at a position of the payload, or at its end with or without the attribute. */
  datatype Search = Going(pos: nat) | Found(pos: nat, size: nat) | NotThere

  /** One round at position i. */
  function Round(kind: Kind, p: seq<byte>, target: byte, i: nat): (r: Search)
    ensures r.Going? ==> i <= r.pos <= |p|
    ensures r.Found? ==> r.pos == i && i + r.size <= |p|
  {
    if i + 3 > |p| || i + WireSize(kind, p, i) > |p| then NotThere
    else if p[i] == target then Found(i, WireSize(kind, p, i))
    else Going(i + WireSize(kind, p, i))
  }

  /** At most n rounds from position i. */
  function Rounds(kind: Kind, p: seq<byte>, target: byte, i: nat, n: nat): Search
    decreases n
  {
    if n == 0 then Going(i)
    else
      var r := Round(kind, p, target, i);
      if r.Going? then Rounds(kind, p, target, r.pos, n - 1) else r
  }

  /** From position i the search comes to a whole header with another id and a length of 65533, which
      makes its size 0. */
  predicate Stalls(kind: Kind, p: seq<byte>, target: byte, i: nat)
    decreases |p| - i
  {
    && i + 3 <= |p| && i + WireSize(kind, p, i) <= |p| && p[i] != target
    && (kind.Get16(p[i + 1], p[i + 2]) == 65533 || Stalls(kind, p, target, i + WireSize(kind, p, i)))
  }

  lemma SizeIsZero(kind: Kind, p: seq<byte>, i: nat)
    requires i + 3 <= |p|
    ensures WireSize(kind, p, i) == 0 <==> kind.Get16(p[i + 1], p[i + 2]) == 65533
  {
  }

  /** Standing still once is standing still for ever. */
  lemma {:induction false} StandsStill(kind: Kind, p: seq<byte>, target: byte, i: nat, n: nat)
    requires Round(kind, p, target, i) == Going(i)
    ensures Rounds(kind, p, target, i, n) == Going(i)
  {
    hide Round;
    if n > 0 {
      StandsStill(kind, p, target, i, n - 1);
    }
  }

  lemma {:induction false} StalledGoesOn(kind: Kind, p: seq<byte>, target: byte, i: nat, n: nat)
    requires Stalls(kind, p, target, i)
    ensures Rounds(kind, p, target, i, n).Going?
    decreases n
  {
    hide WireSize, Kind.Get16;
    SizeIsZero(kind, p, i);
    if n > 0 {
      if WireSize(kind, p, i) == 0 {
        StandsStill(kind, p, target, i, n);
      } else {
        StalledGoesOn(kind, p, target, i + WireSize(kind, p, i), n - 1);
      }
    }
  }

  lemma {:induction false} OthersEnd(kind: Kind, p: seq<byte>, target: byte, i: nat)
    requires !Stalls(kind, p, target, i) && i <= |p|
    ensures !Rounds(kind, p, target, i, |p| - i + 1).Going?
    decreases |p| - i
  {
    hide WireSize, Kind.Get16;
    var r := Round(kind, p, target, i);
    if r.Going? {
      SizeIsZero(kind, p, i);
      OthersEnd(kind, p, target, r.pos);
      MoreRounds(kind, p, target, r.pos, |p| - r.pos + 1, |p| - i);
    }
  }

  /** A search that has ended stays as it ended. */
  lemma {:induction false} MoreRounds(kind: Kind, p: seq<byte>, target: byte, i: nat, n: nat, m: nat)
    requires n <= m && !Rounds(kind, p, target, i, n).Going?
    ensures Rounds(kind, p, target, i, m) == Rounds(kind, p, target, i, n)
    decreases n
  {
    hide Round;
    var r := Round(kind, p, target, i);
    if n > 0 && r.Going? {
      MoreRounds(kind, p, target, r.pos, n - 1, m - 1);
    }
  }

  /** The search for an attribute ends after some number of rounds if and only if it does not come to a
      header of another id with length 65533; it then needs at most one round for each byte and one more. */
  lemma {:induction false} SearchEndsExactly(kind: Kind, p: seq<byte>, target: byte)
    ensures (exists n: nat :: !Rounds(kind, p, target, 0, n).Going?) <==> !Stalls(kind, p, target, 0)
    ensures !Stalls(kind, p, target, 0) ==> !Rounds(kind, p, target, 0, |p| + 1).Going?
  {
    hide Rounds, Stalls;
    if Stalls(kind, p, target, 0) {
      forall n: nat
        ensures Rounds(kind, p, target, 0, n).Going?
      {
        StalledGoesOn(kind, p, target, 0, n);
      }
    } else {
      OthersEnd(kind, p, target, 0);
    }
  }

  /** The smallest payload on which the search goes on for ever: one header and no data. */
  lemma {:induction false} WrappedLengthStalls(id: byte, target: byte, n: nat)
    requires id != target
    ensures Rounds(P2p, [id, 0xFD, 0xFF], target, 0, n) == Going(0)
    ensures Rounds(Wfd, [id, 0xFF, 0xFD], target, 0, n) == Going(0)
  {
    StandsStill(P2p, [id, 0xFD, 0xFF], target, 0, n);
    StandsStill(Wfd, [id, 0xFF, 0xFD], target, 0, n);
  }

  /** How the search from position i ends, if it does. */
  function Outcome(kind: Kind, p: seq<byte>, target: byte, i: nat): (r: Search)
    ensures r.Going? <==> Stalls(kind, p, target, i)
    ensures r.Found? ==> i <= r.pos && r.pos + r.size <= |p|
    decreases |p| - i
  {
    var r := Round(kind, p, target, i);
    if r.Going? && r.pos > i then Outcome(kind, p, target, r.pos) else r
  }

  lemma {:induction false} OutcomeIsReached(kind: Kind, p: seq<byte>, target: byte, i: nat)
    requires i <= |p| && !Stalls(kind, p, target, i)
    ensures Rounds(kind, p, target, i, |p| - i + 1) == Outcome(kind, p, target, i)
    decreases |p| - i
  {
    hide WireSize, Kind.Get16;
    var r := Round(kind, p, target, i);
    if r.Going? {
      SizeIsZero(kind, p, i);
      OutcomeIsReached(kind, p, target, r.pos);
      OthersEnd(kind, p, target, r.pos);
      MoreRounds(kind, p, target, r.pos, |p| - r.pos + 1, |p| - i);
    }
  }

  // ---------- what deletion means ----------

  /** The attributes with another id, in order. */
  function Keep(attrs: seq<Attr>, id: byte): seq<Attr> {
    if attrs == [] then []
    else (if attrs[0].id == id then [] else [attrs[0]]) + Keep(attrs[1..], id)
  }

  lemma {:induction false} KeepAppend(a: seq<Attr>, b: seq<Attr>, id: byte)
    ensures Keep(a + b, id) == Keep(a, id) + Keep(b, id)
  {
    if a == [] {
      assert a + b == b;
    } else {
      assert (a + b)[1..] == a[1..] + b;
      KeepAppend(a[1..], b, id);
    }
  }

  lemma {:induction false} KeepAll(attrs: seq<Attr>, id: byte)
    requires forall j :: 0 <= j < |attrs| ==> attrs[j].id != id
    ensures Keep(attrs, id) == attrs
  {
    if attrs != [] {
      assert forall j :: 0 <= j < |attrs[1..]| ==> attrs[1..][j] == attrs[j + 1];
      KeepAll(attrs[1..], id);
      assert attrs == [attrs[0]] + attrs[1..];
    }
  }

  lemma {:induction false} KeepMembers(attrs: seq<Attr>, id: byte)
    ensures forall a :: a in Keep(attrs, id) <==> a in attrs && a.id != id
    ensures |EncodeAttrs(Keep(attrs, id))| <= |EncodeAttrs(attrs)|
  {
    if attrs != [] {
      KeepMembers(attrs[1..], id);
      var t := Keep(attrs[1..], id);
      assert forall a :: a in attrs <==> a == attrs[0] || a in attrs[1..];
      if attrs[0].id != id {
        assert Keep(attrs, id)[1..] == t;
      } else {
        assert Keep(attrs, id) == t;
      }
    }
  }

  /** What is left of a payload when the found attribute is cut out until none is found, or one of size 0. */
  function Deleted(kind: Kind, p: seq<byte>, id: byte): (q: seq<byte>)
    ensures |q| <= |p|
    decreases |p|
  {
    var o := Outcome(kind, p, id, 0);
    if o.Found? && o.size > 0 then Deleted(kind, p[..o.pos] + p[o.pos + o.size..], id) else p
  }

  /** None of the searches on the way stands still. */
  predicate Deletable(kind: Kind, p: seq<byte>, id: byte)
    decreases |p|
  {
    var o := Outcome(kind, p, id, 0);
    !o.Going? && (o.Found? && o.size > 0 ==> Deletable(kind, p[..o.pos] + p[o.pos + o.size..], id))
  }

  predicate IsKind(kind: Kind, e: Elem) {
    Matches(e, VENDOR, kind.Oui())
  }

  /** An element of this kind without its attributes of one id; any other element as it is. */
  function StripElem(kind: Kind, e: Elem, id: byte): (r: Elem)
    ensures |r.data| <= |e.data|
  {
    if IsKind(kind, e) then Elem(e.id, e.data[..4] + Deleted(kind, e.data[4..], id)) else e
  }

  function StripAll(kind: Kind, es: seq<Elem>, id: byte): (r: seq<Elem>)
    ensures |r| == |es|
  {
    if es == [] then [] else [StripElem(kind, es[0], id)] + StripAll(kind, es[1..], id)
  }

  // ---------- rtw_get_p2p_attr, rtw_get_wfd_attr ----------

  /** Some bytes are long enough for, and start like, an element of this kind. */
  predicate StartsKind(kind: Kind, s: seq<byte>) {
    |s| > 6 && s[0] == VENDOR && s[2..6] == kind.Oui()
  }

  method GetAttr(buf: array<byte>, ie: nat, ielen: nat, kind: Kind, target: byte)
    returns (attr: Option<nat>, attrLen: nat)
    requires ie + ielen <= buf.Length
    requires StartsKind(kind, buf[ie..ie + ielen]) ==> !Stalls(kind, buf[ie + 6..ie + ielen], target, 0)
    ensures !StartsKind(kind, buf[ie..ie + ielen]) ==> attr == None && attrLen == 0
    ensures StartsKind(kind, buf[ie..ie + ielen]) ==>
      var o := Outcome(kind, buf[ie + 6..ie + ielen], target, 0);
      if o.Found? then attr == Some(ie + 6 + o.pos) && attrLen == o.size else attr == None && attrLen == 0
  {
    hide Kind.Get16, Outcome, Stalls;
    attr, attrLen := None, 0;
    ghost var head := buf[ie..ie + ielen];
    if ielen > 6 {
      SliceSlice(buf[..], ie, ie + ielen, 2, 6);
      assert head[2..6] == buf[ie + 2..ie + 6];
    }
    if ielen <= 6 || buf[ie] != VENDOR || buf[ie + 2..ie + 6] != kind.Oui() {
      return;
    }
    ghost var p := buf[ie + 6..ie + ielen];
    var pos: nat := ie + 6;
    while pos + 3 <= ie + ielen
      invariant ie + 6 <= pos <= ie + ielen
      invariant !Stalls(kind, p, target, pos - ie - 6)
      invariant Outcome(kind, p, target, 0) == Outcome(kind, p, target, pos - ie - 6)
      decreases ie + ielen - pos
    {
      var attrDataLen := kind.Get16(buf[pos + 1], buf[pos + 2]);
      var len := (attrDataLen + 3) % 0x10000;
      ghost var i := pos - ie - 6;
      assert p[i] == buf[pos] && p[i + 1] == buf[pos + 1] && p[i + 2] == buf[pos + 2];
      OutcomeStep(kind, p, target, i);
      if pos + len > ie + ielen {
        return;
      }
      if buf[pos] == target {
        return Some(pos), len;
      }
      pos := pos + len;
    }
    OutcomeStep(kind, p, target, pos - ie - 6);
  }

  lemma {:induction false} OutcomeStep(kind: Kind, p: seq<byte>, target: byte, i: nat)
    requires !Stalls(kind, p, target, i)
    ensures
      var r := Round(kind, p, target, i);
      if r.Going? then
        r.pos > i && !Stalls(kind, p, target, r.pos) && Outcome(kind, p, target, i) == Outcome(kind, p, target, r.pos)
      else Outcome(kind, p, target, i) == r
  {
    hide Kind.Get16, WireSize;
    if i + 3 <= |p| {
      SizeIsZero(kind, p, i);
    }
  }

  // ---------- the search in an attribute list ----------

  /** The search has passed k attributes, none of them the target, and stands at offset i of the payload. */
  ghost predicate Walked(kind: Kind, p: seq<byte>, target: byte, i: nat, k: nat) {
    var attrs := Attrs(kind, p);
    && i <= |p| && k <= |attrs| && i == |EncodeAttrs(attrs[..k])|
    && Attrs(kind, p[i..]) == attrs[k..]
    && Leftover(kind, p[i..]) == Leftover(kind, p)
    && k <= IndexOfAttr(attrs, target)
  }

  lemma WalkStarts(kind: Kind, p: seq<byte>, target: byte)
    ensures Walked(kind, p, target, 0, 0)
  {
    hide Attrs, Leftover, IndexOfAttr;
    assert p[0..] == p && Attrs(kind, p)[0..] == Attrs(kind, p) && Attrs(kind, p)[..0] == [];
  }

  lemma AttrsStep(kind: Kind, p: seq<byte>)
    requires HeadLen(kind, p) != 0
    ensures Attrs(kind, p) == [FrontAttr(kind, p)] + Attrs(kind, p[HeadLen(kind, p)..])
    ensures Leftover(kind, p) == Leftover(kind, p[HeadLen(kind, p)..])
    ensures FrontAttr(kind, p).id == p[0] && 3 + |FrontAttr(kind, p).data| == HeadLen(kind, p)
  {
  }

  lemma WalkStep(kind: Kind, p: seq<byte>, target: byte, i: nat, k: nat)
    requires Walked(kind, p, target, i, k) && HeadLen(kind, p[i..]) != 0
    ensures
      var attrs := Attrs(kind, p);
      && k < |attrs| && attrs[k].id == p[i] && 3 + |attrs[k].data| == HeadLen(kind, p[i..])
      && i == |EncodeAttrs(attrs[..k])| && attrs[k] in attrs
      && (p[i] == target ==> IndexOfAttr(attrs, target) == k)
      && (p[i] != target ==> Walked(kind, p, target, i + HeadLen(kind, p[i..]), k + 1))
  {
    hide EncodeAttrs, IndexOfAttr, HeadLen, Attrs, Leftover;
    var r, attrs := p[i..], Attrs(kind, p);
    var n := HeadLen(kind, r);
    AttrsStep(kind, r);
    SuffixHead(attrs, k, FrontAttr(kind, r), Attrs(kind, r[n..]));
    SuffixSuffix(p, i, n);
    EncodeAttrsSplit(attrs, k);
  }

  /** A payload is far shorter than the lengths that wrap; only a header that claims more than is there can
      have one. */
  const SHORT: nat := 65533

  lemma WalkEnds(kind: Kind, p: seq<byte>, target: byte, i: nat, k: nat)
    requires Walked(kind, p, target, i, k) && HeadLen(kind, p[i..]) == 0
    ensures
      var attrs := Attrs(kind, p);
      k == |attrs| == IndexOfAttr(attrs, target) && p[i..] == Leftover(kind, p) && i == |EncodeAttrs(attrs)|
  {
    hide EncodeAttrs, IndexOfAttr, HeadLen;
    assert Attrs(kind, p[i..]) == [] && Leftover(kind, p[i..]) == p[i..];
    IndexBound(Attrs(kind, p), target);
    assert Attrs(kind, p)[..k] == Attrs(kind, p);
  }

  lemma IndexBound(attrs: seq<Attr>, id: byte)
    ensures IndexOfAttr(attrs, id) <= |attrs|
  {
  }

  /** The same result, n bytes further on. */
  function Shift(o: Search, n: nat): Search {
    match o
    case Going(i) => Going(n + i)
    case Found(i, size) => Found(n + i, size)
    case NotThere => NotThere
  }

  lemma RoundShift(kind: Kind, x: seq<byte>, r: seq<byte>, target: byte, j: nat)
    ensures Round(kind, x + r, target, |x| + j) == Shift(Round(kind, r, target, j), |x|)
  {
    hide Kind.Get16;
    if j + 3 <= |r| {
      assert (x + r)[|x| + j] == r[j] && (x + r)[|x| + j + 1] == r[j + 1] && (x + r)[|x| + j + 2] == r[j + 2];
    }
  }

  /** A search that starts behind some bytes does not see them. */
  lemma {:induction false} OutcomeShift(kind: Kind, x: seq<byte>, r: seq<byte>, target: byte, j: nat)
    ensures Outcome(kind, x + r, target, |x| + j) == Shift(Outcome(kind, r, target, j), |x|)
    decreases |r| - j
  {
    RoundShift(kind, x, r, target, j);
    hide Round, Stalls;
    var o := Round(kind, r, target, j);
    if o.Going? && o.pos > j {
      RoundBound(kind, r, target, j);
      OutcomeShift(kind, x, r, target, o.pos);
    }
  }

  lemma RoundBound(kind: Kind, p: seq<byte>, target: byte, i: nat)
    ensures var o := Round(kind, p, target, i); o.Going? ==> i <= o.pos <= |p|
  {
  }

  /** One round at a whole attribute. */
  lemma RoundAtAttr(kind: Kind, p: seq<byte>, target: byte, i: nat)
    requires i <= |p| < SHORT && HeadLen(kind, p[i..]) != 0
    ensures
      var n := HeadLen(kind, p[i..]);
      n > 0 && i + n <= |p| && Round(kind, p, target, i) == if p[i] == target then Found(i, n) else Going(i + n)
  {
    var r := p[i..];
    assert r[0] == p[i] && r[1] == p[i + 1] && r[2] == p[i + 2];
  }

  lemma OutcomeUnfolds(kind: Kind, p: seq<byte>, target: byte, i: nat)
    ensures
      var o := Round(kind, p, target, i);
      Outcome(kind, p, target, i) == if o.Going? && o.pos > i then Outcome(kind, p, target, o.pos) else o
  {
    hide Round;
  }

  /** The search passes the whole attributes: it finds the first with the id, or goes on into the leftover. */
  lemma {:induction false} OutcomeInList(kind: Kind, p: seq<byte>, target: byte, i: nat, k: nat)
    requires Walked(kind, p, target, i, k) && |p| < SHORT
    ensures
      var attrs := Attrs(kind, p);
      var f := IndexOfAttr(attrs, target);
      Outcome(kind, p, target, i) ==
        if f < |attrs| then Found(|EncodeAttrs(attrs[..f])|, 3 + |attrs[f].data|)
        else Shift(Outcome(kind, Leftover(kind, p), target, 0), |EncodeAttrs(attrs)|)
    decreases |p| - i
  {
    hide *;
    WalkedBound(kind, p, target, i, k);
    if HeadLen(kind, p[i..]) == 0 {
      WalkEnds(kind, p, target, i, k);
      assert p == p[..i] + p[i..];
      OutcomeShift(kind, p[..i], p[i..], target, 0);
    } else {
      WalkStep(kind, p, target, i, k);
      RoundAtAttr(kind, p, target, i);
      OutcomeUnfolds(kind, p, target, i);
      if p[i] != target {
        OutcomeInList(kind, p, target, i + HeadLen(kind, p[i..]), k + 1);
      }
    }
  }

  lemma WalkedBound(kind: Kind, p: seq<byte>, target: byte, i: nat, k: nat)
    requires Walked(kind, p, target, i, k)
    ensures i <= |p|
  {
  }

  lemma {:induction false} FirstIsFound(kind: Kind, p: seq<byte>, target: byte)
    requires |p| < SHORT
    ensures
      var attrs := Attrs(kind, p);
      var f := IndexOfAttr(attrs, target);
      Outcome(kind, p, target, 0) ==
        if f < |attrs| then Found(|EncodeAttrs(attrs[..f])|, 3 + |attrs[f].data|)
        else Shift(Outcome(kind, Leftover(kind, p), target, 0), |EncodeAttrs(attrs)|)
  {
    hide *;
    WalkStarts(kind, p, target);
    OutcomeInList(kind, p, target, 0, 0);
  }

  /** The search over the leftover alone ends without an attribute, or with one of size 0. */
  predicate LeavesLeftover(kind: Kind, p: seq<byte>, id: byte) {
    var o := Outcome(kind, Leftover(kind, p), id, 0);
    o == NotThere || (o.Found? && o.size == 0)
  }

  /** Deletion ends and leaves exactly the attributes with another id and the bytes behind them, if and only
      if the search over these bytes alone finds nothing to cut and ends. */
  lemma {:induction false} DeletedIsFilter(kind: Kind, p: seq<byte>, id: byte)
    requires |p| < SHORT
    ensures
      Deletable(kind, p, id) && Deleted(kind, p, id) == EncodeAttrs(Keep(Attrs(kind, p), id)) + Leftover(kind, p)
      <==> LeavesLeftover(kind, p, id)
    decreases |p|
  {
    hide EncodeAttrs, IndexOfAttr, Attrs, Leftover, Keep, Outcome, Stalls;
    var attrs, r := Attrs(kind, p), Leftover(kind, p);
    var k := IndexOfAttr(attrs, id);
    FirstIsFound(kind, p, id);
    PayloadSplits(kind, p);
    var o := Outcome(kind, p, id, 0);
    if k < |attrs| {
      IndexFound(attrs, id);
      var q := p[..o.pos] + p[o.pos + o.size..];
      CutOut(attrs, r, k, p);
      KeepWithout(attrs, k, id);
      StillSplits(kind, p, k, q);
      DeletedIsFilter(kind, q, id);
    } else {
      IndexMissing(attrs, id);
      KeepAll(attrs, id);
      if o.Found? && o.size > 0 {
        CutIsShorter(kind, p, id);
      }
    }
  }

  lemma CutIsShorter(kind: Kind, p: seq<byte>, id: byte)
    requires var o := Outcome(kind, p, id, 0); o.Found? && o.size > 0
    ensures |Deleted(kind, p, id)| < |p|
  {
    hide Outcome, Stalls;
  }

  /** A payload that fails: one header with the id and a length of 65534, behind which there is nothing.
      Deletion cuts a byte out of it. */
  lemma {:induction false} ShortHeaderIsCut(id: byte)
    ensures
      var p := [id, 0xFE, 0xFF];
      && Attrs(P2p, p) == [] && Leftover(P2p, p) == p && !LeavesLeftover(P2p, p, id)
      && Deletable(P2p, p, id) && Deleted(P2p, p, id) == [0xFE, 0xFF]
  {
    var p := [id, 0xFE, 0xFF];
    assert HeadLen(P2p, p) == 0;
    assert Outcome(P2p, p, id, 0) == Found(0, 1);
    assert p[..0] + p[1..] == [0xFE, 0xFF];
    assert Outcome(P2p, [0xFE, 0xFF], id, 0) == NotThere;
  }

  lemma IndexFound(attrs: seq<Attr>, id: byte)
    ensures var k := IndexOfAttr(attrs, id); k < |attrs| ==> attrs[k].id == id
  {
  }

  lemma IndexMissing(attrs: seq<Attr>, id: byte)
    requires IndexOfAttr(attrs, id) == |attrs|
    ensures forall j :: 0 <= j < |attrs| ==> attrs[j].id != id
  {
  }

  /** The bytes of one attribute cut out of the bytes of the list. */
  lemma {:induction false} CutOut(attrs: seq<Attr>, r: seq<byte>, k: nat, p: seq<byte>)
    requires k < |attrs| && p == EncodeAttrs(attrs) + r
    ensures
      var i, n := |EncodeAttrs(attrs[..k])|, 3 + |attrs[k].data|;
      i + n <= |p| && p[..i] + p[i + n..] == EncodeAttrs(attrs[..k] + attrs[k + 1..]) + r
  {
    hide EncodeAttrs;
    AttrsWithout(attrs, r, k);
    var x, a, q := EncodeAttrs(attrs[..k]), AttrBytes(attrs[k]), EncodeAttrs(attrs[k + 1..]) + r;
    assert p == x + a + q;
    assert p[..|x|] == x && p[|x| + |a|..] == q;
  }

  lemma {:induction false} StillSplits(kind: Kind, p: seq<byte>, k: nat, q: seq<byte>)
    requires k < |Attrs(kind, p)|
    requires q == EncodeAttrs(Attrs(kind, p)[..k] + Attrs(kind, p)[k + 1..]) + Leftover(kind, p)
    ensures Leftover(kind, q) == Leftover(kind, p)
    ensures Attrs(kind, q) == Attrs(kind, p)[..k] + Attrs(kind, p)[k + 1..]
  {
    hide EncodeAttrs, Attrs, Leftover, AllProper, HeadLen;
    PayloadSplits(kind, p);
    LeftoverEnds(kind, p);
    AllProperWithout(kind, Attrs(kind, p), k);
    AttrsOfEncoded(kind, Attrs(kind, p)[..k] + Attrs(kind, p)[k + 1..], Leftover(kind, p));
  }

  /** Deletion is a nested filter: list positions, ids, OUIs and all other elements stay; an element of
      the kind keeps exactly its attributes of another id, in order, and the bytes behind them. */
  lemma {:induction false} StripIsNestedFilter(kind: Kind, es: seq<Elem>, id: byte, k: nat)
    requires k < |es| && (IsKind(kind, es[k]) ==> LeavesLeftover(kind, es[k].data[4..], id))
    ensures
      var e, r := es[k], StripAll(kind, es, id)[k];
      && r.id == e.id
      && (IsKind(kind, r) <==> IsKind(kind, e))
      && (!IsKind(kind, e) ==> r == e)
      && (IsKind(kind, e) ==>
            && Attrs(kind, r.data[4..]) == Keep(Attrs(kind, e.data[4..]), id)
            && Leftover(kind, r.data[4..]) == Leftover(kind, e.data[4..]))
    decreases |es|
  {
    hide LeavesLeftover, Attrs, Leftover, Keep, StripElem, Kind.Oui;
    if k > 0 {
      StripIsNestedFilter(kind, es[1..], id, k - 1);
    } else if IsKind(kind, es[0]) {
      StripKeepsExactly(kind, es[0], id);
    } else {
      StripOther(kind, es[0], id);
    }
  }

  lemma StripOther(kind: Kind, e: Elem, id: byte)
    requires !IsKind(kind, e)
    ensures StripElem(kind, e, id) == e
  {
  }

  lemma {:induction false} StripKeepsExactly(kind: Kind, e: Elem, id: byte)
    requires IsKind(kind, e) && LeavesLeftover(kind, e.data[4..], id)
    ensures
      var r := StripElem(kind, e, id);
      && r.id == e.id && IsKind(kind, r)
      && Attrs(kind, r.data[4..]) == Keep(Attrs(kind, e.data[4..]), id)
      && Leftover(kind, r.data[4..]) == Leftover(kind, e.data[4..])
  {
    hide Deleted, Attrs, Leftover, Keep, LeavesLeftover, EncodeAttrs, HeadLen;
    var p := e.data[4..];
    PayloadSplits(kind, p);
    KeepMembers(Attrs(kind, p), id);
    LeftoverEnds(kind, p);
    AttrsOfEncoded(kind, Keep(Attrs(kind, p), id), Leftover(kind, p));
    DeletedIsFilter(kind, p, id);
    var r := StripElem(kind, e, id);
    assert r.data[4..] == Deleted(kind, p, id);
    assert r.data[..4] == e.data[..4] == kind.Oui();
  }

  // ---------- rtw_del_p2p_attr, rtw_del_wfd_attr ----------

  /** An element while attributes are being deleted from it: its header and OUI, the payload that is
      left, and the zeros that fill the space it occupied at first. */
  function Shrunk(e: Elem, p: seq<byte>, n: nat): (s: seq<byte>)
    requires 4 <= |e.data| && 4 + |p| <= 255
    ensures |s| == 6 + |p| + n
  {
    [e.id, 4 + |p|] + e.data[..4] + p + Zeros(n)
  }

  /** Deletes every attribute with one id from an element that starts at `ie`, and returns its new size. */
  method DelAttr(buf: array<byte>, ie: nat, ielenOri: nat, kind: Kind, attrId: byte, ghost e: Elem) returns (ielen: nat)
    requires At(buf[..], ie, ElemBytes(e)) && ielenOri == 2 + |e.data|
    requires IsKind(kind, e) ==> Deletable(kind, e.data[4..], attrId)
    modifies buf
    ensures
      var e' := StripElem(kind, e, attrId);
      && ielen == 2 + |e'.data|
      && buf[..] == Put(old(buf[..]), ie, ElemBytes(e') + Zeros(|e.data| - |e'.data|))
  {
    hide *;
    ielen := ielenOri;
    ghost var s0 := buf[..];
    ghost var p := DeletingStarts(kind, e, attrId, s0, ie);
    while true
      invariant Deleting(kind, e, attrId, s0, buf[..], ie, ielen, p)
      invariant ie + ielenOri <= buf.Length && ielen <= ielenOri
      decreases |p|
    {
      DeletingReads(kind, e, attrId, s0, buf[..], ie, ielen, p);
      var target, len := GetAttr(buf, ie, ielen, kind, attrId);
      if target.Some? && len > 0 {
        var t := target.value;
        var next := t + len;
        ghost var i := t - ie - 6;
        DeletingStep(kind, e, attrId, s0, buf[..], ie, ielen, p);
        var remainLen := ielen - (next - ie);
        CloseIs(buf[..], t, len, remainLen);
        Memmove(buf, t, next, remainLen);
        Memzero(buf, t + remainLen, len);
        buf[ie + 1] := (buf[ie + 1] - len) % 256;
        ielen := ielen - len;
        p := p[..i] + p[i + len..];
      } else {
        DeletingEnds(kind, e, attrId, s0, buf[..], ie, ielen, p);
        break;
      }
    }
  }

  /** The buffer while attributes are being deleted.  An element of the kind is shrunk to the payload p,
      from which the same is left in the end; any other element is as at first. */
  ghost predicate Deleting(kind: Kind, e: Elem, id: byte, s0: seq<byte>, s: seq<byte>, ie: nat, ielen: nat, p: seq<byte>) {
    && ie + 2 + |e.data| <= |s0| == |s| && ielen <= 2 + |e.data|
    && (!IsKind(kind, e) ==> ielen == 2 + |e.data| && s == s0 && At(s, ie, ElemBytes(e)) && p == [])
    && (IsKind(kind, e) ==>
          && ielen == 6 + |p| && Deletable(kind, p, id)
          && StripElem(kind, e, id).data == e.data[..4] + Deleted(kind, p, id)
          && s == Put(s0, ie, Shrunk(e, p, 2 + |e.data| - ielen)))
  }

  lemma {:induction false} DeletingStarts(kind: Kind, e: Elem, id: byte, s: seq<byte>, ie: nat) returns (p: seq<byte>)
    requires At(s, ie, ElemBytes(e)) && (IsKind(kind, e) ==> Deletable(kind, e.data[4..], id))
    ensures ie + 2 + |e.data| <= |s| && Deleting(kind, e, id, s, s, ie, 2 + |e.data|, p)
  {
    hide Deletable, Deleted, Put;
    p := [];
    if IsKind(kind, e) {
      p := e.data[4..];
      assert e.data == e.data[..4] + p;
      assert Shrunk(e, p, 0) == ElemBytes(e);
      PutSame(s, ie, ElemBytes(e));
    }
  }

  /** What the search meets: an element of the kind with this payload, or no such element. */
  lemma {:induction false} DeletingReads(kind: Kind, e: Elem, id: byte, s0: seq<byte>, s: seq<byte>, ie: nat, ielen: nat, p: seq<byte>)
    requires Deleting(kind, e, id, s0, s, ie, ielen, p)
    ensures ie + ielen <= |s|
    ensures StartsKind(kind, s[ie..ie + ielen]) ==>
      IsKind(kind, e) && 6 <= ielen && s[ie + 6..ie + ielen] == p && !Stalls(kind, p, id, 0)
    ensures !StartsKind(kind, s[ie..ie + ielen]) ==> p == []
  {
    hide Deleted, Put, StartsKind, Shrunk, StripElem, Outcome, Stalls;
    if IsKind(kind, e) {
      ShrunkReads(kind, e, p, 2 + |e.data| - ielen, s0, ie);
    } else {
      NotKindStarts(kind, e, s0, ie);
    }
  }

  lemma {:induction false} DeletingStep(kind: Kind, e: Elem, id: byte, s0: seq<byte>, s: seq<byte>, ie: nat, ielen: nat, p: seq<byte>)
    requires Deleting(kind, e, id, s0, s, ie, ielen, p) && IsKind(kind, e)
    requires Outcome(kind, p, id, 0).Found? && Outcome(kind, p, id, 0).size > 0
    ensures
      var i, len := Outcome(kind, p, id, 0).pos, Outcome(kind, p, id, 0).size;
      var t := ie + 6 + i;
      && i + len <= |p| && t + len <= ie + ielen <= |s|
      && var s2 := Close(s, t, len, s[t + len..ie + ielen]);
      0 <= s2[ie + 1] - len < 256
      && Deleting(kind, e, id, s0, s2[ie + 1 := s2[ie + 1] - len], ie, ielen - len, p[..i] + p[i + len..])
  {
    hide Outcome, Put, Shrunk, Close, StripElem, IsKind;
    var i, len := Outcome(kind, p, id, 0).pos, Outcome(kind, p, id, 0).size;
    var x, a, q := p[..i], p[i..i + len], p[i + len..];
    assert p == x + a + q;
    ShrunkStep(e, x, a, q, 2 + |e.data| - ielen, s0, ie);
  }

  lemma {:induction false} DeletingEnds(kind: Kind, e: Elem, id: byte, s0: seq<byte>, s: seq<byte>, ie: nat, ielen: nat, p: seq<byte>)
    requires Deleting(kind, e, id, s0, s, ie, ielen, p)
    requires p != [] ==> !(Outcome(kind, p, id, 0).Found? && Outcome(kind, p, id, 0).size > 0)
    ensures
      var e' := StripElem(kind, e, id);
      && ielen == 2 + |e'.data|
      && s == Put(s0, ie, ElemBytes(e') + Zeros(|e.data| - |e'.data|))
  {
    hide Outcome, Put, Shrunk, StripElem, IsKind;
    if IsKind(kind, e) {
      EmptyPayload(kind, id);
      ShrunkAtLast(kind, e, p, id, 2 + |e.data| - ielen);
    } else {
      StripNothing(kind, e, id, s, ie);
    }
  }

  lemma EmptyPayload(kind: Kind, id: byte)
    ensures Outcome(kind, [], id, 0) == NotThere
  {
  }

  lemma CloseIs(s: seq<byte>, j: nat, n: nat, m: nat)
    requires j + n + m <= |s|
    ensures Close(s, j, n, s[j + n..j + n + m]) == Put(Put(s, j, s[j + n..j + n + m]), j + m, Zeros(n))
  {
  }

  lemma NotKindStarts(kind: Kind, e: Elem, s: seq<byte>, ie: nat)
    requires !IsKind(kind, e) && At(s, ie, ElemBytes(e))
    ensures !StartsKind(kind, s[ie..ie + 2 + |e.data|])
  {
    var b := s[ie..ie + 2 + |e.data|];
    if |b| > 6 {
      assert b[2..6] == e.data[..4];
    }
  }

  lemma StripNothing(kind: Kind, e: Elem, id: byte, s: seq<byte>, ie: nat)
    requires !IsKind(kind, e) && At(s, ie, ElemBytes(e))
    ensures StripElem(kind, e, id) == e && ie + 2 + |e.data| <= |s| && s == Put(s, ie, ElemBytes(e) + Zeros(0))
  {
    assert ElemBytes(e) + Zeros(0) == ElemBytes(e);
    PutSame(s, ie, ElemBytes(e));
  }

  lemma ShrunkAtLast(kind: Kind, e: Elem, p: seq<byte>, id: byte, n: nat)
    requires IsKind(kind, e) && 4 + |p| <= 255
    requires StripElem(kind, e, id).data == e.data[..4] + p
    ensures Shrunk(e, p, n) == ElemBytes(StripElem(kind, e, id)) + Zeros(n)
  {
  }

  lemma KeepWithout(attrs: seq<Attr>, k: nat, id: byte)
    requires k < |attrs| && attrs[k].id == id
    ensures Keep(attrs[..k] + attrs[k + 1..], id) == Keep(attrs, id)
  {
    assert attrs == attrs[..k] + attrs[k..] && attrs[k..][1..] == attrs[k + 1..];
    KeepAppend(attrs[..k], attrs[k..], id);
    KeepAppend(attrs[..k], attrs[k + 1..], id);
  }

  lemma AllProperWithout(kind: Kind, attrs: seq<Attr>, k: nat)
    requires k < |attrs| && AllProper(kind, attrs)
    ensures AllProper(kind, attrs[..k] + attrs[k + 1..])
  {
    assert forall a :: a in attrs[..k] + attrs[k + 1..] ==> a in attrs;
  }

  lemma AttrsWithout(attrs: seq<Attr>, r: seq<byte>, k: nat)
    requires k < |attrs|
    ensures EncodeAttrs(attrs) + r == EncodeAttrs(attrs[..k]) + AttrBytes(attrs[k]) + (EncodeAttrs(attrs[k + 1..]) + r)
    ensures EncodeAttrs(attrs[..k] + attrs[k + 1..]) + r == EncodeAttrs(attrs[..k]) + (EncodeAttrs(attrs[k + 1..]) + r)
  {
    hide EncodeAttrs, AttrBytes;
    EncodeAttrsSplit(attrs, k);
    Assoc(EncodeAttrs(attrs[..k]) + AttrBytes(attrs[k]), EncodeAttrs(attrs[k + 1..]), r);
    Assoc(EncodeAttrs(attrs[..k]), EncodeAttrs(attrs[k + 1..]), r);
  }

  /** A shrunk element reads as an element of its kind with the payload that is left. */
  lemma ShrunkReads(kind: Kind, e: Elem, p: seq<byte>, n: nat, s: seq<byte>, ie: nat)
    requires IsKind(kind, e) && 4 + |p| <= 255 && ie + 6 + |p| + n <= |s|
    ensures
      var t := Put(s, ie, Shrunk(e, p, n));
      && (StartsKind(kind, t[ie..ie + 6 + |p|]) <==> p != [])
      && t[ie + 6..ie + 6 + |p|] == p
  {
    var b := Shrunk(e, p, n);
    assert b[6..6 + |p|] == p;
    assert b[0..6 + |p|][2..6] == e.data[..4];
    hide Shrunk;
    SliceInside(s, ie, b, 0, 6 + |p|);
    SliceInside(s, ie, b, 6, 6 + |p|);
  }

  /** Closing the gap of a block of size n at j with the block q behind it, and zeroing the freed end. */
  function Close(b: seq<byte>, j: nat, n: nat, q: seq<byte>): (c: seq<byte>)
    requires j + n + |q| <= |b|
    ensures |c| == |b|
  {
    Put(Put(b, j, q), j + |q|, Zeros(n))
  }

  lemma CloseBlock(h: seq<byte>, a: seq<byte>, q: seq<byte>, z: seq<byte>)
    ensures (h + (a + q) + z)[|h| + |a|..|h| + |a| + |q|] == q
    ensures Close(h + (a + q) + z, |h|, |a|, q) == h + q + Zeros(|a|) + z
  {
    var x := a + q;
    var b := h + x + z;
    var x0, x1 := x[..|q|], x[|q|..];
    assert b == h + x0 + (x1 + z);
    PutMiddle(h, x0, x1 + z, q);
    assert h + q + (x1 + z) == (h + q) + x1 + z;
    PutMiddle(h + q, x1, z, Zeros(|a|));
  }

  lemma CloseInside(s: seq<byte>, dst: nat, b: seq<byte>, j: nat, n: nat, q: seq<byte>)
    requires dst + |b| <= |s| && j + n + |q| <= |b|
    ensures Close(Put(s, dst, b), dst + j, n, q) == Put(s, dst, Close(b, j, n, q))
  {
    hide Put;
    PutInside(s, dst, b, j, q);
    PutInside(s, dst, Put(b, j, q), j + |q|, Zeros(n));
  }

  lemma CloseBefore(b: seq<byte>, j: nat, n: nat, q: seq<byte>, i: nat)
    requires j + n + |q| <= |b| && i < j
    ensures Close(b, j, n, q)[i] == b[i]
  {
  }

  function Header(e: Elem, n: nat): (h: seq<byte>)
    requires 4 <= |e.data| && 4 + n <= 255
    ensures |h| == 6 && h[1] == 4 + n
  {
    [e.id, 4 + n] + e.data[..4]
  }

  lemma ShrunkIs(e: Elem, p: seq<byte>, n: nat)
    requires 4 <= |e.data| && 4 + |p| <= 255
    ensures Shrunk(e, p, n) == Header(e, |p|) + p + Zeros(n)
  {
  }

  lemma HeaderUpdate(e: Elem, n: nat, m: nat, rest: seq<byte>)
    requires 4 <= |e.data| && 4 + n <= 255 && 4 + m <= 255
    ensures (Header(e, n) + rest)[1 := 4 + m] == Header(e, m) + rest
  {
  }

  lemma ShrunkParts(e: Elem, x: seq<byte>, a: seq<byte>, q: seq<byte>, n: nat)
    requires |e.data| >= 4 && 4 + |x + a + q| <= 255
    ensures Shrunk(e, x + a + q, n) == (Header(e, |x + a + q|) + x) + (a + q) + Zeros(n)
  {
  }

  lemma ShrunkPartsAfter(e: Elem, x: seq<byte>, q: seq<byte>, l: nat, n: nat, m: nat)
    requires |e.data| >= 4 && 4 + |x + q| <= 255 && 4 + l <= 255
    ensures ((Header(e, l) + x) + q + Zeros(m) + Zeros(n))[1 := 4 + |x + q|] == Shrunk(e, x + q, n + m)
  {
    ShrunkIs(e, x + q, n + m);
    ZerosSum(m, n);
    hide Shrunk, Header, Zeros;
    var z := Zeros(n + m);
    assert (Header(e, l) + x) + q + Zeros(m) + Zeros(n) == Header(e, l) + (x + q + (Zeros(m) + Zeros(n)));
    HeaderUpdate(e, l, |x + q|, x + q + z);
    Assoc(Header(e, |x + q|), x + q, z);
  }

  /** The writes that delete the block a of a payload x, a, q: on the element's own bytes. */
  lemma ShrunkBlock(e: Elem, x: seq<byte>, a: seq<byte>, q: seq<byte>, n: nat)
    requires |e.data| >= 4 && 4 + |x + a + q| <= 255
    ensures
      var b := Shrunk(e, x + a + q, n);
      && b[6 + |x| + |a|..6 + |x| + |a| + |q|] == q
      && b[1] == 4 + |x + a + q|
      && Close(b, 6 + |x|, |a|, q)[1 := b[1] - |a|] == Shrunk(e, x + q, n + |a|)
  {
    hide Shrunk, Header, Zeros, Close;
    var l := |x + a + q|;
    var h := Header(e, l);
    var b := Shrunk(e, x + a + q, n);
    ShrunkParts(e, x, a, q, n);
    assert b[1] == h[1] && h[1] == 4 + l by { HeaderLength(e, l); }
    CloseBlock(h + x, a, q, Zeros(n));
    ShrunkPartsAfter(e, x, q, l, n, |a|);
  }

  lemma ZerosSum(a: nat, b: nat)
    ensures Zeros(a) + Zeros(b) == Zeros(b + a)
  {
  }

  /** The same writes in the buffer, on a block b that was put there. */
  lemma CloseInBuffer(s: seq<byte>, ie: nat, b: seq<byte>, j: nat, n: nat, q: seq<byte>, v: byte)
    requires ie + |b| <= |s| && 1 < j && j + n + |q| <= |b| && b[j + n..j + n + |q|] == q
    ensures Put(s, ie, b)[ie + j + n..ie + j + n + |q|] == q
    ensures Close(Put(s, ie, b), ie + j, n, q)[ie + 1] == b[1]
    ensures Close(Put(s, ie, b), ie + j, n, q)[ie + 1 := v] == Put(s, ie, Close(b, j, n, q)[1 := v])
  {
    hide *;
    SliceInside(s, ie, b, j + n, j + n + |q|);
    CloseInside(s, ie, b, j, n, q);
    CloseBefore(b, j, n, q, 1);
    UpdateInside(s, ie, Close(b, j, n, q), 1, v);
  }

  lemma HeaderLength(e: Elem, l: nat)
    requires |e.data| >= 4 && 4 + l <= 255
    ensures |Header(e, l)| >= 2 && Header(e, l)[1] == 4 + l
  {
  }

  lemma ShrunkStep(e: Elem, x: seq<byte>, a: seq<byte>, q: seq<byte>, n: nat, s: seq<byte>, ie: nat)
    requires |e.data| >= 4 && 4 + |x + a + q| <= 255 && ie + 6 + |x + a + q| + n <= |s|
    ensures
      var t := ie + 6 + |x|;
      var s1 := Put(s, ie, Shrunk(e, x + a + q, n));
      && s1[t + |a|..t + |a| + |q|] == q
      && Close(s1, t, |a|, q)[ie + 1] == 4 + |x + a + q|
      && Close(s1, t, |a|, q)[ie + 1 := 4 + |x + q|] == Put(s, ie, Shrunk(e, x + q, n + |a|))
  {
    hide *;
    ShrunkBlock(e, x, a, q, n);
    CloseInBuffer(s, ie, Shrunk(e, x + a + q, n), 6 + |x|, |a|, q, 4 + |x + q|);
  }

  /** The two kinds in bytes: their OUIs with the type, and how the header of an attribute gives its length. */
  lemma KindsAre(n: nat, b0: byte, b1: byte)
    requires n == b0 as int + 256 * b1 as int
    ensures P2p.Oui() == [0x50, 0x6f, 0x9a, 9] && P2p.Get16(b0, b1) == n
    ensures Wfd.Oui() == [0x50, 0x6f, 0x9a, 10] && Wfd.Get16(b1, b0) == n
  {
  }
}
