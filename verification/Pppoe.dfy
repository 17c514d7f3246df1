/** The PPPoE discovery branch of the bridge, in place on the frame (`core/rtw_br_ext.c`). */
module Pppoe {
  import opened Memory
  import opened Nat25Spec
  import opened PppoeTags
  import opened Skb

  /** Ethernet header, version and type, code, session id. */
  const HEADER_LEN: nat := 18
  const TAGS_AT: nat := 20

  type Header = h: seq<byte> | |h| == HEADER_LEN witness Zeros(HEADER_LEN)

  /** A discovery frame: header, length, tags, and whatever pads it to the least frame size. */
  function FrameBytes(h: Header, ts: seq<Tag>, pad: seq<byte>): seq<byte>
    requires |EncodeTags(ts)| < 0x1_0000
  {
    h + Be16(|EncodeTags(ts)|) + EncodeTags(ts) + pad
  }

  function SourceOf(h: Header): Mac {
    h[6..12]
  }

  function Bound(h: Header, dst: Mac): Header {
    dst + h[6..]
  }

  // ---------- the frame's parts ----------

  lemma {:induction false} Parts(h: Header, ts: seq<Tag>, pad: seq<byte>)
    requires |EncodeTags(ts)| < 0x1_0000
    ensures
      var d := FrameBytes(h, ts, pad);
      && |d| == TAGS_AT + |EncodeTags(ts)| + |pad|
      && At(d, 0, h) && At(d, HEADER_LEN, Be16(|EncodeTags(ts)|)) && At(d, TAGS_AT, EncodeTags(ts))
      && At(d, TAGS_AT + |EncodeTags(ts)|, pad)
      && Read16(d, HEADER_LEN) == |EncodeTags(ts)|
  {
    var n := Be16(|EncodeTags(ts)|);
    var d := FrameBytes(h, ts, pad);
    AtSplit(d, 0, h + n + EncodeTags(ts), pad);
    AtSplit(d, 0, h + n, EncodeTags(ts));
    AtSplit(d, 0, h, n);
    assert At(d, 0, d);
    AtByte(d, HEADER_LEN, n, 0);
    AtByte(d, HEADER_LEN, n, 1);
  }

  /** Bytes that hold the parts are the frame. */
  lemma {:induction false} Assembled(d: seq<byte>, h: Header, ts: seq<Tag>, pad: seq<byte>)
    requires |EncodeTags(ts)| < 0x1_0000 && |d| == TAGS_AT + |EncodeTags(ts)| + |pad|
    requires At(d, 0, h) && At(d, HEADER_LEN, Be16(|EncodeTags(ts)|)) && At(d, TAGS_AT, EncodeTags(ts))
    requires At(d, TAGS_AT + |EncodeTags(ts)|, pad)
    ensures d == FrameBytes(h, ts, pad)
  {
    var n := Be16(|EncodeTags(ts)|);
    AtSplit(d, 0, h + n + EncodeTags(ts), pad);
    AtSplit(d, 0, h + n, EncodeTags(ts));
    AtSplit(d, 0, h, n);
    AtWhole(d, FrameBytes(h, ts, pad));
  }

  /** The tags before, at and behind place k. */
  lemma {:induction false} TagAt(d: seq<byte>, off: nat, ts: seq<Tag>, k: nat)
    requires At(d, off, EncodeTags(ts)) && k < |ts|
    ensures
      var at := off + |EncodeTags(ts[..k])|;
      && At(d, off, EncodeTags(ts[..k])) && At(d, at, EncodeTag(ts[k]))
      && At(d, at + |EncodeTag(ts[k])|, EncodeTags(ts[k + 1..]))
      && at + TAG_HDR_LEN + |ts[k].data| <= |d|
      && Read16(d, at) == ts[k].kind && Read16(d, at + 2) == |ts[k].data|
      && d[at + TAG_HDR_LEN..at + TAG_HDR_LEN + |ts[k].data|] == ts[k].data
    ensures |EncodeTags(ts)| == |EncodeTags(ts[..k])| + |EncodeTag(ts[k])| + |EncodeTags(ts[k + 1..])|
    ensures |EncodeTags(ts[..k + 1])| == |EncodeTags(ts[..k])| + |EncodeTag(ts[k])|
  {
    hide EncodeTags;
    var a, t, b := EncodeTags(ts[..k]), ts[k], EncodeTags(ts[k + 1..]);
    EncodeAround(ts, k);
    AtSplit(d, off, a + EncodeTag(t), b);
    AtSplit(d, off, a, EncodeTag(t));
    var at := off + |a|;
    TagParts(d, at, t);
    assert ts[..k + 1] == ts[..k] + [t];
    EncodeTagsAppend(ts[..k], [t]);
    EncodeOneTag(t);
  }

  lemma {:induction false} TagParts(d: seq<byte>, at: nat, t: Tag)
    requires At(d, at, EncodeTag(t))
    ensures at + TAG_HDR_LEN + |t.data| <= |d|
    ensures Read16(d, at) == t.kind && Read16(d, at + 2) == |t.data|
    ensures At(d, at, Be16(t.kind)) && At(d, at + 2, Be16(|t.data|)) && At(d, at + TAG_HDR_LEN, t.data)
    ensures d[at + TAG_HDR_LEN..at + TAG_HDR_LEN + |t.data|] == t.data
  {
    var kind, size := Be16(t.kind), Be16(|t.data|);
    AtSplit(d, at, kind + size, t.data);
    AtSplit(d, at, kind, size);
    AtByte(d, at, kind, 0);
    AtByte(d, at, kind, 1);
    AtByte(d, at + 2, size, 0);
    AtByte(d, at + 2, size, 1);
  }

  lemma {:induction false} TagAssembled(d: seq<byte>, at: nat, t: Tag)
    requires At(d, at, Be16(t.kind)) && At(d, at + 2, Be16(|t.data|)) && At(d, at + TAG_HDR_LEN, t.data)
    ensures At(d, at, EncodeTag(t))
  {
    AtSplit(d, at, Be16(t.kind) + Be16(|t.data|), t.data);
    AtSplit(d, at, Be16(t.kind), Be16(|t.data|));
  }

  // ---------- __nat25_find_pppoe_tag ----------

  /** The offset of the first tag of a kind, if there is one. */
  method FindPppoeTag(skb: SkBuff, kind: Word, ghost h: Header, ghost ts: seq<Tag>, ghost pad: seq<byte>)
    returns (at: Option<nat>)
    requires skb.Valid() && |EncodeTags(ts)| < 0x1_0000 && skb.Data() == FrameBytes(h, ts, pad)
    ensures at.Some? <==> FirstTag(ts, kind) < |ts|
    ensures at.Some? ==> at.value == TAGS_AT + |EncodeTags(ts[..FirstTag(ts, kind)])|
  {
    hide EncodeTags, EncodeTag, FrameBytes, At, FirstTag;
    ghost var d := skb.Data();
    Parts(h, ts, pad);
    var length := Read16(skb.Data(), HEADER_LEN);
    var cur := TAGS_AT;
    ghost var k := 0;
    NoTags();
    assert ts[..0] == [];
    while cur - TAGS_AT < length
      invariant k <= |ts| && cur == TAGS_AT + |EncodeTags(ts[..k])|
      invariant forall j :: 0 <= j < k ==> ts[j].kind != kind
      decreases |ts| - k
    {
      BeforeEnd(ts, k);
      TagAt(d, TAGS_AT, ts, k);
      var tagType := Read16(skb.Data(), cur);
      var tagLen := Read16(skb.Data(), cur + 2);
      if tagType == kind {
        FirstTagIs(ts, kind, k);
        return Some(cur);
      }
      cur, k := cur + TAG_HDR_LEN + tagLen, k + 1;
    }
    AtEnd(ts, k);
    FirstTagIs(ts, kind, k);
    at := None;
  }

  lemma {:induction false} BeforeEnd(ts: seq<Tag>, k: nat)
    requires k <= |ts| && |EncodeTags(ts[..k])| < |EncodeTags(ts)|
    ensures k < |ts|
  {
    hide EncodeTags;
    assert ts[..|ts|] == ts;
  }

  lemma {:induction false} AtEnd(ts: seq<Tag>, k: nat)
    requires k <= |ts| && |EncodeTags(ts[..k])| >= |EncodeTags(ts)|
    ensures k == |ts|
  {
    if k < |ts| {
      hide EncodeTags;
      EncodeAround(ts, k);
    }
  }

  lemma {:induction false} FirstTagIs(ts: seq<Tag>, kind: Word, k: nat)
    requires k <= |ts| && (forall j :: 0 <= j < k ==> ts[j].kind != kind) && (k < |ts| ==> ts[k].kind == kind)
    ensures FirstTag(ts, kind) == k
  {
    var f := FirstTag(ts, kind);
    hide FirstTag;
    assert f < |ts| ==> ts[f].kind == kind;
  }

  // ---------- skb_pull_and_merge ----------

  /** Cuts bytes out of the frame; refused when they are not all in it. */
  method PullAndMerge(skb: SkBuff, src: nat, n: nat) returns (ret: int)
    requires skb.Valid()
    modifies skb`len, skb.buf
    ensures skb.Valid()
    ensures ret == if src + n > old(skb.len) then -1 else 0
    ensures skb.Data() == if ret == 0 then old(skb.Data())[..src] + old(skb.Data())[src + n..] else old(skb.Data())
  {
    hide Put;
    if src + n > skb.len || skb.len < n {
      return -1;
    }
    ghost var d := skb.Data();
    var tailLen := skb.len - (src + n);
    assert d[src + n..src + n + tailLen] == d[src + n..];
    if tailLen > 0 {
      skb.Move(src, src + n, tailLen);
    }
    skb.Trim(skb.len - n);
    MovedDown(d, src, n);
    ret := 0;
  }

  lemma MovedDown(d: seq<byte>, src: nat, n: nat)
    requires src + n <= |d|
    ensures Put(d, src, d[src + n..])[..|d| - n] == d[..src] + d[src + n..]
    ensures src + n == |d| ==> d[..|d| - n] == d[..src] + d[src + n..]
  {
  }

  // ---------- __nat25_add_pppoe_tag ----------

  /** What a memcpy of n bytes from a tag takes: the tag, and then what lies behind it. */
  function Copied(tag: Tag, behind: nat -> byte, n: nat): (b: seq<byte>)
    ensures |b| == n
  {
    (EncodeTag(tag) + seq<byte>(n, behind))[..n]
  }

  /** A discovery frame with some block in front of its tags. */
  function Fronted(h: Header, length: Word, block: seq<byte>, ts: seq<Tag>, pad: seq<byte>): seq<byte> {
    h + Be16(length) + block + EncodeTags(ts) + pad
  }

  /** A tag put in front of the others; it stands in a buffer of its own, of TAG_BUF bytes.  Its length is
      taken as the host reads the field, and not converted: so many bytes are copied, and if the buffer has
      fewer, what lies behind it is read as well.  The tags move over what padded the frame: as many bytes
      follow them as before, but not the same ones. */
  method AddPppoeTag(skb: SkBuff, order: ByteOrder, tag: Tag, behind: nat -> byte,
                     ghost h: Header, ghost ts: seq<Tag>, ghost pad: seq<byte>)
    returns (ret: int, ghost overread: bool, ghost pad': seq<byte>)
    requires skb.Valid() && |EncodeTags(ts)| < 0x1_0000
    requires skb.Data() == FrameBytes(h, ts, pad)
    modifies skb`len, skb.buf
    ensures skb.Valid() && |pad'| == |pad|
    ensures
      var n := AsHost(order, |tag.data|) + TAG_HDR_LEN;
      && ret == (if old(skb.Tailroom()) < n then -1 else n)
      && (overread <==> ret > TAG_BUF)
    ensures ret == -1 ==> skb.Data() == old(skb.Data()) && pad' == pad
    ensures ret >= 0 ==>
      skb.Data() == Fronted(h, (|EncodeTags(ts)| + ret) % 0x1_0000, Copied(tag, behind, ret), ts, pad')
  {
    hide EncodeTags, EncodeTag, FrameBytes, At, Put, Copied, Fronted, AsHost;
    pad', overread := pad, false;
    var dataLen := AsHost(order, |tag.data|) + TAG_HDR_LEN;
    if skb.Tailroom() < dataLen {
      return -1, false, pad;
    }
    Parts(h, ts, pad);
    ghost var x := EncodeTags(ts);
    ghost var d := skb.Data();
    skb.Put(dataLen);
    ghost var d0 := skb.Data();
    AtPrefix(d0, d, h, x);
    var length := Read16(skb.Data(), HEADER_LEN);
    skb.Move(TAGS_AT + dataLen, TAGS_AT, length);
    ghost var d1 := skb.Data();
    var total := (length + dataLen) % 0x1_0000;
    skb.Write(HEADER_LEN, Be16(total));
    ghost var d2 := skb.Data();
    overread := dataLen > TAG_BUF;
    skb.Write(TAGS_AT, Copied(tag, behind, dataLen));
    ghost var d3 := skb.Data();
    pad' := d3[TAGS_AT + dataLen + length..];
    Shifted(d0, d1, d2, d3, h, x, Be16(total), Copied(tag, behind, dataLen));
    AtRest(d3, TAGS_AT + dataLen + length);
    FrontedIs(d3, h, total, Copied(tag, behind, dataLen), ts, pad');
    ret := dataLen;
  }

  lemma {:induction false} FrontedIs(d: seq<byte>, h: Header, length: Word, block: seq<byte>, ts: seq<Tag>, pad: seq<byte>)
    requires |d| == TAGS_AT + |block| + |EncodeTags(ts)| + |pad|
    requires At(d, 0, h) && At(d, HEADER_LEN, Be16(length)) && At(d, TAGS_AT, block)
    requires At(d, TAGS_AT + |block|, EncodeTags(ts)) && At(d, TAGS_AT + |block| + |EncodeTags(ts)|, pad)
    ensures d == Fronted(h, length, block, ts, pad)
  {
    hide At, EncodeTags, Be16;
    AtJoin(d, 0, h, Be16(length));
    AtJoin(d, 0, h + Be16(length), block);
    AtJoin(d, 0, h + Be16(length) + block, EncodeTags(ts));
    AtJoin(d, 0, h + Be16(length) + block + EncodeTags(ts), pad);
    AtWhole(d, Fronted(h, length, block, ts, pad));
  }

  lemma AtRest(d: seq<byte>, off: nat)
    requires off <= |d|
    ensures At(d, off, d[off..])
  {
  }

  lemma AtPrefix(d0: seq<byte>, d: seq<byte>, h: Header, x: seq<byte>)
    requires |d| <= |d0| && d0[..|d|] == d && At(d, 0, h) && At(d, TAGS_AT, x)
    ensures At(d0, 0, h) && At(d0, TAGS_AT, x) && d0[TAGS_AT..TAGS_AT + |x|] == x
    ensures |d| >= TAGS_AT ==> Read16(d0, HEADER_LEN) == Read16(d, HEADER_LEN)
  {
    assert forall i :: 0 <= i < |d| ==> d0[i] == d[i];
    assert d0[0..|h|] == d[0..|h|];
    assert d0[TAGS_AT..TAGS_AT + |x|] == d[TAGS_AT..TAGS_AT + |x|];
  }

  /** The tags moved up, the length written and the new tag written. */
  lemma {:induction false} Shifted(d0: seq<byte>, d1: seq<byte>, d2: seq<byte>, d3: seq<byte>, h: Header, x: seq<byte>,
                                   length: seq<byte>, tag: seq<byte>)
    requires TAGS_AT + |tag| + |x| <= |d0| && |length| == 2
    requires At(d0, 0, h) && At(d0, TAGS_AT, x)
    requires d1 == Put(d0, TAGS_AT + |tag|, x) && d2 == Put(d1, HEADER_LEN, length) && d3 == Put(d2, TAGS_AT, tag)
    ensures At(d3, 0, h) && At(d3, HEADER_LEN, length) && At(d3, TAGS_AT, tag) && At(d3, TAGS_AT + |tag|, x)
    ensures |d3| == |d0|
  {
    hide At, Put;
    AtPut(d0, TAGS_AT + |tag|, x, 0, h);
    AtPut(d1, HEADER_LEN, length, 0, h);
    AtPut(d2, TAGS_AT, tag, 0, h);
    AtPut(d2, TAGS_AT, tag, HEADER_LEN, length);
    AtPut(d1, HEADER_LEN, length, TAGS_AT + |tag|, x);
    AtPut(d2, TAGS_AT, tag, TAGS_AT + |tag|, x);
  }

  // ---------- the insert of PADI and PADR ----------

  /** Bytes cut out of the tags, with the length not yet written. */
  lemma {:induction false} CutParts(d: seq<byte>, h: Header, len: seq<byte>, a: seq<byte>, b: seq<byte>, c: seq<byte>)
    requires |len| == 2 && At(d, 0, h) && At(d, HEADER_LEN, len)
    requires At(d, TAGS_AT, a) && At(d, TAGS_AT + |a|, b) && At(d, TAGS_AT + |a| + |b|, c)
    requires |d| == TAGS_AT + |a| + |b| + |c|
    ensures
      var e := d[..TAGS_AT + |a|] + d[TAGS_AT + |a| + |b|..];
      |e| == TAGS_AT + |a| + |c| && At(e, 0, h) && At(e, HEADER_LEN, len) && At(e, TAGS_AT, a) && At(e, TAGS_AT + |a|, c)
  {
    var e := d[..TAGS_AT + |a|] + d[TAGS_AT + |a| + |b|..];
    assert e[0..|h|] == d[0..|h|];
    assert e[HEADER_LEN..HEADER_LEN + 2] == d[HEADER_LEN..HEADER_LEN + 2];
    assert e[TAGS_AT..TAGS_AT + |a|] == d[TAGS_AT..TAGS_AT + |a|];
    assert e[TAGS_AT + |a|..TAGS_AT + |a| + |c|] == d[TAGS_AT + |a| + |b|..TAGS_AT + |a| + |b| + |c|];
  }

  lemma {:induction false} AtJoin(d: seq<byte>, off: nat, a: seq<byte>, b: seq<byte>)
    requires At(d, off, a) && At(d, off + |a|, b)
    ensures At(d, off, a + b)
  {
    AtSplit(d, off, a, b);
  }

  /** The first relay tag taken out of the frame, and the length made right. */
  method RemoveTag(skb: SkBuff, at: nat, n: nat, ghost k: nat, ghost h: Header, ghost ts: seq<Tag>, ghost pad: seq<byte>)
    returns (ret: int)
    requires skb.Valid() && |EncodeTags(ts)| < 0x1_0000 && skb.Data() == FrameBytes(h, ts, pad)
    requires k < |ts| && at == TAGS_AT + |EncodeTags(ts[..k])| && n == |EncodeTag(ts[k])|
    modifies skb`len, skb.buf
    ensures ret == 0 && skb.Valid() && skb.len == old(skb.len) - n
    ensures |EncodeTags(ts[..k] + ts[k + 1..])| == |EncodeTags(ts)| - n
    ensures skb.Data() == FrameBytes(h, ts[..k] + ts[k + 1..], pad)
  {
    hide EncodeTags, EncodeTag, FrameBytes, At, Put, Be16, Read16;
    ghost var d := skb.Data();
    Parts(h, ts, pad);
    TagAt(d, TAGS_AT, ts, k);
    var length := Read16(skb.Data(), HEADER_LEN);
    ret := PullAndMerge(skb, at, n);
    ghost var d1 := skb.Data();
    assert d1 == d[..at] + d[at + n..];
    skb.Write(HEADER_LEN, Be16(length - n));
    CutFrame(d, skb.Data(), at, n, k, h, ts, pad);
  }

  /** The frame without one of its tags. */
  lemma {:induction false} CutFrame(d: seq<byte>, e: seq<byte>, at: nat, n: nat, k: nat, h: Header, ts: seq<Tag>, pad: seq<byte>)
    requires |EncodeTags(ts)| < 0x1_0000 && d == FrameBytes(h, ts, pad)
    requires k < |ts| && at == TAGS_AT + |EncodeTags(ts[..k])| && n == |EncodeTag(ts[k])|
    requires n <= |EncodeTags(ts)| && at + n <= |d| && HEADER_LEN + 2 <= |d| - n
    requires e == Put(d[..at] + d[at + n..], HEADER_LEN, Be16(|EncodeTags(ts)| - n))
    ensures |EncodeTags(ts[..k] + ts[k + 1..])| == |EncodeTags(ts)| - n
    ensures e == FrameBytes(h, ts[..k] + ts[k + 1..], pad)
  {
    hide EncodeTags, EncodeTag, FrameBytes, At, Put;
    var a, b, c := EncodeTags(ts[..k]), EncodeTag(ts[k]), EncodeTags(ts[k + 1..]);
    Parts(h, ts, pad);
    TagAt(d, TAGS_AT, ts, k);
    AtJoin(d, at + n, c, pad);
    CutParts(d, h, Be16(|EncodeTags(ts)|), a, b, c + pad);
    var d1 := d[..at] + d[at + n..];
    AtSplit(d1, TAGS_AT + |a|, c, pad);
    AtJoin(d1, TAGS_AT, a, c);
    Relength(d1, h, a + c, pad, Be16(|EncodeTags(ts)| - n));
    EncodeTagsAppend(ts[..k], ts[k + 1..]);
    Assembled(e, h, ts[..k] + ts[k + 1..], pad);
  }

  lemma {:induction false} Relength(d: seq<byte>, h: Header, x: seq<byte>, pad: seq<byte>, length: seq<byte>)
    requires |length| == 2 && At(d, 0, h) && At(d, TAGS_AT, x) && At(d, TAGS_AT + |x|, pad) && TAGS_AT <= |d|
    ensures
      var e := Put(d, HEADER_LEN, length);
      At(e, 0, h) && At(e, HEADER_LEN, length) && At(e, TAGS_AT, x) && At(e, TAGS_AT + |x|, pad)
  {
    hide At, Put;
    AtPut(d, HEADER_LEN, length, 0, h);
    AtPut(d, HEADER_LEN, length, TAGS_AT, x);
    AtPut(d, HEADER_LEN, length, TAGS_AT + |x|, pad);
  }

  lemma {:induction false} OldTag(ts: seq<Tag>)
    requires HasRelay(ts)
    ensures var k := FirstRelay(ts);
      k < |ts| && OldData(ts) == ts[k].data && WithoutRelay(ts) == ts[..k] + ts[k + 1..] && ts[k].kind == PTT_RELAY_SID
  {
    FirstRelayKind(ts);
  }

  lemma {:induction false} NoOldTag(ts: seq<Tag>)
    requires !HasRelay(ts)
    ensures OldData(ts) == [] && WithoutRelay(ts) == ts
  {
  }

  /** How much longer the frame gets, when it had room for the old relay tag. */
  function Removed(ts: seq<Tag>): nat {
    if HasRelay(ts) then TAG_HDR_LEN + |OldData(ts)| else 0
  }

  /** How many bytes the insert takes the new relay tag to have. */
  function RelayLen(order: ByteOrder, ts: seq<Tag>): nat
    requires RelayFits(ts)
  {
    AsHost(order, OWN_LEN + |OldData(ts)|) + TAG_HDR_LEN
  }

  /** Only a big-endian host gets it right; a little-endian one takes the tag to be longer than the buffer
      it stands in. */
  lemma RelayLenIs(order: ByteOrder, ts: seq<Tag>)
    requires RelayFits(ts)
    ensures order == BigEndian ==> RelayLen(order, ts) == TAG_HDR_LEN + OWN_LEN + |OldData(ts)| <= TAG_BUF
    ensures order == LittleEndian ==> RelayLen(order, ts) == 256 * (OWN_LEN + |OldData(ts)|) + TAG_HDR_LEN > TAG_BUF
  {
    hide OldData;
  }

  /** Tailroom once the old relay tag is out, against the new one. */
  predicate RoomFor(order: ByteOrder, tailroom: nat, ts: seq<Tag>)
    requires RelayFits(ts)
  {
    tailroom + Removed(ts) >= RelayLen(order, ts)
  }

  /** A PADI without tags: 12 bytes of tailroom do on a big-endian host, a little-endian one asks for 2052
      and refuses the frame with any less, such as 100. */
  lemma PlainPadi(tailroom: nat)
    ensures RelayFits([]) && (RoomFor(BigEndian, tailroom, []) <==> tailroom >= 12)
    ensures RoomFor(LittleEndian, tailroom, []) <==> tailroom >= 2052
    ensures !RoomFor(LittleEndian, 100, [])
  {
    assert FirstTag([], PTT_RELAY_SID) == 0;
  }

  /** The frame after the insert. */
  function Inserted(order: ByteOrder, h: Header, ts: seq<Tag>, behind: nat -> byte, pad: seq<byte>): seq<byte>
    requires RelayFits(ts)
  {
    var n := RelayLen(order, ts);
    var relay := RelayTag(SourceOf(h), OldData(ts));
    Fronted(h, (|EncodeTags(WithoutRelay(ts))| + n) % 0x1_0000, Copied(relay, behind, n), WithoutRelay(ts), pad)
  }

  lemma {:induction false} CopiedWhole(tag: Tag, behind: nat -> byte)
    ensures Copied(tag, behind, |EncodeTag(tag)|) == EncodeTag(tag)
  {
    hide EncodeTag;
  }

  lemma {:induction false} RelayedParts(ts: seq<Tag>, mac: Mac)
    requires RelayFits(ts)
    ensures
      var relay := RelayTag(mac, OldData(ts));
      && EncodeTags(Relayed(ts, mac)) == EncodeTag(relay) + EncodeTags(WithoutRelay(ts))
      && |EncodeTag(relay)| == TAG_HDR_LEN + OWN_LEN + |OldData(ts)|
  {
    hide EncodeTags, EncodeTag, OldData, WithoutRelay;
    var relay := RelayTag(mac, OldData(ts));
    EncodeTagsAppend([relay], WithoutRelay(ts));
    EncodeOneTag(relay);
  }

  /** A big-endian host puts the relay tag in front of the other tags. */
  lemma {:induction false} InsertedOnBigEndian(h: Header, ts: seq<Tag>, behind: nat -> byte, pad: seq<byte>)
    requires RelayFits(ts) && |EncodeTags(Relayed(ts, SourceOf(h)))| < 0x1_0000
    ensures Inserted(BigEndian, h, ts, behind, pad) == FrameBytes(h, Relayed(ts, SourceOf(h)), pad)
  {
    hide EncodeTags, EncodeTag, OldData, WithoutRelay, Copied, Relayed, RelayTag, RelayLen, Be16;
    var relay, x := RelayTag(SourceOf(h), OldData(ts)), EncodeTags(WithoutRelay(ts));
    RelayedParts(ts, SourceOf(h));
    RelayLenIs(BigEndian, ts);
    CopiedWhole(relay, behind);
    assert RelayLen(BigEndian, ts) == |EncodeTag(relay)|;
    Assoc(h + Be16(|EncodeTag(relay) + x|), EncodeTag(relay), x);
  }

  lemma {:induction false} LengthField(h: Header, length: Word, rest: seq<byte>)
    ensures Read16(h + Be16(length) + rest, HEADER_LEN) == length
  {
    var d := h + Be16(length) + rest;
    assert d[HEADER_LEN] == Be16(length)[0] && d[HEADER_LEN + 1] == Be16(length)[1];
  }

  /** The length field of the frame after the insert. */
  lemma {:induction false} InsertedLength(order: ByteOrder, h: Header, ts: seq<Tag>, behind: nat -> byte, pad: seq<byte>)
    requires RelayFits(ts)
    ensures
      var d := Inserted(order, h, ts, behind, pad);
      && |d| == TAGS_AT + RelayLen(order, ts) + |EncodeTags(WithoutRelay(ts))| + |pad|
      && d[..HEADER_LEN] == h
      && Read16(d, HEADER_LEN) == (|EncodeTags(WithoutRelay(ts))| + RelayLen(order, ts)) % 0x1_0000
  {
    hide EncodeTags, OldData, WithoutRelay, Copied, RelayTag, RelayLen, Be16, Read16;
    var n, x := RelayLen(order, ts), EncodeTags(WithoutRelay(ts));
    var block := Copied(RelayTag(SourceOf(h), OldData(ts)), behind, n);
    var length: Word := (|x| + n) % 0x1_0000;
    assert h + Be16(length) + block + x + pad == h + Be16(length) + (block + x + pad);
    LengthField(h, length, block + x + pad);
    DropPrefix(h, Be16(length) + (block + x + pad));
    assert h + Be16(length) + (block + x + pad) == h + (Be16(length) + (block + x + pad));
  }

  /** What goes out is the client's frame with the relay tag in front, and as much behind the tags as before,
      if and only if the host is big-endian. */
  lemma {:induction false} RelayedExactly(order: ByteOrder, h: Header, ts: seq<Tag>, behind: nat -> byte, pad: seq<byte>)
    requires RelayFits(ts) && |EncodeTags(Relayed(ts, SourceOf(h)))| < 0x1_0000
    ensures
      (exists p: seq<byte> :: |p| == |pad| && Inserted(order, h, ts, behind, pad) == FrameBytes(h, Relayed(ts, SourceOf(h)), p))
      <==> order == BigEndian
  {
    if order == BigEndian {
      InsertedOnBigEndian(h, ts, behind, pad);
    } else {
      InsertedLength(order, h, ts, behind, pad);
      RelayedParts(ts, SourceOf(h));
      RelayLenIs(order, ts);
      hide Inserted, EncodeTags, EncodeTag, OldData, WithoutRelay, Relayed, RelayTag, RelayLen, Be16, Read16;
      forall p: seq<byte> | |p| == |pad|
        ensures Inserted(order, h, ts, behind, pad) != FrameBytes(h, Relayed(ts, SourceOf(h)), p)
      {
        Parts(h, Relayed(ts, SourceOf(h)), p);
      }
    }
  }

  /** On either host the relay tag is the first thing behind the length. */
  lemma {:induction false} RelayInFront(order: ByteOrder, h: Header, ts: seq<Tag>, behind: nat -> byte, pad: seq<byte>)
    requires RelayFits(ts)
    ensures At(Inserted(order, h, ts, behind, pad), TAGS_AT, EncodeTag(RelayTag(SourceOf(h), OldData(ts))))
  {
    var n, relay, x := RelayLen(order, ts), RelayTag(SourceOf(h), OldData(ts)), EncodeTags(WithoutRelay(ts));
    var length: Word := (|x| + n) % 0x1_0000;
    RelayLenIs(order, ts);
    hide EncodeTags, EncodeTag, OldData, WithoutRelay, RelayTag, RelayLen, Be16;
    var block := Copied(relay, behind, n);
    assert block[..|EncodeTag(relay)|] == EncodeTag(relay);
    var d := h + Be16(length) + block + x + pad;
    assert d[TAGS_AT..TAGS_AT + n] == block;
    SliceSlice(d, TAGS_AT, TAGS_AT + n, 0, |EncodeTag(relay)|);
  }

  /** The old relay tag copied and taken out. */
  method TakeOldTag(skb: SkBuff, ghost h: Header, ghost ts: seq<Tag>, ghost pad: seq<byte>)
    returns (ret: int, oldData: TagData)
    requires skb.Valid() && |EncodeTags(ts)| < 0x1_0000 && skb.Data() == FrameBytes(h, ts, pad)
    modifies skb`len, skb.buf
    ensures skb.Valid() && ret == (if RelayFits(ts) then 0 else -1)
    ensures ret == -1 ==> skb.Data() == old(skb.Data()) && skb.len == old(skb.len)
    ensures ret == 0 ==>
      && oldData == OldData(ts)
      && skb.len + Removed(ts) == old(skb.len)
      && |EncodeTags(WithoutRelay(ts))| <= |EncodeTags(ts)| && skb.Data() == FrameBytes(h, WithoutRelay(ts), pad)
  {
    hide EncodeTags, EncodeTag, FrameBytes, At, FirstTag, OldData, WithoutRelay, HasRelay;
    ret, oldData := 0, [];
    RelayIs(ts);
    var oldTag := FindPppoeTag(skb, PTT_RELAY_SID, h, ts, pad);
    if oldTag.None? {
      NoOldTag(ts);
      return;
    }
    ghost var k := FirstRelay(ts);
    OldTag(ts);
    Parts(h, ts, pad);
    TagAt(skb.Data(), TAGS_AT, ts, k);
    var at := oldTag.value;
    var oldLen := Read16(skb.Data(), at + 2);
    if oldLen + TAG_HDR_LEN + MAGIC_CODE_LEN + RTL_RELAY_TAG_LEN > TAG_BUF {
      ret := -1;
      return;
    }
    oldData := skb.Data()[at + TAG_HDR_LEN..at + TAG_HDR_LEN + oldLen];
    ret := RemoveTag(skb, at, TAG_HDR_LEN + oldLen, k, h, ts, pad);
  }

  /** NAT25_INSERT of a PADI or PADR with addPPPoETag: the relay tag of the client's MAC goes in front and
      takes over the data of an older one.  A frame whose relay tag is too long is refused as it is; one
      that lacks the room that the host asks for is refused when its old relay tag is already gone.  A
      little-endian host reads past the end of the buffer whenever it does not refuse. */
  method InsertRelay(skb: SkBuff, order: ByteOrder, behind: nat -> byte, ghost h: Header, ghost ts: seq<Tag>, ghost pad: seq<byte>)
    returns (ret: int, ghost overread: bool, ghost pad': seq<byte>)
    requires skb.Valid() && |EncodeTags(ts)| < 0x1_0000
    requires skb.Data() == FrameBytes(h, ts, pad)
    modifies skb`len, skb.buf
    ensures skb.Valid() && |pad'| == |pad|
    ensures ret == if RelayFits(ts) && RoomFor(order, old(skb.Tailroom()), ts) then 0 else -1
    ensures overread <==> ret == 0 && order == LittleEndian
    ensures !RelayFits(ts) ==> skb.Data() == old(skb.Data())
    ensures RelayFits(ts) && ret == -1 ==>
      |EncodeTags(WithoutRelay(ts))| < 0x1_0000 && skb.Data() == FrameBytes(h, WithoutRelay(ts), pad)
    ensures ret == 0 ==> skb.Data() == Inserted(order, h, ts, behind, pad')
  {
    hide EncodeTags, EncodeTag, FrameBytes, At, FirstTag, OldData, WithoutRelay, HasRelay, Removed, AsHost, Fronted, Copied;
    pad', overread := pad, false;
    var oldData;
    ret, oldData := TakeOldTag(skb, h, ts, pad);
    if ret < 0 {
      return;
    }
    RelayLenIs(order, ts);
    Parts(h, WithoutRelay(ts), pad);
    SourceAt(skb.Data(), h);
    var mac: Mac := skb.Data()[6..12];
    var added;
    added, overread, pad' := AddPppoeTag(skb, order, RelayTag(mac, oldData), behind, h, WithoutRelay(ts), pad);
    ret := if added < 0 then -1 else 0;
  }

  lemma SourceAt(d: seq<byte>, h: Header)
    requires At(d, 0, h)
    ensures |d| >= HEADER_LEN && d[6..12] == SourceOf(h)
  {
    AtPart(d, 0, h, 6, 12);
  }

  lemma RelayIs(ts: seq<Tag>)
    ensures HasRelay(ts) <==> FirstTag(ts, PTT_RELAY_SID) < |ts|
  {
    hide FirstTag;
  }

  // ---------- the lookup of PADO and PADS ----------

  lemma {:induction false} BoundFrame(h: Header, mac: Mac, ts: seq<Tag>, pad: seq<byte>)
    requires |EncodeTags(ts)| < 0x1_0000
    ensures Put(FrameBytes(h, ts, pad), 0, mac) == FrameBytes(Bound(h, mac), ts, pad)
  {
    hide EncodeTags;
    assert [] + mac + h[6..] == Bound(h, mac);
  }

  /** A tag that has lost the first bytes of its data, which is longer. */
  function Shortened(t: Tag): Tag
    requires |t.data| > OWN_LEN
  {
    Tag(t.kind, t.data[OWN_LEN..])
  }

  /** The bytes of the tag in four parts. */
  lemma {:induction false} TagFour(d: seq<byte>, at: nat, t: Tag, rest: seq<byte>)
    requires |t.data| > OWN_LEN && At(d, at, EncodeTag(t)) && At(d, at + |EncodeTag(t)|, rest)
    ensures At(d, at, Be16(t.kind) + Be16(|t.data|))
    ensures At(d, at + TAG_HDR_LEN, t.data[..OWN_LEN])
    ensures At(d, at + TAG_HDR_LEN + OWN_LEN, t.data[OWN_LEN..] + rest)
  {
    hide At;
    TagParts(d, at, t);
    AtJoin(d, at, Be16(t.kind), Be16(|t.data|));
    AtSplit(d, at + TAG_HDR_LEN, t.data[..OWN_LEN], t.data[OWN_LEN..]);
    assert t.data == t.data[..OWN_LEN] + t.data[OWN_LEN..];
    AtJoin(d, at + TAG_HDR_LEN + OWN_LEN, t.data[OWN_LEN..], rest);
  }

  /** The frame with our eight bytes cut out of a longer relay tag and both lengths made right. */
  lemma {:induction false} ShortenedFrame(d: seq<byte>, e: seq<byte>, at: nat, k: nat, h: Header, ts: seq<Tag>, pad: seq<byte>)
    requires |EncodeTags(ts)| < 0x1_0000 && d == FrameBytes(h, ts, pad)
    requires k < |ts| && at == TAGS_AT + |EncodeTags(ts[..k])| && |ts[k].data| > OWN_LEN
    requires |EncodeTags(ts)| >= OWN_LEN && at + TAG_HDR_LEN + OWN_LEN <= |d|
    requires
      var cut := d[..at + TAG_HDR_LEN] + d[at + TAG_HDR_LEN + OWN_LEN..];
      && at + TAG_HDR_LEN <= |cut|
      && e == Put(Put(cut, HEADER_LEN, Be16(|EncodeTags(ts)| - OWN_LEN)), at + 2, Be16(|ts[k].data| - OWN_LEN))
    ensures
      var left := ts[..k] + [Shortened(ts[k])] + ts[k + 1..];
      |EncodeTags(left)| == |EncodeTags(ts)| - OWN_LEN && e == FrameBytes(h, left, pad)
  {
    hide EncodeTags, EncodeTag, FrameBytes, At, Put, Be16;
    var t := ts[k];
    var a, c := EncodeTags(ts[..k]), EncodeTags(ts[k + 1..]);
    var kind, size, rest := Be16(t.kind), Be16(|t.data|), t.data[OWN_LEN..];
    var newLen, newSize := Be16(|EncodeTags(ts)| - OWN_LEN), Be16(|rest|);
    Parts(h, ts, pad);
    TagAt(d, TAGS_AT, ts, k);
    AtJoin(d, at + |EncodeTag(t)|, c, pad);
    TagFour(d, at, t, c + pad);
    AtJoin(d, TAGS_AT, a, kind + size);
    CutParts(d, h, Be16(|EncodeTags(ts)|), a + (kind + size), t.data[..OWN_LEN], rest + (c + pad));
    var d1 := d[..at + TAG_HDR_LEN] + d[at + TAG_HDR_LEN + OWN_LEN..];
    var d2 := Put(d1, HEADER_LEN, newLen);
    AtSplit(d1, TAGS_AT, a, kind + size);
    AtSplit(d1, at, kind, size);
    AtSplit(d1, at + TAG_HDR_LEN, rest, c + pad);
    AtSplit(d1, at + TAG_HDR_LEN + |rest|, c, pad);
    Resized(d1, d2, e, h, a, kind, size, rest, c, pad, newLen, newSize);
    TagAssembled(e, at, Shortened(t));
    AtJoin(e, TAGS_AT, a, EncodeTag(Shortened(t)));
    AtJoin(e, TAGS_AT, a + EncodeTag(Shortened(t)), c);
    EncodeTagsAppend(ts[..k] + [Shortened(t)], ts[k + 1..]);
    EncodeTagsAppend(ts[..k], [Shortened(t)]);
    EncodeOneTag(Shortened(t));
    Assembled(e, h, ts[..k] + [Shortened(t)] + ts[k + 1..], pad);
  }

  lemma {:induction false} Resized(d1: seq<byte>, d2: seq<byte>, e: seq<byte>, h: Header, a: seq<byte>, kind: seq<byte>, size: seq<byte>,
                                   rest: seq<byte>, c: seq<byte>, pad: seq<byte>, newLen: seq<byte>, newSize: seq<byte>)
    requires |kind| == |size| == |newLen| == |newSize| == 2
    requires
      var at := TAGS_AT + |a|;
      && at + TAG_HDR_LEN <= |d1|
      && At(d1, 0, h) && At(d1, TAGS_AT, a) && At(d1, at, kind) && At(d1, at + TAG_HDR_LEN, rest)
      && At(d1, at + TAG_HDR_LEN + |rest|, c) && At(d1, at + TAG_HDR_LEN + |rest| + |c|, pad)
      && d2 == Put(d1, HEADER_LEN, newLen) && e == Put(d2, at + 2, newSize)
    ensures
      var at := TAGS_AT + |a|;
      && At(e, 0, h) && At(e, HEADER_LEN, newLen) && At(e, TAGS_AT, a) && At(e, at, kind) && At(e, at + 2, newSize)
      && At(e, at + TAG_HDR_LEN, rest) && At(e, at + TAG_HDR_LEN + |rest|, c) && At(e, at + TAG_HDR_LEN + |rest| + |c|, pad)
  {
    hide At, Put;
    var at := TAGS_AT + |a|;
    AtPut(d1, HEADER_LEN, newLen, 0, h);
    AtPut(d2, at + 2, newSize, 0, h);
    AtPut(d2, at + 2, newSize, HEADER_LEN, newLen);
    AtPut(d1, HEADER_LEN, newLen, TAGS_AT, a);
    AtPut(d2, at + 2, newSize, TAGS_AT, a);
    AtPut(d1, HEADER_LEN, newLen, at, kind);
    AtPut(d2, at + 2, newSize, at, kind);
    AtPut(d1, HEADER_LEN, newLen, at + TAG_HDR_LEN, rest);
    AtPut(d2, at + 2, newSize, at + TAG_HDR_LEN, rest);
    AtPut(d1, HEADER_LEN, newLen, at + TAG_HDR_LEN + |rest|, c);
    AtPut(d2, at + 2, newSize, at + TAG_HDR_LEN + |rest|, c);
    AtPut(d1, HEADER_LEN, newLen, at + TAG_HDR_LEN + |rest| + |c|, pad);
    AtPut(d2, at + 2, newSize, at + TAG_HDR_LEN + |rest| + |c|, pad);
  }

  /** Our eight bytes taken out of a longer relay tag. */
  method ShortenTag(skb: SkBuff, at: nat, tagLen: Word, ghost k: nat, ghost h: Header, ghost ts: seq<Tag>, ghost pad: seq<byte>)
    returns (ret: int)
    requires skb.Valid() && |EncodeTags(ts)| < 0x1_0000 && skb.Data() == FrameBytes(h, ts, pad)
    requires k < |ts| && at == TAGS_AT + |EncodeTags(ts[..k])| && tagLen == |ts[k].data| > OWN_LEN
    modifies skb`len, skb.buf
    ensures ret == 0 && skb.Valid()
    ensures
      var left := ts[..k] + [Shortened(ts[k])] + ts[k + 1..];
      |EncodeTags(left)| == |EncodeTags(ts)| - OWN_LEN && skb.Data() == FrameBytes(h, left, pad)
  {
    hide EncodeTags, EncodeTag, FrameBytes, At, Put, Be16, Read16;
    ghost var d := skb.Data();
    Parts(h, ts, pad);
    TagAt(d, TAGS_AT, ts, k);
    var length := Read16(skb.Data(), HEADER_LEN);
    ret := PullAndMerge(skb, at + TAG_HDR_LEN, OWN_LEN);
    skb.Write(HEADER_LEN, Be16(length - OWN_LEN));
    skb.Write(at + 2, Be16(tagLen - OWN_LEN));
    ShortenedFrame(d, skb.Data(), at, k, h, ts, pad);
  }

  lemma {:induction false} Verdict(ts: seq<Tag>)
    requires HasRelay(ts)
    ensures
      var k := FirstRelay(ts);
      && k < |ts| && ts[k].kind == PTT_RELAY_SID
      && (Accepted(ts) <==> |ts[k].data| >= OWN_LEN && ts[k].data[..MAGIC_CODE_LEN] == MAGIC_CODE)
      && (Accepted(ts) ==> ClientOf(ts) == ts[k].data[MAGIC_CODE_LEN..OWN_LEN])
      && (Accepted(ts) && |ts[k].data| > OWN_LEN ==> Stripped(ts) == ts[..k] + [Shortened(ts[k])] + ts[k + 1..])
      && (Accepted(ts) && |ts[k].data| == OWN_LEN ==> Stripped(ts) == ts[..k] + ts[k + 1..])
  {
    FirstRelayKind(ts);
    assert ts[..FirstRelay(ts)] + [] == ts[..FirstRelay(ts)];
  }

  /** NAT25_LOOKUP of a PADO or PADS with addPPPoETag: a frame whose first relay tag is ours goes to the
      client that it names, without what the bridge had put in; any other is refused as it is. */
  method LookupRelay(skb: SkBuff, ghost h: Header, ghost ts: seq<Tag>, ghost pad: seq<byte>) returns (ret: int)
    requires skb.Valid() && |EncodeTags(ts)| < 0x1_0000
    requires skb.Data() == FrameBytes(h, ts, pad)
    modifies skb`len, skb.buf
    ensures skb.Valid() && ret == if Accepted(ts) then 0 else -1
    ensures !Accepted(ts) ==> skb.Data() == old(skb.Data())
    ensures Accepted(ts) ==>
      && |EncodeTags(Stripped(ts))| <= |EncodeTags(ts)|
      && skb.Data() == FrameBytes(Bound(h, ClientOf(ts)), Stripped(ts), pad)
  {
    hide EncodeTags, EncodeTag, FrameBytes, At, FirstTag, Accepted, Stripped, ClientOf, Put, Be16, HasRelay;
    RelayIs(ts);
    var found := FindPppoeTag(skb, PTT_RELAY_SID, h, ts, pad);
    if found.None? {
      NotAccepted(ts);
      return -1;
    }
    ghost var k := FirstRelay(ts);
    Verdict(ts);
    Parts(h, ts, pad);
    TagAt(skb.Data(), TAGS_AT, ts, k);
    var at := found.value;
    var tagLen := Read16(skb.Data(), at + 2);
    if Read16(skb.Data(), at) != PTT_RELAY_SID || tagLen < MAGIC_CODE_LEN + RTL_RELAY_TAG_LEN {
      return -1;
    }
    var data := skb.Data()[at + TAG_HDR_LEN..at + TAG_HDR_LEN + tagLen];
    if data[..MAGIC_CODE_LEN] != MAGIC_CODE {
      return -1;
    }
    var mac: Mac := data[MAGIC_CODE_LEN..OWN_LEN];
    BoundFrame(h, mac, ts, pad);
    skb.Write(0, mac);
    if tagLen > OWN_LEN {
      ret := ShortenTag(skb, at, tagLen, k, Bound(h, mac), ts, pad);
    } else {
      ret := RemoveTag(skb, at, TAG_HDR_LEN + OWN_LEN, k, Bound(h, mac), ts, pad);
    }
  }

  lemma {:induction false} NotAccepted(ts: seq<Tag>)
    requires !HasRelay(ts)
    ensures !Accepted(ts)
  {
  }
}
