/** The tags of a PPPoE discovery frame (RFC 2516, section 5) and the relay tag that the bridge inserts on
    the way out and takes back on the way in (`core/rtw_br_ext.c`). */
module PppoeTags {
  import opened Memory
  import opened Nat25Spec

  const TAG_HDR_LEN: nat := 4
  const MAGIC_CODE_LEN: nat := 2
  const RTL_RELAY_TAG_LEN: nat := 6
  /** What the bridge puts before the data of an older relay tag. */
  const OWN_LEN: nat := 8
  const TAG_BUF: nat := 40

  const PTT_RELAY_SID: Word := 0x0110

  type Word = w: int | 0 <= w < 0x1_0000

  /** Two bytes, the more significant one first. */
  function Be16(w: Word): (b: seq<byte>)
    ensures |b| == 2 && 256 * (b[0] as int) + b[1] == w
  {
    [w / 256, w % 256]
  }

  function Read16(s: seq<byte>, at: nat): Word
    requires at + 2 <= |s|
  {
    256 * (s[at] as int) + s[at + 1]
  }

  /** How the host keeps a word in memory. */
  datatype ByteOrder = BigEndian | LittleEndian

  /** A word in network order, read by the host without ntohs. */
  function AsHost(order: ByteOrder, w: Word): Word {
    if order == BigEndian then w else 256 * (w % 256) + w / 256
  }

  type TagData = d: seq<byte> | |d| < 0x1_0000 witness []

  datatype Tag = Tag(kind: Word, data: TagData)

  function EncodeTag(t: Tag): (b: seq<byte>)
    ensures |b| == TAG_HDR_LEN + |t.data|
  {
    Be16(t.kind) + Be16(|t.data|) + t.data
  }

  function EncodeTags(ts: seq<Tag>): (b: seq<byte>)
  {
    if ts == [] then [] else EncodeTag(ts[0]) + EncodeTags(ts[1..])
  }

  // ---------- reading ----------

  predicate StartsTag(s: seq<byte>) {
    |s| >= TAG_HDR_LEN && TAG_HDR_LEN + Read16(s, 2) <= |s|
  }

  function FrontTag(s: seq<byte>): Tag
    requires StartsTag(s)
  {
    Tag(Read16(s, 0), s[TAG_HDR_LEN..TAG_HDR_LEN + Read16(s, 2)])
  }

  function DecodeTags(s: seq<byte>): Option<seq<Tag>> {
    if s == [] then Some([])
    else if !StartsTag(s) then None
    else
      match DecodeTags(s[TAG_HDR_LEN + Read16(s, 2)..])
      case None => None
      case Some(rest) => Some([FrontTag(s)] + rest)
  }

  lemma {:induction false} FrontEncoded(t: Tag, rest: seq<byte>)
    ensures StartsTag(EncodeTag(t) + rest) && FrontTag(EncodeTag(t) + rest) == t
    ensures Read16(EncodeTag(t) + rest, 2) == |t.data|
    ensures (EncodeTag(t) + rest)[TAG_HDR_LEN + |t.data|..] == rest
  {
    var s := EncodeTag(t) + rest;
    assert s[0] == Be16(t.kind)[0] && s[1] == Be16(t.kind)[1];
    assert s[2] == Be16(|t.data|)[0] && s[3] == Be16(|t.data|)[1];
    assert s[TAG_HDR_LEN..TAG_HDR_LEN + |t.data|] == t.data;
  }

  lemma {:induction false} EncodedFront(s: seq<byte>)
    requires StartsTag(s)
    ensures EncodeTag(FrontTag(s)) + s[TAG_HDR_LEN + Read16(s, 2)..] == s
  {
    var t := FrontTag(s);
    assert Be16(t.kind) == s[0..2] && Be16(|t.data|) == s[2..4];
    assert s == s[0..2] + s[2..4] + s[4..4 + |t.data|] + s[4 + |t.data|..];
  }

  lemma {:induction false} DecodeCons(t: Tag, s: seq<byte>)
    ensures DecodeTags(EncodeTag(t) + s).Some? <==> DecodeTags(s).Some?
    ensures DecodeTags(s).Some? ==> DecodeTags(EncodeTag(t) + s).value == [t] + DecodeTags(s).value
  {
    hide EncodeTag, FrontTag, StartsTag, Read16;
    FrontEncoded(t, s);
  }

  /** Reading undoes writing. */
  lemma {:induction false} DecodeEncodeTags(ts: seq<Tag>)
    ensures DecodeTags(EncodeTags(ts)) == Some(ts)
  {
    if ts != [] {
      hide EncodeTag, DecodeTags;
      DecodeCons(ts[0], EncodeTags(ts[1..]));
      DecodeEncodeTags(ts[1..]);
      assert [ts[0]] + ts[1..] == ts;
    } else {
      assert EncodeTags(ts) == [];
    }
  }

  /** Writing undoes reading: a byte string is the writing of at most one tag list. */
  lemma {:induction false} EncodeDecodeTags(s: seq<byte>)
    requires DecodeTags(s).Some?
    ensures EncodeTags(DecodeTags(s).value) == s
    decreases |s|
  {
    if s != [] {
      hide EncodeTag, FrontTag;
      EncodedFront(s);
      EncodeDecodeTags(s[TAG_HDR_LEN + Read16(s, 2)..]);
      var rest := DecodeTags(s[TAG_HDR_LEN + Read16(s, 2)..]).value;
      assert ([FrontTag(s)] + rest)[1..] == rest;
    }
  }

  lemma {:induction false} EncodeTagsAppend(a: seq<Tag>, b: seq<Tag>)
    ensures EncodeTags(a + b) == EncodeTags(a) + EncodeTags(b)
    decreases |a|
  {
    hide EncodeTag, EncodeTags;
    if a == [] {
      PlusNothing(b);
      NoTags();
      PlusNothing(EncodeTags(b));
    } else {
      TailOfSum(a, b);
      EncodeTagsStep(a);
      EncodeTagsStep(a + b);
      EncodeTagsAppend(a[1..], b);
      Assoc(EncodeTag(a[0]), EncodeTags(a[1..]), EncodeTags(b));
    }
  }

  lemma EncodeTagsStep(ts: seq<Tag>)
    requires ts != []
    ensures EncodeTags(ts) == EncodeTag(ts[0]) + EncodeTags(ts[1..])
  {
  }

  lemma NoTags()
    ensures EncodeTags([]) == []
  {
  }

  lemma {:induction false} EncodeOneTag(t: Tag)
    ensures EncodeTags([t]) == EncodeTag(t)
  {
    hide EncodeTag;
    assert EncodeTags([t][1..]) == [];
  }

  /** The bytes around the k-th tag. */
  lemma {:induction false} EncodeAround(ts: seq<Tag>, k: nat)
    requires k < |ts|
    ensures EncodeTags(ts) == EncodeTags(ts[..k]) + EncodeTag(ts[k]) + EncodeTags(ts[k + 1..])
  {
    hide EncodeTags, EncodeTag;
    assert ts == ts[..k] + ([ts[k]] + ts[k + 1..]);
    EncodeTagsAppend(ts[..k], [ts[k]] + ts[k + 1..]);
    EncodeTagsAppend([ts[k]], ts[k + 1..]);
    EncodeOneTag(ts[k]);
    Assoc(EncodeTags(ts[..k]), EncodeTag(ts[k]), EncodeTags(ts[k + 1..]));
  }

  // ---------- the relay tag ----------

  /** The place of the first tag of a kind, or the number of tags. */
  function FirstTag(ts: seq<Tag>, kind: Word): (k: nat)
    ensures k <= |ts|
    ensures k < |ts| ==> ts[k].kind == kind
    ensures forall j :: 0 <= j < k ==> ts[j].kind != kind
  {
    if ts == [] || ts[0].kind == kind then 0 else 1 + FirstTag(ts[1..], kind)
  }

  function FirstRelay(ts: seq<Tag>): nat {
    FirstTag(ts, PTT_RELAY_SID)
  }

  predicate HasRelay(ts: seq<Tag>) {
    FirstRelay(ts) < |ts|
  }

  function OldData(ts: seq<Tag>): TagData {
    if HasRelay(ts) then ts[FirstRelay(ts)].data else []
  }

  /** The tags but for the first relay tag. */
  function WithoutRelay(ts: seq<Tag>): seq<Tag> {
    if HasRelay(ts) then ts[..FirstRelay(ts)] + ts[FirstRelay(ts) + 1..] else ts
  }

  const MAGIC_CODE: seq<byte> := [0x81, 0x86]

  predicate RelayFits(ts: seq<Tag>) {
    |OldData(ts)| + TAG_HDR_LEN + MAGIC_CODE_LEN + RTL_RELAY_TAG_LEN <= TAG_BUF
  }

  function RelayTag(mac: Mac, old_: TagData): Tag
    requires |old_| + OWN_LEN < 0x1_0000
  {
    Tag(PTT_RELAY_SID, MAGIC_CODE + mac + old_)
  }

  /** What a bridge on a big-endian host makes of the tags of a client's PADI or PADR: one relay tag in front
      that carries the magic code, the client's MAC and the data of the relay tag that was there. */
  function Relayed(ts: seq<Tag>, mac: Mac): seq<Tag>
    requires RelayFits(ts)
  {
    [RelayTag(mac, OldData(ts))] + WithoutRelay(ts)
  }

  predicate Ours(t: Tag) {
    |t.data| >= OWN_LEN && t.data[..MAGIC_CODE_LEN] == MAGIC_CODE
  }

  /** The bridge takes back a PADO or PADS when its first relay tag is one of ours. */
  predicate Accepted(ts: seq<Tag>) {
    HasRelay(ts) && Ours(ts[FirstRelay(ts)])
  }

  function ClientOf(ts: seq<Tag>): Mac
    requires Accepted(ts)
  {
    ts[FirstRelay(ts)].data[MAGIC_CODE_LEN..OWN_LEN]
  }

  /** A relay tag with more in it than ours keeps the rest; otherwise it goes. */
  function Stripped(ts: seq<Tag>): seq<Tag>
    requires Accepted(ts)
  {
    var k := FirstRelay(ts);
    ts[..k] + (if |ts[k].data| > OWN_LEN then [Tag(PTT_RELAY_SID, ts[k].data[OWN_LEN..])] else []) + ts[k + 1..]
  }

  // ---------- the round trip ----------

  lemma {:induction false} FirstOf(pre: seq<Tag>, t: Tag, post: seq<Tag>)
    requires t.kind == PTT_RELAY_SID && forall p :: p in pre ==> p.kind != PTT_RELAY_SID
    ensures FirstRelay(pre + [t] + post) == |pre|
  {
    var ts := pre + [t] + post;
    assert ts[|pre|] == t;
    forall j | 0 <= j < |pre|
      ensures ts[j].kind != PTT_RELAY_SID
    {
      assert ts[j] == pre[j];
    }
  }

  /** What an access concentrator sends back, wherever it puts the relay tag: the client's MAC is read out
      of it, and the relay tag returns with the data it had before, unless it had none. */
  lemma {:induction false} RelayRoundTrip(ts: seq<Tag>, mac: Mac, pre: seq<Tag>, post: seq<Tag>)
    requires RelayFits(ts)
    requires forall p :: p in pre ==> p.kind != PTT_RELAY_SID
    ensures
      var back := pre + [Relayed(ts, mac)[0]] + post;
      && Accepted(back) && ClientOf(back) == mac
      && Stripped(back) == pre + (if OldData(ts) == [] then [] else [Tag(PTT_RELAY_SID, OldData(ts))]) + post
  {
    var relay := RelayTag(mac, OldData(ts));
    var back := pre + [relay] + post;
    FirstOf(pre, relay, post);
    hide FirstTag;
    assert back[|pre|] == relay;
    assert relay.data[..2] == MAGIC_CODE && relay.data[2..8] == mac && relay.data[8..] == OldData(ts);
    assert back[..|pre|] == pre && back[|pre| + 1..] == post;
  }

  /** Echoed as it was sent, the tag list comes back whole exactly when there was no relay tag, or it was
      in front and had data: a relay tag without data is lost, one further back is moved to the front. */
  lemma {:induction false} EchoRestores(ts: seq<Tag>, mac: Mac)
    requires RelayFits(ts)
    ensures
      var back := Relayed(ts, mac);
      && Accepted(back) && ClientOf(back) == mac
      && (Stripped(back) == ts <==> !HasRelay(ts) || (FirstRelay(ts) == 0 && OldData(ts) != []))
      && (HasRelay(ts) && OldData(ts) != [] ==> Stripped(back) == [ts[FirstRelay(ts)]] + WithoutRelay(ts))
      && (OldData(ts) == [] ==> Stripped(back) == WithoutRelay(ts))
  {
    hide *;
    RelayedIs(ts, mac);
    RelayRoundTrip(ts, mac, [], WithoutRelay(ts));
    FrontRelay(ts);
    PlusNothing([Relayed(ts, mac)[0]]);
    PlusNothing(WithoutRelay(ts));
    PlusNothing([Tag(PTT_RELAY_SID, OldData(ts))]);
    NoOldData(ts);
  }

  lemma NoOldData(ts: seq<Tag>)
    ensures !HasRelay(ts) ==> OldData(ts) == [] && WithoutRelay(ts) == ts
  {
    hide FirstTag;
  }

  lemma RelayedIs(ts: seq<Tag>, mac: Mac)
    requires RelayFits(ts)
    ensures Relayed(ts, mac) != [] && Relayed(ts, mac) == [Relayed(ts, mac)[0]] + WithoutRelay(ts)
  {
    hide FirstTag;
  }

  lemma {:induction false} FrontRelay(ts: seq<Tag>)
    ensures
      var t := Tag(PTT_RELAY_SID, OldData(ts));
      && (HasRelay(ts) ==> ts[FirstRelay(ts)] == t && |WithoutRelay(ts)| == |ts| - 1)
      && ([t] + WithoutRelay(ts) == ts <==> HasRelay(ts) && FirstRelay(ts) == 0)
  {
    if HasRelay(ts) {
      FirstRelayKind(ts);
      if FirstRelay(ts) == 0 {
        assert ts == [ts[0]] + ts[1..];
      }
    }
  }

  lemma {:induction false} FirstRelayKind(ts: seq<Tag>)
    requires HasRelay(ts)
    ensures ts[FirstRelay(ts)].kind == PTT_RELAY_SID
    ensures FirstRelay(ts) > 0 ==> ts[0].kind != PTT_RELAY_SID
  {
  }
}
