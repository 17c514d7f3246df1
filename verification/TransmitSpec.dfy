/** What the NAT2.5 bridge does to a client's frame on its way out: the database learns the client, the frame gets
    the bridge's own address (`core/rtw_xmit.c`, and NAT25_INSERT in `core/rtw_br_ext.c`). */
module TransmitSpec {
  import opened Memory
  import opened Nat25Spec
  import opened PppoeTags
  import opened BridgeSpec
  import Pppoe
  import Dhcp

  const PADI_CODE: byte := 0x09
  const PADR_CODE: byte := 0x19

  /** What a frame meets in memory: the room behind it, what lies behind the buffer of a new relay tag, and
      what pads the frame once that is in. */
  datatype Place = Place(tailroom: nat, behind: nat -> byte, pad: seq<byte>)

  function SourceMac(d: seq<byte>): Mac
    requires |d| >= ETH_HLEN
  {
    d[6..12]
  }

  function IpSource(d: seq<byte>): Ip
    requires |d| >= 34
  {
    d[26..30]
  }

  predicate IsType(d: seq<byte>, t: Word) {
    |d| >= ETH_HLEN && TypeOf(d) == t
  }

  // ---------- NAT25_INSERT, one protocol each ----------

  function Learned(cfg: Cfg, net: Net, a: NetAddr, mac: Mac, now: Jiffies): Net {
    net.(nat25 := Step(net.nat25, Insert(a, mac, now), cfg.ageing))
  }

  /** The header's own length leaves something of the frame. */
  predicate IpSound(d: seq<byte>)
    requires |d| >= 34
  {
    4 * (d[14] as int % 16) < |d|
  }

  /** The address 0.0.0.0 is nobody's. */
  function IpIn(cfg: Cfg, net: Net, d: seq<byte>, now: Jiffies): (o: Out)
    requires |d| >= 34
  {
    if !IpSound(d) then Out(d, net, -1)
    else if IpSource(d) == NO_IP then Out(d, net, 0)
    else Out(d, Learned(cfg, net, Ipv4Addr(IpSource(d)), SourceMac(d), now), 0)
  }

  predicate ArpFromWhole(d: seq<byte>) {
    |d| >= 22 && (Read16(d, 16) == ETH_P_IP ==> |d| >= 28 && 26 + d[18] as int <= |d|)
  }

  /** The sender's hardware address becomes the bridge's own. */
  function ArpSigned(cfg: Cfg, d: seq<byte>): (e: seq<byte>)
    requires |d| >= 28
    ensures |e| == |d|
  {
    Put(d, 22, cfg.ownMac)
  }

  /** The sender's protocol address, which is read when that is done. */
  function ArpSender(cfg: Cfg, d: seq<byte>): Ip
    requires |d| >= 28 && 26 + d[18] as int <= |d|
  {
    ArpSigned(cfg, d)[22 + d[18] as int..26 + d[18] as int]
  }

  function ArpIn(cfg: Cfg, net: Net, d: seq<byte>, now: Jiffies): (o: Out)
    requires ArpFromWhole(d)
  {
    if Read16(d, 16) != ETH_P_IP then Out(d, net, -1)
    else Out(ArpSigned(cfg, d), Learned(cfg, net, Ipv4Addr(ArpSender(cfg, d)), SourceMac(d), now), 0)
  }

  /** A discovery packet of a client. */
  predicate Offer(d: seq<byte>)
    requires |d| >= 20
  {
    Read16(d, 16) == 0 && (d[15] == PADI_CODE || d[15] == PADR_CODE)
  }

  predicate PppoeFromWhole(cfg: Cfg, d: seq<byte>) {
    |d| >= 20 && (Offer(d) && cfg.addPppoeTag ==> TagsWhole(d))
  }

  lemma {:induction false} WithoutLength(ts: seq<Tag>)
    ensures |EncodeTags(ts)| == |EncodeTags(WithoutRelay(ts))| + Pppoe.Removed(ts)
  {
    hide EncodeTags, EncodeTag, FirstTag;
    if HasRelay(ts) {
      EncodeAround(ts, FirstRelay(ts));
      EncodeTagsAppend(ts[..FirstRelay(ts)], ts[FirstRelay(ts) + 1..]);
    }
  }

  /** The relay tag goes in, or the frame is refused: as it is, or when its old relay tag is already gone. */
  function RelayIn(cfg: Cfg, net: Net, d: seq<byte>, p: Place): (o: Out)
    requires TagsWhole(d)
  {
    var ts := TagsOf(d);
    FrameOf(d);
    WithoutLength(ts);
    if !RelayFits(ts) then Out(d, net, -1)
    else if !Pppoe.RoomFor(cfg.order, p.tailroom, ts) then Out(Pppoe.FrameBytes(d[..18], WithoutRelay(ts), PadOf(d)), net, -1)
    else Out(Pppoe.Inserted(cfg.order, d[..18], ts, p.behind, p.pad), net, 0)
  }

  /** Without relay tags only one client may be connecting; a session frame is learned by the access
      concentrator and session, and ends the connecting. */
  function PppoeIn(cfg: Cfg, net: Net, d: seq<byte>, p: Place, now: Jiffies): (o: Out)
    requires PppoeFromWhole(cfg, d)
  {
    var mac := SourceMac(d);
    if Offer(d) then
      if cfg.addPppoeTag then RelayIn(cfg, net, d, p)
      else if net.progress != 0 && mac != net.pppoeAddr then Out(d, net, -2)
      else Out(d, net.(progress := WAIT_TIME_PPPOE, pppoeAddr := mac), 0)
    else if Read16(d, 16) == 0 then Out(d, net, -1)
    else
      var n := Learned(cfg, net, PppoeAddr(d[..6], d[16..18]), mac, now);
      Out(d, if !cfg.addPppoeTag && mac == net.pppoeAddr then n.(progress := 0) else n, 0)
  }

  /** Neighbour discovery, whose link-layer addresses and checksum the source rewrites as well. */
  predicate Discovers(d: seq<byte>) {
    |d| > 58 && d[20] == 58 && 133 <= d[54] <= 137 && d[22..38] != Zeros(16)
  }

  function Ipv6In(cfg: Cfg, net: Net, d: seq<byte>, now: Jiffies): (o: Out)
    requires |d| >= ETH_HLEN
  {
    if 40 >= |d| - ETH_HLEN then Out(d, net, -1)
    else if d[22..38] == Zeros(16) then Out(d, net, 0)
    else Out(d, Learned(cfg, net, Ipv6Addr(d[22..38]), SourceMac(d), now), 0)
  }

  /** The frame is long enough for what the branch of its protocol reads. */
  predicate FromWhole(cfg: Cfg, d: seq<byte>) {
    && |d| >= ETH_HLEN
    && (TypeOf(d) == ETH_P_IP ==> |d| >= 34)
    && (TypeOf(d) == ETH_P_ARP ==> ArpFromWhole(d))
    && (TypeOf(d) == ETH_P_PPP_DISC || TypeOf(d) == ETH_P_PPP_SES ==> PppoeFromWhole(cfg, d))
    && (TypeOf(d) == ETH_P_IPV6 ==> !Discovers(d))
  }

  /** nat25_db_handle with NAT25_INSERT. */
  function InsertOut(cfg: Cfg, net: Net, d: seq<byte>, p: Place, now: Jiffies): (o: Out)
    requires FromWhole(cfg, d)
  {
    var t := TypeOf(d);
    if t == ETH_P_IP then IpIn(cfg, net, d, now)
    else if t == ETH_P_ARP then ArpIn(cfg, net, d, now)
    else if t == ETH_P_PPP_DISC || t == ETH_P_PPP_SES then PppoeIn(cfg, net, d, p, now)
    else if t == ETH_P_IPV6 then Ipv6In(cfg, net, d, now)
    else if Ignored(t) then Out(d, net, 0)
    else Out(d, net, -1)
  }

  // ---------- NAT25_CHECK ----------

  /** What the test reads is in the frame. */
  predicate CheckWhole(d: seq<byte>) {
    && |d| >= ETH_HLEN
    && (TypeOf(d) == ETH_P_ARP || TypeOf(d) == ETH_P_PPP_DISC || TypeOf(d) == ETH_P_PPP_SES ==> |d| >= 18)
  }

  /** nat25_db_handle with NAT25_CHECK: with 0 the frame is copied before it is inserted. */
  function CheckOut(d: seq<byte>): int
    requires CheckWhole(d)
  {
    var t := TypeOf(d);
    if t == ETH_P_ARP then if Read16(d, 16) == ETH_P_IP then 0 else -1
    else if t == ETH_P_PPP_DISC || t == ETH_P_PPP_SES then if Read16(d, 16) == 0 then 0 else 1
    else if t == ETH_P_IPV6 then if 40 < |d| - ETH_HLEN && Multicast(d) then 0 else -1
    else -1
  }

  /** The insert changes no frame that is not copied before. */
  lemma {:induction false} OnlyCopiesChange(cfg: Cfg, net: Net, d: seq<byte>, p: Place, now: Jiffies)
    requires FromWhole(cfg, d)
    ensures CheckWhole(d) && (InsertOut(cfg, net, d, p, now).data != d ==> CheckOut(d) == 0)
  {
    hide IpSound, Learned, TagsWhole, RelayIn, Discovers, ArpSigned, ArpSender, Multicast;
  }

  // ---------- rtw_br_client_tx ----------

  /** The bridge's own frames tell its address. */
  function Noticed(cfg: Cfg, net: Net, d: seq<byte>): Net
    requires FromWhole(cfg, d)
  {
    if SourceMac(d) == cfg.brMac && TypeOf(d) == ETH_P_IP then net.(brIp := IpSource(d)) else net
  }

  /** The source of an IP frame is remembered or refreshed; unless that does, the database is asked. */
  function AskedOut(cfg: Cfg, net: Net, d: seq<byte>, p: Place, now: Jiffies): (o: Out)
    requires FromWhole(cfg, d)
  {
    if TypeOf(d) != ETH_P_IP then InsertOut(cfg, net, d, p, now)
    else
      var n := net.(nat25 := Remembered(net.nat25, SourceMac(d), IpSource(d), now));
      if Remembers(net.nat25, SourceMac(d), IpSource(d)).Some? then Out(d, n, 0) else InsertOut(cfg, n, d, p, now)
  }

  /** The frame with the bridge's own address as its source. */
  function Signed(cfg: Cfg, d: seq<byte>): (e: seq<byte>)
    requires |d| >= ETH_HLEN
    ensures |e| == |d|
  {
    Put(d, 6, cfg.ownMac)
  }

  function Dressed(cfg: Cfg, d: seq<byte>): (e: seq<byte>)
    requires |d| >= ETH_HLEN && Dhcp.Whole(Signed(cfg, d))
    ensures |e| == |d|
  {
    if cfg.dhcpDisable then Signed(cfg, d) else Dhcp.DhcpOut(Signed(cfg, d))
  }

  predicate Sendable(cfg: Cfg, d: seq<byte>) {
    FromWhole(cfg, d) && Dhcp.Whole(d)
  }

  lemma {:induction false} SignedHeader(cfg: Cfg, d: seq<byte>)
    requires |d| >= ETH_HLEN
    ensures forall k :: 12 <= k < |d| ==> Signed(cfg, d)[k] == d[k]
    ensures TypeOf(Signed(cfg, d)) == TypeOf(d) && SourceMac(Signed(cfg, d)) == cfg.ownMac
  {
  }

  lemma {:induction false} SignedWhole(cfg: Cfg, d: seq<byte>)
    requires Dhcp.Whole(d)
    ensures Dhcp.Whole(Signed(cfg, d))
  {
    SignedHeader(cfg, d);
    hide Signed;
  }

  lemma NotIpWhole(d: seq<byte>)
    requires |d| >= ETH_HLEN && TypeOf(d) != ETH_P_IP
    ensures Dhcp.Whole(d)
  {
  }

  /** A frame that goes on is of the same type. */
  lemma {:induction false} TypeStays(cfg: Cfg, net: Net, d: seq<byte>, p: Place, now: Jiffies)
    requires FromWhole(cfg, d)
    ensures
      var o := InsertOut(cfg, net, d, p, now);
      && |o.data| >= ETH_HLEN && TypeOf(o.data) == TypeOf(d) && (TypeOf(d) == ETH_P_IP ==> o.data == d)
      && o.data[..12] == d[..12]
      && (o.ret == 0 || o.ret == -1 || o.ret == -2)
  {
    hide IpSound, Learned, TagsWhole, PadOf, TagsOf, Pppoe.Inserted, Pppoe.FrameBytes, Discovers, Pppoe.RoomFor, RelayFits;
    if TypeOf(d) == ETH_P_PPP_DISC || TypeOf(d) == ETH_P_PPP_SES {
      if Offer(d) && cfg.addPppoeTag {
        RelayType(cfg, net, d, p);
      }
    }
  }

  lemma SameHeader(e: seq<byte>, d: seq<byte>)
    requires |e| >= 18 && |d| >= 18 && e[..18] == d[..18]
    ensures TypeOf(e) == TypeOf(d) && e[..12] == d[..12]
  {
    assert e[..18][12] == e[12] && e[..18][13] == e[13] && d[..18][12] == d[12] && d[..18][13] == d[13];
    assert e[..12] == e[..18][..12] && d[..12] == d[..18][..12];
  }

  lemma {:induction false} FrameHeader(h: Pppoe.Header, ts: seq<Tag>, pad: seq<byte>)
    requires |EncodeTags(ts)| < 0x1_0000
    ensures var d := Pppoe.FrameBytes(h, ts, pad); |d| >= 18 && d[..18] == h
  {
    hide EncodeTags, Pppoe.FrameBytes;
    Pppoe.Parts(h, ts, pad);
    var d := Pppoe.FrameBytes(h, ts, pad);
    assert d[0..18] == d[..18];
  }

  lemma {:induction false} RelayType(cfg: Cfg, net: Net, d: seq<byte>, p: Place)
    requires TagsWhole(d)
    ensures var o := RelayIn(cfg, net, d, p);
      |o.data| >= 18 && o.data[..18] == d[..18] && TypeOf(o.data) == TypeOf(d) && o.data[..12] == d[..12]
  {
    hide TagsOf, PadOf, Pppoe.RoomFor, Pppoe.Inserted, RelayFits, Pppoe.FrameBytes, WithoutRelay, EncodeTags, DecodeTags, TypeOf;
    var o, ts := RelayIn(cfg, net, d, p), TagsOf(d);
    FrameOf(d);
    WithoutLength(ts);
    if RelayFits(ts) {
      if Pppoe.RoomFor(cfg.order, p.tailroom, ts) {
        Pppoe.InsertedLength(cfg.order, d[..18], ts, p.behind, p.pad);
      } else {
        FrameHeader(d[..18], WithoutRelay(ts), PadOf(d));
      }
    }
    SameHeader(o.data, d);
  }

  lemma {:induction false} AskedStays(cfg: Cfg, net: Net, d: seq<byte>, p: Place, now: Jiffies)
    requires Sendable(cfg, d)
    ensures
      var o := AskedOut(cfg, net, d, p, now);
      && |o.data| >= ETH_HLEN && TypeOf(o.data) == TypeOf(d) && Dhcp.Whole(Signed(cfg, o.data))
      && o.data[..12] == d[..12]
      && (o.ret == 0 || o.ret == -1 || o.ret == -2)
  {
    hide InsertOut, Remembers, Remembered, Dhcp.Whole, Signed, FromWhole;
    FromLength(cfg, d);
    TypeStays(cfg, net, d, p, now);
    if TypeOf(d) == ETH_P_IP {
      TypeStays(cfg, net.(nat25 := Remembered(net.nat25, SourceMac(d), IpSource(d), now)), d, p, now);
      SignedWhole(cfg, d);
    } else {
      var o := AskedOut(cfg, net, d, p, now);
      SignedHeader(cfg, o.data);
      NotIpWhole(Signed(cfg, o.data));
    }
  }

  lemma FromLength(cfg: Cfg, d: seq<byte>)
    requires FromWhole(cfg, d)
    ensures |d| >= ETH_HLEN && (TypeOf(d) == ETH_P_IP ==> |d| >= 34) && CheckWhole(d)
  {
  }

  /** A frame without a tag, with the database's own answer. */
  function InnerIn(cfg: Cfg, net: Net, d: seq<byte>, p: Place, now: Jiffies): (o: Out)
    requires Sendable(cfg, d)
    ensures |o.data| >= ETH_HLEN && (o.ret == 0 || o.ret == -1 || o.ret == -2)
  {
    var o := AskedOut(cfg, Noticed(cfg, net, d), d, p, now);
    AskedStays(cfg, Noticed(cfg, net, d), d, p, now);
    if o.ret < 0 then o else Out(Dressed(cfg, o.data), o.net, 0)
  }

  /** The frame behind its tag, if it has one. */
  function Inner(d: seq<byte>): seq<byte>
    requires |d| >= ETH_HLEN && (TypeOf(d) == ETH_P_8021Q ==> |d| >= 16)
  {
    if TypeOf(d) == ETH_P_8021Q then WithoutTag(d) else d
  }

  predicate Transmittable(cfg: Cfg, d: seq<byte>) {
    |d| >= ETH_HLEN && (TypeOf(d) == ETH_P_8021Q ==> |d| >= 16) && Sendable(cfg, Inner(d))
  }

  /** A unicast IP frame of the remembered client, whose entry is still named. */
  predicate Quick(cfg: Cfg, net: Net, d: seq<byte>)
    requires |d| >= ETH_HLEN
  {
    && !Multicast(d) && SourceMac(d) != cfg.brMac && TypeOf(d) == ETH_P_IP
    && SourceMac(d) == net.nat25.short.mac && net.nat25.short.linked
  }

  /** rtw_br_client_tx.  A frame that the database refuses with -1 goes out all the same, but as it is then:
      without its tag, and with the client's address. */
  function TransmitOut(cfg: Cfg, net: Net, d: seq<byte>, p: Place, now: Jiffies): (o: Out)
    requires Transmittable(cfg, d)
  {
    if Quick(cfg, net, d) then
      Out(Signed(cfg, d), net.(nat25 := Remembered(net.nat25, SourceMac(d), net.nat25.short.ip, now)), 0)
    else
      var o := InnerIn(cfg, net, Inner(d), p, now);
      if o.ret < 0 then o.(ret := if o.ret == -2 then -1 else 0)
      else o.(data := if TypeOf(d) == ETH_P_8021Q then WithTag(o.data, d[14..16]) else o.data)
  }

  // ---------- what goes out ----------

  /** The database has refused the frame. */
  predicate Refused(cfg: Cfg, net: Net, d: seq<byte>, p: Place, now: Jiffies)
    requires Transmittable(cfg, d)
  {
    !Quick(cfg, net, d) && InnerIn(cfg, net, Inner(d), p, now).ret != 0
  }

  lemma {:induction false} DressedSource(cfg: Cfg, d: seq<byte>)
    requires |d| >= ETH_HLEN && Dhcp.Whole(Signed(cfg, d))
    ensures SourceMac(Dressed(cfg, d)) == cfg.ownMac
  {
    hide Dhcp.Whole, Dhcp.DhcpOut, Signed;
    SignedHeader(cfg, d);
    Dhcp.OutAddresses(Signed(cfg, d));
    if !cfg.dhcpDisable {
      var e, g := Signed(cfg, d), Dressed(cfg, d);
      assert g[6..12] == g[..14][6..12] && e[6..12] == e[..14][6..12];
    }
  }

  lemma TaggedSource(d: seq<byte>, tci: Tci)
    requires |d| >= 12
    ensures |WithTag(d, tci)| == |d| + 4 && WithTag(d, tci)[6..12] == d[6..12]
  {
  }

  lemma {:induction false} InnerInSource(cfg: Cfg, net: Net, d: seq<byte>, p: Place, now: Jiffies)
    requires Sendable(cfg, d)
    ensures
      var o := InnerIn(cfg, net, d, p, now);
      |d| >= ETH_HLEN && SourceMac(o.data) == if o.ret == 0 then cfg.ownMac else SourceMac(d)
  {
    hide AskedOut, Dressed, Dhcp.Whole, Signed, FromWhole;
    FromLength(cfg, d);
    var n := Noticed(cfg, net, d);
    AskedStays(cfg, n, d, p, now);
    var o := AskedOut(cfg, n, d, p, now);
    if o.ret < 0 {
      assert o.data[6..12] == o.data[..12][6..12] && d[6..12] == d[..12][6..12];
    } else {
      DressedSource(cfg, o.data);
    }
  }

  /** A frame that goes out has the bridge's own address as its source, unless the database has refused it:
      then it goes out with the client's, and without its 802.1Q tag. */
  lemma {:induction false} SourceIsHidden(cfg: Cfg, net: Net, d: seq<byte>, p: Place, now: Jiffies)
    requires Transmittable(cfg, d)
    ensures
      var o := TransmitOut(cfg, net, d, p, now);
      && |o.data| >= ETH_HLEN
      && SourceMac(o.data) == (if Refused(cfg, net, d, p, now) then SourceMac(d) else cfg.ownMac)
      && (Refused(cfg, net, d, p, now) ==> o.data == InnerIn(cfg, net, Inner(d), p, now).data)
  {
    hide InnerIn, Sendable, WithTag, WithoutTag, Signed, Remembered;
    if Quick(cfg, net, d) {
      SignedHeader(cfg, d);
    } else {
      SendableLength(cfg, Inner(d));
      InnerIsSource(d);
      InnerInSource(cfg, net, Inner(d), p, now);
      TaggedSource(InnerIn(cfg, net, Inner(d), p, now).data, if TypeOf(d) == ETH_P_8021Q then d[14..16] else [0, 0]);
    }
  }

  lemma SendableLength(cfg: Cfg, d: seq<byte>)
    requires Sendable(cfg, d)
    ensures |d| >= ETH_HLEN
  {
  }

  lemma InnerIsSource(d: seq<byte>)
    requires |d| >= ETH_HLEN && (TypeOf(d) == ETH_P_8021Q ==> |d| >= 16) && |Inner(d)| >= ETH_HLEN
    ensures SourceMac(Inner(d)) == SourceMac(d)
  {
  }
}
