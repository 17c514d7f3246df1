/** More of what clients' frames teach the bridge and what their answers find: PPPoE sessions, IPv6, ARP, the one
    client that may connect without relay tags, and the frames that are left alone (`core/rtw_br_ext.c`). */
module Sessions {
  import opened Memory
  import opened Nat25Spec
  import opened PppoeTags
  import opened BridgeSpec
  import opened TransmitSpec
  import opened Clients
  import Dhcp
  import Pppoe

  /** An entry that a run spares is there with its MAC, and not expired. */
  lemma {:induction false} StillLive(start: Nat, a: NetAddr, ops: seq<Op>, now: Jiffies, ageing: nat)
    requires a in start.db && SparedIn(start, ops + [Expire(now)], a, ageing)
    ensures
      var db := Run(start, ops, ageing).db;
      a in db && db[a].mac == start.db[a].mac && !HasExpired(db[a].timer, now, ageing)
  {
    SparedSplit(start, ops, [Expire(now)], a, ageing);
    FreshEntryStays(start, a, ops, ageing);
    hide HasExpired, Run, Step;
  }

  // ---------- PPPoE sessions ----------

  /** A session frame between a client and an access concentrator, in either direction. */
  predicate Session(d: seq<byte>, dst: Mac, src: Mac, sid: seq<byte>) {
    && |d| >= 20 && d[12] == 0x88 && d[13] == 0x64 && d[15] == 0 && sid != [0, 0]
    && d[..6] == dst && d[6..12] == src && d[16..18] == sid
  }

  lemma SessionType(d: seq<byte>, dst: Mac, src: Mac, sid: seq<byte>)
    requires Session(d, dst, src, sid)
    ensures TypeOf(d) == ETH_P_PPP_SES && |sid| == 2 && Read16(d, 16) != 0 && !Offer(d) && !Answer(d)
  {
    assert d[16..18] == [d[16], d[17]];
  }

  lemma {:induction false} SessionIsLearned(cfg: Cfg, net: Net, d: seq<byte>, p: Place, now: Jiffies, ac: Mac, client: Mac, sid: seq<byte>)
    requires Transmittable(cfg, d) && Session(Inner(d), ac, client, sid)
    ensures |sid| == 2
    ensures
      var db := TransmitOut(cfg, net, d, p, now).net.nat25.db;
      PppoeAddr(ac, sid) in db && db[PppoeAddr(ac, sid)].mac == client
  {
    SessionType(Inner(d), ac, client, sid);
    hide WithTag, WithoutTag, Dressed, Signed, Dhcp.Whole, PppoeAddr, Multicast, Offer, Answer, RelayIn, TagsWhole;
  }

  /** A session's way: once a client has sent a frame of a session to an access concentrator, and as long as the
      entry has not aged and not been given to another, a frame of that session from the access concentrator
      goes to the client. */
  lemma {:induction false} SessionIsReached(cfg: Cfg, before: Net, d: seq<byte>, p: Place, heard: Jiffies, ac: Mac, client: Mac, sid: seq<byte>,
                                            net: Net, ops: seq<Op>, answer: seq<byte>, dst: Mac, now: Jiffies)
    requires Transmittable(cfg, d) && Session(Inner(d), ac, client, sid) && |sid| == 2
    requires
      var start := TransmitOut(cfg, before, d, p, heard).net.nat25;
      net.nat25 == Run(start, ops, cfg.ageing) && SparedIn(start, ops + [Expire(now)], PppoeAddr(ac, sid), cfg.ageing)
    requires !cfg.disable && Session(answer, dst, ac, sid)
    ensures Whole(cfg, answer)
    ensures
      var o := InnerOut(cfg, net, answer, now);
      o.ret == 0 && o.data == client + answer[6..]
  {
    SessionIsLearned(cfg, before, d, p, heard, ac, client, sid);
    SessionType(answer, dst, ac, sid);
    hide TransmitOut, Inner, Sendable, Run, SparedIn, PppoeAddr, HasExpired, Answer, Offer, Step, TagsWhole, RelayOut;
    StillLive(TransmitOut(cfg, before, d, p, heard).net.nat25, PppoeAddr(ac, sid), ops, now, cfg.ageing);
    assert [] + client + answer[6..] == client + answer[6..];
  }

  // ---------- IPv6 ----------

  predicate Ipv6(d: seq<byte>) {
    |d| > 54 && d[12] == 0x86 && d[13] == 0xdd
  }

  lemma {:induction false} Ipv6IsLearned(cfg: Cfg, net: Net, d: seq<byte>, p: Place, now: Jiffies)
    requires Transmittable(cfg, d) && Ipv6(Inner(d)) && Inner(d)[22..38] != Zeros(16)
    ensures
      var db, a := TransmitOut(cfg, net, d, p, now).net.nat25.db, Ipv6Addr(Inner(d)[22..38]);
      a in db && db[a].mac == Inner(d)[6..12]
  {
    hide WithTag, WithoutTag, Dressed, Signed, Dhcp.Whole, Ipv6Addr, Multicast, Discovers;
  }

  /** Once a client has sent from an IPv6 address, a frame to that address goes to it. */
  lemma {:induction false} Ipv6IsReached(cfg: Cfg, before: Net, d: seq<byte>, p: Place, heard: Jiffies, ip: seq<byte>,
                                         net: Net, ops: seq<Op>, answer: seq<byte>, now: Jiffies)
    requires Transmittable(cfg, d) && Ipv6(Inner(d)) && Inner(d)[22..38] == ip && ip != Zeros(16)
    requires
      var start := TransmitOut(cfg, before, d, p, heard).net.nat25;
      net.nat25 == Run(start, ops, cfg.ageing) && SparedIn(start, ops + [Expire(now)], Ipv6Addr(ip), cfg.ageing)
    requires !cfg.disable && Ipv6(answer) && answer[38..54] == ip
    ensures Whole(cfg, answer)
    ensures
      var o := InnerOut(cfg, net, answer, now);
      o.ret == 0 && o.data == Inner(d)[6..12] + answer[6..]
  {
    Ipv6IsLearned(cfg, before, d, p, heard);
    hide TransmitOut, Inner, Sendable, Run, SparedIn, Ipv6Addr, HasExpired, Step;
    StillLive(TransmitOut(cfg, before, d, p, heard).net.nat25, Ipv6Addr(ip), ops, now, cfg.ageing);
    var mac := Inner(d)[6..12];
    assert [] + mac + answer[6..] == mac + answer[6..];
  }

  // ---------- ARP ----------

  /** An ARP frame for Ethernet and IPv4. */
  predicate EthernetArp(d: seq<byte>) {
    |d| >= 42 && d[12] == 0x08 && d[13] == 0x06 && d[16] == 0x08 && d[17] == 0x00 && d[18] == 6 && d[19] == 4
  }

  lemma ArpParts(d: seq<byte>, mac: Mac)
    requires EthernetArp(d)
    ensures ArpWhole(d) && ArpFromWhole(d) && TypeOf(d) == ETH_P_ARP && Read16(d, 16) == ETH_P_IP && ArpTarget(d) == 38 && ArpHw(d) == 32
    ensures ToMac(d, mac)[..6] == mac && Put(ToMac(d, mac), 32, mac) == mac + d[6..32] + mac + d[38..]
  {
    assert ToMac(d, mac) == mac + d[6..];
  }

  /** An ARP frame that asks for a client, or answers it, goes to that client, and names it as its target. */
  lemma {:induction false} ArpIsReached(cfg: Cfg, before: Net, d: seq<byte>, p: Place, heard: Jiffies, ip: Ip, mac: Mac,
                                        net: Net, ops: seq<Op>, answer: seq<byte>, now: Jiffies)
    requires Transmittable(cfg, d) && Announces(cfg, before.nat25, Inner(d), ip, mac)
    requires
      var start := TransmitOut(cfg, before, d, p, heard).net.nat25;
      net.nat25 == Run(start, ops, cfg.ageing) && SparedIn(start, ops + [Expire(now)], Ipv4Addr(ip), cfg.ageing)
    requires !cfg.disable && EthernetArp(answer) && answer[38..42] == ip
    ensures Whole(cfg, answer)
    ensures
      var o := InnerOut(cfg, net, answer, now);
      o.ret == 0 && o.data == mac + answer[6..32] + mac + answer[38..]
  {
    hide TransmitOut, Inner, Sendable, Run, SparedIn, Announces, Knows, ArpFrom, Teaches, Ipv4Addr, HasExpired, InnerOut, Whole, EthernetArp,
         Step;
    AnnouncesEither(cfg, before.nat25, Inner(d), ip, mac);
    if ArpFrom(cfg, Inner(d), ip, mac) {
      ArpIsLearned(cfg, before, d, p, heard, ip, mac);
    } else {
      LearnedExactly(cfg, before, d, p, heard);
    }
    KnowsIs(TransmitOut(cfg, before, d, p, heard).net.nat25, ip, mac);
    StillLive(TransmitOut(cfg, before, d, p, heard).net.nat25, Ipv4Addr(ip), ops, now, cfg.ageing);
    ArpAnswerOut(cfg, net, ip, mac, answer, now);
  }

  lemma AnnouncesEither(cfg: Cfg, n: Nat, d: seq<byte>, ip: Ip, mac: Mac)
    requires Announces(cfg, n, d, ip, mac)
    ensures ArpFrom(cfg, d, ip, mac) || (IsType(d, ETH_P_IP) && |d| >= 34 && IpSource(d) == ip && SourceMac(d) == mac && Teaches(n, d))
  {
    hide Teaches, ArpFrom;
  }

  lemma KnowsIs(n: Nat, ip: Ip, mac: Mac)
    requires Knows(n, ip, mac)
    ensures Ipv4Addr(ip) in n.db && n.db[Ipv4Addr(ip)].mac == mac
  {
  }

  lemma {:induction false} ArpAnswerOut(cfg: Cfg, net: Net, ip: Ip, mac: Mac, d: seq<byte>, now: Jiffies)
    requires !cfg.disable && EthernetArp(d) && d[38..42] == ip
    requires Ipv4Addr(ip) in net.nat25.db && net.nat25.db[Ipv4Addr(ip)].mac == mac
    requires !HasExpired(net.nat25.db[Ipv4Addr(ip)].timer, now, cfg.ageing)
    ensures Whole(cfg, d)
    ensures
      var o := InnerOut(cfg, net, d, now);
      o.ret == 0 && o.data == mac + d[6..32] + mac + d[38..]
  {
    ArpParts(d, mac);
    hide Ipv4Addr, ToMac, HasExpired, Step, ArpWhole, ArpTarget, ArpHw, Put;
  }

  /** A client's ARP frame goes out with the bridge's address as source and as sender, and is learned with the
      sender's protocol address. */
  lemma {:induction false} ArpIsSent(cfg: Cfg, net: Net, d: seq<byte>, p: Place, now: Jiffies)
    requires Transmittable(cfg, d) && EthernetArp(d)
    ensures
      var o := TransmitOut(cfg, net, d, p, now);
      && o.ret == 0 && o.data == d[..6] + cfg.ownMac + d[12..22] + cfg.ownMac + d[28..]
      && Knows(o.net.nat25, d[28..32], d[6..12])
  {
    ArpParts(d, cfg.ownMac);
    var e := ArpSigned(cfg, d);
    assert e == d[..22] + cfg.ownMac + d[28..];
    assert e[28..32] == d[28..32] && ArpSender(cfg, d) == d[28..32];
    assert Signed(cfg, e) == d[..6] + cfg.ownMac + d[12..22] + cfg.ownMac + d[28..];
    DressedOther(cfg, e);
    hide WithTag, WithoutTag, Dressed, Signed, Dhcp.Whole, Ipv4Addr, Multicast, ArpFromWhole, ArpSender, ArpSigned, ArpWhole;
  }

  // ---------- one client at a time ----------

  predicate OfferOf(cfg: Cfg, d: seq<byte>, mac: Mac) {
    && |d| >= 20 && d[12] == 0x88 && d[13] == 0x63 && (d[15] == 0x09 || d[15] == 0x19) && d[16] == 0 && d[17] == 0
    && d[6..12] == mac && !cfg.addPppoeTag
  }

  predicate AnswerTo(cfg: Cfg, d: seq<byte>) {
    |d| >= 20 && d[12] == 0x88 && d[13] == 0x63 && (d[15] == 0x07 || d[15] == 0x65) && !cfg.addPppoeTag
  }

  /** Without relay tags: while no client is connecting, or this one is, its PADI or PADR goes out signed, and it
      is the one that is connecting, for five rounds; any other client's is dropped and changes nothing. */
  lemma {:induction false} OnlyOneConnects(cfg: Cfg, net: Net, d: seq<byte>, p: Place, now: Jiffies, mac: Mac)
    requires Transmittable(cfg, d) && OfferOf(cfg, d, mac)
    ensures
      var o := TransmitOut(cfg, net, d, p, now);
      if net.progress == 0 || net.pppoeAddr == mac
      then o.ret == 0 && o.net == net.(progress := 5, pppoeAddr := mac) && o.data == d[..6] + cfg.ownMac + d[12..]
      else o.ret == -1 && o.net == net
  {
    assert TypeOf(d) == ETH_P_PPP_DISC && Offer(d);
    assert Signed(cfg, d) == d[..6] + cfg.ownMac + d[12..];
    DressedOther(cfg, d);
    hide WithTag, WithoutTag, Dressed, Signed, Dhcp.Whole, Multicast, RelayIn, TagsWhole, Offer;
  }

  /** A PADO or PADS goes to the client that is connecting, which keeps its five rounds; without one it is
      refused. */
  lemma {:induction false} AnswerToConnecting(cfg: Cfg, net: Net, d: seq<byte>, now: Jiffies)
    requires AnswerTo(cfg, d)
    ensures Whole(cfg, d)
    ensures
      DbOut(cfg, net, d, now) ==
        if net.progress == 0 then Out(d, net, -1) else Out(net.pppoeAddr + d[6..], net.(progress := 5), 0)
  {
    assert TypeOf(d) == ETH_P_PPP_DISC && Answer(d);
    assert [] + net.pppoeAddr + d[6..] == net.pppoeAddr + d[6..];
    hide RelayOut, TagsWhole, Answer;
  }

  /** Its first session frame ends the connecting; another client's does not. */
  lemma {:induction false} SessionEndsConnecting(cfg: Cfg, net: Net, d: seq<byte>, p: Place, now: Jiffies, ac: Mac, mac: Mac, sid: seq<byte>)
    requires Transmittable(cfg, d) && Session(d, ac, mac, sid) && !cfg.addPppoeTag
    ensures
      var n := TransmitOut(cfg, net, d, p, now).net;
      n.progress == (if mac == net.pppoeAddr then 0 else net.progress) && n.pppoeAddr == net.pppoeAddr
  {
    SessionType(d, ac, mac, sid);
    hide WithTag, WithoutTag, Dressed, Signed, Dhcp.Whole, PppoeAddr, Multicast, Offer, Answer, RelayIn, TagsWhole;
  }

  // ---------- what is left alone ----------

  /** With the database off a frame is left as it is, unless it is an IP or ARP frame for the bridge's own
      address. */
  lemma {:induction false} OffLeavesAlone(cfg: Cfg, net: Net, d: seq<byte>, now: Jiffies)
    requires cfg.disable && Whole(cfg, d)
    ensures
      var toBridge := d[12] == 0x08 && ((d[13] == 0x00 && d[30..34] == net.brIp) || (d[13] == 0x06 && d[38..42] == net.brIp));
      InnerOut(cfg, net, d, now) == if toBridge then DbOut(cfg, net, d, now) else Out(d, net, 0)
  {
    assert TypeOf(d) == ETH_P_IP <==> d[12] == 0x08 && d[13] == 0x00;
    assert TypeOf(d) == ETH_P_ARP <==> d[12] == 0x08 && d[13] == 0x06;
    hide DbOut, ArpWhole, PppoeWhole;
  }

  /** The bridge's address is the source of the last IP frame that it has sent itself. */
  lemma {:induction false} BridgeIsNoticed(cfg: Cfg, net: Net, d: seq<byte>, p: Place, now: Jiffies)
    requires Transmittable(cfg, d)
    ensures |Inner(d)| >= 14
    ensures
      var f := Inner(d);
      TransmitOut(cfg, net, d, p, now).net.brIp ==
        if f[6..12] == cfg.brMac && f[12] == 0x08 && f[13] == 0x00 && |f| >= 34 then f[26..30] else net.brIp
  {
    var f := Inner(d);
    FromLength(cfg, f);
    assert TypeOf(f) == ETH_P_IP <==> f[12] == 0x08 && f[13] == 0x00;
    InsertKeepsBridge(cfg, Noticed(cfg, net, f), f, p, now);
    if TypeOf(f) == ETH_P_IP {
      InsertKeepsBridge(cfg, Noticed(cfg, net, f).(nat25 := Remembered(net.nat25, SourceMac(f), IpSource(f), now)), f, p, now);
    }
    hide WithTag, WithoutTag, Dressed, Signed, Dhcp.Whole, InsertOut, Remembers, Remembered, FromWhole, Multicast;
  }

  lemma {:induction false} InsertKeepsBridge(cfg: Cfg, net: Net, d: seq<byte>, p: Place, now: Jiffies)
    requires FromWhole(cfg, d)
    ensures InsertOut(cfg, net, d, p, now).net.brIp == net.brIp
  {
    hide Step, IpSound, TagsWhole, ArpSigned, ArpSender, Discovers, Pppoe.RoomFor, RelayFits, Offer;
  }

  /** A multicast frame is left as it is. */
  lemma MulticastIsLeftAlone(cfg: Cfg, net: Net, d: seq<byte>, now: Jiffies)
    requires Handleable(cfg, d) && d[0] % 2 == 1
    ensures HandledOut(cfg, net, d, now) == Out(d, net, 0)
  {
    hide InnerOut;
  }

  /** EAPOL and two other types are left as they are in both directions; types that the database does not
      know, and ARP for other protocols than IPv4, are refused as they are. */
  lemma {:induction false} OtherTypes(cfg: Cfg, net: Net, d: seq<byte>, p: Place, now: Jiffies)
    requires Whole(cfg, d) && FromWhole(cfg, d)
    ensures
      var t := 256 * d[12] as int + d[13] as int;
      var ret := if t == 0x888e || t == 0xe2ae || t == 0xe2af then 0 else -1;
      (t != 0x0800 && t != 0x86dd && t != 0x8863 && t != 0x8864 && (t == 0x0806 ==> 256 * d[16] as int + d[17] as int != 0x0800)) ==>
        DbOut(cfg, net, d, now) == InsertOut(cfg, net, d, p, now) == Out(d, net, ret)
  {
    hide IpOut, Ipv6Out, PppoeOut, IpIn, PppoeIn, Ipv6In, PppoeWhole, PppoeFromWhole, Discovers;
  }

  /** A unicast frame without a tag is handled as it is, with the same answer. */
  lemma {:induction false} UntaggedIsHandled(cfg: Cfg, net: Net, d: seq<byte>, now: Jiffies)
    requires Whole(cfg, d) && d[0] % 2 == 0 && !(d[12] == 0x81 && d[13] == 0x00)
    ensures Handleable(cfg, d) && HandledOut(cfg, net, d, now) == InnerOut(cfg, net, d, now)
  {
    AnswerIs(cfg, net, d, now);
    hide InnerOut, ArpWhole, PppoeWhole;
  }

  lemma {:induction false} AnswerIs(cfg: Cfg, net: Net, d: seq<byte>, now: Jiffies)
    requires Whole(cfg, d)
    ensures var ret := InnerOut(cfg, net, d, now).ret; ret == 0 || ret == -1
  {
    hide Looked, RelayOut, ToMac, Put, ArpTarget, ArpHw, TagsWhole, Answer;
    hide ForBridge;
    if TypeOf(d) == ETH_P_PPP_DISC || TypeOf(d) == ETH_P_PPP_SES {
      if Answer(d) && cfg.addPppoeTag {
        RelayAnswer(net, d);
      }
    }
  }

  lemma {:induction false} RelayAnswer(net: Net, d: seq<byte>)
    requires TagsWhole(d)
    ensures RelayOut(net, d).ret == if Accepted(TagsOf(d)) then 0 else -1
  {
    hide TagsOf, PadOf, Accepted, Stripped, ClientOf, Pppoe.FrameBytes, Pppoe.Bound, EncodeTags, DecodeTags;
    if Accepted(TagsOf(d)) {
      StrippedShorter(TagsOf(d));
      FrameOf(d);
    }
  }

  /** An IP frame to an address that the table does not know goes to everybody if that looks like a
      broadcast address, and otherwise to the bridge itself. */
  lemma {:induction false} UnknownGoesUp(cfg: Cfg, net: Net, d: seq<byte>, ip: Ip, now: Jiffies)
    requires !cfg.disable && IpFrameTo(d, ip) && Ipv4Addr(ip) !in net.nat25.db && (cfg.scDisable || net.nat25.short.ip != ip)
    ensures Whole(cfg, d)
    ensures InnerOut(cfg, net, d, now) ==
      Out((if ip[3] == 255 then [255, 255, 255, 255, 255, 255] else cfg.brMac) + d[6..], net, 0)
  {
    hide Ipv4Addr;
    assert BROADCAST == [255, 255, 255, 255, 255, 255];
    assert [] + cfg.brMac + d[6..] == cfg.brMac + d[6..] && [] + BROADCAST + d[6..] == BROADCAST + d[6..];
  }

  // ---------- foreign answers ----------

  /** An answer without a relay tag, or whose first one is too short for ours or lacks the magic code, is
      refused as it is. */
  lemma {:induction false} ForeignAnswerIsRefused(cfg: Cfg, net: Net, h: Pppoe.Header, ts: seq<Tag>, k: nat, pad: seq<byte>, now: Jiffies)
    requires cfg.addPppoeTag && AnswerHeader(h) && |EncodeTags(ts)| < 0x1_0000
    requires k <= |ts| && (forall j :: 0 <= j < k ==> ts[j].kind != 0x0110)
    requires k < |ts| ==> ts[k].kind == 0x0110 && (|ts[k].data| < 8 || ts[k].data[0] != 0x81 || ts[k].data[1] != 0x86)
    ensures var d := Pppoe.FrameBytes(h, ts, pad); Whole(cfg, d) && DbOut(cfg, net, d, now) == Out(d, net, -1)
  {
    hide EncodeTags, DecodeTags, Pppoe.FrameBytes, TagsOf, PadOf, TagsWhole, FirstTag;
    Pppoe.FirstTagIs(ts, PTT_RELAY_SID, k);
    NotOurs(ts, k);
    var d := Pppoe.FrameBytes(h, ts, pad);
    TagsOfFrame(h, ts, pad);
    Pppoe.Parts(h, ts, pad);
    assert d[..18] == h && d[12] == h[12] && d[13] == h[13] && d[15] == h[15];
  }

  lemma NotOurs(ts: seq<Tag>, k: nat)
    requires FirstTag(ts, PTT_RELAY_SID) == k <= |ts|
    requires k < |ts| ==> |ts[k].data| < 8 || ts[k].data[0] != 0x81 || ts[k].data[1] != 0x86
    ensures !Accepted(ts)
  {
    if k < |ts| && |ts[k].data| >= 8 {
      assert ts[k].data[..2][0] == ts[k].data[0] && ts[k].data[..2][1] == ts[k].data[1];
    }
  }

  /** The relay tag's bytes. */
  lemma RelayTagBytes(mac: Mac, old_: TagData)
    requires |old_| <= 247
    ensures EncodeTag(RelayTag(mac, old_)) == [0x01, 0x10, 0x00, 8 + |old_|, 0x81, 0x86] + mac + old_
  {
  }

  // ---------- expired entries ----------

  /** As long ago as the ageing time, or up to half the clock's range longer. */
  predicate Stale(e: Entry, now: Jiffies, ageing: nat) {
    ageing <= (now - e.timer) % 0x1_0000_0000_0000_0000 < ageing + 0x8000_0000_0000_0000
  }

  /** An entry that has expired is still found, so that an IP frame to its address is not sent on to the
      bridge; but its MAC is not used, and nothing is counted. */
  lemma {:induction false} ExpiredIsNotUsed(cfg: Cfg, net: Net, d: seq<byte>, ip: Ip, now: Jiffies)
    requires !cfg.disable && IpFrameTo(d, ip) && (cfg.scDisable || net.nat25.short.ip != ip)
    requires cfg.ageing <= HALF && Ipv4Addr(ip) in net.nat25.db && Stale(net.nat25.db[Ipv4Addr(ip)], now, cfg.ageing)
    ensures Whole(cfg, d) && InnerOut(cfg, net, d, now) == Out(d, net, 0)
  {
    hide Ipv4Addr, HasExpired, ToMac;
    ExpiredExactly(net.nat25.db[Ipv4Addr(ip)].timer, now, cfg.ageing);
  }

  /** Nor is that of an expired session, whose frames keep the destination they came with. */
  lemma {:induction false} ExpiredSessionIsNotUsed(cfg: Cfg, net: Net, d: seq<byte>, dst: Mac, ac: Mac, sid: seq<byte>, now: Jiffies)
    requires !cfg.disable && Session(d, dst, ac, sid) && |sid| == 2
    requires cfg.ageing <= HALF && (PppoeAddr(ac, sid) in net.nat25.db ==> Stale(net.nat25.db[PppoeAddr(ac, sid)], now, cfg.ageing))
    ensures Whole(cfg, d) && InnerOut(cfg, net, d, now) == Out(d, net, 0)
  {
    SessionType(d, dst, ac, sid);
    hide PppoeAddr, HasExpired, ToMac, Answer, Offer, TagsWhole, RelayOut;
    if PppoeAddr(ac, sid) in net.nat25.db {
      ExpiredExactly(net.nat25.db[PppoeAddr(ac, sid)].timer, now, cfg.ageing);
    }
  }

  // ---------- which offers are refused ----------

  /** A PADI or PADR is refused as it is if its first relay tag holds more than 28 bytes; otherwise it is refused,
      and has lost that tag, exactly if the frame's tailroom and the tag that came out are too little for the
      length that the host reads. */
  lemma {:induction false} OfferIsRefusedExactly(cfg: Cfg, net: Net, h: Pppoe.Header, ts: seq<Tag>, k: nat, pad: seq<byte>, p: Place, now: Jiffies)
    requires cfg.addPppoeTag && OfferHeader(h) && |EncodeTags(ts)| < 0x1_0000
    requires k <= |ts| && (forall j :: 0 <= j < k ==> ts[j].kind != 0x0110) && (k < |ts| ==> ts[k].kind == 0x0110)
    ensures
      var d := Pppoe.FrameBytes(h, ts, pad);
      var room := p.tailroom + if k < |ts| then 4 + |ts[k].data| else 0;
      var own := 8 + if k < |ts| then |ts[k].data| else 0;
      && FromWhole(cfg, d)
      && var o := InsertOut(cfg, net, d, p, now);
      && o.net == net
      && if own > 36 then o.ret == -1 && o.data == d
         else if room < 4 + (if cfg.order.BigEndian? then own else 256 * own)
         then o.ret == -1 && |EncodeTags(if k < |ts| then ts[..k] + ts[k + 1..] else ts)| < 0x1_0000
              && o.data == Pppoe.FrameBytes(h, if k < |ts| then ts[..k] + ts[k + 1..] else ts, pad)
         else o.ret == 0
  {
    hide EncodeTags, DecodeTags, Pppoe.FrameBytes, TagsOf, PadOf, TagsWhole, FirstTag, Pppoe.Inserted, Dhcp.Whole, RelayIn;
    Pppoe.FirstTagIs(ts, PTT_RELAY_SID, k);
    OfferFrame(cfg, net, h, ts, pad);
    RelayInIs(cfg, net, h, ts, pad, p);
    RoomIs(cfg.order, p.tailroom, ts, k);
  }

  lemma {:induction false} RelayInIs(cfg: Cfg, net: Net, h: Pppoe.Header, ts: seq<Tag>, pad: seq<byte>, p: Place)
    requires |EncodeTags(ts)| < 0x1_0000
    ensures
      var d := Pppoe.FrameBytes(h, ts, pad);
      && TagsWhole(d) && |EncodeTags(WithoutRelay(ts))| < 0x1_0000
      && RelayIn(cfg, net, d, p) ==
           if !RelayFits(ts) then Out(d, net, -1)
           else if !Pppoe.RoomFor(cfg.order, p.tailroom, ts) then Out(Pppoe.FrameBytes(h, WithoutRelay(ts), pad), net, -1)
           else Out(Pppoe.Inserted(cfg.order, h, ts, p.behind, p.pad), net, 0)
  {
    TagsOfFrame(h, ts, pad);
    WithoutLength(ts);
    hide EncodeTags, DecodeTags, Pppoe.FrameBytes, TagsOf, PadOf, TagsWhole, FirstTag, Pppoe.Inserted, WithoutRelay, RelayFits, Pppoe.RoomFor;
  }

  lemma RoomIs(order: ByteOrder, tailroom: nat, ts: seq<Tag>, k: nat)
    requires FirstTag(ts, PTT_RELAY_SID) == k <= |ts|
    ensures
      var room := tailroom + if k < |ts| then 4 + |ts[k].data| else 0;
      var own := 8 + if k < |ts| then |ts[k].data| else 0;
      && (RelayFits(ts) <==> own <= 36)
      && (RelayFits(ts) ==> (Pppoe.RoomFor(order, tailroom, ts) <==> room >= 4 + (if order.BigEndian? then own else 256 * own)))
      && WithoutRelay(ts) == if k < |ts| then ts[..k] + ts[k + 1..] else ts
  {
    hide FirstTag;
    if RelayFits(ts) {
      Pppoe.RelayLenIs(order, ts);
    }
  }

  // ---------- DHCP requests ----------

  /** A client's broadcast IP frame goes out with the bridge's address as its source.  If it is a DHCP request
      without the broadcast flag it gets the flag, unless that is off, and another checksum; no other byte
      changes. */
  lemma {:induction false} BroadcastGoesOut(cfg: Cfg, net: Net, d: seq<byte>, p: Place, now: Jiffies, k: nat)
    requires Transmittable(cfg, d) && TypeOf(d) == ETH_P_IP && d[0] % 2 == 1 && k < |d|
    requires |d| >= 34 && 4 * (d[14] as int % 16) < |d|
    ensures
      var o := TransmitOut(cfg, net, d, p, now);
      var u := 14 + 4 * (d[14] as int % 16);
      var request :=
        && !cfg.dhcpDisable && d[23] == 17
        && u + 4 <= |d| && d[u] == 0 && d[u + 1] == 68 && d[u + 2] == 0 && d[u + 3] == 67
        && u + 248 <= |d| && d[u + 244] == 0x63 && d[u + 245] == 0x82 && d[u + 246] == 0x53 && d[u + 247] == 0x63
        && d[u + 18] < 0x80;
      && o.ret == 0 && |o.data| == |d|
      && if 6 <= k < 12 then o.data[k] == cfg.ownMac[k - 6]
         else if request && k == u + 18 then o.data[k] == d[k] + 0x80
         else (request && (k == u + 6 || k == u + 7)) || o.data[k] == d[k]
  {
    hide TransmitOut, Dhcp.Whole, Dhcp.DhcpOut, Transmittable, Signed, TypeOf;
    BroadcastIs(cfg, net, d, p, now);
    IpBytes(d);
    SignedBytes(cfg, d);
    if !cfg.dhcpDisable {
      Dhcp.RequestIsFlagged(Signed(cfg, d), k);
    }
  }

  lemma SignedBytes(cfg: Cfg, d: seq<byte>)
    requires |d| >= ETH_HLEN
    ensures forall k :: 0 <= k < |d| ==> Signed(cfg, d)[k] == if 6 <= k < 12 then cfg.ownMac[k - 6] else d[k]
  {
  }

  lemma IpBytes(d: seq<byte>)
    requires |d| >= ETH_HLEN && TypeOf(d) == ETH_P_IP
    ensures d[12] == 0x08 && d[13] == 0x00
  {
  }

  lemma {:induction false} BroadcastIs(cfg: Cfg, net: Net, d: seq<byte>, p: Place, now: Jiffies)
    requires Transmittable(cfg, d) && TypeOf(d) == ETH_P_IP && d[0] % 2 == 1
    requires |d| >= 34 && 4 * (d[14] as int % 16) < |d|
    ensures
      var o := TransmitOut(cfg, net, d, p, now);
      Dhcp.Whole(Signed(cfg, d)) && o.ret == 0 && o.data == if cfg.dhcpDisable then Signed(cfg, d) else Dhcp.DhcpOut(Signed(cfg, d))
  {
    SignedWhole(cfg, d);
    hide Signed, Dhcp.Whole, Dhcp.DhcpOut, Remembers, Remembered, Learned, WithTag, WithoutTag, Noticed;
  }
}
