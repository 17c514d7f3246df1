/** Clients behind the bridge: what their frames teach it, and that the answers find them.  Nothing here depends on
    how the table or the frame are kept (`core/rtw_xmit.c`, `core/rtw_br_ext.c`). */
module Clients {
  import opened Memory
  import opened Nat25Spec
  import opened PppoeTags
  import opened BridgeSpec
  import opened TransmitSpec
  import Dhcp
  import Pppoe

  // ---------- 802.1Q ----------

  /** Sending commutes with tagging if and only if the database does not refuse the frame, which would lose
      its tag, and it is not a DHCP request of the remembered client, whose frames skip the broadcast flag
      when they have no tag. */
  predicate SameBehindTag(cfg: Cfg, net: Net, d: seq<byte>, p: Place, now: Jiffies)
    requires Transmittable(cfg, d) && Dhcp.Whole(Signed(cfg, d))
  {
    if Quick(cfg, net, d) then cfg.dhcpDisable || !Dhcp.Rewritten(Signed(cfg, d))
    else !Refused(cfg, net, d, p, now)
  }

  lemma PlainWhole(cfg: Cfg, d: seq<byte>)
    requires Transmittable(cfg, d) && TypeOf(d) != ETH_P_8021Q
    ensures Sendable(cfg, d) && Inner(d) == d && Dhcp.Whole(d) && |d| >= ETH_HLEN
  {
  }

  /** What the slow way does to the frames that could take the short cut. */
  lemma {:induction false} QuickSlowly(cfg: Cfg, net: Net, d: seq<byte>, p: Place, now: Jiffies)
    requires Sendable(cfg, d) && Quick(cfg, net, d) && Dhcp.Whole(Signed(cfg, d))
    ensures InnerIn(cfg, net, d, p, now) ==
      Out(Dressed(cfg, d), net.(nat25 := Remembered(net.nat25, SourceMac(d), net.nat25.short.ip, now)), 0)
  {
    hide Dressed, Signed, Dhcp.Whole, Touched, Ipv4Addr, InsertOut, Multicast, FromWhole;
    FromLength(cfg, d);
  }

  lemma WithTagOnce(a: seq<byte>, b: seq<byte>, tci: Tci)
    requires |a| >= 12 && |b| >= 12
    ensures WithTag(a, tci) == WithTag(b, tci) <==> a == b
    ensures WithTag(a, tci) != a
  {
    assert |WithTag(a, tci)| == |a| + 4;
    TagRoundTrip(a, tci);
    TagRoundTrip(b, tci);
  }

  lemma {:induction false} TaggedIs(cfg: Cfg, d: seq<byte>, tci: Tci)
    requires Transmittable(cfg, d) && TypeOf(d) != ETH_P_8021Q
    ensures
      var w := WithTag(d, tci);
      Transmittable(cfg, w) && TypeOf(w) == ETH_P_8021Q && Inner(w) == d && w[14..16] == tci
  {
    TagRoundTrip(d, tci);
    hide Sendable, WithTag, WithoutTag;
  }

  lemma {:induction false} SendingCommutesExactly(cfg: Cfg, net: Net, d: seq<byte>, tci: Tci, p: Place, now: Jiffies)
    requires Transmittable(cfg, d) && TypeOf(d) != ETH_P_8021Q
    ensures Transmittable(cfg, WithTag(d, tci)) && Dhcp.Whole(Signed(cfg, d))
    ensures
      var plain := TransmitOut(cfg, net, d, p, now);
      && |plain.data| >= 12
      && (TransmitOut(cfg, net, WithTag(d, tci), p, now) == plain.(data := WithTag(plain.data, tci))
          <==> SameBehindTag(cfg, net, d, p, now))
  {
    hide InnerIn, Sendable, WithTag, WithoutTag, Signed, Remembered, Dhcp.Whole, Dhcp.DhcpOut, Dhcp.Rewritten;
    PlainWhole(cfg, d);
    SignedWhole(cfg, d);
    TaggedIs(cfg, d, tci);
    var plain := TransmitOut(cfg, net, d, p, now);
    if Quick(cfg, net, d) {
      QuickSlowly(cfg, net, d, p, now);
      Dhcp.RewritingShows(Signed(cfg, d));
      WithTagOnce(Dressed(cfg, d), Signed(cfg, d), tci);
    } else {
      WithTagOnce(plain.data, plain.data, tci);
    }
  }

  // ---------- learning ----------

  predicate Knows(n: Nat, ip: Ip, mac: Mac) {
    Ipv4Addr(ip) in n.db && n.db[Ipv4Addr(ip)].mac == mac
  }

  /** Only a source that the short cut knows nothing of, with a sound header and an address, is entered; so a
      second address of the remembered client is not, nor a client that takes over an address. */
  predicate Teaches(n: Nat, d: seq<byte>)
    requires |d| >= 34
  {
    || Knows(n, IpSource(d), SourceMac(d))
    || (Remembers(n, SourceMac(d), IpSource(d)).None? && IpSource(d) != NO_IP && IpSound(d))
  }

  lemma InnerIpWhole(cfg: Cfg, d: seq<byte>)
    requires Transmittable(cfg, d) && IsType(Inner(d), ETH_P_IP)
    ensures |Inner(d)| >= 34 && FromWhole(cfg, Inner(d)) && (TypeOf(d) == ETH_P_IP ==> Inner(d) == d)
  {
  }

  /** The database after an IP frame. */
  function Heard(cfg: Cfg, n: Nat, d: seq<byte>, now: Jiffies): Nat
    requires |d| >= 34
  {
    var r := Remembered(n, SourceMac(d), IpSource(d), now);
    if Remembers(n, SourceMac(d), IpSource(d)).Some? || !IpSound(d) || IpSource(d) == NO_IP then r
    else Step(r, Insert(Ipv4Addr(IpSource(d)), SourceMac(d), now), cfg.ageing)
  }

  lemma {:induction false} TransmitHeard(cfg: Cfg, net: Net, d: seq<byte>, p: Place, now: Jiffies)
    requires Transmittable(cfg, d) && IsType(Inner(d), ETH_P_IP)
    ensures |Inner(d)| >= 34 && TransmitOut(cfg, net, d, p, now).net.nat25 == Heard(cfg, net.nat25, Inner(d), now)
  {
    InnerIpWhole(cfg, d);
    hide IpSound, WithTag, WithoutTag, Dressed, Signed, Dhcp.Whole, Ipv4Addr, Touched, Multicast, Step, FromWhole;
  }

  /** When exactly an IP frame leaves its source in the database. */
  lemma {:induction false} LearnedExactly(cfg: Cfg, net: Net, d: seq<byte>, p: Place, now: Jiffies)
    requires Transmittable(cfg, d) && IsType(Inner(d), ETH_P_IP)
    ensures |Inner(d)| >= 34
    ensures Knows(TransmitOut(cfg, net, d, p, now).net.nat25, IpSource(Inner(d)), SourceMac(Inner(d))) <==> Teaches(net.nat25, Inner(d))
  {
    hide TransmitOut, Sendable, Inner, Ipv4Addr, IpSound;
    TransmitHeard(cfg, net, d, p, now);
  }

  /** An ARP frame always does. */
  predicate ArpFrom(cfg: Cfg, d: seq<byte>, ip: Ip, mac: Mac) {
    IsType(d, ETH_P_ARP) && ArpFromWhole(d) && Read16(d, 16) == ETH_P_IP && ArpSender(cfg, d) == ip && SourceMac(d) == mac
  }

  predicate IpFrom(d: seq<byte>, ip: Ip, mac: Mac) {
    IsType(d, ETH_P_IP) && |d| >= 34 && IpSource(d) == ip && SourceMac(d) == mac
  }

  lemma {:induction false} ArpIsLearned(cfg: Cfg, net: Net, d: seq<byte>, p: Place, now: Jiffies, ip: Ip, mac: Mac)
    requires Transmittable(cfg, d) && ArpFrom(cfg, Inner(d), ip, mac)
    ensures
      var n := TransmitOut(cfg, net, d, p, now).net.nat25;
      Knows(n, ip, mac) && n.db[Ipv4Addr(ip)].timer == now && n.short == net.nat25.short
  {
    hide WithTag, WithoutTag, Dressed, Signed, Dhcp.Whole, Ipv4Addr, Multicast, ArpFromWhole, ArpSender, ArpSigned;
  }

  // ---------- the answer ----------

  /** The client's frame leaves its address and MAC in the database. */
  predicate Announces(cfg: Cfg, n: Nat, d: seq<byte>, ip: Ip, mac: Mac) {
    ArpFrom(cfg, d, ip, mac) || (IpFrom(d, ip, mac) && Teaches(n, d))
  }

  /** A client that has been heard is reached: it has sent an IP or ARP frame that the bridge has learned
      from, and whatever table and short cut have done since, as long as its entry has not aged and not been
      given to another, an IP frame to its address goes to its MAC, unless the short cut remembers the address
      with another MAC; and it does not if the short cut is right. */
  lemma {:induction false} HeardClientIsReached(cfg: Cfg, before: Net, d: seq<byte>, p: Place, heard: Jiffies, ip: Ip, mac: Mac,
                                                net: Net, ops: seq<Op>, answer: seq<byte>, now: Jiffies)
    requires Transmittable(cfg, d) && Announces(cfg, before.nat25, Inner(d), ip, mac)
    requires
      var start := TransmitOut(cfg, before, d, p, heard).net.nat25;
      net.nat25 == Run(start, ops, cfg.ageing) && SparedIn(start, ops + [Expire(now)], Ipv4Addr(ip), cfg.ageing)
    requires !cfg.disable && IpFrameTo(answer, ip)
    ensures Whole(cfg, answer)
    ensures
      var o := InnerOut(cfg, net, answer, now);
      var short := net.nat25.short;
      && o.ret == 0
      && (o.data == ToMac(answer, mac) <==> cfg.scDisable || short.ip != ip || short.mac == mac)
      && (Honest(net.nat25) && IsSet(short) ==> o.data == ToMac(answer, mac))
  {
    hide TransmitOut, Inner, Sendable, Ipv4Addr, Run, SparedIn, Teaches, InnerOut, ArpSender, ArpFromWhole, ToMac, Honest;
    if ArpFrom(cfg, Inner(d), ip, mac) {
      ArpIsLearned(cfg, before, d, p, heard, ip, mac);
    } else {
      LearnedExactly(cfg, before, d, p, heard);
    }
    KnownClientIsReached(cfg, net, TransmitOut(cfg, before, d, p, heard).net.nat25, ip, ops, answer, now);
  }

  /** What must be so before an IP frame for its answer to be able to find its sender. */
  predicate Findable(cfg: Cfg, n: Nat, ip: Ip, mac: Mac, now: Jiffies) {
    var a := Ipv4Addr(ip);
    if mac != n.short.mac then
      if a in n.db then !cfg.scDisable || Knows(n, ip, mac) else cfg.scDisable || n.short.ip != ip
    else if n.short.linked then
      if n.short.ip == ip then !cfg.scDisable || Knows(n, ip, mac) else Knows(n, ip, mac) && !HasExpired(n.db[a].timer, now, cfg.ageing)
    else true
  }

  lemma {:induction false} JustMadeIsFresh(now: Jiffies, ageing: nat)
    requires 0 < ageing <= HALF
    ensures !HasExpired(now, now, ageing)
  {
    ExpiredExactly(now, now, ageing);
  }

  lemma OtherMac(d: seq<byte>, mac: Mac)
    requires |d| >= ETH_HLEN && d[..6] != mac
    ensures d != ToMac(d, mac)
  {
    assert ToMac(d, mac)[..6] == mac;
  }

  /** Where the answer to a frame goes. */
  lemma {:induction false} AnswerGoes(cfg: Cfg, net: Net, ip: Ip, mac: Mac, answer: seq<byte>, now: Jiffies)
    requires !cfg.disable && IpFrameTo(answer, ip) && answer[..6] == cfg.ownMac
    requires mac != cfg.ownMac && mac != cfg.brMac && mac != BROADCAST
    ensures Whole(cfg, answer)
    ensures
      var n, a := net.nat25, Ipv4Addr(ip);
      InnerOut(cfg, net, answer, now).data == ToMac(answer, mac) <==>
        if !cfg.scDisable && n.short.ip == ip then n.short.mac == mac
        else Knows(n, ip, mac) && !HasExpired(n.db[a].timer, now, cfg.ageing)
  {
    OtherMac(answer, mac);
    SameMac(answer, mac, net.nat25.short.mac);
    SameMac(answer, mac, cfg.brMac);
    SameMac(answer, mac, BROADCAST);
    if Ipv4Addr(ip) in net.nat25.db {
      SameMac(answer, mac, net.nat25.db[Ipv4Addr(ip)].mac);
    }
    hide HasExpired, Ipv4Addr, ToMac, Step, Multicast;
  }

  /** The answer to an IP frame that a client has just sent finds the client: exactly if, before the frame,
      the client was not the remembered one and its address was in the table, or free and not remembered
      with another MAC; or it was, and still named with this address, or already known and not expired; or it
      was and no longer named. */
  lemma {:induction false} AnswerFindsSender(cfg: Cfg, net: Net, d: seq<byte>, p: Place, ip: Ip, mac: Mac, answer: seq<byte>, now: Jiffies)
    requires Transmittable(cfg, d) && IpFrom(Inner(d), ip, mac) && IpSound(Inner(d)) && ip != NO_IP
    requires !cfg.disable && 0 < cfg.ageing <= HALF && IpFrameTo(answer, ip) && answer[..6] == cfg.ownMac
    requires mac != cfg.ownMac && mac != cfg.brMac && mac != BROADCAST
    ensures Whole(cfg, answer)
    ensures
      InnerOut(cfg, TransmitOut(cfg, net, d, p, now).net, answer, now).data == ToMac(answer, mac)
      <==> Findable(cfg, net.nat25, ip, mac, now)
  {
    hide TransmitOut, Inner, Sendable, InnerOut, ToMac, HasExpired, Ipv4Addr, IpSound, IpFrameTo;
    var after := TransmitOut(cfg, net, d, p, now).net;
    TransmitHeard(cfg, net, d, p, now);
    JustMadeIsFresh(now, cfg.ageing);
    AnswerGoes(cfg, after, ip, mac, answer, now);
    SameKey(ip, net.nat25.short.ip);
  }

  /** A run that fails: a client sends twice from one address and then from a second one.  The frame goes
      out, but the address is not entered, and the answer goes to the bridge itself. */
  lemma {:induction false} SecondAddressIsMissed(cfg: Cfg, net: Net, first: seq<byte>, again: seq<byte>, other: seq<byte>, p: Place,
                                                 ip: Ip, ip': Ip, mac: Mac, t: seq<Jiffies>, answer: seq<byte>)
    requires Transmittable(cfg, first) && Transmittable(cfg, again) && Transmittable(cfg, other)
    requires IpFrom(Inner(first), ip, mac) && IpFrom(Inner(again), ip, mac) && IpFrom(Inner(other), ip', mac)
    requires |t| == 4 && IpSound(Inner(first)) && ip != NO_IP && ip' != ip && mac != NO_MAC && net.nat25 == Nat(map[], NO_SHORT)
    requires !cfg.disable && IpFrameTo(answer, ip') && ip'[3] != 0xff
    ensures
      var one := TransmitOut(cfg, net, first, p, t[0]).net;
      var two := TransmitOut(cfg, one, again, p, t[1]).net;
      var three := TransmitOut(cfg, two, other, p, t[2]).net;
      && Knows(three.nat25, ip, mac) && Ipv4Addr(ip') !in three.nat25.db && Whole(cfg, answer)
      && InnerOut(cfg, three, answer, t[3]).data == ToMac(answer, cfg.brMac)
  {
    hide TransmitOut, Inner, Sendable, ToMac, HasExpired, Ipv4Addr, IpSound;
    SameKey(ip, ip');
    TransmitHeard(cfg, net, first, p, t[0]);
    var one := TransmitOut(cfg, net, first, p, t[0]).net;
    TransmitHeard(cfg, one, again, p, t[1]);
    var two := TransmitOut(cfg, one, again, p, t[1]).net;
    TransmitHeard(cfg, two, other, p, t[2]);
  }

  // ---------- PPPoE discovery ----------

  predicate OfferHeader(h: Pppoe.Header) {
    h[12] == 0x88 && h[13] == 0x63 && (h[15] == PADI_CODE || h[15] == PADR_CODE) && h[16] == 0 && h[17] == 0
  }

  predicate AnswerHeader(h: Pppoe.Header) {
    h[12] == 0x88 && h[13] == 0x63 && (h[15] == PADO_CODE || h[15] == PADS_CODE)
  }

  /** The header with the bridge's own address as its source. */
  function SignedBy(cfg: Cfg, h: Pppoe.Header): Pppoe.Header {
    h[..6] + cfg.ownMac + h[12..]
  }

  lemma {:induction false} OfferFrame(cfg: Cfg, net: Net, h: Pppoe.Header, ts: seq<Tag>, pad: seq<byte>)
    requires OfferHeader(h) && |EncodeTags(ts)| < 0x1_0000
    ensures
      var d := Pppoe.FrameBytes(h, ts, pad);
      && Transmittable(cfg, d) && Inner(d) == d && TypeOf(d) == ETH_P_PPP_DISC && |d| >= 20 && Offer(d)
      && TagsWhole(d) && TagsOf(d) == ts && PadOf(d) == pad && d[..18] == h
  {
    hide EncodeTags, DecodeTags, Pppoe.FrameBytes, TagsOf, PadOf, TagsWhole, Dhcp.Whole;
    var d := Pppoe.FrameBytes(h, ts, pad);
    TagsOfFrame(h, ts, pad);
    Pppoe.Parts(h, ts, pad);
    assert d[..18][12] == d[12] && d[..18][13] == d[13] && d[..18][15] == d[15] && d[..18][16] == d[16] && d[..18][17] == d[17];
    NotIpWhole(d);
  }

  lemma DressedOther(cfg: Cfg, d: seq<byte>)
    requires |d| >= ETH_HLEN && TypeOf(d) != ETH_P_IP
    ensures Dhcp.Whole(Signed(cfg, d)) && Dressed(cfg, d) == Signed(cfg, d)
  {
    SignedHeader(cfg, d);
    hide Signed;
  }

  /** What goes out for a PADI or PADR with a relay tag that fits. */
  lemma {:induction false} OfferGoesOut(cfg: Cfg, net: Net, h: Pppoe.Header, ts: seq<Tag>, pad: seq<byte>, p: Place, now: Jiffies)
    requires cfg.addPppoeTag && OfferHeader(h) && |EncodeTags(ts)| < 0x1_0000 && RelayFits(ts)
    ensures
      var d := Pppoe.FrameBytes(h, ts, pad);
      && Transmittable(cfg, d) && |EncodeTags(WithoutRelay(ts))| < 0x1_0000
      && |Pppoe.Inserted(cfg.order, h, ts, p.behind, p.pad)| >= ETH_HLEN
      && TransmitOut(cfg, net, d, p, now) ==
           Out(if Pppoe.RoomFor(cfg.order, p.tailroom, ts) then Signed(cfg, Pppoe.Inserted(cfg.order, h, ts, p.behind, p.pad))
               else Pppoe.FrameBytes(h, WithoutRelay(ts), pad), net, 0)
  {
    hide EncodeTags, DecodeTags, Pppoe.FrameBytes, TagsOf, PadOf, TagsWhole, Dhcp.Whole, Dhcp.DhcpOut, Signed, Pppoe.Inserted,
         Pppoe.RoomFor, RelayFits, WithoutRelay, Dressed, Multicast, Sendable, Inner, Offer;
    var d := Pppoe.FrameBytes(h, ts, pad);
    OfferFrame(cfg, net, h, ts, pad);
    WithoutLength(ts);
    Pppoe.InsertedLength(cfg.order, h, ts, p.behind, p.pad);
    SendableType(cfg, d);
    AskedStays(cfg, net, d, p, now);
    DressedOther(cfg, AskedOut(cfg, net, d, p, now).data);
  }

  lemma SendableType(cfg: Cfg, d: seq<byte>)
    requires Sendable(cfg, d) && TypeOf(d) == ETH_P_PPP_DISC
    ensures FromWhole(cfg, d) && PppoeFromWhole(cfg, d)
  {
  }

  /** Without the room that the host asks for, the frame goes out all the same: without any relay tag and with
      the client's own address, so that no answer will be for the bridge. */
  lemma {:induction false} OfferGoesOutBare(cfg: Cfg, net: Net, h: Pppoe.Header, ts: seq<Tag>, pad: seq<byte>, p: Place, now: Jiffies)
    requires cfg.addPppoeTag && OfferHeader(h) && |EncodeTags(ts)| < 0x1_0000 && RelayFits(ts)
    requires !Pppoe.RoomFor(cfg.order, p.tailroom, ts)
    ensures |EncodeTags(WithoutRelay(ts))| < 0x1_0000 && Transmittable(cfg, Pppoe.FrameBytes(h, ts, pad))
    ensures TransmitOut(cfg, net, Pppoe.FrameBytes(h, ts, pad), p, now) == Out(Pppoe.FrameBytes(h, WithoutRelay(ts), pad), net, 0)
  {
    hide *;
    OfferGoesOut(cfg, net, h, ts, pad, p, now);
  }

  lemma {:induction false} SignedFrame(cfg: Cfg, h: Pppoe.Header, ts: seq<Tag>, pad: seq<byte>)
    requires |EncodeTags(ts)| < 0x1_0000
    ensures var d := Pppoe.FrameBytes(h, ts, pad); |d| >= ETH_HLEN && Signed(cfg, d) == Pppoe.FrameBytes(SignedBy(cfg, h), ts, pad)
  {
    hide EncodeTags, Be16;
    assert h == h[..6] + h[6..12] + h[12..];
    PutMiddle(h[..6], h[6..12], h[12..] + Be16(|EncodeTags(ts)|) + EncodeTags(ts) + pad, cfg.ownMac);
    assert Pppoe.FrameBytes(h, ts, pad) == h[..6] + h[6..12] + (h[12..] + Be16(|EncodeTags(ts)|) + EncodeTags(ts) + pad);
    assert Pppoe.FrameBytes(SignedBy(cfg, h), ts, pad) == h[..6] + cfg.ownMac + (h[12..] + Be16(|EncodeTags(ts)|) + EncodeTags(ts) + pad);
  }

  lemma SameLength(cfg: Cfg, d: seq<byte>)
    requires |d| >= 20
    ensures Read16(Signed(cfg, d), 18) == Read16(d, 18) && Signed(cfg, d)[20..] == d[20..]
  {
    SignedHeader(cfg, d);
    hide Signed;
  }

  /** What goes out is the client's frame with the bridge's address, the relay tag in front and the other tags
      behind it, if and only if the host is big-endian. */
  lemma {:induction false} OfferRelayedExactly(cfg: Cfg, h: Pppoe.Header, ts: seq<Tag>, p: Place)
    requires RelayFits(ts) && |EncodeTags(Relayed(ts, Pppoe.SourceOf(h)))| < 0x1_0000
    ensures
      var d := Pppoe.Inserted(cfg.order, h, ts, p.behind, p.pad);
      && |d| >= ETH_HLEN
      && ((exists q: seq<byte> :: |q| == |p.pad| && Signed(cfg, d) == Pppoe.FrameBytes(SignedBy(cfg, h), Relayed(ts, Pppoe.SourceOf(h)), q))
          <==> cfg.order == BigEndian)
  {
    hide EncodeTags, EncodeTag, Pppoe.FrameBytes, Pppoe.Inserted, Signed, SignedBy, RelayFits, Relayed, WithoutRelay, OldData, RelayTag,
         Pppoe.RelayLen, Read16;
    var d, out := Pppoe.Inserted(cfg.order, h, ts, p.behind, p.pad), Relayed(ts, Pppoe.SourceOf(h));
    Pppoe.InsertedLength(cfg.order, h, ts, p.behind, p.pad);
    Pppoe.RelayedParts(ts, Pppoe.SourceOf(h));
    Pppoe.RelayLenIs(cfg.order, ts);
    SameLength(cfg, d);
    if cfg.order == BigEndian {
      Pppoe.InsertedOnBigEndian(h, ts, p.behind, p.pad);
      SignedFrame(cfg, h, out, p.pad);
    } else {
      forall q: seq<byte> | |q| == |p.pad|
        ensures Signed(cfg, d) != Pppoe.FrameBytes(SignedBy(cfg, h), out, q)
      {
        Pppoe.Parts(SignedBy(cfg, h), out, q);
      }
    }
  }

  /** The whole way of a discovery.  A client's tags go out with the relay tag of its MAC in front, on either
      host; that the rest of the frame is right, too, holds exactly on a big-endian one.  Whatever answer
      brings the relay tag back, at whatever place, leaves the bridge for this client with the other tags as
      they came and the relay tag as the client had sent it, if it had sent one with data. */
  lemma {:induction false} DiscoveryRoundTrip(cfg: Cfg, net: Net, client: Pppoe.Header, ts: seq<Tag>, cpad: seq<byte>, p: Place, sent: Jiffies,
                                              h: Pppoe.Header, pre: seq<Tag>, post: seq<Tag>, pad: seq<byte>, net': Net, now: Jiffies)
    requires cfg.addPppoeTag && RelayFits(ts) && OfferHeader(client) && AnswerHeader(h)
    requires |EncodeTags(ts)| < 0x1_0000 && |EncodeTags(Relayed(ts, Pppoe.SourceOf(client)))| < 0x1_0000
    requires Pppoe.RoomFor(cfg.order, p.tailroom, ts)
    requires forall t :: t in pre ==> t.kind != PTT_RELAY_SID
    requires |EncodeTags(pre + [RelayTag(Pppoe.SourceOf(client), OldData(ts))] + post)| < 0x1_0000
    ensures Transmittable(cfg, Pppoe.FrameBytes(client, ts, cpad))
    ensures
      var mac := Pppoe.SourceOf(client);
      var o := TransmitOut(cfg, net, Pppoe.FrameBytes(client, ts, cpad), p, sent);
      && o.ret == 0 && At(o.data, Pppoe.TAGS_AT, EncodeTag(RelayTag(mac, OldData(ts))))
      && ((exists q: seq<byte> :: |q| == |p.pad| && o.data == Pppoe.FrameBytes(SignedBy(cfg, client), Relayed(ts, mac), q))
          <==> cfg.order == BigEndian)
    ensures
      var mac := Pppoe.SourceOf(client);
      var old_ := if OldData(ts) == [] then [] else [Tag(PTT_RELAY_SID, OldData(ts))];
      var d := Pppoe.FrameBytes(h, pre + [RelayTag(mac, OldData(ts))] + post, pad);
      && Whole(cfg, d) && |EncodeTags(pre + old_ + post)| < 0x1_0000
      && DbOut(cfg, net', d, now) == Out(Pppoe.FrameBytes(Pppoe.Bound(h, mac), pre + old_ + post, pad), net', 0)
  {
    hide EncodeTags, EncodeTag, Pppoe.FrameBytes, Pppoe.Inserted, Signed, SignedBy, OldData, RelayTag, Pppoe.RoomFor, DbOut, At,
         TransmitOut, Transmittable, OfferHeader, AnswerHeader, WithoutRelay, Pppoe.Bound, Relayed;
    var d := Pppoe.Inserted(cfg.order, client, ts, p.behind, p.pad);
    OfferGoesOut(cfg, net, client, ts, cpad, p, sent);
    OfferRelayedExactly(cfg, client, ts, p);
    Pppoe.RelayInFront(cfg.order, client, ts, p.behind, p.pad);
    SignedAt(cfg, d, Pppoe.TAGS_AT, EncodeTag(RelayTag(Pppoe.SourceOf(client), OldData(ts))));
    AnswerRoundTrip(cfg, net', ts, Pppoe.SourceOf(client), h, pre, post, pad, now);
  }

  lemma SignedAt(cfg: Cfg, d: seq<byte>, off: nat, b: seq<byte>)
    requires |d| >= ETH_HLEN && off >= 12
    ensures At(d, off, b) <==> At(Signed(cfg, d), off, b)
  {
    AtPut(d, 6, cfg.ownMac, off, b);
  }

  /** The way back. */
  lemma {:induction false} AnswerRoundTrip(cfg: Cfg, net: Net, ts: seq<Tag>, mac: Mac, h: Pppoe.Header, pre: seq<Tag>, post: seq<Tag>,
                                           pad: seq<byte>, now: Jiffies)
    requires cfg.addPppoeTag && RelayFits(ts) && AnswerHeader(h)
    requires forall t :: t in pre ==> t.kind != PTT_RELAY_SID
    requires |EncodeTags(pre + [RelayTag(mac, OldData(ts))] + post)| < 0x1_0000
    ensures
      var old_ := if OldData(ts) == [] then [] else [Tag(PTT_RELAY_SID, OldData(ts))];
      var d := Pppoe.FrameBytes(h, pre + [RelayTag(mac, OldData(ts))] + post, pad);
      && Whole(cfg, d) && |EncodeTags(pre + old_ + post)| < 0x1_0000
      && DbOut(cfg, net, d, now) == Out(Pppoe.FrameBytes(Pppoe.Bound(h, mac), pre + old_ + post, pad), net, 0)
  {
    hide EncodeTags, DecodeTags, Pppoe.FrameBytes, Accepted, ClientOf, Stripped, OldData, TagsOf, PadOf, TagsWhole, RelayTag;
    var back := pre + [RelayTag(mac, OldData(ts))] + post;
    var d := Pppoe.FrameBytes(h, back, pad);
    RelayRoundTrip(ts, mac, pre, post);
    StrippedShorter(back);
    TagsOfFrame(h, back, pad);
    Pppoe.Parts(h, back, pad);
    assert d[..18] == h && d[12] == h[12] && d[13] == h[13] && d[15] == h[15];
  }

  // ---------- an echo ----------

  /** A byte string that begins with a tag and splits. */
  lemma {:induction false} BeginsWith(s: seq<byte>, t: Tag)
    requires DecodeTags(s).Some? && |EncodeTag(t)| <= |s| && s[..|EncodeTag(t)|] == EncodeTag(t)
    ensures DecodeTags(s).value != [] && DecodeTags(s).value[0] == t
  {
    hide EncodeTag, DecodeTags;
    var rest := s[|EncodeTag(t)|..];
    assert s == EncodeTag(t) + rest;
    DecodeCons(t, rest);
  }

  lemma {:induction false} FrontIsOurs(back: seq<Tag>, mac: Mac, data: TagData)
    requires |data| + OWN_LEN < 0x1_0000 && back != [] && back[0] == RelayTag(mac, data)
    ensures Accepted(back) && ClientOf(back) == mac
    ensures Stripped(back) == (if data == [] then [] else [Tag(PTT_RELAY_SID, data)]) + back[1..]
  {
    var relay := RelayTag(mac, data);
    assert FirstTag(back, PTT_RELAY_SID) == 0;
    assert relay.data[..2] == MAGIC_CODE && relay.data[2..8] == mac && relay.data[8..] == data;
    assert back[..0] == [];
  }

  /** How many bytes the tags of an echo have, against those that the client had sent. */
  lemma {:induction false} EchoLength(back: seq<Tag>, mac: Mac, data: TagData)
    requires |data| + OWN_LEN < 0x1_0000 && back != [] && back[0] == RelayTag(mac, data) && Accepted(back)
    requires Stripped(back) == (if data == [] then [] else [Tag(PTT_RELAY_SID, data)]) + back[1..]
    ensures |EncodeTags(Stripped(back))| == |EncodeTags(back)| - OWN_LEN - if data == [] then TAG_HDR_LEN else 0
  {
    hide Stripped, Accepted, EncodeTags, EncodeTag;
    assert back == [back[0]] + back[1..];
    EncodeTagsAppend([back[0]], back[1..]);
    EncodeOneTag(back[0]);
    if data == [] {
      PlusNothing(back[1..]);
    } else {
      EncodeTagsAppend([Tag(PTT_RELAY_SID, data)], back[1..]);
      EncodeOneTag(Tag(PTT_RELAY_SID, data));
    }
  }

  lemma {:induction false} SplitLength(d: seq<byte>)
    requires TagsWhole(d)
    ensures |EncodeTags(TagsOf(d))| == Read16(d, 18)
  {
    hide DecodeTags, EncodeTags;
    EncodeDecodeTags(d[20..20 + Read16(d, 18)]);
  }

  /** The first tag of what goes out. */
  lemma {:induction false} FirstTagOut(d: seq<byte>, t: Tag)
    requires TagsWhole(d) && At(d, 20, EncodeTag(t)) && |EncodeTag(t)| <= Read16(d, 18)
    ensures TagsOf(d) != [] && TagsOf(d)[0] == t
  {
    hide DecodeTags, EncodeTag, Read16;
    var n: nat := Read16(d, 18);
    SliceSlice(d, 20, 20 + n, 0, |EncodeTag(t)|);
    BeginsWith(d[20..20 + n], t);
  }

  /** If what has gone out splits into tags and they are echoed as they are, the answer goes to the client; and
      the tags come back as the client had sent them if and only if the host is big-endian, and there was no
      relay tag or it was in front and had data. */
  lemma {:induction false} EchoRestoresExactly(cfg: Cfg, h: Pppoe.Header, ts: seq<Tag>, p: Place)
    requires RelayFits(ts) && |EncodeTags(WithoutRelay(ts))| + Pppoe.RelayLen(cfg.order, ts) < 0x1_0000
    requires var d := Pppoe.Inserted(cfg.order, h, ts, p.behind, p.pad);
      |d| >= ETH_HLEN && TagsWhole(Signed(cfg, d))
    ensures
      var back := TagsOf(Signed(cfg, Pppoe.Inserted(cfg.order, h, ts, p.behind, p.pad)));
      && Accepted(back) && ClientOf(back) == Pppoe.SourceOf(h)
      && (Stripped(back) == ts <==>
            cfg.order == BigEndian && (!HasRelay(ts) || (FirstRelay(ts) == 0 && OldData(ts) != [])))
  {
    hide EncodeTags, EncodeTag, DecodeTags, Pppoe.FrameBytes, Pppoe.Inserted, Signed, TagsWhole, TagsOf, Accepted, Stripped, ClientOf,
         OldData, WithoutRelay, Pppoe.Removed, Pppoe.RelayLen, HasRelay, Read16, At, Relayed, RelayTag, FirstRelay;
    var d, mac := Pppoe.Inserted(cfg.order, h, ts, p.behind, p.pad), Pppoe.SourceOf(h);
    var relay := RelayTag(mac, OldData(ts));
    Pppoe.InsertedLength(cfg.order, h, ts, p.behind, p.pad);
    Pppoe.RelayedParts(ts, mac);
    Pppoe.RelayLenIs(cfg.order, ts);
    Pppoe.RelayInFront(cfg.order, h, ts, p.behind, p.pad);
    SignedAt(cfg, d, Pppoe.TAGS_AT, EncodeTag(relay));
    SameLength(cfg, d);
    var e := Signed(cfg, d);
    FirstTagOut(e, relay);
    FrontIsOurs(TagsOf(e), mac, OldData(ts));
    if cfg.order == BigEndian {
      EchoOnBigEndian(cfg, h, ts, p);
      EchoRestores(ts, mac);
    } else {
      EchoLength(TagsOf(e), mac, OldData(ts));
      SplitLength(e);
      WithoutLength(ts);
      RemovedIs(ts);
    }
  }

  lemma RemovedIs(ts: seq<Tag>)
    ensures Pppoe.Removed(ts) <= TAG_HDR_LEN + |OldData(ts)|
  {
    hide HasRelay;
  }

  lemma {:induction false} EchoOnBigEndian(cfg: Cfg, h: Pppoe.Header, ts: seq<Tag>, p: Place)
    requires RelayFits(ts) && |EncodeTags(Relayed(ts, Pppoe.SourceOf(h)))| < 0x1_0000
    ensures
      var d := Pppoe.Inserted(BigEndian, h, ts, p.behind, p.pad);
      |d| >= ETH_HLEN && TagsWhole(Signed(cfg, d)) && TagsOf(Signed(cfg, d)) == Relayed(ts, Pppoe.SourceOf(h))
  {
    hide EncodeTags, DecodeTags, Pppoe.FrameBytes, Pppoe.Inserted, Signed, TagsWhole, TagsOf, RelayFits, Relayed;
    var out := Relayed(ts, Pppoe.SourceOf(h));
    Pppoe.InsertedOnBigEndian(h, ts, p.behind, p.pad);
    SignedFrame(cfg, h, out, p.pad);
    TagsOfFrame(SignedBy(cfg, h), out, p.pad);
  }
}
