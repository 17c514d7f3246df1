/** What the NAT2.5 bridge does to a frame on its way to the stations: the lookup of each protocol, and the
    same behind an 802.1Q tag (`core/rtw_br_ext.c`). */
module BridgeSpec {
  import opened Memory
  import opened Nat25Spec
  import opened PppoeTags
  import Pppoe

  const ETH_HLEN: nat := 14

  const ETH_P_IP: Word := 0x0800
  const ETH_P_ARP: Word := 0x0806
  const ETH_P_8021Q: Word := 0x8100
  const ETH_P_IPV6: Word := 0x86dd
  const ETH_P_PPP_DISC: Word := 0x8863
  const ETH_P_PPP_SES: Word := 0x8864
  const ETH_P_EAP: Word := 0x888e
  const ETH_P_CMEDIA: Word := 0xe2ae
  const ETH_P_CMEDIA2: Word := 0xe2af

  const PADO_CODE: byte := 0x07
  const PADS_CODE: byte := 0x65
  const WAIT_TIME_PPPOE: nat := 5

  const BROADCAST: Mac := [0xff, 0xff, 0xff, 0xff, 0xff, 0xff]

  /** What is configured, and the order in which the host keeps words. */
  datatype Cfg = Cfg(
    disable: bool,
    scDisable: bool,
    addPppoeTag: bool,
    dhcpDisable: bool,
    brMac: Mac,
    ownMac: Mac,
    ageing: nat,
    order: ByteOrder)

  /** The bridge's state: the database and the short cut, the PPPoE client that is connecting, and the address
      that the bridge itself has been seen to use. */
  datatype Net = Net(nat25: Nat, progress: nat, pppoeAddr: Mac, brIp: Ip)

  datatype Out = Out(data: seq<byte>, net: Net, ret: int)

  function TypeOf(d: seq<byte>): Word
    requires |d| >= ETH_HLEN
  {
    Read16(d, 12)
  }

  function ToMac(d: seq<byte>, mac: Mac): (e: seq<byte>)
    requires |d| >= ETH_HLEN
    ensures |e| == |d|
  {
    Put(d, 0, mac)
  }

  predicate Live(db: Db, a: NetAddr, now: Jiffies, ageing: nat) {
    a in db && !HasExpired(db[a].timer, now, ageing)
  }

  /** A lookup: a live entry gives the frame its MAC and counts the use. */
  function Looked(cfg: Cfg, net: Net, d: seq<byte>, a: NetAddr, now: Jiffies): (o: Out)
    requires |d| >= ETH_HLEN
    ensures |o.data| == |d| && o.ret == 0
  {
    Out(if Live(net.nat25.db, a, now, cfg.ageing) then ToMac(d, net.nat25.db[a].mac) else d,
        net.(nat25 := Step(net.nat25, Lookup(a, now), cfg.ageing)), 0)
  }

  // ---------- one protocol each ----------

  function IpDest(d: seq<byte>): Ip
    requires |d| >= 34
  {
    d[30..34]
  }

  /** An unknown destination gets the broadcast address or the bridge's own. */
  function IpOut(cfg: Cfg, net: Net, d: seq<byte>, now: Jiffies): (o: Out)
    requires |d| >= 34
  {
    var a := Ipv4Addr(IpDest(d));
    if 4 * (d[14] as int % 16) >= |d| then Out(d, net, -1)
    else if a in net.nat25.db then Looked(cfg, net, d, a, now)
    else Out(ToMac(d, if IpDest(d)[3] == 0xff then BROADCAST else cfg.brMac), net, 0)
  }

  /** Where the target's hardware and protocol addresses are; both lengths are the frame's own. */
  function ArpHw(d: seq<byte>): nat
    requires |d| >= 22
  {
    22 + d[18] as int + d[19] as int
  }

  function ArpTarget(d: seq<byte>): nat
    requires |d| >= 22
  {
    22 + 2 * (d[18] as int) + d[19] as int
  }

  predicate ArpWhole(d: seq<byte>) {
    |d| >= 22 && (Read16(d, 16) == ETH_P_IP ==> ArpTarget(d) + 4 <= |d| && ArpHw(d) + 6 <= |d|)
  }

  /** The target's hardware address becomes whatever the frame's destination is then. */
  function ArpOut(cfg: Cfg, net: Net, d: seq<byte>, now: Jiffies): (o: Out)
    requires ArpWhole(d)
  {
    if Read16(d, 16) != ETH_P_IP then Out(d, net, -1)
    else
      var o := Looked(cfg, net, d, Ipv4Addr(d[ArpTarget(d)..ArpTarget(d) + 4]), now);
      o.(data := Put(o.data, ArpHw(d), o.data[..6]))
  }

  predicate TagsWhole(d: seq<byte>) {
    |d| >= 20 && 20 + Read16(d, 18) <= |d| && DecodeTags(d[20..20 + Read16(d, 18)]).Some?
  }

  function TagsOf(d: seq<byte>): seq<Tag>
    requires TagsWhole(d)
  {
    DecodeTags(d[20..20 + Read16(d, 18)]).value
  }

  function PadOf(d: seq<byte>): seq<byte>
    requires TagsWhole(d)
  {
    d[20 + Read16(d, 18)..]
  }

  lemma {:induction false} FrameOf(d: seq<byte>)
    requires TagsWhole(d)
    ensures |EncodeTags(TagsOf(d))| < 0x1_0000
    ensures d == Pppoe.FrameBytes(d[..18], TagsOf(d), PadOf(d))
  {
    hide DecodeTags, EncodeTags;
    var k := 20 + Read16(d, 18);
    EncodeDecodeTags(d[20..k]);
    LengthBytes(d);
    FourParts(d, k);
  }

  lemma LengthBytes(d: seq<byte>)
    requires |d| >= 20
    ensures Be16(Read16(d, 18)) == d[18..20]
  {
  }

  lemma FourParts(d: seq<byte>, k: nat)
    requires 20 <= k <= |d|
    ensures d == d[..18] + d[18..20] + d[20..k] + d[k..]
  {
  }

  lemma {:induction false} StrippedShorter(ts: seq<Tag>)
    requires Accepted(ts)
    ensures |EncodeTags(Stripped(ts))| <= |EncodeTags(ts)|
  {
    hide EncodeTags, EncodeTag;
    var k := FirstRelay(ts);
    Pppoe.Verdict(ts);
    EncodeAround(ts, k);
    EncodeTagsAppend(ts[..k], ts[k + 1..]);
    if |ts[k].data| > OWN_LEN {
      var t := Pppoe.Shortened(ts[k]);
      EncodeTagsAppend(ts[..k] + [t], ts[k + 1..]);
      EncodeTagsAppend(ts[..k], [t]);
      EncodeOneTag(t);
    }
  }

  /** A discovery answer, by its relay tag. */
  function RelayOut(net: Net, d: seq<byte>): (o: Out)
    requires TagsWhole(d)
  {
    if !Accepted(TagsOf(d)) then Out(d, net, -1)
    else
      StrippedShorter(TagsOf(d));
      FrameOf(d);
      Out(Pppoe.FrameBytes(Pppoe.Bound(d[..18], ClientOf(TagsOf(d))), Stripped(TagsOf(d)), PadOf(d)), net, 0)
  }

  predicate Answer(d: seq<byte>)
    requires |d| >= 20
  {
    d[15] == PADO_CODE || d[15] == PADS_CODE
  }

  predicate PppoeWhole(cfg: Cfg, d: seq<byte>) {
    |d| >= 20 && (Answer(d) && cfg.addPppoeTag ==> TagsWhole(d))
  }

  /** A discovery answer goes to the client of its relay tag, or to the one client that is connecting; a
      session frame is looked up by its source and session. */
  function PppoeOut(cfg: Cfg, net: Net, d: seq<byte>, now: Jiffies): (o: Out)
    requires PppoeWhole(cfg, d)
  {
    if Answer(d) then
      if cfg.addPppoeTag then RelayOut(net, d)
      else if net.progress == 0 then Out(d, net, -1)
      else Out(ToMac(d, net.pppoeAddr), net.(progress := WAIT_TIME_PPPOE), 0)
    else if Read16(d, 16) != 0 then Looked(cfg, net, d, PppoeAddr(d[6..12], d[16..18]), now)
    else Out(d, net, -1)
  }

  function Ipv6Out(cfg: Cfg, net: Net, d: seq<byte>, now: Jiffies): (o: Out)
    requires |d| >= ETH_HLEN
  {
    if 40 >= |d| - ETH_HLEN then Out(d, net, -1) else Looked(cfg, net, d, Ipv6Addr(d[38..54]), now)
  }

  // ---------- the dispatch ----------

  /** The frame is long enough for what the branch of its protocol reads. */
  predicate Whole(cfg: Cfg, d: seq<byte>) {
    && |d| >= ETH_HLEN
    && (TypeOf(d) == ETH_P_IP ==> |d| >= 34)
    && (TypeOf(d) == ETH_P_ARP ==> ArpWhole(d) && |d| >= 42)
    && (TypeOf(d) == ETH_P_PPP_DISC || TypeOf(d) == ETH_P_PPP_SES ==> PppoeWhole(cfg, d))
  }

  predicate Ignored(t: Word) {
    t == ETH_P_EAP || t == ETH_P_CMEDIA || t == ETH_P_CMEDIA2
  }

  /** nat25_db_handle with NAT25_LOOKUP. */
  function DbOut(cfg: Cfg, net: Net, d: seq<byte>, now: Jiffies): (o: Out)
    requires Whole(cfg, d)
  {
    var t := TypeOf(d);
    if t == ETH_P_IP then IpOut(cfg, net, d, now)
    else if t == ETH_P_ARP then ArpOut(cfg, net, d, now)
    else if t == ETH_P_PPP_DISC || t == ETH_P_PPP_SES then PppoeOut(cfg, net, d, now)
    else if t == ETH_P_IPV6 then Ipv6Out(cfg, net, d, now)
    else if Ignored(t) then Out(d, net, 0)
    else Out(d, net, -1)
  }

  /** For the bridge's own IP address: what an upper layer here will read. */
  predicate ForBridge(cfg: Cfg, net: Net, d: seq<byte>)
    requires Whole(cfg, d)
  {
    || (TypeOf(d) == ETH_P_IP && d[30..34] == net.brIp)
    || (TypeOf(d) == ETH_P_ARP && d[38..42] == net.brIp)
  }

  /** A frame without a tag: the remembered entry first, then the database; with the database off only
      frames for the bridge itself are looked up. */
  function InnerOut(cfg: Cfg, net: Net, d: seq<byte>, now: Jiffies): (o: Out)
    requires Whole(cfg, d)
  {
    if cfg.disable then
      if ForBridge(cfg, net, d) then DbOut(cfg, net, d, now) else Out(d, net, 0)
    else if !cfg.scDisable && TypeOf(d) == ETH_P_IP && net.nat25.short.ip == d[30..34] then Out(ToMac(d, net.nat25.short.mac), net, 0)
    else DbOut(cfg, net, d, now)
  }

  lemma {:induction false} TagsOfFrame(h: Pppoe.Header, ts: seq<Tag>, pad: seq<byte>)
    requires |EncodeTags(ts)| < 0x1_0000
    ensures
      var d := Pppoe.FrameBytes(h, ts, pad);
      TagsWhole(d) && TagsOf(d) == ts && PadOf(d) == pad && d[..18] == h
  {
    hide DecodeTags, EncodeTags;
    var d, n := Pppoe.FrameBytes(h, ts, pad), |EncodeTags(ts)|;
    Pppoe.Parts(h, ts, pad);
    DecodeEncodeTags(ts);
    assert d[20..20 + n] == EncodeTags(ts) && d[20 + n..] == pad && d[..18] == h;
  }

  predicate IpFrameTo(d: seq<byte>, ip: Ip) {
    |d| >= 34 && TypeOf(d) == ETH_P_IP && IpDest(d) == ip && 4 * (d[14] as int % 16) < |d|
  }

  lemma SameMac(d: seq<byte>, m: Mac, m': Mac)
    requires |d| >= ETH_HLEN
    ensures ToMac(d, m) == ToMac(d, m') <==> m == m'
  {
    assert ToMac(d, m)[..6] == m && ToMac(d, m')[..6] == m';
  }

  /** A client with an entry is reached: whatever else the table has done since, as long as its entry has not
      aged and not been given to another, an IP frame to its address goes to its MAC, unless the short cut
      remembers the address with another MAC; and it does not if the short cut is right. */
  lemma {:induction false} KnownClientIsReached(cfg: Cfg, net: Net, start: Nat, ip: Ip, ops: seq<Op>, d: seq<byte>, now: Jiffies)
    requires Ipv4Addr(ip) in start.db && net.nat25 == Run(start, ops, cfg.ageing)
    requires SparedIn(start, ops + [Expire(now)], Ipv4Addr(ip), cfg.ageing)
    requires !cfg.disable && IpFrameTo(d, ip)
    ensures Whole(cfg, d)
    ensures
      var o, mac := InnerOut(cfg, net, d, now), start.db[Ipv4Addr(ip)].mac;
      var short := net.nat25.short;
      && o.ret == 0
      && (o.data == ToMac(d, mac) <==> cfg.scDisable || short.ip != ip || short.mac == mac)
      && (Honest(net.nat25) && IsSet(short) ==> o.data == ToMac(d, mac))
  {
    var a := Ipv4Addr(ip);
    SparedSplit(start, ops, [Expire(now)], a, cfg.ageing);
    FreshEntryStays(start, a, ops, cfg.ageing);
    SameMac(d, start.db[a].mac, net.nat25.short.mac);
    hide HasExpired, Run, Ipv4Addr, ToMac, Step;
  }

  lemma {:induction false} SparedSplit(n: Nat, ops: seq<Op>, more: seq<Op>, a: NetAddr, ageing: nat)
    requires SparedIn(n, ops + more, a, ageing)
    ensures SparedIn(n, ops, a, ageing) && SparedIn(Run(n, ops, ageing), more, a, ageing)
    decreases |ops|
  {
    hide Step, Spares;
    if ops == [] {
      assert ops + more == more;
    } else {
      assert (ops + more)[0] == ops[0] && (ops + more)[1..] == ops[1..] + more;
      SparedSplit(Step(n, ops[0], ageing), ops[1..], more, a, ageing);
    }
  }

  /** Where the short cut is not right: after the failing run the table is empty, but a frame to the client's
      address still goes to the MAC that has aged out. */
  lemma {:induction false} StaleShortCutMisleads(cfg: Cfg, net: Net, ip: Ip, mac: Mac, other: Mac, unknown: Ip, d: seq<byte>, now: Jiffies)
    requires ip != unknown && mac != other && mac != NO_MAC && 0 < cfg.ageing < HALF
    requires net.nat25 ==
      Run(Nat(map[], NO_SHORT),
          [Insert(Ipv4Addr(ip), mac, 0), Remember(mac, ip, 0), Remember(other, unknown, 1), Expire(cfg.ageing)], cfg.ageing)
    requires !cfg.disable && !cfg.scDisable && IpFrameTo(d, ip)
    ensures net.nat25.db == map[] && Whole(cfg, d)
    ensures InnerOut(cfg, net, d, now) == Out(ToMac(d, mac), net, 0)
    ensures DbOut(cfg, net, d, now) == Out(ToMac(d, if ip[3] == 0xff then BROADCAST else cfg.brMac), net, 0)
  {
    StaleShortCut(ip, mac, other, unknown, cfg.ageing);
    hide Run, Step, HasExpired, Ipv4Addr, ToMac;
  }

  // ---------- 802.1Q ----------

  predicate Multicast(d: seq<byte>)
    requires |d| > 0
  {
    d[0] % 2 == 1
  }

  predicate Tagged(d: seq<byte>) {
    |d| >= 16 && TypeOf(d) == ETH_P_8021Q
  }

  type Tci = t: seq<byte> | |t| == 2 witness [0, 0]

  /** IEEE 802.1Q: the tag stands between the addresses and the type. */
  function WithTag(d: seq<byte>, tci: Tci): seq<byte>
    requires |d| >= 12
  {
    d[..12] + [0x81, 0x00] + tci + d[12..]
  }

  function WithoutTag(d: seq<byte>): seq<byte>
    requires |d| >= 16
  {
    d[..12] + d[16..]
  }

  /** The frame that the inner step sees is whole. */
  predicate Handleable(cfg: Cfg, d: seq<byte>) {
    |d| >= ETH_HLEN && (!Multicast(d) ==> (TypeOf(d) == ETH_P_8021Q ==> |d| >= 16) && Whole(cfg, if Tagged(d) then WithoutTag(d) else d))
  }

  /** Only -1 is passed on. */
  function PassedOn(ret: int): int {
    if ret == -1 then -1 else 0
  }

  lemma {:induction false} LookedSize(cfg: Cfg, net: Net, d: seq<byte>, now: Jiffies)
    requires Whole(cfg, d)
    ensures |InnerOut(cfg, net, d, now).data| >= 12
  {
    hide DecodeTags, EncodeTags, Accepted, Stripped, ClientOf, LookedUp, HasExpired, Pppoe.FrameBytes;
    if TypeOf(d) == ETH_P_PPP_DISC || TypeOf(d) == ETH_P_PPP_SES {
      if Answer(d) && cfg.addPppoeTag && Accepted(TagsOf(d)) {
        FrameOf(d);
        StrippedShorter(TagsOf(d));
        Pppoe.Parts(Pppoe.Bound(d[..18], ClientOf(TagsOf(d))), Stripped(TagsOf(d)), PadOf(d));
      }
    }
  }

  /** nat25_handle_frame */
  function HandledOut(cfg: Cfg, net: Net, d: seq<byte>, now: Jiffies): Out
    requires Handleable(cfg, d)
  {
    if Multicast(d) then Out(d, net, 0)
    else if Tagged(d) then
      var o := InnerOut(cfg, net, WithoutTag(d), now);
      LookedSize(cfg, net, WithoutTag(d), now);
      Out(WithTag(o.data, d[14..16]), o.net, PassedOn(o.ret))
    else
      var o := InnerOut(cfg, net, d, now);
      o.(ret := PassedOn(o.ret))
  }

  // ---------- the tag comes and goes ----------

  lemma {:induction false} TagRoundTrip(d: seq<byte>, tci: Tci)
    requires |d| >= 12
    ensures
      var w := WithTag(d, tci);
      Tagged(w) && WithoutTag(w) == d && w[14..16] == tci && (|d| > 0 ==> (Multicast(w) <==> Multicast(d)))
  {
    var w := WithTag(d, tci);
    assert w[12] == 0x81 && w[13] == 0x00;
    assert w[..12] == d[..12] && w[16..] == d[12..] && d[..12] + d[12..] == d;
    assert w[0] == d[0];
  }

  lemma {:induction false} UntagRoundTrip(d: seq<byte>)
    requires Tagged(d)
    ensures WithTag(WithoutTag(d), d[14..16]) == d
  {
    assert d[12] == 0x81 && d[13] == 0x00;
    assert WithoutTag(d)[..12] == d[..12] && WithoutTag(d)[12..] == d[16..];
  }

  /** Handling commutes with tagging: a unicast frame that is not itself tagged is handled behind an 802.1Q
      tag as it is without, under the same tag control bytes and with the same answer, also when the
      lookup fails. */
  lemma {:induction false} VlanCommutes(cfg: Cfg, net: Net, d: seq<byte>, tci: Tci, now: Jiffies)
    requires |d| >= ETH_HLEN && !Multicast(d) && TypeOf(d) != ETH_P_8021Q && Whole(cfg, d)
    ensures Handleable(cfg, WithTag(d, tci)) && Handleable(cfg, d)
    ensures
      var plain := HandledOut(cfg, net, d, now);
      var tagged := HandledOut(cfg, net, WithTag(d, tci), now);
      && |plain.data| >= 12
      && tagged.data == WithTag(plain.data, tci) && tagged.net == plain.net && tagged.ret == plain.ret
  {
    TagRoundTrip(d, tci);
    LookedSize(cfg, net, d, now);
    hide InnerOut, WithTag, WithoutTag;
  }

  /** A second tag is not taken off: with the database on, a doubly tagged frame is refused as it is. */
  lemma {:induction false} DoubleTagRefused(cfg: Cfg, net: Net, d: seq<byte>, tci: Tci, now: Jiffies)
    requires |d| >= ETH_HLEN && !Multicast(d) && TypeOf(d) == ETH_P_8021Q && !cfg.disable
    ensures Handleable(cfg, WithTag(d, tci))
    ensures HandledOut(cfg, net, WithTag(d, tci), now) == Out(WithTag(d, tci), net, -1)
  {
    TagRoundTrip(d, tci);
    LookedSize(cfg, net, d, now);
    hide WithTag, WithoutTag;
  }
}
