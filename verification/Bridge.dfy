/** The bridge in place, on the frame's own buffer and the hash table: nat25_db_handle, nat25_handle_frame
    (`core/rtw_br_ext.c`) and rtw_br_client_tx (`core/rtw_xmit.c`). */
module Bridge {
  import opened Memory
  import opened Nat25Spec
  import opened Nat25Table
  import opened PppoeTags
  import opened Skb
  import opened BridgeSpec
  import opened TransmitSpec
  import Dhcp
  import Pppoe

  class BrExt {
    const table: NetHash
    const cfg: Cfg
    var progress: nat
    var pppoeAddr: Mac
    var brIp: Ip

    ghost predicate Valid()
      reads this, table, table.nethash, table.repr
    {
      table.Valid()
    }

    ghost function View(): Net
      requires Valid()
      reads this, table, table.nethash, table.repr
    {
      Net(table.NatView(), progress, pppoeAddr, brIp)
    }

    constructor (cfg: Cfg)
      ensures Valid() && View().nat25 == Nat(map[], NO_SHORT) && View().progress == 0 && this.cfg == cfg
    {
      this.cfg := cfg;
      table := new NetHash();
      progress, pppoeAddr, brIp := 0, NO_MAC, NO_IP;
    }

    /** A key looked up and, if its entry is live, the frame's destination replaced. */
    method Replace(skb: SkBuff, a: NetAddr, now: Jiffies) returns (found: bool)
      requires Valid() && skb.Valid() && skb.len >= ETH_HLEN
      modifies skb.buf, table.repr`useCount
      ensures Valid() && found == (a in old(View()).nat25.db)
      ensures
        var o := Looked(cfg, old(View()), old(skb.Data()), a, now);
        skb.Data() == o.data && View() == o.net
    {
      hide NetHash.Shape, NetHash.Linked, NetHash.Sound, NetHash.Named, NetHash.View, LookedUp, HasExpired, Put;
      ghost var all := skb.buf[..];
      ghost var db := table.View();
      skb.SliceOfAll();
      found := table.LookupAndReplace(skb.buf, skb.head, a, now, cfg.ageing);
      if a in db {
        skb.DataPut(all, 0, db[a].mac);
      }
      skb.SliceOfAll();
    }

    /** The frame, the state and the answer are as told. */
    ghost predicate Did(skb: SkBuff, o: Out, ret: int)
      reads this, table, table.nethash, table.repr, skb, skb.buf
    {
      Valid() && skb.Valid() && skb.Data() == o.data && View() == o.net && ret == o.ret
    }

    // ---------- nat25_db_handle, NAT25_LOOKUP ----------

    method LookupIp(skb: SkBuff, now: Jiffies) returns (ret: int)
      requires Valid() && skb.Valid() && skb.len >= 34
      modifies skb.buf, table.repr`useCount
      ensures Did(skb, IpOut(cfg, old(View()), old(skb.Data()), now), ret)
    {
      hide NetHash.Valid, NetHash.View, NetHash.Shape, HasExpired, Put, Ipv4Addr;
      if 4 * (skb.Data()[14] as int % 16) >= skb.len {
        return -1;
      }
      var ip := skb.Data()[30..34];
      var found := Replace(skb, Ipv4Addr(ip), now);
      if !found {
        if ip[3] == 0xff {
          skb.Write(0, BROADCAST);
        } else {
          skb.Write(0, cfg.brMac);
        }
      }
      ret := 0;
    }

    method LookupArp(skb: SkBuff, now: Jiffies) returns (ret: int)
      requires Valid() && skb.Valid() && ArpWhole(skb.Data())
      modifies skb.buf, table.repr`useCount
      ensures Did(skb, ArpOut(cfg, old(View()), old(skb.Data()), now), ret)
    {
      hide NetHash.Valid, NetHash.View, NetHash.Shape, HasExpired, LookedUp, Put, Ipv4Addr;
      if Read16(skb.Data(), 16) != ETH_P_IP {
        return -1;
      }
      var target, hw := ArpTarget(skb.Data()), ArpHw(skb.Data());
      var ip := skb.Data()[target..target + 4];
      var _ := Replace(skb, Ipv4Addr(ip), now);
      skb.Write(hw, skb.Data()[..6]);
      ret := 0;
    }

    method LookupIpv6(skb: SkBuff, now: Jiffies) returns (ret: int)
      requires Valid() && skb.Valid() && skb.len >= ETH_HLEN
      modifies skb.buf, table.repr`useCount
      ensures Did(skb, Ipv6Out(cfg, old(View()), old(skb.Data()), now), ret)
    {
      hide NetHash.Valid, NetHash.View, NetHash.Shape, HasExpired, LookedUp, Put, Ipv6Addr;
      if 40 >= skb.len - ETH_HLEN {
        return -1;
      }
      var ip := skb.Data()[38..54];
      var _ := Replace(skb, Ipv6Addr(ip), now);
      ret := 0;
    }

    method LookupAnswer(skb: SkBuff) returns (ret: int)
      requires Valid() && skb.Valid() && TagsWhole(skb.Data())
      modifies skb`len, skb.buf
      ensures Did(skb, RelayOut(old(View()), old(skb.Data())), ret)
    {
      hide NetHash.Valid, NetHash.View, NetHash.Shape, Put, DecodeTags, EncodeTags, Accepted, Stripped, ClientOf, Pppoe.FrameBytes;
      ghost var d := skb.Data();
      FrameOf(d);
      ret := Pppoe.LookupRelay(skb, d[..18], TagsOf(d), PadOf(d));
    }

    method LookupPppoe(skb: SkBuff, now: Jiffies) returns (ret: int)
      requires Valid() && skb.Valid() && PppoeWhole(cfg, skb.Data())
      modifies skb`len, skb.buf, table.repr`useCount, this`progress
      ensures Did(skb, PppoeOut(cfg, old(View()), old(skb.Data()), now), ret)
    {
      hide NetHash.Valid, NetHash.View, NetHash.Shape, HasExpired, LookedUp, Put, DecodeTags, RelayOut, PppoeAddr;
      var code, sid := skb.Data()[15], skb.Data()[16..18];
      if code == PADO_CODE || code == PADS_CODE {
        if cfg.addPppoeTag {
          ret := LookupAnswer(skb);
          return;
        }
        if progress == 0 {
          return -1;
        }
        skb.Write(0, pppoeAddr);
        progress := WAIT_TIME_PPPOE;
      } else if sid != [0, 0] {
        SidNotZero(skb.Data());
        var _ := Replace(skb, PppoeAddr(skb.Data()[6..12], sid), now);
      } else {
        return -1;
      }
      ret := 0;
    }

    lemma SidNotZero(d: seq<byte>)
      requires |d| >= 18
      ensures d[16..18] == [0, 0] <==> Read16(d, 16) == 0
    {
      assert d[16..18] == [d[16], d[17]];
    }

    /** nat25_db_handle with NAT25_LOOKUP. */
    method DbLookup(skb: SkBuff, now: Jiffies) returns (ret: int)
      requires Valid() && skb.Valid() && Whole(cfg, skb.Data())
      modifies skb`len, skb.buf, table.repr`useCount, this`progress
      ensures Did(skb, DbOut(cfg, old(View()), old(skb.Data()), now), ret)
    {
      hide NetHash.Valid, NetHash.View, NetHash.Shape, IpOut, ArpOut, PppoeOut, Ipv6Out, ArpWhole, PppoeWhole;
      var protocol := TypeOf(skb.Data());
      if protocol == ETH_P_IP {
        ret := LookupIp(skb, now);
      } else if protocol == ETH_P_ARP {
        ret := LookupArp(skb, now);
      } else if protocol == ETH_P_PPP_DISC || protocol == ETH_P_PPP_SES {
        ret := LookupPppoe(skb, now);
      } else if protocol == ETH_P_EAP || protocol == ETH_P_CMEDIA || protocol == ETH_P_CMEDIA2 {
        ret := 0;
      } else if protocol == ETH_P_IPV6 {
        ret := LookupIpv6(skb, now);
      } else {
        ret := -1;
      }
    }

    /** The lookup of a frame without a tag. */
    method HandleInner(skb: SkBuff, now: Jiffies) returns (ret: int)
      requires Valid() && skb.Valid() && Whole(cfg, skb.Data())
      modifies skb`len, skb.buf, table.repr`useCount, this`progress
      ensures Did(skb, InnerOut(cfg, old(View()), old(skb.Data()), now), ret)
    {
      hide NetHash.Valid, NetHash.View, NetHash.Shape, DbOut, ArpWhole, PppoeWhole, Put;
      ret := 0;
      if !cfg.disable {
        if !cfg.scDisable && TypeOf(skb.Data()) == ETH_P_IP && table.scdbIp == skb.Data()[30..34] {
          skb.Write(0, table.scdbMac);
        } else {
          ret := DbLookup(skb, now);
        }
      } else {
        if (TypeOf(skb.Data()) == ETH_P_IP && brIp == skb.Data()[30..34])
          || (TypeOf(skb.Data()) == ETH_P_ARP && brIp == skb.Data()[38..42])
        {
          ret := DbLookup(skb, now);
        }
      }
    }

    // ---------- 802.1Q ----------

    /** The two addresses four bytes up, over the tag, a halfword at a time and the last one first. */
    method ShiftUp(skb: SkBuff)
      requires skb.Valid() && skb.len >= 16
      modifies skb.buf
      ensures skb.Valid() && skb.Data()[4..] == old(skb.Data())[..12] + old(skb.Data())[16..]
    {
      hide ShiftedUp, Put;
      ghost var d := skb.Data();
      UpStart(d);
      for i := 0 to 6
        invariant skb.Valid() && skb.len == |d| && ShiftedUp(d, skb.Data(), i)
      {
        ghost var c := skb.Data();
        skb.Move(14 - 2 * i, 10 - 2 * i, 2);
        UpOne(d, c, i);
      }
      AllUp(d, skb.Data());
    }

    /** And four bytes down again, the first one first. */
    method ShiftDown(skb: SkBuff)
      requires skb.Valid() && skb.len >= 16
      modifies skb.buf
      ensures skb.Valid() && skb.Data()[..12] == old(skb.Data())[4..16] && skb.Data()[16..] == old(skb.Data())[16..]
    {
      hide ShiftedDown, Put;
      ghost var d := skb.Data();
      DownStart(d);
      for i := 0 to 6
        invariant skb.Valid() && skb.len == |d| && ShiftedDown(d, skb.Data(), i)
      {
        ghost var c := skb.Data();
        skb.Move(2 * i, 4 + 2 * i, 2);
        DownOne(d, c, i);
      }
      AllDown(d, skb.Data());
    }

    /** nat25_handle_frame: the tag is taken off, the frame handled, and the tag put back. */
    method HandleFrame(skb: SkBuff, now: Jiffies) returns (ret: int)
      requires Valid() && skb.Valid() && Handleable(cfg, skb.Data())
      modifies skb, skb.buf, table.repr`useCount, this`progress
      ensures Did(skb, HandledOut(cfg, old(View()), old(skb.Data()), now), ret)
    {
      hide NetHash.Valid, NetHash.View, NetHash.Shape, InnerOut, Whole, Put, WithTag, WithoutTag;
      if skb.Data()[0] % 2 == 1 {
        return 0;
      }
      if TypeOf(skb.Data()) == ETH_P_8021Q {
        ret := HandleTagged(skb, now);
      } else {
        ret := HandleInner(skb, now);
      }
      if ret != -1 {
        ret := 0;
      }
    }

    /** The frame without its tag, four bytes further up the buffer. */
    method TakeTag(skb: SkBuff) returns (vlanHdr: Tci)
      requires skb.Valid() && Tagged(skb.Data())
      modifies skb, skb.buf
      ensures skb.Valid() && skb.Data() == WithoutTag(old(skb.Data())) && vlanHdr == old(skb.Data())[14..16]
      ensures skb.head == old(skb.head) + 4 && skb.Tailroom() == old(skb.Tailroom())
    {
      vlanHdr := skb.Data()[14..16];
      ShiftUp(skb);
      skb.Pull(4);
    }

    /** The frame with a tag, four bytes further down. */
    method PutTag(skb: SkBuff, vlanHdr: Tci)
      requires skb.Valid() && skb.len >= 12 && skb.head >= 4
      modifies skb, skb.buf
      ensures skb.Valid() && skb.Data() == WithTag(old(skb.Data()), vlanHdr)
    {
      hide Put, WithTag;
      ghost var e := skb.Data();
      skb.Push(4);
      BehindPush(skb.Data(), e);
      ShiftDown(skb);
      Retagged(skb.Data(), e, vlanHdr);
      skb.Write(12, [0x81, 0x00]);
      skb.Write(14, vlanHdr);
    }

    method HandleTagged(skb: SkBuff, now: Jiffies) returns (ret: int)
      requires Valid() && skb.Valid() && Tagged(skb.Data()) && Whole(cfg, WithoutTag(skb.Data()))
      modifies skb, skb.buf, table.repr`useCount, this`progress
      ensures
        var d := old(skb.Data());
        var o := InnerOut(cfg, old(View()), WithoutTag(d), now);
        |o.data| >= 12 && Did(skb, Out(WithTag(o.data, d[14..16]), o.net, o.ret), ret)
    {
      hide NetHash.Valid, NetHash.View, NetHash.Shape, InnerOut, Whole, WithTag, WithoutTag;
      LookedSize(cfg, View(), WithoutTag(skb.Data()), now);
      var vlanHdr := TakeTag(skb);
      ret := HandleInner(skb, now);
      PutTag(skb, vlanHdr);
    }

    // ---------- nat25_db_handle, NAT25_INSERT ----------

    method Learn(mac: Mac, a: NetAddr, now: Jiffies)
      requires Valid()
      modifies table.nethash, table.repr, table`chains, table`repr
      ensures Valid() && fresh(table.repr - old(table.repr))
      ensures View() == Learned(cfg, old(View()), a, mac, now)
    {
      hide NetHash.Shape, NetHash.Linked, NetHash.Sound, NetHash.Named, NetHash.View, Inserted;
      table.Insert(mac, a, now);
    }

    method InsertIp(skb: SkBuff, now: Jiffies) returns (ret: int)
      requires Valid() && skb.Valid() && skb.len >= 34
      modifies table.nethash, table.repr, table`chains, table`repr
      ensures fresh(table.repr - old(table.repr)) && Did(skb, IpIn(cfg, old(View()), old(skb.Data()), now), ret)
    {
      hide NetHash.Valid, NetHash.View, NetHash.Shape, Learned, Ipv4Addr;
      if 4 * (skb.Data()[14] as int % 16) >= skb.len {
        return -1;
      }
      var ip := skb.Data()[26..30];
      if ip == NO_IP {
        return 0;
      }
      Learn(skb.Data()[6..12], Ipv4Addr(ip), now);
      ret := 0;
    }

    method InsertArp(skb: SkBuff, now: Jiffies) returns (ret: int)
      requires Valid() && skb.Valid() && ArpFromWhole(skb.Data())
      modifies skb.buf, table.nethash, table.repr, table`chains, table`repr
      ensures fresh(table.repr - old(table.repr)) && Did(skb, ArpIn(cfg, old(View()), old(skb.Data()), now), ret)
    {
      hide NetHash.Valid, NetHash.View, NetHash.Shape, Learned, Ipv4Addr, Put;
      if Read16(skb.Data(), 16) != ETH_P_IP {
        return -1;
      }
      ghost var d := skb.Data();
      skb.Write(22, cfg.ownMac);
      ArpBytes(d);
      var sender := 22 + skb.Data()[18] as int;
      Learn(skb.Data()[6..12], Ipv4Addr(skb.Data()[sender..sender + 4]), now);
      ret := 0;
    }

    lemma ArpBytes(d: seq<byte>)
      requires |d| >= 28
      ensures ArpSigned(cfg, d)[18] == d[18] && ArpSigned(cfg, d)[6..12] == d[6..12]
    {
    }

    method InsertIpv6(skb: SkBuff, now: Jiffies) returns (ret: int)
      requires Valid() && skb.Valid() && skb.len >= ETH_HLEN
      modifies table.nethash, table.repr, table`chains, table`repr
      ensures fresh(table.repr - old(table.repr)) && Did(skb, Ipv6In(cfg, old(View()), old(skb.Data()), now), ret)
    {
      hide NetHash.Valid, NetHash.View, NetHash.Shape, Learned, Ipv6Addr;
      if 40 >= skb.len - ETH_HLEN {
        return -1;
      }
      var ip := skb.Data()[22..38];
      if ip != Zeros(16) {
        Learn(skb.Data()[6..12], Ipv6Addr(ip), now);
      }
      ret := 0;
    }

    method InsertOffer(skb: SkBuff, behind: nat -> byte) returns (ret: int, ghost pad: seq<byte>)
      requires Valid() && skb.Valid() && TagsWhole(skb.Data())
      modifies skb`len, skb.buf
      ensures Did(skb, RelayIn(cfg, old(View()), old(skb.Data()), Place(old(skb.Tailroom()), behind, pad)), ret)
    {
      hide NetHash.Valid, NetHash.View, NetHash.Shape, Put, DecodeTags, EncodeTags, RelayFits, Pppoe.RoomFor, Pppoe.Inserted,
           Pppoe.FrameBytes, WithoutRelay;
      ghost var d := skb.Data();
      FrameOf(d);
      WithoutLength(TagsOf(d));
      ghost var over;
      ret, over, pad := Pppoe.InsertRelay(skb, cfg.order, behind, d[..18], TagsOf(d), PadOf(d));
    }

    method InsertPppoe(skb: SkBuff, behind: nat -> byte, now: Jiffies) returns (ret: int, ghost pad: seq<byte>)
      requires Valid() && skb.Valid() && PppoeFromWhole(cfg, skb.Data())
      modifies skb`len, skb.buf, this`progress, this`pppoeAddr, table.nethash, table.repr, table`chains, table`repr
      ensures fresh(table.repr - old(table.repr))
      ensures Did(skb, PppoeIn(cfg, old(View()), old(skb.Data()), Place(old(skb.Tailroom()), behind, pad), now), ret)
    {
      hide NetHash.Valid, NetHash.View, NetHash.Shape, RelayIn, TagsWhole, Learned, PppoeAddr;
      pad := [];
      var code, sid, mac := skb.Data()[15], skb.Data()[16..18], skb.Data()[6..12];
      SidNotZero(skb.Data());
      if sid == [0, 0] {
        if code == PADI_CODE || code == PADR_CODE {
          if cfg.addPppoeTag {
            ret, pad := InsertOffer(skb, behind);
            return;
          }
          if progress != 0 && mac != pppoeAddr {
            return -2, pad;
          }
          if progress == 0 {
            pppoeAddr := mac;
          }
          progress := WAIT_TIME_PPPOE;
        } else {
          return -1, pad;
        }
      } else {
        Learn(mac, PppoeAddr(skb.Data()[..6], sid), now);
        if !cfg.addPppoeTag && progress != 0 && mac == pppoeAddr {
          progress := 0;
        }
      }
      ret := 0;
    }

    /** nat25_db_handle with NAT25_CHECK. */
    method DbCheck(skb: SkBuff) returns (ret: int)
      requires skb.Valid() && CheckWhole(skb.Data())
      ensures ret == CheckOut(skb.Data())
    {
      var protocol := TypeOf(skb.Data());
      if protocol == ETH_P_ARP {
        ret := if Read16(skb.Data(), 16) == ETH_P_IP then 0 else -1;
      } else if protocol == ETH_P_PPP_DISC || protocol == ETH_P_PPP_SES {
        ret := if skb.Data()[16] == 0 && skb.Data()[17] == 0 then 0 else 1;
      } else if protocol == ETH_P_IPV6 && 40 < skb.len - ETH_HLEN {
        ret := if skb.Data()[0] % 2 == 1 then 0 else -1;
      } else {
        ret := -1;
      }
    }

    /** nat25_db_handle with NAT25_INSERT. */
    method DbInsert(skb: SkBuff, behind: nat -> byte, now: Jiffies) returns (ret: int, ghost pad: seq<byte>)
      requires Valid() && skb.Valid() && FromWhole(cfg, skb.Data())
      modifies skb`len, skb.buf, this`progress, this`pppoeAddr, table.nethash, table.repr, table`chains, table`repr
      ensures fresh(table.repr - old(table.repr))
      ensures Did(skb, InsertOut(cfg, old(View()), old(skb.Data()), Place(old(skb.Tailroom()), behind, pad), now), ret)
    {
      hide NetHash.Valid, NetHash.View, NetHash.Shape, IpIn, ArpIn, PppoeIn, Ipv6In, ArpFromWhole, PppoeFromWhole, Discovers;
      pad := [];
      var protocol := TypeOf(skb.Data());
      if protocol == ETH_P_IP {
        ret := InsertIp(skb, now);
      } else if protocol == ETH_P_ARP {
        ret := InsertArp(skb, now);
      } else if protocol == ETH_P_PPP_DISC || protocol == ETH_P_PPP_SES {
        ret, pad := InsertPppoe(skb, behind, now);
      } else if protocol == ETH_P_EAP || protocol == ETH_P_CMEDIA || protocol == ETH_P_CMEDIA2 {
        ret := 0;
      } else if protocol == ETH_P_IPV6 {
        ret := InsertIpv6(skb, now);
      } else {
        ret := -1;
      }
    }

    // ---------- rtw_br_client_tx ----------

    method Notice(skb: SkBuff)
      requires Valid() && skb.Valid() && FromWhole(cfg, skb.Data())
      modifies this`brIp
      ensures Valid() && View() == Noticed(cfg, old(View()), skb.Data())
    {
      hide NetHash.Valid, NetHash.View, NetHash.Shape, ArpFromWhole, PppoeFromWhole, Discovers;
      if skb.Data()[6..12] == cfg.brMac && TypeOf(skb.Data()) == ETH_P_IP {
        brIp := skb.Data()[26..30];
      }
    }

    method Remember(mac: Mac, ip: Ip, now: Jiffies) returns (doNat25: bool)
      requires Valid()
      modifies table`scdbEntry, table`scdbMac, table`scdbIp, table.repr`timer
      ensures Valid() && View() == old(View()).(nat25 := Remembered(old(View()).nat25, mac, ip, now))
      ensures doNat25 == Remembers(old(View()).nat25, mac, ip).None?
    {
      hide NetHash.Shape, NetHash.Linked, NetHash.Sound, NetHash.Named, NetHash.View, Remembered, Remembers;
      doNat25 := table.RememberSource(mac, ip, now);
    }

    /** The source remembered or the database asked.  What NAT25_CHECK marks is copied first, which changes
        none of its bytes. */
    method Ask(skb: SkBuff, behind: nat -> byte, now: Jiffies) returns (ret: int, ghost pad: seq<byte>)
      requires Valid() && skb.Valid() && FromWhole(cfg, skb.Data())
      modifies skb`len, skb.buf, this`progress, this`pppoeAddr, table, table.nethash, table.repr
      ensures fresh(table.repr - old(table.repr))
      ensures Did(skb, AskedOut(cfg, old(View()), old(skb.Data()), Place(old(skb.Tailroom()), behind, pad), now), ret)
    {
      hide NetHash.Valid, NetHash.View, NetHash.Shape, InsertOut, Remembered, Remembers;
      pad, ret := [], 0;
      var doNat25 := true;
      FromLength(cfg, skb.Data());
      hide FromWhole;
      if TypeOf(skb.Data()) == ETH_P_IP {
        doNat25 := Remember(skb.Data()[6..12], skb.Data()[26..30], now);
      }
      if doNat25 {
        var _ := DbCheck(skb);
        ret, pad := DbInsert(skb, behind, now);
      }
    }

    /** A frame without a tag; only one that has not been refused gets the bridge's address. */
    method TransmitInner(skb: SkBuff, behind: nat -> byte, now: Jiffies) returns (ret: int, ghost pad: seq<byte>)
      requires Valid() && skb.Valid() && Sendable(cfg, skb.Data())
      modifies skb`len, skb.buf, this`progress, this`pppoeAddr, this`brIp, table, table.nethash, table.repr
      ensures fresh(table.repr - old(table.repr))
      ensures Did(skb, InnerIn(cfg, old(View()), old(skb.Data()), Place(old(skb.Tailroom()), behind, pad), now), ret)
    {
      hide NetHash.Valid, NetHash.View, NetHash.Shape, AskedOut, Noticed, Dhcp.Whole, Dhcp.DhcpOut, Put, FromWhole;
      ghost var net, d, room := View(), skb.Data(), skb.Tailroom();
      Notice(skb);
      ret, pad := Ask(skb, behind, now);
      AskedStays(cfg, Noticed(cfg, net, d), d, Place(room, behind, pad), now);
      if ret >= 0 {
        skb.Write(6, cfg.ownMac);
        Dhcp.FlagBcast(skb, cfg.dhcpDisable);
      }
    }

    /** A unicast IP frame of the remembered client. */
    method TransmitQuick(skb: SkBuff, now: Jiffies)
      requires Valid() && skb.Valid() && skb.len >= ETH_HLEN && Quick(cfg, View(), skb.Data())
      modifies skb.buf, table.repr`timer
      ensures Did(skb, Out(Signed(cfg, old(skb.Data())),
                           old(View()).(nat25 := Remembered(old(View()).nat25, SourceMac(old(skb.Data())), old(View()).nat25.short.ip, now)), 0), 0)
    {
      hide NetHash.Shape, NetHash.Linked, NetHash.Sound, NetHash.Named, NetHash.View, Remembered, Put;
      skb.Write(6, cfg.ownMac);
      table.RefreshScdb(now);
    }

    method TransmitSlow(skb: SkBuff, behind: nat -> byte, now: Jiffies) returns (ret: int, ghost pad: seq<byte>)
      requires Valid() && skb.Valid() && Transmittable(cfg, skb.Data()) && !Quick(cfg, View(), skb.Data())
      modifies skb, skb.buf, this`progress, this`pppoeAddr, this`brIp, table, table.nethash, table.repr
      ensures fresh(table.repr - old(table.repr))
      ensures Did(skb, TransmitOut(cfg, old(View()), old(skb.Data()), Place(old(skb.Tailroom()), behind, pad), now), ret)
    {
      hide NetHash.Valid, NetHash.View, NetHash.Shape, InnerIn, Sendable, WithTag, WithoutTag, Quick;
      ghost var net, d, room := View(), skb.Data(), skb.Tailroom();
      var vlanHdr: Tci := [0, 0];
      var tagged := TypeOf(skb.Data()) == ETH_P_8021Q;
      if tagged {
        vlanHdr := TakeTag(skb);
      }
      ret, pad := TransmitInner(skb, behind, now);
      if ret < 0 {
        ret := if ret == -2 then -1 else 0;
        return;
      }
      if tagged {
        PutTag(skb, vlanHdr);
      }
      SourceIsHidden(cfg, net, d, Place(room, behind, pad), now);
      if skb.Data()[6..12] != cfg.ownMac {
        ret := -1;
      }
    }

    /** rtw_br_client_tx */
    method ClientTx(skb: SkBuff, behind: nat -> byte, now: Jiffies) returns (ret: int, ghost pad: seq<byte>)
      requires Valid() && skb.Valid() && Transmittable(cfg, skb.Data())
      modifies skb, skb.buf, this`progress, this`pppoeAddr, this`brIp, table, table.nethash, table.repr
      ensures fresh(table.repr - old(table.repr))
      ensures Did(skb, TransmitOut(cfg, old(View()), old(skb.Data()), Place(old(skb.Tailroom()), behind, pad), now), ret)
    {
      hide NetHash.Valid, NetHash.View, NetHash.Shape, InnerIn, Sendable, WithTag, WithoutTag, Signed, Remembered;
      if skb.Data()[0] % 2 == 0 && skb.Data()[6..12] != cfg.brMac && TypeOf(skb.Data()) == ETH_P_IP
        && table.scdbMac == skb.Data()[6..12] && table.scdbEntry != null
      {
        pad, ret := [], 0;
        SignedHeader(cfg, skb.Data());
        TransmitQuick(skb, now);
        if skb.Data()[6..12] != cfg.ownMac {
          ret := -1;
        }
      } else {
        ret, pad := TransmitSlow(skb, behind, now);
      }
    }
  }

  lemma BehindPush(p: seq<byte>, e: seq<byte>)
    requires |p| >= 16 && p[4..] == e
    ensures p[4..16] == e[..12] && p[16..] == e[12..]
  {
    assert p[4..][..12] == p[4..16] && p[4..][12..] == p[16..];
  }

  lemma Retagged(s: seq<byte>, e: seq<byte>, tci: Tci)
    requires |s| >= 16 && |e| >= 12 && s[..12] == e[..12] && s[16..] == e[12..]
    ensures Put(Put(s, 12, [0x81, 0x00]), 14, tci) == WithTag(e, tci)
  {
  }

  /** After i steps up: the last 2i bytes of the addresses are in place, the rest is as it was. */
  predicate ShiftedUp(d: seq<byte>, e: seq<byte>, i: nat) {
    i <= 6 && |d| >= 16 && e == d[..16 - 2 * i] + d[12 - 2 * i..12] + d[16..]
  }

  lemma UpStart(d: seq<byte>)
    requires |d| >= 16
    ensures ShiftedUp(d, d, 0)
  {
  }

  lemma UpOne(d: seq<byte>, c: seq<byte>, i: nat)
    requires i < 6 && ShiftedUp(d, c, i)
    ensures ShiftedUp(d, Put(c, 14 - 2 * i, c[10 - 2 * i..10 - 2 * i + 2]), i + 1)
  {
    var t := 16 - 2 * i;
    assert c[..t - 2] == d[..t - 2];
    assert c[t - 6..t - 4] == d[t - 6..t - 4];
    assert c[t..] == d[t - 4..12] + d[16..];
    assert d[t - 6..t - 4] + (d[t - 4..12] + d[16..]) == d[t - 6..12] + d[16..];
  }

  lemma AllUp(d: seq<byte>, e: seq<byte>)
    requires ShiftedUp(d, e, 6)
    ensures e[4..] == d[..12] + d[16..]
  {
    assert d[0..12] == d[..12];
  }

  predicate ShiftedDown(d: seq<byte>, e: seq<byte>, i: nat) {
    i <= 6 && |d| >= 16 && e == d[4..4 + 2 * i] + d[2 * i..]
  }

  lemma DownStart(d: seq<byte>)
    requires |d| >= 16
    ensures ShiftedDown(d, d, 0)
  {
  }

  lemma DownOne(d: seq<byte>, c: seq<byte>, i: nat)
    requires i < 6 && ShiftedDown(d, c, i)
    ensures ShiftedDown(d, Put(c, 2 * i, c[4 + 2 * i..4 + 2 * i + 2]), i + 1)
  {
    var t := 2 * i;
    assert c[..t] == d[4..4 + t];
    assert c[4 + t..6 + t] == d[4 + t..6 + t];
    assert c[t + 2..] == d[t + 2..];
    assert d[4..4 + t] + d[4 + t..6 + t] == d[4..6 + t];
  }

  lemma AllDown(d: seq<byte>, e: seq<byte>)
    requires ShiftedDown(d, e, 6)
    ensures e[..12] == d[4..16] && e[16..] == d[16..]
  {
    assert e[16..] == d[12..][4..];
  }
}
