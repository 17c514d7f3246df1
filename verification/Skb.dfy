/** A socket buffer: one allocation, with the frame somewhere in the middle of it. */
module Skb {
  import opened Memory

  class SkBuff {
    const buf: array<byte>
    var head: nat
    var len: nat

    ghost predicate Valid()
      reads this
    {
      head + len <= buf.Length
    }

    /** The bytes of the frame. */
    function Data(): (d: seq<byte>)
      requires Valid()
      reads this, buf
      ensures |d| == len
    {
      buf[head..head + len]
    }

    /** skb_tailroom */
    function Tailroom(): nat
      requires Valid()
      reads this
    {
      buf.Length - head - len
    }

    constructor (frame: seq<byte>, headroom: nat, tailroom: nat)
      ensures Valid() && Data() == frame && head == headroom && Tailroom() == tailroom && fresh(buf)
    {
      var n := headroom + |frame| + tailroom;
      buf := new byte[n](i => if 0 <= i - headroom < |frame| then frame[i - headroom] else 0);
      head, len := headroom, |frame|;
    }

    /** skb_pull */
    method Pull(n: nat)
      requires Valid() && n <= len
      modifies this
      ensures Valid() && head == old(head) + n
      ensures Data() == old(Data())[n..]
    {
      head, len := head + n, len - n;
    }

    /** skb_push: the bytes in front are whatever the headroom held. */
    method Push(n: nat)
      requires Valid() && n <= head
      modifies this
      ensures Valid() && head == old(head) - n && len == old(len) + n
      ensures Data()[n..] == old(Data())
    {
      head, len := head - n, len + n;
    }

    /** skb_put: the bytes behind are whatever the tailroom held. */
    method Put(n: nat)
      requires Valid() && n <= Tailroom()
      modifies this`len
      ensures Valid() && len == old(len) + n
      ensures Data()[..old(len)] == old(Data())
    {
      len := len + n;
    }

    /** skb_trim */
    method Trim(n: nat)
      requires Valid() && n <= len
      modifies this`len
      ensures Valid() && Data() == old(Data())[..n]
    {
      len := n;
    }

    lemma DataPut(s: seq<byte>, off: nat, b: seq<byte>)
      requires Valid() && |s| == buf.Length && off + |b| <= len
      ensures Memory.Put(s, head + off, b)[head..head + len] == Memory.Put(s[head..head + len], off, b)
    {
    }

    /** Bytes written into the frame. */
    method Write(off: nat, b: seq<byte>)
      requires Valid() && off + |b| <= len
      modifies buf
      ensures Data() == Memory.Put(old(Data()), off, b)
    {
      hide Memory.Put;
      DataPut(buf[..], off, b);
      SliceOfAll();
      Memcpy(buf, head + off, b);
      SliceOfAll();
    }

    lemma SliceOfAll()
      requires Valid()
      ensures buf[..][head..head + len] == Data()
    {
    }

    /** memmove inside the frame; the two ranges may overlap. */
    method Move(dst: nat, src: nat, n: nat)
      requires Valid() && dst + n <= len && src + n <= len
      modifies buf
      ensures Data() == Memory.Put(old(Data()), dst, old(Data())[src..src + n])
    {
      hide Memory.Put;
      DataPut(buf[..], dst, buf[..][head + src..head + src + n]);
      SliceOfAll();
      SliceSlice(buf[..], head, head + len, src, src + n);
      Memmove(buf, head + dst, head + src, n);
      SliceOfAll();
    }
  }
}
