/** dhcp_flag_bcast: the broadcast flag set in a DHCP request, and the UDP checksum brought up to date
    without going over the datagram again (`core/rtw_br_ext.c`; RFC 1624, section 3). */
module Dhcp {
  import opened Memory
  import opened PppoeTags
  import opened Skb

  /** One's-complement arithmetic on 16 bits works modulo this. */
  const ONES: nat := 0xffff

  // ---------- folding ----------

  /** The carries are added back until there are none. */
  function Fold(n: nat): nat {
    if n < 0x1_0000 then n else Fold(n % 0x1_0000 + n / 0x1_0000)
  }

  lemma {:induction false} FoldStep(n: nat)
    ensures (n % 0x1_0000 + n / 0x1_0000) % ONES == n % ONES
    ensures n >= 0x1_0000 ==> 0 < n % 0x1_0000 + n / 0x1_0000 < n
  {
    var q, r := n / 0x1_0000, n % 0x1_0000;
    assert n == ONES * q + (q + r);
    Multiple(q, q + r);
  }

  lemma Multiple(q: int, r: int)
    ensures (ONES * q + r) % ONES == r % ONES
  {
  }

  /** Folding keeps the value modulo 65535, and makes zero of zero only. */
  lemma {:induction false} FoldKeeps(n: nat)
    ensures Fold(n) <= ONES && Fold(n) % ONES == n % ONES && (Fold(n) == 0 <==> n == 0)
    decreases n
  {
    FoldStep(n);
    if n >= 0x1_0000 {
      FoldKeeps(n % 0x1_0000 + n / 0x1_0000);
    }
  }

  /** A sum that checks: some word is not zero, and the value is zero modulo 65535. */
  predicate Checks(total: nat) {
    total > 0 && total % ONES == 0
  }

  lemma {:induction false} ChecksIsAllOnes(total: nat)
    ensures Checks(total) <==> Fold(total) == 0xffff
  {
    FoldKeeps(total);
  }

  // ---------- sums of bytes ----------

  function LeWord(a: byte, b: byte): nat {
    a as int + 256 * (b as int)
  }

  function BeWord(a: byte, b: byte): nat {
    256 * (a as int) + b as int
  }

  /** The 16-bit words of some bytes as the host reads them, the last one padded with zero. */
  function LeSum(s: seq<byte>): nat {
    if s == [] then 0 else if |s| == 1 then LeWord(s[0], 0) else LeWord(s[0], s[1]) + LeSum(s[2..])
  }

  /** The same words as the network means them. */
  function BeSum(s: seq<byte>): nat {
    if s == [] then 0 else if |s| == 1 then BeWord(s[0], 0) else BeWord(s[0], s[1]) + BeSum(s[2..])
  }

  function High(s: seq<byte>): nat {
    if |s| < 2 then 0 else s[1] as int + High(s[2..])
  }

  function Low(s: seq<byte>): nat {
    if s == [] then 0 else if |s| == 1 then s[0] as int else s[0] as int + Low(s[2..])
  }

  lemma {:induction false} Swapped(s: seq<byte>)
    ensures 256 * LeSum(s) == BeSum(s) + ONES * High(s)
    ensures 256 * BeSum(s) == LeSum(s) + ONES * Low(s)
    decreases |s|
  {
    if |s| >= 2 {
      Swapped(s[2..]);
    }
  }

  lemma ScaledZero(x: int, y: int, h: int)
    requires 256 * x == y + ONES * h && x % ONES == 0
    ensures y % ONES == 0
  {
    var q := x / ONES;
    assert y == ONES * (256 * q - h);
    Multiple(256 * q - h, 0);
  }

  /** Byte order does not matter to the check (RFC 1071, section 2). */
  lemma {:induction false} OrderDoesNotMatter(s: seq<byte>)
    ensures Checks(LeSum(s)) <==> Checks(BeSum(s))
  {
    Swapped(s);
    if LeSum(s) % ONES == 0 {
      ScaledZero(LeSum(s), BeSum(s), High(s));
    }
    if BeSum(s) % ONES == 0 {
      ScaledZero(BeSum(s), LeSum(s), Low(s));
    }
    LeZero(s);
  }

  lemma {:induction false} LeZero(s: seq<byte>)
    ensures LeSum(s) == 0 <==> BeSum(s) == 0
    decreases |s|
  {
    if |s| >= 2 {
      LeZero(s[2..]);
    }
  }

  /** A word written at an even place changes the sum by as much as the word. */
  lemma {:induction false} PutWord(s: seq<byte>, at: nat, w: seq<byte>)
    requires |w| == 2 && at + 2 <= |s| && at % 2 == 0
    ensures LeSum(Put(s, at, w)) - LeWord(w[0], w[1]) == LeSum(s) - LeWord(s[at], s[at + 1])
    decreases at
  {
    var t := Put(s, at, w);
    if at == 0 {
      assert t[2..] == s[2..];
    } else {
      PutWord(s[2..], at - 2, w);
      assert t[2..] == Put(s[2..], at - 2, w);
      assert t[0] == s[0] && t[1] == s[1];
    }
  }

  // ---------- the frame ----------

  const CHECK_AT: nat := 6
  const FLAGS_AT: nat := 18
  const COOKIE_AT: nat := 244
  const DHCP_END: nat := 248

  /** Where the UDP header starts, by the IP header's own length. */
  function UdpAt(d: seq<byte>): nat
    requires |d| >= 15
  {
    14 + 4 * (d[14] as int % 16)
  }

  predicate IsIp(d: seq<byte>)
    requires |d| >= 14
  {
    d[12] == 0x08 && d[13] == 0x00
  }

  predicate IsUdp(d: seq<byte>)
    requires |d| >= 14
  {
    IsIp(d) && |d| >= 24 && d[23] == 17
  }

  /** From the client's port to the server's. */
  predicate ToServer(d: seq<byte>)
    requires |d| >= 14 && (IsUdp(d) ==> UdpAt(d) + 4 <= |d|)
  {
    IsUdp(d) && Read16(d, UdpAt(d)) == 68 && Read16(d, UdpAt(d) + 2) == 67
  }

  /** What the source reads is in the frame. */
  predicate Whole(d: seq<byte>) {
    && |d| >= 14
    && (IsIp(d) ==> |d| >= 24)
    && (IsUdp(d) ==> UdpAt(d) + 4 <= |d|)
    && (ToServer(d) ==> UdpAt(d) + DHCP_END <= |d|)
  }

  predicate IsRequest(d: seq<byte>)
    requires Whole(d)
  {
    ToServer(d) && d[UdpAt(d) + COOKIE_AT..UdpAt(d) + DHCP_END] == [0x63, 0x82, 0x53, 0x63]
  }

  function OldCheck(d: seq<byte>): nat
    requires Whole(d) && ToServer(d)
  {
    LeWord(d[UdpAt(d) + CHECK_AT], d[UdpAt(d) + CHECK_AT + 1])
  }

  function OldFlags(d: seq<byte>): nat
    requires Whole(d) && ToServer(d)
  {
    LeWord(d[UdpAt(d) + FLAGS_AT], d[UdpAt(d) + FLAGS_AT + 1])
  }

  /** The flag is the highest bit of the first byte. */
  predicate Flagged(d: seq<byte>)
    requires Whole(d) && ToServer(d)
  {
    d[UdpAt(d) + FLAGS_AT] >= 0x80
  }

  predicate Rewritten(d: seq<byte>)
    requires Whole(d)
  {
    IsRequest(d) && !Flagged(d)
  }

  function NewFlags(d: seq<byte>): nat
    requires Whole(d) && ToServer(d)
  {
    OldFlags(d) + 0x80
  }

  /** The complement of the folded sum of the old checksum's complement and the whole new field. */
  function NewCheck(check: nat, flags: nat): (c: nat)
    requires check <= ONES
    ensures c <= ONES
  {
    FoldKeeps(ONES - check + flags);
    ONES - Fold(ONES - check + flags)
  }

  function LeBytes(w: nat): (b: seq<byte>)
    requires w <= ONES
    ensures |b| == 2 && LeWord(b[0], b[1]) == w
  {
    [w % 256, w / 256]
  }

  lemma FlagFits(d: seq<byte>)
    requires Whole(d) && ToServer(d) && !Flagged(d)
    ensures NewFlags(d) <= ONES
  {
  }

  function DhcpOut(d: seq<byte>): (e: seq<byte>)
    requires Whole(d)
    ensures |e| == |d|
  {
    if Rewritten(d) then
      FlagFits(d);
      var flagged := Put(d, UdpAt(d) + FLAGS_AT, LeBytes(NewFlags(d)));
      Put(flagged, UdpAt(d) + CHECK_AT, LeBytes(NewCheck(OldCheck(d), NewFlags(d))))
    else d
  }

  lemma {:induction false} DhcpOutIs(d: seq<byte>)
    requires Whole(d) && Rewritten(d)
    ensures ToServer(d) && UdpAt(d) + DHCP_END <= |d| && OldCheck(d) <= ONES && NewFlags(d) <= ONES
    ensures DhcpOut(d) ==
      Put(Put(d, UdpAt(d) + FLAGS_AT, LeBytes(NewFlags(d))), UdpAt(d) + CHECK_AT, LeBytes(NewCheck(OldCheck(d), NewFlags(d))))
  {
    hide Put, LeBytes, NewCheck;
    FlagFits(d);
  }

  // ---------- the checksum stays valid ----------

  /** The value modulo 65535 of a sum in which the checksum and the flags have been replaced. */
  lemma {:induction false} NewTotal(total: int, check: nat, oldFlags: nat, flags: nat)
    requires check <= ONES
    ensures (total - check - oldFlags + NewCheck(check, flags) + flags) % ONES == (total - oldFlags) % ONES
  {
    var n := ONES - check + flags;
    FoldKeeps(n);
    var q, f := n / ONES, Fold(n) / ONES;
    assert NewCheck(check, flags) == check - flags + ONES * q - ONES * f by {
      assert n == ONES * q + n % ONES && Fold(n) == ONES * f + n % ONES;
    }
    Multiple(q - f, total - oldFlags);
  }

  /** The bytes that the checksum covers: the pseudo header and n bytes of datagram. */
  function Covered(d: seq<byte>, pseudo: seq<byte>, n: nat): seq<byte>
    requires Whole(d) && ToServer(d) && UdpAt(d) + n <= |d|
  {
    pseudo + d[UdpAt(d)..UdpAt(d) + n]
  }

  lemma {:induction false} CoveredPut(d: seq<byte>, pseudo: seq<byte>, u: nat, n: nat, at: nat, w: seq<byte>)
    requires u + n <= |d| && at + |w| <= n
    ensures pseudo + Put(d, u + at, w)[u..u + n] == Put(pseudo + d[u..u + n], |pseudo| + at, w)
  {
    SlicePut(d, u, n, at, w);
    PrefixPut(pseudo, d[u..u + n], at, w);
  }

  lemma SlicePut(d: seq<byte>, u: nat, n: nat, at: nat, w: seq<byte>)
    requires u + n <= |d| && at + |w| <= n
    ensures Put(d, u + at, w)[u..u + n] == Put(d[u..u + n], at, w)
  {
  }

  lemma PrefixPut(pseudo: seq<byte>, x: seq<byte>, at: nat, w: seq<byte>)
    requires at + |w| <= |x|
    ensures pseudo + Put(x, at, w) == Put(pseudo + x, |pseudo| + at, w)
  {
    assert (pseudo + x)[..|pseudo| + at] == pseudo + x[..at];
    assert (pseudo + x)[|pseudo| + at + |w|..] == x[at + |w|..];
  }

  lemma {:induction false} PutLeaves(s: seq<byte>, at: nat, w: seq<byte>, k: nat)
    requires at + |w| <= |s| && k < |s| && !(at <= k < at + |w|)
    ensures Put(s, at, w)[k] == s[k]
  {
  }

  /** The header's fields are not among the bytes written. */
  lemma {:induction false} OutHeader(d: seq<byte>)
    requires Whole(d) && Rewritten(d)
    ensures Whole(DhcpOut(d)) && ToServer(DhcpOut(d)) && UdpAt(DhcpOut(d)) == UdpAt(d)
  {
    hide Put, LeBytes, NewCheck, NewFlags, OldCheck, DhcpOut, IsRequest, Flagged, Rewritten;
    DhcpOutIs(d);
    var u, w, c := UdpAt(d), LeBytes(NewFlags(d)), LeBytes(NewCheck(OldCheck(d), NewFlags(d)));
    var f := Put(d, u + FLAGS_AT, w);
    forall k | k == 12 || k == 13 || k == 14 || k == 23 || u <= k < u + 4
      ensures DhcpOut(d)[k] == d[k]
    {
      PutLeaves(d, u + FLAGS_AT, w, k);
      PutLeaves(f, u + CHECK_AT, c, k);
    }
  }

  /** Nor is the Ethernet header. */
  lemma {:induction false} OutAddresses(d: seq<byte>)
    requires Whole(d)
    ensures DhcpOut(d)[..14] == d[..14]
  {
    if Rewritten(d) {
      hide LeBytes, NewCheck, NewFlags, OldCheck, DhcpOut, IsRequest, Flagged, Rewritten;
      DhcpOutIs(d);
    }
  }

  /** A frame that is rewritten is changed. */
  lemma {:induction false} RewritingShows(d: seq<byte>)
    requires Whole(d)
    ensures DhcpOut(d) == d <==> !Rewritten(d)
  {
    if Rewritten(d) {
      DhcpOutIs(d);
      var u, w, c := UdpAt(d), LeBytes(NewFlags(d)), LeBytes(NewCheck(OldCheck(d), NewFlags(d)));
      LowByte(d);
      hide Put, LeBytes, NewCheck, NewFlags, OldCheck, DhcpOut;
      PutThere(d, u + FLAGS_AT, w);
      PutLeaves(Put(d, u + FLAGS_AT, w), u + CHECK_AT, c, u + FLAGS_AT);
    }
  }

  lemma LowByte(d: seq<byte>)
    requires Whole(d) && Rewritten(d)
    ensures NewFlags(d) <= ONES && LeBytes(NewFlags(d))[0] == d[UdpAt(d) + FLAGS_AT] + 0x80
  {
  }

  /** Two words written at even places, the second one in front of the first. */
  lemma {:induction false} TwoWords(x: seq<byte>, a: nat, b: nat, w: seq<byte>, c: seq<byte>)
    requires a % 2 == b % 2 == 0 && b + 2 <= a && a + 2 <= |x| && |w| == |c| == 2
    ensures
      var z := Put(Put(x, a, w), b, c);
      && LeSum(z) == LeSum(x) - LeWord(x[a], x[a + 1]) - LeWord(x[b], x[b + 1]) + LeWord(w[0], w[1]) + LeWord(c[0], c[1])
      && LeSum(z) >= LeWord(w[0], w[1])
  {
    hide LeSum, Put, LeWord;
    var y := Put(x, a, w);
    PutWord(x, a, w);
    PutWord(y, b, c);
    PutLeaves(x, a, w, b);
    PutLeaves(x, a, w, b + 1);
    PutLeaves(y, b, c, a);
    PutLeaves(y, b, c, a + 1);
    PutThere(x, a, w);
    WordIn(Put(y, b, c), a);
  }

  /** The covered bytes of the rewritten datagram. */
  lemma {:induction false} OutCovered(d: seq<byte>, pseudo: seq<byte>, n: nat)
    requires Whole(d) && Rewritten(d) && DHCP_END <= n && UdpAt(d) + n <= |d|
    ensures Whole(DhcpOut(d)) && ToServer(DhcpOut(d)) && UdpAt(DhcpOut(d)) == UdpAt(d) && NewFlags(d) <= ONES
    ensures
      Covered(DhcpOut(d), pseudo, n) ==
      Put(Put(Covered(d, pseudo, n), |pseudo| + FLAGS_AT, LeBytes(NewFlags(d))),
          |pseudo| + CHECK_AT, LeBytes(NewCheck(OldCheck(d), NewFlags(d))))
  {
    hide LeBytes, NewCheck, Put, DhcpOut, NewFlags, OldCheck, IsRequest, Flagged, Rewritten;
    OutHeader(d);
    DhcpOutIs(d);
    var u := UdpAt(d);
    var w, c := LeBytes(NewFlags(d)), LeBytes(NewCheck(OldCheck(d), NewFlags(d)));
    CoveredPut(d, pseudo, u, n, FLAGS_AT, w);
    CoveredPut(Put(d, u + FLAGS_AT, w), pseudo, u, n, CHECK_AT, c);
  }

  lemma {:induction false} OutTotal(d: seq<byte>, pseudo: seq<byte>, n: nat)
    requires Whole(d) && Rewritten(d) && |pseudo| % 2 == 0 && DHCP_END <= n && UdpAt(d) + n <= |d|
    ensures Whole(DhcpOut(d)) && ToServer(DhcpOut(d)) && UdpAt(DhcpOut(d)) == UdpAt(d)
    ensures LeSum(Covered(DhcpOut(d), pseudo, n)) ==
      LeSum(Covered(d, pseudo, n)) - OldCheck(d) - OldFlags(d) + NewCheck(OldCheck(d), NewFlags(d)) + NewFlags(d)
    ensures LeSum(Covered(DhcpOut(d), pseudo, n)) > 0
  {
    hide LeSum, Put, DhcpOut, LeBytes, NewCheck, LeWord, Covered, OldCheck, OldFlags, NewFlags, Whole, ToServer, UdpAt, Flagged;
    var p := |pseudo|;
    OutCovered(d, pseudo, n);
    FieldsIn(d, pseudo, n);
    TwoWords(Covered(d, pseudo, n), p + FLAGS_AT, p + CHECK_AT, LeBytes(NewFlags(d)), LeBytes(NewCheck(OldCheck(d), NewFlags(d))));
  }

  /** The two fields as words of the covered bytes. */
  lemma {:induction false} FieldsIn(d: seq<byte>, pseudo: seq<byte>, n: nat)
    requires Whole(d) && ToServer(d) && DHCP_END <= n && UdpAt(d) + n <= |d| && |pseudo| % 2 == 0
    ensures
      var x, p := Covered(d, pseudo, n), |pseudo|;
      && |x| == p + n >= p + FLAGS_AT + 2 >= p + CHECK_AT + 4
      && (p + FLAGS_AT) % 2 == 0 && (p + CHECK_AT) % 2 == 0
      && LeWord(x[p + FLAGS_AT], x[p + FLAGS_AT + 1]) == OldFlags(d)
      && LeWord(x[p + CHECK_AT], x[p + CHECK_AT + 1]) == OldCheck(d)
    ensures OldCheck(d) <= ONES && NewFlags(d) > 0
  {
    InCovered(d, pseudo, n, FLAGS_AT);
    InCovered(d, pseudo, n, FLAGS_AT + 1);
    InCovered(d, pseudo, n, CHECK_AT);
    InCovered(d, pseudo, n, CHECK_AT + 1);
  }

  lemma PutThere(s: seq<byte>, at: nat, w: seq<byte>)
    requires |w| == 2 && at + 2 <= |s|
    ensures Put(s, at, w)[at] == w[0] && Put(s, at, w)[at + 1] == w[1]
  {
  }

  lemma InCovered(d: seq<byte>, pseudo: seq<byte>, n: nat, k: nat)
    requires Whole(d) && ToServer(d) && UdpAt(d) + n <= |d| && k < n
    ensures Covered(d, pseudo, n)[|pseudo| + k] == d[UdpAt(d) + k]
  {
  }

  lemma WordIn(s: seq<byte>, at: nat)
    requires at + 2 <= |s| && at % 2 == 0
    ensures LeSum(s) >= LeWord(s[at], s[at + 1])
    decreases at
  {
    if at > 0 {
      WordIn(s[2..], at - 2);
    }
  }

  /** When exactly the rewritten datagram checks: when the old one would without its flags field.  So one
      that did check still does if and only if that field was zero, as section 2 of RFC 2131 asks of the
      bits besides the broadcast flag. */
  lemma {:induction false} ChecksumStaysValid(d: seq<byte>, pseudo: seq<byte>, n: nat)
    requires Whole(d) && Rewritten(d) && |pseudo| % 2 == 0 && DHCP_END <= n && UdpAt(d) + n <= |d|
    ensures Whole(DhcpOut(d)) && ToServer(DhcpOut(d)) && UdpAt(DhcpOut(d)) == UdpAt(d)
    ensures
      var after := Fold(BeSum(Covered(DhcpOut(d), pseudo, n)));
      && (after == 0xffff <==> (LeSum(Covered(d, pseudo, n)) - OldFlags(d)) % ONES == 0)
      && (Fold(BeSum(Covered(d, pseudo, n))) == 0xffff ==> (after == 0xffff <==> OldFlags(d) == 0))
  {
    OutTotal(d, pseudo, n);
    FlagFits(d);
    var x, y := LeSum(Covered(d, pseudo, n)), LeSum(Covered(DhcpOut(d), pseudo, n));
    LargeFlags(d);
    NewTotal(x, OldCheck(d), OldFlags(d), NewFlags(d));
    Agrees(Covered(d, pseudo, n));
    Agrees(Covered(DhcpOut(d), pseudo, n));
    hide *;
    LessFlags(x, OldFlags(d));
  }

  lemma LargeFlags(d: seq<byte>)
    requires Whole(d) && ToServer(d)
    ensures OldCheck(d) <= ONES && OldFlags(d) <= ONES && (!Flagged(d) ==> OldFlags(d) < ONES)
  {
  }

  lemma {:induction false} Agrees(s: seq<byte>)
    ensures Fold(BeSum(s)) == 0xffff <==> LeSum(s) > 0 && LeSum(s) % ONES == 0
  {
    hide LeSum, BeSum, Fold;
    ChecksIsAllOnes(BeSum(s));
    OrderDoesNotMatter(s);
  }

  lemma LessFlags(x: int, flags: nat)
    requires flags < ONES
    ensures x % ONES == 0 ==> ((x - flags) % ONES == 0 <==> flags == 0)
  {
    if x % ONES == 0 {
      Multiple(x / ONES, 0 - flags);
    }
  }

  // ---------- two other things the rewriting does ----------

  /** When exactly the new checksum is the zero that means there is none (RFC 768). */
  lemma {:induction false} NewCheckIsZero(check: nat, flags: nat)
    requires check <= ONES && 0 < flags <= ONES
    ensures NewCheck(check, flags) == 0 <==> (flags - check) % ONES == 0
  {
    var n := ONES - check + flags;
    FoldKeeps(n);
    assert n == ONES * 1 + (flags - check);
    Multiple(1, flags - check);
    hide Fold;
    assert Fold(n) == ONES <==> Fold(n) % ONES == 0 && Fold(n) != 0;
  }

  /** A datagram without a checksum gets one, which is that of an all-zero datagram with the flag. */
  lemma {:induction false} NoneBecomesSome(flags: nat)
    requires 0 < flags < ONES
    ensures NewCheck(0, flags) == ONES - flags > 0
  {
    var n := ONES + flags;
    assert n % 0x1_0000 + n / 0x1_0000 == flags;
    assert Fold(n) == Fold(flags) == flags;
  }

  // ---------- dhcp_flag_bcast ----------

  // ---------- the host's byte order ----------

  lemma SwappedWord(a: byte, b: byte)
    ensures 256 * LeWord(a, b) == BeWord(a, b) + ONES * (b as int)
  {
  }

  /** A complement in the range of a checksum is told by its value modulo 65535. */
  lemma {:induction false} ComplementIs(n: nat, c: int)
    requires n > 0 && 0 <= c < ONES && (c + n) % ONES == 0
    ensures c == ONES - Fold(n)
  {
    FoldKeeps(n);
    var f := Fold(n);
    assert n == ONES * (n / ONES) + n % ONES && f == ONES * (f / ONES) + f % ONES;
    var q := (c + n) / ONES;
    assert c + f == ONES * (q - n / ONES + f / ONES);
    hide Fold;
    BetweenMultiples(c + f, q - n / ONES + f / ONES);
  }

  lemma BetweenMultiples(x: int, q: int)
    requires x == ONES * q && 0 < x < 2 * ONES
    ensures x == ONES
  {
  }

  /** The same two fields read in the other order give the same bytes of a checksum. */
  lemma {:induction false} SwappedCheck(check: nat, check': nat, cc: int, flags: nat, flags': nat, ff: int, b0: byte, b1: byte)
    requires check <= ONES && check' <= ONES && flags > 0 && flags' > 0
    requires 256 * check == check' + ONES * cc && 256 * flags == flags' + ONES * ff
    requires LeWord(b0, b1) == NewCheck(check, flags)
    ensures BeWord(b0, b1) == NewCheck(check', flags')
  {
    hide Fold, LeWord, BeWord;
    var n, m, le := ONES - check + flags, ONES - check' + flags', NewCheck(check, flags);
    FoldKeeps(n);
    SwappedWord(b0, b1);
    var k := b1 as int + 255 - cc + ff;
    assert BeWord(b0, b1) + m == 256 * (le + n) - ONES * k;
    SwappedSum(le, n, k);
    NotAllOnes(b0, b1, le);
    ComplementIs(m, BeWord(b0, b1));
  }

  lemma BytesOfWord(b: seq<byte>)
    requires |b| == 2
    ensures BeWord(b[0], b[1]) <= ONES && b == Be16(BeWord(b[0], b[1]))
  {
  }

  lemma FlagBytes(f0: byte, f1: byte)
    requires f0 < 0x80
    ensures 0 < LeWord(f0, f1) + 0x80 <= ONES && LeBytes(LeWord(f0, f1) + 0x80) == [f0 + 0x80, f1]
    ensures 0 < BeWord(f0, f1) + 0x8000 <= ONES && Be16(BeWord(f0, f1) + 0x8000) == [f0 + 0x80, f1]
  {
  }

  lemma WordsFit(a: byte, b: byte)
    ensures LeWord(a, b) <= ONES && BeWord(a, b) <= ONES
  {
  }

  lemma FlagSwapped(x: int, y: int, b: int)
    requires 256 * x == y + ONES * b
    ensures 256 * (x + 0x80) == y + 0x8000 + ONES * b
  {
  }

  /** The bytes that are written do not depend on the order in which the host reads and writes words. */
  lemma {:induction false} HostDoesNotMatter(c0: byte, c1: byte, f0: byte, f1: byte)
    requires f0 < 0x80
    ensures LeWord(f0, f1) + 0x80 <= ONES && LeWord(c0, c1) <= ONES && BeWord(c0, c1) <= ONES && BeWord(f0, f1) + 0x8000 <= ONES
    ensures LeBytes(LeWord(f0, f1) + 0x80) == Be16(BeWord(f0, f1) + 0x8000)
    ensures LeBytes(NewCheck(LeWord(c0, c1), LeWord(f0, f1) + 0x80)) == Be16(NewCheck(BeWord(c0, c1), BeWord(f0, f1) + 0x8000))
  {
    hide *;
    FlagBytes(f0, f1);
    WordsFit(c0, c1);
    SwappedWord(c0, c1);
    SwappedWord(f0, f1);
    FlagSwapped(LeWord(f0, f1), BeWord(f0, f1), f1 as int);
    var b := LeBytes(NewCheck(LeWord(c0, c1), LeWord(f0, f1) + 0x80));
    SwappedCheck(LeWord(c0, c1), BeWord(c0, c1), c1 as int, LeWord(f0, f1) + 0x80, BeWord(f0, f1) + 0x8000, f1 as int, b[0], b[1]);
    BytesOfWord(b);
  }

  lemma {:induction false} SwappedSum(le: nat, n: nat, k: int)
    requires (le + Fold(n)) % ONES == 0
    ensures (256 * (le + n) - ONES * k) % ONES == 0
  {
    FoldKeeps(n);
    hide Fold;
    var f := Fold(n);
    var q := (le + f) / ONES;
    assert n == ONES * (n / ONES) + n % ONES && f == ONES * (f / ONES) + f % ONES;
    assert le + n == ONES * (q + n / ONES - f / ONES);
    Multiple(256 * (q + n / ONES - f / ONES) - k, 0);
  }

  lemma NotAllOnes(a: byte, b: byte, le: nat)
    requires LeWord(a, b) == le < ONES
    ensures BeWord(a, b) < ONES
  {
  }

  /** The fold as the source's loop does it. */
  method FoldSum(n: nat) returns (sum: nat)
    ensures sum == Fold(n) && sum <= ONES
  {
    FoldKeeps(n);
    sum := n;
    while sum / 0x1_0000 != 0
      invariant Fold(sum) == Fold(n)
      decreases sum
    {
      FoldStep(sum);
      sum := sum % 0x1_0000 + sum / 0x1_0000;
    }
  }

  method FlagBcast(skb: SkBuff, disable: bool)
    requires skb.Valid() && Whole(skb.Data())
    modifies skb.buf
    ensures skb.Valid() && skb.Data() == if disable then old(skb.Data()) else DhcpOut(old(skb.Data()))
  {
    if disable {
      return;
    }
    ghost var d := skb.Data();
    if !(skb.Data()[12] == 0x08 && skb.Data()[13] == 0x00) {
      return;
    }
    if skb.Data()[23] != 17 {
      return;
    }
    var udph := 14 + 4 * (skb.Data()[14] as int % 16);
    if !(Read16(skb.Data(), udph) == 68 && Read16(skb.Data(), udph + 2) == 67) {
      return;
    }
    if skb.Data()[udph + COOKIE_AT..udph + DHCP_END] != [0x63, 0x82, 0x53, 0x63] {
      return;
    }
    if skb.Data()[udph + FLAGS_AT] >= 0x80 {
      return;
    }
    FlagFits(d);
    Rewrite(skb, udph);
  }

  /** The flag set and the checksum brought up to date. */
  method Rewrite(skb: SkBuff, udph: nat)
    requires skb.Valid() && Whole(skb.Data()) && Rewritten(skb.Data()) && udph == UdpAt(skb.Data())
    modifies skb.buf
    ensures skb.Valid() && skb.Data() == DhcpOut(old(skb.Data()))
  {
    hide Put, Fold, Whole, ToServer, IsUdp, IsRequest, Rewritten, Flagged, NewFlags, OldCheck, OldFlags, DhcpOut, NewCheck, LeBytes, LeWord, UdpAt;
    ghost var d := skb.Data();
    OutIs(d, udph);
    var check := LeWord(skb.Data()[udph + CHECK_AT], skb.Data()[udph + CHECK_AT + 1]);
    var flags := LeWord(skb.Data()[udph + FLAGS_AT], skb.Data()[udph + FLAGS_AT + 1]) + 0x80;
    skb.Write(udph + FLAGS_AT, LeBytes(flags));
    var sum := FoldSum(ONES - check + flags);
    skb.Write(udph + CHECK_AT, LeBytes(ONES - sum));
  }

  lemma {:induction false} OutIs(d: seq<byte>, u: nat)
    requires Whole(d) && Rewritten(d) && u == UdpAt(d)
    ensures u + DHCP_END <= |d|
    ensures
      var check := LeWord(d[u + CHECK_AT], d[u + CHECK_AT + 1]);
      var flags := LeWord(d[u + FLAGS_AT], d[u + FLAGS_AT + 1]) + 0x80;
      && check <= ONES && flags <= ONES && Fold(ONES - check + flags) <= ONES
      && DhcpOut(d) == Put(Put(d, u + FLAGS_AT, LeBytes(flags)), u + CHECK_AT, LeBytes(ONES - Fold(ONES - check + flags)))
  {
    hide Put, LeBytes, Fold, NewCheck, DhcpOut, Whole, ToServer, IsUdp, IsRequest, Flagged, NewFlags, OldCheck, OldFlags, UdpAt, Rewritten;
    DhcpOutIs(d);
    OldFields(d);
    NewCheckIs(OldCheck(d), NewFlags(d));
  }

  lemma NewCheckIs(check: nat, flags: nat)
    requires check <= ONES
    ensures Fold(ONES - check + flags) <= ONES && NewCheck(check, flags) == ONES - Fold(ONES - check + flags)
  {
    FoldKeeps(ONES - check + flags);
  }

  lemma OldFields(d: seq<byte>)
    requires Whole(d) && Rewritten(d)
    ensures ToServer(d) && UdpAt(d) + DHCP_END <= |d|
    ensures OldCheck(d) == LeWord(d[UdpAt(d) + CHECK_AT], d[UdpAt(d) + CHECK_AT + 1]) <= ONES
    ensures NewFlags(d) == LeWord(d[UdpAt(d) + FLAGS_AT], d[UdpAt(d) + FLAGS_AT + 1]) + 0x80
  {
  }

  /** Which frames get the flag: IPv4 and UDP, from port 68 to port 67, with the DHCP cookie and without the flag.
      The first bit of the flags field is set, the checksum is written, and no other byte changes. */
  lemma {:induction false} RequestIsFlagged(d: seq<byte>, k: nat)
    requires Whole(d) && k < |d|
    ensures
      var u := if |d| >= 15 then 14 + 4 * (d[14] as int % 16) else 0;
      var request :=
        && d[12] == 0x08 && d[13] == 0x00 && |d| >= 24 && d[23] == 17
        && u + 4 <= |d| && d[u] == 0 && d[u + 1] == 68 && d[u + 2] == 0 && d[u + 3] == 67
        && u + 248 <= |d| && d[u + 244] == 0x63 && d[u + 245] == 0x82 && d[u + 246] == 0x53 && d[u + 247] == 0x63
        && d[u + 18] < 0x80;
      if request && k == u + 18 then DhcpOut(d)[k] == d[k] + 0x80
      else (request && (k == u + 6 || k == u + 7)) || DhcpOut(d)[k] == d[k]
  {
    hide DhcpOut, Whole, ToServer, IsUdp, IsIp, IsRequest, Flagged, Rewritten, UdpAt, FLAGS_AT, CHECK_AT, COOKIE_AT, DHCP_END;
    WholeIs(d);
    RequestIs(d);
    if Rewritten(d) {
      FlaggedByte(d, k);
    } else {
      RewritingShows(d);
    }
  }

  lemma WholeIs(d: seq<byte>)
    requires Whole(d)
    ensures |d| >= 14
  {
  }

  /** What is rewritten, in bytes. */
  lemma {:induction false} RequestIs(d: seq<byte>)
    requires Whole(d)
    ensures |d| >= 14
    ensures Rewritten(d) <==>
      && d[12] == 0x08 && d[13] == 0x00 && |d| >= 24 && d[23] == 17
      && var u := 14 + 4 * (d[14] as int % 16);
      && u + 4 <= |d| && d[u] == 0 && d[u + 1] == 68 && d[u + 2] == 0 && d[u + 3] == 67
      && u + 248 <= |d| && d[u + 244] == 0x63 && d[u + 245] == 0x82 && d[u + 246] == 0x53 && d[u + 247] == 0x63
      && d[u + 18] < 0x80
    ensures Rewritten(d) ==> |d| >= 24 && UdpAt(d) == 14 + 4 * (d[14] as int % 16)
  {
    if IsUdp(d) {
      PortIs(d, UdpAt(d), 68);
      PortIs(d, UdpAt(d) + 2, 67);
    }
    if ToServer(d) {
      Cookie(d, UdpAt(d));
    }
  }

  lemma PortIs(d: seq<byte>, i: nat, port: nat)
    requires i + 2 <= |d| && port < 0x100
    ensures Read16(d, i) == port <==> d[i] == 0 && d[i + 1] as int == port
  {
  }

  lemma Cookie(d: seq<byte>, u: nat)
    requires u + 248 <= |d|
    ensures d[u + COOKIE_AT..u + DHCP_END] == [0x63, 0x82, 0x53, 0x63] <==>
      d[u + 244] == 0x63 && d[u + 245] == 0x82 && d[u + 246] == 0x53 && d[u + 247] == 0x63
  {
    assert d[u + COOKIE_AT..u + DHCP_END] == [d[u + 244], d[u + 245], d[u + 246], d[u + 247]];
  }

  lemma {:induction false} FlaggedByte(d: seq<byte>, k: nat)
    requires Whole(d) && Rewritten(d) && k < |d|
    ensures
      var u := UdpAt(d);
      if k == u + 18 then DhcpOut(d)[k] == d[k] + 0x80 else (k == u + 6 || k == u + 7 || DhcpOut(d)[k] == d[k])
  {
    LowByte(d);
    HighByte(d);
    hide Put, LeBytes, NewCheck, NewFlags, OldCheck, DhcpOut, IsRequest, Flagged, Rewritten;
    DhcpOutIs(d);
    var u, w, c := UdpAt(d), LeBytes(NewFlags(d)), LeBytes(NewCheck(OldCheck(d), NewFlags(d)));
    var f := Put(d, u + FLAGS_AT, w);
    PutThere(d, u + FLAGS_AT, w);
    if k == u + 18 || k == u + 19 {
      PutLeaves(f, u + CHECK_AT, c, k);
    } else if k != u + 6 && k != u + 7 {
      PutLeaves(d, u + FLAGS_AT, w, k);
      PutLeaves(f, u + CHECK_AT, c, k);
    }
  }

  lemma HighByte(d: seq<byte>)
    requires Whole(d) && Rewritten(d)
    ensures NewFlags(d) <= ONES && LeBytes(NewFlags(d))[1] == d[UdpAt(d) + FLAGS_AT + 1]
  {
  }
}
