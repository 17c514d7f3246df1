/** The NAT2.5 database as a finite map: keys, the wrapping clock, ageing, and what each operation does
    to the map (`core/rtw_br_ext.c`). */
module Nat25Spec {
  import opened Memory

  const HASH_SIZE: nat := 16
  const MAX_NETWORK_ADDR_LEN: nat := 17

  const NAT25_IPV4: byte := 1
  const NAT25_IPV6: byte := 2
  const NAT25_IPX: byte := 3
  const NAT25_APPLE: byte := 4
  const NAT25_PPPOE: byte := 5

  /** A network address record: a type byte and 16 more. */
  type NetAddr = a: seq<byte> | |a| == MAX_NETWORK_ADDR_LEN witness seq(MAX_NETWORK_ADDR_LEN, i => 0)

  type Mac = m: seq<byte> | |m| == 6 witness [0, 0, 0, 0, 0, 0]

  type Ip = a: seq<byte> | |a| == 4 witness [0, 0, 0, 0]

  const NO_MAC: Mac := [0, 0, 0, 0, 0, 0]
  const NO_IP: Ip := [0, 0, 0, 0]

  // ---------- keys ----------

  /** Bytes 7 to 10 hold the IPv4 address. */
  function Ipv4Addr(ip: Ip): NetAddr {
    [NAT25_IPV4, 0, 0, 0, 0, 0, 0] + ip + [0, 0, 0, 0, 0, 0]
  }

  /** Bytes 1 and 2 hold the session id and bytes 3 to 8 the access concentrator's MAC. */
  function PppoeAddr(ac: Mac, sid: seq<byte>): NetAddr
    requires |sid| == 2
  {
    [NAT25_PPPOE] + sid + ac + [0, 0, 0, 0, 0, 0, 0, 0]
  }

  function Ipv6Addr(ip: seq<byte>): NetAddr
    requires |ip| == 16
  {
    [NAT25_IPV6] + ip
  }

  /** Keys of these three kinds name exactly one address each. */
  lemma KeysAreDistinct(ip: Ip, ip': Ip, six: seq<byte>, six': seq<byte>, ac: Mac, ac': Mac, sid: seq<byte>, sid': seq<byte>)
    requires |six| == |six'| == 16 && |sid| == |sid'| == 2
    ensures Ipv4Addr(ip) == Ipv4Addr(ip') <==> ip == ip'
    ensures Ipv6Addr(six) == Ipv6Addr(six') <==> six == six'
    ensures PppoeAddr(ac, sid) == PppoeAddr(ac', sid') <==> ac == ac' && sid == sid'
    ensures Ipv4Addr(ip) != Ipv6Addr(six) && Ipv4Addr(ip) != PppoeAddr(ac, sid) && Ipv6Addr(six) != PppoeAddr(ac, sid)
  {
    if Ipv4Addr(ip) == Ipv4Addr(ip') {
      assert ip == Ipv4Addr(ip)[7..11] && ip' == Ipv4Addr(ip')[7..11];
    }
    if Ipv6Addr(six) == Ipv6Addr(six') {
      assert six == Ipv6Addr(six)[1..] && six' == Ipv6Addr(six')[1..];
    }
    if PppoeAddr(ac, sid) == PppoeAddr(ac', sid') {
      assert sid == PppoeAddr(ac, sid)[1..3] && sid' == PppoeAddr(ac', sid')[1..3];
      assert ac == PppoeAddr(ac, sid)[3..9] && ac' == PppoeAddr(ac', sid')[3..9];
    }
    assert Ipv4Addr(ip)[0] == 1 && Ipv6Addr(six)[0] == 2 && PppoeAddr(ac, sid)[0] == 5;
  }

  /** The low four bits of the exclusive or of some bytes: the hash size is 16. */
  function Xor4(s: seq<byte>): (h: nat)
    ensures h < HASH_SIZE
  {
    if s == [] then 0 else (((s[0] % 16) as bv4) ^ (Xor4(s[1..]) as bv4)) as nat
  }

  /** Which bytes are mixed depends on the kind of address. */
  function Hash(a: NetAddr): (h: nat)
    ensures h < HASH_SIZE
  {
    if a[0] == NAT25_IPV4 then Xor4(a[7..11])
    else if a[0] == NAT25_IPX then Xor4(a[1..11])
    else if a[0] == NAT25_APPLE then Xor4(a[1..4])
    else if a[0] == NAT25_PPPOE then Xor4(a[0..9])
    else if a[0] == NAT25_IPV6 then Xor4(a[1..17])
    else Xor4(a)
  }

  // ---------- the clock ----------

  /** Half the range of the jiffies counter (an unsigned long). */
  const HALF: nat := 0x8000_0000_0000_0000

  type Jiffies = j: int | 0 <= j < 2 * HALF

  function Wrap(x: int): Jiffies {
    x % (2 * HALF)
  }

  /** `time_before_eq(a, b)`: the signed difference b - a is not negative. */
  predicate TimeBeforeEq(a: Jiffies, b: Jiffies) {
    Wrap(b - a) < HALF
  }

  predicate HasExpired(timer: Jiffies, now: Jiffies, ageing: nat) {
    TimeBeforeEq(timer, Wrap(now - ageing))
  }

  /** Exactly when the wrapping comparison calls an entry expired: the time since it was refreshed has
      reached the ageing time, and has not yet gone half the clock's range beyond it. */
  lemma ExpiredExactly(timer: Jiffies, now: Jiffies, ageing: nat)
    requires ageing <= HALF
    ensures
      var elapsed := Wrap(now - timer);
      HasExpired(timer, now, ageing) <==> ageing <= elapsed < ageing + HALF
  {
    WrapTwice(now - ageing, timer);
    WrapTwice(now - timer, ageing);
    assert now - ageing - timer == now - timer - ageing;
    WrapBack(Wrap(now - timer), ageing);
    hide Wrap;
  }

  lemma WrapBack(elapsed: Jiffies, ageing: nat)
    requires ageing <= HALF
    ensures Wrap(elapsed - ageing) == if elapsed >= ageing then elapsed - ageing else elapsed - ageing + 2 * HALF
  {
  }

  lemma WrapTwice(x: int, y: int)
    ensures Wrap(Wrap(x) - y) == Wrap(x - y)
  {
  }

  /** An entry older than that counts as fresh again, whenever it was made. */
  lemma {:induction false} VeryOldEntryIsFresh(timer: Jiffies, now: Jiffies, ageing: nat)
    requires ageing <= HALF && Wrap(now - timer) >= ageing + HALF
    ensures !HasExpired(timer, now, ageing)
  {
    hide HasExpired, Wrap;
    ExpiredExactly(timer, now, ageing);
  }

  // ---------- the map ----------

  datatype Entry = Entry(mac: Mac, timer: Jiffies, count: int)

  type Db = map<NetAddr, Entry>

  function Hit(db: Db, a: NetAddr): Db
    requires a in db
  {
    db[a := db[a].(count := db[a].count + 1)]
  }

  /** A hit on a live entry counts; the lookup succeeds on any entry with the key. */
  function LookedUp(db: Db, a: NetAddr, now: Jiffies, ageing: nat): Db {
    if a in db && !HasExpired(db[a].timer, now, ageing) then Hit(db, a) else db
  }

  function Inserted(db: Db, a: NetAddr, mac: Mac, now: Jiffies): Db {
    db[a := if a in db then db[a].(mac := mac, timer := now) else Entry(mac, now, 1)]
  }

  predicate Drops(e: Entry, now: Jiffies, ageing: nat) {
    HasExpired(e.timer, now, ageing) && e.count == 1
  }

  function Older(e: Entry, now: Jiffies, ageing: nat): Entry {
    if HasExpired(e.timer, now, ageing) then e.(count := e.count - 1) else e
  }

  /** An expiry pass: an expired entry loses one use, and goes with its last one. */
  function Expired(db: Db, now: Jiffies, ageing: nat): Db {
    map a | a in db && !Drops(db[a], now, ageing) :: Older(db[a], now, ageing)
  }

  predicate Counted(db: Db) {
    forall a :: a in db ==> db[a].count >= 1
  }

  // ---------- the short cut ----------

  /** The one client remembered beside the table: its address and MAC, and whether the entry it was found
      in is still named (`scdb_ip`, `scdb_mac`, `scdb_entry`). */
  datatype Short = Short(linked: bool, ip: Ip, mac: Mac)

  const NO_SHORT := Short(false, NO_IP, NO_MAC)

  datatype Nat = Nat(db: Db, short: Short)

  predicate WellLinked(n: Nat) {
    n.short.linked ==> Ipv4Addr(n.short.ip) in n.db
  }

  function Touched(db: Db, a: NetAddr, now: Jiffies): Db {
    if a in db then db[a := db[a].(timer := now)] else db
  }

  /** The entry that an IP frame of a client refreshes, if it does. */
  function Remembers(n: Nat, mac: Mac, ip: Ip): Option<NetAddr> {
    if mac != n.short.mac then if Ipv4Addr(ip) in n.db then Some(Ipv4Addr(ip)) else None
    else if n.short.linked then Some(Ipv4Addr(n.short.ip))
    else None
  }

  /** What an IP frame of a client does: another MAC than the remembered one is looked up and remembered if
      its address has an entry, whatever MAC that entry holds; if it has none, only the entry is forgotten. */
  function Remembered(n: Nat, mac: Mac, ip: Ip, now: Jiffies): Nat {
    match Remembers(n, mac, ip)
    case Some(a) => Nat(Touched(n.db, a, now), if mac != n.short.mac then Short(true, ip, mac) else n.short)
    case None => Nat(n.db, if mac != n.short.mac then n.short.(linked := false) else NO_SHORT)
  }

  /** Expiry and cleanup forget the client when they free its entry. */
  function Passed(n: Nat, now: Jiffies, ageing: nat): Nat {
    var a := Ipv4Addr(n.short.ip);
    Nat(Expired(n.db, now, ageing),
        if n.short.linked && a in n.db && Drops(n.db[a], now, ageing) then NO_SHORT else n.short)
  }

  function Cleared(n: Nat): Nat {
    Nat(map[], if n.short.linked then NO_SHORT else n.short)
  }

  // ---------- runs ----------

  datatype Op =
    | Lookup(addr: NetAddr, now: Jiffies)
    | Insert(addr: NetAddr, mac: Mac, now: Jiffies)
    | Expire(now: Jiffies)
    | Cleanup
    | Remember(mac: Mac, ip: Ip, now: Jiffies)

  function Step(n: Nat, op: Op, ageing: nat): Nat {
    match op
    case Lookup(a, now) => n.(db := LookedUp(n.db, a, now, ageing))
    case Insert(a, mac, now) => n.(db := Inserted(n.db, a, mac, now))
    case Expire(now) => Passed(n, now, ageing)
    case Cleanup => Cleared(n)
    case Remember(mac, ip, now) => Remembered(n, mac, ip, now)
  }

  function Run(n: Nat, ops: seq<Op>, ageing: nat): Nat
    decreases |ops|
  {
    if ops == [] then n else Run(Step(n, ops[0], ageing), ops[1..], ageing)
  }

  /** Over every run each entry in the map has a use left, and a named entry is in the map. */
  lemma {:induction false} CountedOverRuns(n: Nat, ops: seq<Op>, ageing: nat)
    requires Counted(n.db) && WellLinked(n)
    ensures Counted(Run(n, ops, ageing).db) && WellLinked(Run(n, ops, ageing))
    decreases |ops|
  {
    if ops != [] {
      hide HasExpired, Ipv4Addr;
      CountedOverRuns(Step(n, ops[0], ageing), ops[1..], ageing);
    }
  }

  /** In this operation the entry counts as expired, and it is neither refreshed nor swept away. */
  predicate Neglects(n: Nat, op: Op, a: NetAddr, timer: Jiffies, ageing: nat) {
    match op
    case Insert(b, _, _) => a != b
    case Lookup(_, now) => HasExpired(timer, now, ageing)
    case Expire(now) => HasExpired(timer, now, ageing)
    case Cleanup => false
    case Remember(mac, ip, _) => Remembers(n, mac, ip) != Some(a)
  }

  predicate NeglectedIn(n: Nat, ops: seq<Op>, a: NetAddr, timer: Jiffies, ageing: nat)
    decreases |ops|
  {
    ops == [] || (Neglects(n, ops[0], a, timer, ageing) && NeglectedIn(Step(n, ops[0], ageing), ops[1..], a, timer, ageing))
  }

  function Passes(ops: seq<Op>): nat {
    if ops == [] then 0 else (if ops[0].Expire? then 1 else 0) + Passes(ops[1..])
  }

  /** An expired entry of count c that is not refreshed is removed by exactly the c-th expiry pass, no
      matter how often it is looked up or what happens to other entries. */
  lemma {:induction false} RemovedOnPassCount(n: Nat, a: NetAddr, ops: seq<Op>, ageing: nat)
    requires a in n.db && n.db[a].count >= 1
    requires NeglectedIn(n, ops, a, n.db[a].timer, ageing)
    ensures a in Run(n, ops, ageing).db <==> Passes(ops) < n.db[a].count
    ensures a in Run(n, ops, ageing).db ==>
      Run(n, ops, ageing).db[a] == n.db[a].(count := n.db[a].count - Passes(ops))
    decreases |ops|
  {
    if ops != [] {
      hide HasExpired, Ipv4Addr;
      var next := Step(n, ops[0], ageing);
      if a in next.db {
        RemovedOnPassCount(next, a, ops[1..], ageing);
      } else {
        StaysAway(next, a, ops[1..], n.db[a].timer, ageing);
        assert Passes(ops) >= 1;
      }
    }
  }

  lemma {:induction false} StaysAway(n: Nat, a: NetAddr, ops: seq<Op>, timer: Jiffies, ageing: nat)
    requires a !in n.db && NeglectedIn(n, ops, a, timer, ageing)
    ensures a !in Run(n, ops, ageing).db
    decreases |ops|
  {
    if ops != [] {
      hide HasExpired, Ipv4Addr;
      StaysAway(Step(n, ops[0], ageing), a, ops[1..], timer, ageing);
    }
  }

  /** In this operation the entry does not count as expired, and is not given another MAC. */
  predicate Spares(n: Nat, op: Op, a: NetAddr, ageing: nat) {
    match op
    case Insert(b, mac, _) => a == b && a in n.db ==> mac == n.db[a].mac
    case Expire(now) => a in n.db ==> !HasExpired(n.db[a].timer, now, ageing)
    case Cleanup => false
    case _ => true
  }

  predicate SparedIn(n: Nat, ops: seq<Op>, a: NetAddr, ageing: nat)
    decreases |ops|
  {
    ops == [] || (Spares(n, ops[0], a, ageing) && SparedIn(Step(n, ops[0], ageing), ops[1..], a, ageing))
  }

  /** An entry outlives every run in which it has not expired, with its MAC. */
  lemma {:induction false} FreshEntryStays(n: Nat, a: NetAddr, ops: seq<Op>, ageing: nat)
    requires a in n.db && SparedIn(n, ops, a, ageing)
    ensures a in Run(n, ops, ageing).db && Run(n, ops, ageing).db[a].mac == n.db[a].mac
    decreases |ops|
  {
    if ops != [] {
      hide HasExpired, Ipv4Addr;
      FreshEntryStays(Step(n, ops[0], ageing), a, ops[1..], ageing);
    }
  }

  // ---------- is the short cut right? ----------

  predicate IsSet(s: Short) {
    s.ip != NO_IP || s.mac != NO_MAC
  }

  /** Frames that take the short cut go where the table would send them: the map has the remembered address
      with the remembered MAC. */
  predicate Honest(n: Nat) {
    IsSet(n.short) ==> Ipv4Addr(n.short.ip) in n.db && n.db[Ipv4Addr(n.short.ip)].mac == n.short.mac
  }

  /** The operations after which it is not, from a state in which it is: the address gets another MAC; the
      entry goes while it is no longer named; or a client is remembered by an entry that holds another
      MAC. */
  predicate Spoils(n: Nat, op: Op, ageing: nat) {
    var a := Ipv4Addr(n.short.ip);
    match op
    case Lookup(_, _) => false
    case Insert(b, mac, _) => IsSet(n.short) && b == a && mac != n.short.mac
    case Expire(now) => IsSet(n.short) && !n.short.linked && a in n.db && Drops(n.db[a], now, ageing)
    case Cleanup => IsSet(n.short) && !n.short.linked
    case Remember(mac, ip, _) =>
      mac != n.short.mac && Ipv4Addr(ip) in n.db && n.db[Ipv4Addr(ip)].mac != mac && (ip != NO_IP || mac != NO_MAC)
  }

  lemma SameKey(ip: Ip, ip': Ip)
    ensures Ipv4Addr(ip) == Ipv4Addr(ip') <==> ip == ip'
  {
    assert Ipv4Addr(ip)[7..11] == ip && Ipv4Addr(ip')[7..11] == ip';
  }

  lemma {:induction false} HonestStep(n: Nat, op: Op, ageing: nat)
    requires Honest(n) && WellLinked(n)
    ensures Honest(Step(n, op, ageing)) <==> !Spoils(n, op, ageing)
  {
    hide HasExpired, Ipv4Addr;
  }

  predicate SpoiltIn(n: Nat, ops: seq<Op>, ageing: nat)
    decreases |ops|
  {
    ops != [] && (Spoils(n, ops[0], ageing) || SpoiltIn(Step(n, ops[0], ageing), ops[1..], ageing))
  }

  /** The short cut is right after every stretch of a run if and only if no operation of the run is one of
      those. */
  lemma {:induction false} HonestExactly(n: Nat, ops: seq<Op>, ageing: nat)
    requires Honest(n) && Counted(n.db) && WellLinked(n)
    ensures (forall k :: 0 <= k <= |ops| ==> Honest(Run(n, ops[..k], ageing))) <==> !SpoiltIn(n, ops, ageing)
    decreases |ops|
  {
    if ops == [] {
      assert ops[..0] == [];
    } else {
      var next := Step(n, ops[0], ageing);
      HonestStep(n, ops[0], ageing);
      CountedOverRuns(n, [ops[0]], ageing);
      assert Run(n, [ops[0]], ageing) == next by { assert [ops[0]][1..] == []; }
      hide Honest, Step, Spoils, Counted, WellLinked;
      forall k | 0 <= k < |ops|
        ensures Run(n, ops[..k + 1], ageing) == Run(next, ops[1..][..k], ageing)
      {
        assert ops[..k + 1][1..] == ops[1..][..k];
      }
      assert Run(n, ops[..0], ageing) == n && ops[..1] == [ops[0]];
      if Honest(next) {
        HonestExactly(next, ops[1..], ageing);
        Stretches(n, ops, ageing);
      }
    }
  }

  lemma {:induction false} Stretches(n: Nat, ops: seq<Op>, ageing: nat)
    requires ops != [] && Honest(n)
    requires forall k :: 0 <= k < |ops| ==> Run(n, ops[..k + 1], ageing) == Run(Step(n, ops[0], ageing), ops[1..][..k], ageing)
    ensures (forall k :: 0 <= k <= |ops| ==> Honest(Run(n, ops[..k], ageing))) <==>
      forall k :: 0 <= k <= |ops[1..]| ==> Honest(Run(Step(n, ops[0], ageing), ops[1..][..k], ageing))
  {
    hide Honest, Step;
    assert Run(n, ops[..0], ageing) == n;
    if forall k :: 0 <= k <= |ops| ==> Honest(Run(n, ops[..k], ageing)) {
      forall k | 0 <= k <= |ops[1..]|
        ensures Honest(Run(Step(n, ops[0], ageing), ops[1..][..k], ageing))
      {
        assert Honest(Run(n, ops[..k + 1], ageing));
      }
    }
    if forall k :: 0 <= k <= |ops[1..]| ==> Honest(Run(Step(n, ops[0], ageing), ops[1..][..k], ageing)) {
      forall k | 0 <= k <= |ops|
        ensures Honest(Run(n, ops[..k], ageing))
      {
        if k > 0 {
          assert Honest(Run(Step(n, ops[0], ageing), ops[1..][..k - 1], ageing));
        }
      }
    }
  }

  /** A run that fails: a client is heard and remembered; a frame comes from another MAC with an address
      that the table does not know; the client's entry ages out.  Its address and MAC stay remembered. */
  lemma {:induction false} StaleShortCut(ip: Ip, mac: Mac, other: Mac, unknown: Ip, ageing: nat)
    requires ip != unknown && mac != other && mac != NO_MAC && 0 < ageing < HALF
    ensures
      var ops := [Insert(Ipv4Addr(ip), mac, 0), Remember(mac, ip, 0), Remember(other, unknown, 1), Expire(ageing)];
      Run(Nat(map[], NO_SHORT), ops, ageing) == Nat(map[], Short(false, ip, mac))
  {
    SameKey(ip, unknown);
    ExpiredExactly(0, ageing, ageing);
    assert Wrap(ageing - 0) == ageing;
    var a := Ipv4Addr(ip);
    var ops := [Insert(a, mac, 0), Remember(mac, ip, 0), Remember(other, unknown, 1), Expire(ageing)];
    var n1 := Nat(map[a := Entry(mac, 0, 1)], NO_SHORT);
    var n2 := Nat(map[a := Entry(mac, 0, 1)], Short(true, ip, mac));
    hide HasExpired, Ipv4Addr, Wrap;
    assert Step(Nat(map[], NO_SHORT), ops[0], ageing) == n1;
    assert Step(n1, ops[1], ageing) == n2;
    assert Step(n2, ops[2], ageing) == n2.(short := Short(false, ip, mac));
    assert Step(n2.(short := Short(false, ip, mac)), ops[3], ageing) == Nat(map[], Short(false, ip, mac));
    hide Step;
    assert ops[1..][0] == ops[1] && ops[1..][1..][0] == ops[2] && ops[1..][1..][1..][0] == ops[3];
    assert Run(n2.(short := Short(false, ip, mac)), ops[1..][1..][1..], ageing) == Nat(map[], Short(false, ip, mac));
    assert Run(n2, ops[1..][1..], ageing) == Nat(map[], Short(false, ip, mac));
    assert Run(n1, ops[1..], ageing) == Nat(map[], Short(false, ip, mac));
  }

  // ---------- what an entry holds ----------

  /** The operation gives the entry a MAC and a time, or renews its time. */
  predicate Renews(n: Nat, op: Op, a: NetAddr) {
    match op
    case Insert(b, _, _) => b == a
    case Remember(mac, ip, _) =>
      if mac != n.short.mac then Ipv4Addr(ip) in n.db && Ipv4Addr(ip) == a else n.short.linked && Ipv4Addr(n.short.ip) == a
    case _ => false
  }

  /** How an operation changes the use count of an entry made at a time: a lookup before it expires counts,
      an expiry pass afterwards takes one. */
  function Uses(op: Op, a: NetAddr, timer: Jiffies, ageing: nat): int {
    match op
    case Lookup(b, now) => if b == a && !HasExpired(timer, now, ageing) then 1 else 0
    case Expire(now) => if HasExpired(timer, now, ageing) then -1 else 0
    case _ => 0
  }

  function UsesIn(ops: seq<Op>, a: NetAddr, timer: Jiffies, ageing: nat): int {
    if ops == [] then 0 else Uses(ops[0], a, timer, ageing) + UsesIn(ops[1..], a, timer, ageing)
  }

  predicate RenewedIn(n: Nat, ops: seq<Op>, a: NetAddr, ageing: nat)
    decreases |ops|
  {
    ops != [] && (Renews(n, ops[0], a) || RenewedIn(Step(n, ops[0], ageing), ops[1..], a, ageing))
  }

  /** The entry is in the map all along. */
  predicate StaysIn(n: Nat, ops: seq<Op>, a: NetAddr, ageing: nat)
    decreases |ops|
  {
    a in n.db && (ops == [] || StaysIn(Step(n, ops[0], ageing), ops[1..], a, ageing))
  }

  lemma {:induction false} EntryStep(n: Nat, op: Op, a: NetAddr, ageing: nat)
    requires a in n.db && a in Step(n, op, ageing).db && !Renews(n, op, a)
    ensures Step(n, op, ageing).db[a] == n.db[a].(count := n.db[a].count + Uses(op, a, n.db[a].timer, ageing))
  {
    hide HasExpired, Ipv4Addr;
  }

  /** Over every run an entry that is not renewed keeps its MAC and its time, and its use count is what it was
      with the lookups that found it fresh and without the passes that found it expired. */
  lemma {:induction false} EntryOverRuns(n: Nat, ops: seq<Op>, a: NetAddr, ageing: nat)
    requires StaysIn(n, ops, a, ageing) && !RenewedIn(n, ops, a, ageing)
    ensures a in Run(n, ops, ageing).db
    ensures Run(n, ops, ageing).db[a] == n.db[a].(count := n.db[a].count + UsesIn(ops, a, n.db[a].timer, ageing))
    decreases |ops|
  {
    if ops != [] {
      EntryStep(n, ops[0], a, ageing);
      hide Step, Renews, Uses;
      EntryOverRuns(Step(n, ops[0], ageing), ops[1..], a, ageing);
    }
  }

  /** What renewing does: an insert gives MAC and time, and count 1 to a new entry; being remembered renews the
      time only. */
  lemma {:induction false} RenewedEntry(n: Nat, op: Op, a: NetAddr, ageing: nat)
    requires Renews(n, op, a) && WellLinked(n)
    ensures a in Step(n, op, ageing).db
    ensures
      var e := Step(n, op, ageing).db[a];
      match op
      case Insert(_, mac, now) => e.mac == mac && e.timer == now && e.count == if a in n.db then n.db[a].count else 1
      case Remember(_, _, now) => a in n.db && e == n.db[a].(timer := now)
      case _ => false
  {
    hide Ipv4Addr;
  }
}
