/** The NAT2.5 hash table as the source keeps it: sixteen chains of nodes, each node naming its successor
    and the very slot that points to it (`core/rtw_br_ext.c`). */
module Nat25Table {
  import opened Memory
  import opened Nat25Spec
  import opened Nat25Rows

  /** What `pprev_hash` points to: a bucket's head, or the `next_hash` of another node. */
  datatype Slot = Nowhere | Head(bucket: nat) | NextOf(node: Node)

  class Node {
    const addr: NetAddr
    var next: Node?
    var pprev: Slot
    var useCount: int
    var mac: Mac
    var timer: Jiffies
    ghost var freed: bool

    constructor (addr: NetAddr, mac: Mac, timer: Jiffies)
      ensures this.addr == addr && this.mac == mac && this.timer == timer && useCount == 1 && !freed
      ensures next == null && pprev == Nowhere
    {
      this.addr, this.mac, this.timer, useCount, freed := addr, mac, timer, 1, false;
      next, pprev := null, Nowhere;
    }
  }

  // ---------- chains ----------

  function Nth(c: seq<Node>, k: nat): Node? {
    if k < |c| then c[k] else null
  }

  function SlotOf(c: seq<Node>, h: nat, k: nat): Slot
    requires k <= |c|
  {
    if k == 0 then Head(h) else NextOf(c[k - 1])
  }

  /** The chain c hangs from bucket h: each slot points to the next node, which names that slot. */
  ghost predicate Links(head: Node?, h: nat, c: seq<Node>)
    reads c`next, c`pprev
  {
    && head == Nth(c, 0)
    && forall k :: 0 <= k < |c| ==> c[k].next == Nth(c, k + 1) && c[k].pprev == SlotOf(c, h, k)
  }

  /** Every node is in the bucket of its hash, and no address is there twice. */
  ghost predicate Keyed(h: nat, c: seq<Node>) {
    && (forall k :: 0 <= k < |c| ==> Hash(c[k].addr) == h)
    && (forall j, k :: 0 <= j < k < |c| ==> c[j].addr != c[k].addr)
  }

  ghost function RowOf(n: Node): Row
    reads n`mac, n`timer, n`useCount
  {
    Row(n.addr, Entry(n.mac, n.timer, n.useCount))
  }

  ghost function Rows(c: seq<Node>): (r: seq<Row>)
    reads c`mac, c`timer, c`useCount
    ensures |r| == |c| && forall k :: 0 <= k < |c| ==> r[k] == RowOf(c[k])
  {
    if c == [] then [] else [RowOf(c[0])] + Rows(c[1..])
  }

  function Cut<T>(c: seq<T>, k: nat): seq<T>
    requires k < |c|
  {
    c[..k] + c[k + 1..]
  }

  lemma CutKeyed(h: nat, c: seq<Node>, k: nat)
    requires Keyed(h, c) && k < |c|
    ensures Keyed(h, Cut(c, k)) && c[k] !in Cut(c, k)
  {
  }

  ghost predicate Unlike(c: seq<Node>, k: nat) {
    forall j :: 0 <= j < |c| && j != k ==> k < |c| && c[j] != c[k]
  }

  /** A node and its neighbours are no other nodes of the chain. */
  lemma KeyedUnlike(h: nat, c: seq<Node>, k: nat)
    requires Keyed(h, c) && k < |c|
    ensures Unlike(c, k) && (k > 0 ==> Unlike(c, k - 1)) && (k + 1 < |c| ==> Unlike(c, k + 1))
  {
  }

  lemma CutAt(c: seq<Node>, h: nat, k: nat, j: nat)
    requires k < |c| && j + 1 < |c|
    ensures var i := if j < k then j else j + 1;
      && Cut(c, k)[j] == c[i]
      && Nth(Cut(c, k), j + 1) == (if j + 1 == k then Nth(c, k + 1) else Nth(c, i + 1))
      && SlotOf(Cut(c, k), h, j) == (if j == k then SlotOf(c, h, k) else SlotOf(c, h, i))
  {
  }

  /** Every node but the k-th is linked as if that one were not there. */
  ghost predicate Bypassed(c: seq<Node>, h: nat, k: nat)
    requires k < |c|
    reads c`next, c`pprev
  {
    forall i :: 0 <= i < |c| && i != k ==>
      && c[i].next == Nth(c, if i + 1 == k then k + 1 else i + 1)
      && c[i].pprev == SlotOf(c, h, if i == k + 1 then k else i)
  }

  lemma BypassedLinks(head: Node?, c: seq<Node>, h: nat, k: nat)
    requires k < |c| && Bypassed(c, h, k) && head == Nth(c, if k == 0 then 1 else 0)
    ensures Links(head, h, Cut(c, k))
  {
    forall j | 0 <= j < |Cut(c, k)|
      ensures Cut(c, k)[j].next == Nth(Cut(c, k), j + 1) && Cut(c, k)[j].pprev == SlotOf(Cut(c, k), h, j)
    {
      CutAt(c, h, k, j);
    }
  }

  /** Nothing in a chain has been freed, and every use count is at least one. */
  ghost predicate AllSound(cs: seq<seq<Node>>, r: set<Node>)
    reads r`freed, r`useCount
  {
    forall h, k :: 0 <= h < |cs| && 0 <= k < |cs[h]| ==> cs[h][k] in r && !cs[h][k].freed && cs[h][k].useCount >= 1
  }

  class NetHash {
    const nethash: array<Node?>
    var scdbEntry: Node?
    var scdbMac: Mac
    var scdbIp: Ip
    ghost var chains: seq<seq<Node>>
    ghost var repr: set<Node>

    ghost predicate Shape()
      reads this`chains, this`repr
    {
      && nethash.Length == HASH_SIZE && |chains| == HASH_SIZE
      && forall h :: 0 <= h < HASH_SIZE ==> Keyed(h, chains[h]) && forall k :: 0 <= k < |chains[h]| ==> chains[h][k] in repr
    }

    ghost predicate Linked()
      requires Shape()
      reads this`chains, this`repr, nethash, repr`next, repr`pprev
    {
      forall h :: 0 <= h < HASH_SIZE ==> Links(nethash[h], h, chains[h])
    }

    ghost predicate Sound()
      reads this`chains, this`repr, repr`freed, repr`useCount
    {
      AllSound(chains, repr)
    }

    /** The remembered entry is one of the table's, under the remembered address. */
    ghost predicate Named()
      requires Shape()
      reads this`chains, this`repr, this`scdbEntry, this`scdbIp
    {
      scdbEntry == null || (scdbEntry.addr == Ipv4Addr(scdbIp) && scdbEntry in chains[Hash(scdbEntry.addr)])
    }

    ghost predicate Valid()
      reads this, nethash, repr
    {
      Shape() && Linked() && Sound() && Named()
    }

    ghost function Bucket(h: nat): seq<Row>
      requires Shape() && h < HASH_SIZE
      reads this`chains, this`repr, repr`mac, repr`timer, repr`useCount
    {
      Rows(chains[h])
    }

    ghost function RowsFrom(h: nat): (t: Table)
      requires Shape() && h <= HASH_SIZE
      reads this`chains, this`repr, repr`mac, repr`timer, repr`useCount
      ensures |t| == HASH_SIZE - h && forall i :: 0 <= i < HASH_SIZE - h ==> t[i] == Bucket(h + i)
      decreases HASH_SIZE - h
    {
      if h == HASH_SIZE then [] else [Bucket(h)] + RowsFrom(h + 1)
    }

    /** The map the table stands for. */
    ghost function View(): Db
      requires Shape()
      reads this`chains, this`repr, repr`mac, repr`timer, repr`useCount
    {
      DbOf(RowsFrom(0))
    }

    ghost function ShortView(): Short
      reads this`scdbEntry, this`scdbIp, this`scdbMac
    {
      Short(scdbEntry != null, scdbIp, scdbMac)
    }

    /** The map and the remembered client. */
    ghost function NatView(): Nat
      requires Shape()
      reads this`chains, this`repr, repr`mac, repr`timer, repr`useCount, this`scdbEntry, this`scdbIp, this`scdbMac
    {
      Nat(View(), ShortView())
    }

    constructor ()
      ensures Valid() && NatView() == Nat(map[], NO_SHORT)
      ensures fresh(nethash) && repr == {}
    {
      nethash := new Node?[HASH_SIZE](i => null);
      scdbEntry, scdbMac, scdbIp := null, NO_MAC, NO_IP;
      chains := seq(HASH_SIZE, h => []);
      repr := {};
      new;
      EmptyDb(RowsFrom(0));
    }

    // ---------- linking and unlinking ----------

    /** A node put in front of one chain. */
    method Hook(ent: Node, hash: nat, ghost c: seq<Node>)
      requires hash < nethash.Length && Links(nethash[hash], hash, c) && ent !in c
      requires Keyed(hash, c)
      modifies nethash, c`pprev, ent`next, ent`pprev
      ensures Links(nethash[hash], hash, [ent] + c)
      ensures forall i :: 0 <= i < nethash.Length && i != hash ==> nethash[i] == old(nethash[i])
    {
      ent.next := nethash[hash];
      if ent.next != null {
        ent.next.pprev := NextOf(ent);
      }
      nethash[hash] := ent;
      ent.pprev := Head(hash);
    }

    /** `*(ent->pprev_hash) = next` */
    method StoreSlot(slot: Slot, next: Node?, ghost h: nat, ghost c: seq<Node>, ghost k: nat)
      requires h < nethash.Length && k < |c| && slot == SlotOf(c, h, k) && (k > 0 ==> Unlike(c, k - 1))
      modifies nethash, c`next
      ensures forall i :: 0 <= i < |c| && i + 1 != k ==> c[i].next == old(c[i].next)
      ensures if k == 0 then nethash[h] == next else nethash[h] == old(nethash[h]) && c[k - 1].next == next
      ensures forall i :: 0 <= i < nethash.Length && i != h ==> nethash[i] == old(nethash[i])
    {
      if slot.Head? {
        nethash[slot.bucket] := next;
      } else {
        slot.node.next := next;
      }
    }

    /** `next->pprev_hash = slot` */
    method StorePprev(next: Node?, slot: Slot, ghost c: seq<Node>, ghost k: nat)
      requires k < |c| && next == Nth(c, k + 1) && (k + 1 < |c| ==> Unlike(c, k + 1))
      modifies c`pprev
      ensures forall i :: 0 <= i < |c| && i != k + 1 ==> c[i].pprev == old(c[i].pprev)
      ensures k + 1 < |c| ==> c[k + 1].pprev == slot
    {
      if next != null {
        next.pprev := slot;
      }
    }

    method Forget(ent: Node, ghost c: seq<Node>, ghost k: nat)
      requires k < |c| && c[k] == ent && Unlike(c, k)
      modifies ent`next, ent`pprev
      ensures ent.next == null && ent.pprev == Nowhere
      ensures forall i :: 0 <= i < |c| && i != k ==> c[i].next == old(c[i].next) && c[i].pprev == old(c[i].pprev)
    {
      ent.next := null;
      ent.pprev := Nowhere;
    }

    /** A node taken out of one chain. */
    method Unhook(ent: Node, ghost h: nat, ghost c: seq<Node>, ghost k: nat)
      requires h < nethash.Length && Links(nethash[h], h, c) && k < |c| && c[k] == ent
      requires Keyed(h, c)
      modifies nethash, c`next, c`pprev
      ensures Links(nethash[h], h, Cut(c, k))
      ensures ent.next == null && ent.pprev == Nowhere
      ensures forall i :: 0 <= i < nethash.Length && i != h ==> nethash[i] == old(nethash[i])
    {
      hide Keyed, Unlike, Cut, Nth, SlotOf;
      KeyedUnlike(h, c, k);
      var slot, next := ent.pprev, ent.next;
      StoreSlot(slot, next, h, c, k);
      StorePprev(next, slot, c, k);
      Forget(ent, c, k);
      BypassedLinks(nethash[h], c, h, k);
    }

    // ---------- the whole table ----------

    /** Two buckets share no node. */
    lemma ChainsApart(i: nat, h: nat)
      requires Shape() && i < HASH_SIZE && h < HASH_SIZE && i != h
      ensures forall n :: n in chains[i] ==> n !in chains[h]
    {
      forall n | n in chains[i]
        ensures n !in chains[h]
      {
        assert Hash(n.addr) == i;
        assert forall k :: 0 <= k < |chains[h]| ==> Hash(chains[h][k].addr) == h;
      }
    }

    ghost predicate LinkedBut(h: nat)
      requires Shape()
      reads this`chains, this`repr, nethash, repr`next, repr`pprev
    {
      forall i :: 0 <= i < HASH_SIZE && i != h ==> Links(nethash[i], i, chains[i])
    }

    /** __network_hash_link: the node becomes the first of its bucket. */
    method Link(ent: Node, hash: nat)
      requires Shape() && Linked()
      requires hash == Hash(ent.addr) && ent !in repr
      requires forall k :: 0 <= k < |chains[hash]| ==> chains[hash][k].addr != ent.addr
      modifies nethash, repr`pprev, ent`next, ent`pprev, this`chains, this`repr
      ensures repr == old(repr) + {ent}
      ensures chains == old(chains)[hash := [ent] + old(chains)[hash]]
      ensures Shape() && Linked()
    {
      hide Links;
      ghost var c := chains[hash];
      forall i | 0 <= i < HASH_SIZE && i != hash
        ensures forall n :: n in chains[i] ==> n !in c
      {
        ChainsApart(i, hash);
      }
      Hook(ent, hash, c);
      assert LinkedBut(hash);
      chains := chains[hash := [ent] + c];
      repr := repr + {ent};
    }

    /** __network_hash_unlink: the slot that pointed to the node points past it. */
    method Unlink(ent: Node, ghost h: nat, ghost k: nat)
      requires Shape() && Linked()
      requires h < HASH_SIZE && k < |chains[h]| && chains[h][k] == ent
      modifies nethash, repr`next, repr`pprev, this`chains
      ensures chains == old(chains)[h := Cut(old(chains)[h], k)]
      ensures Shape() && Linked()
      ensures ent.next == null && ent.pprev == Nowhere
    {
      hide Links, Keyed;
      ghost var c := chains[h];
      CutKeyed(h, c, k);
      forall i | 0 <= i < HASH_SIZE && i != h
        ensures forall n :: n in chains[i] ==> n !in c
      {
        ChainsApart(i, h);
      }
      Unhook(ent, h, c, k);
      forall i | 0 <= i < HASH_SIZE && i != h
        ensures Links(nethash[i], i, chains[i])
      {
        assert old(Links(nethash[i], i, chains[i]));
        assert nethash[i] == old(nethash[i]) && chains == old(chains);
        assert forall n :: n in chains[i] ==> n.next == old(n.next);
        assert forall n :: n in chains[i] ==> n.pprev == old(n.pprev);
      }
      assert LinkedBut(h);
      chains := chains[h := Cut(c, k)];
    }

    // ---------- searching ----------

    lemma NextLinked(h: nat, k: nat)
      requires Shape() && Linked() && h < HASH_SIZE && k < |chains[h]|
      ensures nethash[h] == Nth(chains[h], 0) && chains[h][k].next == Nth(chains[h], k + 1)
    {
      assert Links(nethash[h], h, chains[h]);
    }

    lemma HeadLinked(h: nat)
      requires Shape() && Linked() && h < HASH_SIZE
      ensures nethash[h] == Nth(chains[h], 0)
    {
      assert Links(nethash[h], h, chains[h]);
    }

    /** The walk along one bucket that lookup, insert and scdb_findEntry share. */
    method Seek(a: NetAddr) returns (db: Node?, ghost k: nat)
      requires Shape() && Linked()
      ensures db == null ==> forall j :: 0 <= j < |chains[Hash(a)]| ==> chains[Hash(a)][j].addr != a
      ensures db != null ==> k < |chains[Hash(a)]| && chains[Hash(a)][k] == db && db.addr == a
    {
      hide Linked, Hash, Keyed;
      ghost var c := chains[Hash(a)];
      HeadLinked(Hash(a));
      db, k := nethash[Hash(a)], 0;
      while db != null
        invariant k <= |c| && db == Nth(c, k)
        invariant forall j :: 0 <= j < k ==> c[j].addr != a
        decreases |c| - k
      {
        if db.addr == a {
          return;
        }
        NextLinked(Hash(a), k);
        db, k := db.next, k + 1;
      }
    }

    /** A node found by its address is the first row with it. */
    lemma FoundRow(a: NetAddr, k: nat)
      requires Shape() && k < |chains[Hash(a)]| && chains[Hash(a)][k].addr == a
      ensures FirstAt(RowsFrom(0)[Hash(a)], a, k) && RowsFrom(0)[Hash(a)][k] == RowOf(chains[Hash(a)][k])
    {
      assert Keyed(Hash(a), chains[Hash(a)]);
    }

    /** scdb_findEntry: the node of an IPv4 address. */
    method ScdbFindEntry(ip: Ip) returns (db: Node?, ghost k: nat)
      requires Valid()
      ensures db != null <==> Ipv4Addr(ip) in View()
      ensures db != null ==> db.addr == Ipv4Addr(ip) && !db.freed && k < |chains[Hash(db.addr)]| && chains[Hash(db.addr)][k] == db
      ensures db != null ==> RowOf(db).entry == View()[Ipv4Addr(ip)]
    {
      hide Linked, Hash, Ipv4Addr, Keyed;
      var a := Ipv4Addr(ip);
      db, k := Seek(a);
      Sought(a, db, k);
    }

    lemma Sought(a: NetAddr, db: Node?, k: nat)
      requires Shape()
      requires db == null ==> forall j :: 0 <= j < |chains[Hash(a)]| ==> chains[Hash(a)][j].addr != a
      requires db != null ==> k < |chains[Hash(a)]| && chains[Hash(a)][k] == db && db.addr == a
      ensures db != null <==> a in View()
      ensures db != null ==> RowOf(db).entry == View()[a]
    {
      hide Hash, Keyed;
      DbAt(RowsFrom(0), a);
      if db == null {
        FindNone(RowsFrom(0)[Hash(a)], a);
      } else {
        FoundRow(a, k);
        FindFirst(RowsFrom(0)[Hash(a)], a, k);
      }
    }

    // ---------- lookup and insert ----------

    /** A node stands in one place of the table only. */
    ghost predicate OnlyAt(n: Node, h: nat, k: nat)
      requires Shape()
      reads this`chains, this`repr
    {
      forall i, j :: 0 <= i < HASH_SIZE && 0 <= j < |chains[i]| && (i != h || j != k) ==> chains[i][j] != n
    }

    lemma StandsOnce(h: nat, k: nat)
      requires Shape() && h < HASH_SIZE && k < |chains[h]|
      ensures OnlyAt(chains[h][k], h, k)
    {
      var n := chains[h][k];
      forall i, j | 0 <= i < HASH_SIZE && 0 <= j < |chains[i]| && (i != h || j != k)
        ensures chains[i][j] != n
      {
        if i != h {
          ChainsApart(i, h);
        } else {
          assert Keyed(h, chains[h]);
        }
      }
    }

    /** The table after one node's fields have changed. */
    lemma RowChanged(t: Table, h: nat, k: nat)
      requires Shape() && h < HASH_SIZE && k < |chains[h]| && |t| == HASH_SIZE
      requires forall i :: 0 <= i < HASH_SIZE ==> |t[i]| == |chains[i]|
      requires forall i, j :: 0 <= i < HASH_SIZE && 0 <= j < |chains[i]| && (i != h || j != k) ==> t[i][j] == RowOf(chains[i][j])
      ensures RowsFrom(0) == t[h := t[h][k := RowOf(chains[h][k])]]
    {
      hide RowOf, Keyed;
      var u := t[h := t[h][k := RowOf(chains[h][k])]];
      forall i | 0 <= i < HASH_SIZE
        ensures RowsFrom(0)[i] == u[i]
      {
        assert |RowsFrom(0)[i]| == |u[i]|;
        forall j | 0 <= j < |u[i]|
          ensures RowsFrom(0)[i][j] == u[i][j]
        {
        }
      }
    }

    lemma AllRows()
      requires Shape()
      ensures forall i :: 0 <= i < HASH_SIZE ==> |RowsFrom(0)[i]| == |chains[i]|
      ensures forall i, j :: 0 <= i < HASH_SIZE && 0 <= j < |chains[i]| ==> RowsFrom(0)[i][j] == RowOf(chains[i][j])
    {
      hide RowOf, Keyed;
    }

    /** atomic_inc(&db->use_count) */
    method CountUse(db: Node, ghost h: nat, ghost k: nat)
      requires Shape() && h < HASH_SIZE && k < |chains[h]| && chains[h][k] == db
      modifies db`useCount
      ensures db.useCount == old(db.useCount) + 1
      ensures old(Sound()) && old(db.useCount) >= 1 ==> Sound()
      ensures RowsFrom(0) == old(RowsFrom(0))[h := old(RowsFrom(0))[h][k := RowOf(db)]]
    {
      hide Keyed, OnlyAt;
      ghost var t := RowsFrom(0);
      AllRows();
      StandsOnce(h, k);
      db.useCount := db.useCount + 1;
      Unaffected(t, db, h, k);
      if old(Sound()) {
        forall i, j | 0 <= i < HASH_SIZE && 0 <= j < |chains[i]|
          ensures chains[i][j] in repr && !chains[i][j].freed && chains[i][j].useCount >= 1
        {
          assert old(chains[i][j]) in repr && !old(chains[i][j].freed) && old(chains[i][j].useCount) >= 1;
        }
      }
    }

    lemma Unaffected(t: Table, db: Node, h: nat, k: nat)
      requires Shape() && h < HASH_SIZE && k < |chains[h]| && |t| == HASH_SIZE
      requires OnlyAt(db, h, k) && chains[h][k] == db
      requires forall i :: 0 <= i < HASH_SIZE ==> |t[i]| == |chains[i]|
      requires forall i, j :: 0 <= i < HASH_SIZE && 0 <= j < |chains[i]| && chains[i][j] != db ==> t[i][j] == RowOf(chains[i][j])
      ensures RowsFrom(0) == t[h := t[h][k := RowOf(db)]]
    {
      hide RowOf, Keyed;
      RowChanged(t, h, k);
    }

    /** The use is counted in the map, too. */
    method CountHit(db: Node, a: NetAddr, ghost k: nat)
      requires Valid() && k < |chains[Hash(a)]| && chains[Hash(a)][k] == db && db.addr == a
      modifies db`useCount
      ensures Valid()
      ensures a in old(View()) && old(View())[a] == old(RowOf(db)).entry
      ensures View() == Hit(old(View()), a)
    {
      hide Linked, Hash, Keyed, DbOf, View, Shape, Sound, Named, FirstAt, Hit, Ipv4Addr;
      ghost var t := RowsFrom(0);
      ViewIs();
      FoundRow(a, k);
      CountsOne(Hash(a), k);
      HitDb(t, a, k);
      ghost var e := RowOf(db).entry;
      ghost var u := t[Hash(a) := t[Hash(a)][k := Row(a, e.(count := e.count + 1))]];
      assert DbOf(u) == Hit(View(), a);
      CountUse(db, Hash(a), k);
      assert RowOf(db) == Row(a, e.(count := e.count + 1));
      assert RowsFrom(0) == u;
      ViewIs();
    }

    lemma HitDb(t: Table, a: NetAddr, k: nat)
      requires |t| == HASH_SIZE && FirstAt(t[Hash(a)], a, k)
      ensures
        var e := t[Hash(a)][k].entry;
        && a in DbOf(t) && DbOf(t)[a] == e
        && DbOf(t[Hash(a) := t[Hash(a)][k := Row(a, e.(count := e.count + 1))]])
           == Hit(DbOf(t), a)
    {
      hide Hash, DbOf;
      var e := t[Hash(a)][k].entry;
      UpdatedDb(t, a, k, e.(count := e.count + 1));
    }

    lemma CountsOne(h: nat, k: nat)
      requires Shape() && Sound() && h < HASH_SIZE && k < |chains[h]|
      ensures chains[h][k].useCount >= 1 && !chains[h][k].freed
    {
    }

    lemma ViewIs()
      requires Shape()
      ensures View() == DbOf(RowsFrom(0))
    {
    }

    /** __nat25_db_network_lookup_and_replace: a live entry gives the frame its MAC and counts the use; the
        answer is whether there is an entry at all. */
    method LookupAndReplace(data: array<byte>, at: nat, a: NetAddr, now: Jiffies, ageing: nat) returns (found: bool)
      requires Valid() && at + 6 <= data.Length
      modifies data, repr`useCount
      ensures Valid()
      ensures found == (a in old(View()))
      ensures View() == LookedUp(old(View()), a, now, ageing)
      ensures data[..] ==
        if found && !HasExpired(old(View())[a].timer, now, ageing) then Put(old(data[..]), at, old(View())[a].mac) else old(data[..])
    {
      hide Linked, Hash, HasExpired, Keyed, DbOf, Shape, Sound, Named, Put, LookedUp, View, Hit;
      ghost var k;
      var db;
      db, k := Seek(a);
      Sought(a, db, k);
      LookedUpIs(View(), a, now, ageing);
      if db == null {
        return false;
      }
      found := true;
      if !HasExpired(db.timer, now, ageing) {
        InRepr(Hash(a), k);
        var mac := db.mac;
        CountHit(db, a, k);
        Memcpy(data, at, mac);
      }
    }

    lemma LookedUpIs(db: Db, a: NetAddr, now: Jiffies, ageing: nat)
      ensures LookedUp(db, a, now, ageing) ==
        if a in db && !HasExpired(db[a].timer, now, ageing) then Hit(db, a) else db
    {
      hide HasExpired;
    }

    lemma InRepr(h: nat, k: nat)
      requires Shape() && h < HASH_SIZE && k < |chains[h]|
      ensures chains[h][k] in repr
    {
    }

    method Rewrite(db: Node, mac: Mac, now: Jiffies, ghost h: nat, ghost k: nat)
      requires Shape() && h < HASH_SIZE && k < |chains[h]| && chains[h][k] == db
      modifies db`mac, db`timer
      ensures db.mac == mac && db.timer == now
      ensures RowsFrom(0) == old(RowsFrom(0))[h := old(RowsFrom(0))[h][k := RowOf(db)]]
    {
      hide Keyed, OnlyAt;
      ghost var t := RowsFrom(0);
      AllRows();
      StandsOnce(h, k);
      db.mac := mac;
      db.timer := now;
      Unaffected(t, db, h, k);
    }

    /** An entry that is there gets the new MAC and time and keeps its count. */
    method Refresh(db: Node, a: NetAddr, mac: Mac, now: Jiffies, ghost k: nat)
      requires Valid() && k < |chains[Hash(a)]| && chains[Hash(a)][k] == db && db.addr == a
      modifies db`mac, db`timer
      ensures Valid()
      ensures View() == Inserted(old(View()), a, mac, now)
    {
      hide Linked, Hash, Keyed, DbOf, View, Shape, Sound, Named;
      ghost var t := RowsFrom(0);
      ViewIs();
      FoundRow(a, k);
      ghost var e := RowOf(db).entry.(mac := mac, timer := now);
      UpdatedDb(t, a, k, e);
      ghost var u := t[Hash(a) := t[Hash(a)][k := Row(a, e)]];
      assert DbOf(u) == Inserted(View(), a, mac, now);
      Rewrite(db, mac, now, Hash(a), k);
      assert RowOf(db) == Row(a, e);
      assert RowsFrom(0) == u;
      ViewIs();
    }

    lemma RowsCons(n: Node, c: seq<Node>)
      ensures Rows([n] + c) == [RowOf(n)] + Rows(c)
    {
      assert ([n] + c)[1..] == c;
    }

    /** The table after a new node has been linked. */
    lemma RowAdded(t: Table, ent: Node, h: nat, was: seq<seq<Node>>)
      requires Shape() && h < HASH_SIZE && |t| == |was| == HASH_SIZE
      requires chains == was[h := [ent] + was[h]]
      requires forall i :: 0 <= i < HASH_SIZE ==> t[i] == Rows(was[i])
      ensures RowsFrom(0) == t[h := [RowOf(ent)] + t[h]]
    {
      hide Keyed, RowOf;
      RowsCons(ent, was[h]);
      hide Rows;
      forall i | 0 <= i < HASH_SIZE
        ensures RowsFrom(0)[i] == t[h := [RowOf(ent)] + t[h]][i]
      {
        assert RowsFrom(0)[i] == Bucket(i);
      }
    }

    lemma EnteredSound(ent: Node, h: nat, was: seq<seq<Node>>, r: set<Node>)
      requires h < |was| && AllSound(was, r) && !ent.freed && ent.useCount >= 1
      ensures AllSound(was[h := [ent] + was[h]], r + {ent})
    {
      var now := was[h := [ent] + was[h]];
      forall i, j | 0 <= i < |now| && 0 <= j < |now[i]|
        ensures now[i][j] in r + {ent} && !now[i][j].freed && now[i][j].useCount >= 1
      {
        if i == h && j > 0 {
          assert now[i][j] == was[i][j - 1];
        } else if i != h {
          assert now[i][j] == was[i][j];
        }
      }
    }

    lemma EnteredNamed(ent: Node, h: nat, was: seq<seq<Node>>)
      requires Shape() && h < HASH_SIZE == |was| && chains == was[h := [ent] + was[h]]
      requires scdbEntry == null || (scdbEntry.addr == Ipv4Addr(scdbIp) && scdbEntry in was[Hash(scdbEntry.addr)])
      ensures Named()
    {
      hide Keyed, Hash, Ipv4Addr;
    }

    /** A new entry of count one at the head of its bucket. */
    method Enter(a: NetAddr, mac: Mac, now: Jiffies)
      requires Valid() && forall j :: 0 <= j < |chains[Hash(a)]| ==> chains[Hash(a)][j].addr != a
      modifies nethash, repr`pprev, this`chains, this`repr
      ensures Valid() && fresh(repr - old(repr))
      ensures View() == Inserted(old(View()), a, mac, now)
    {
      hide Linked, Hash, Keyed, DbOf, Inserted, View, Shape, Named, AllSound;
      ghost var t := RowsFrom(0);
      ViewIs();
      AddedRow(a, Entry(mac, now, 1));
      var db := new Node(a, mac, now);
      LinkFirst(db, Hash(a));
      InsertedNew(DbOf(t), a, mac, now);
      ViewIs();
    }

    lemma AddedRow(a: NetAddr, e: Entry)
      requires Shape() && forall j :: 0 <= j < |chains[Hash(a)]| ==> chains[Hash(a)][j].addr != a
      ensures var t := RowsFrom(0); DbOf(t[Hash(a) := [Row(a, e)] + t[Hash(a)]]) == DbOf(t)[a := e] && a !in DbOf(t)
    {
      hide Hash, Keyed, DbOf;
      AddedDb(RowsFrom(0), a, e);
    }

    method LinkFirst(db: Node, hash: nat)
      requires Valid() && hash == Hash(db.addr) && db !in repr && !db.freed && db.useCount >= 1
      requires forall k :: 0 <= k < |chains[hash]| ==> chains[hash][k].addr != db.addr
      modifies nethash, repr`pprev, db`next, db`pprev, this`chains, this`repr
      ensures Valid() && repr == old(repr) + {db}
      ensures RowsFrom(0) == old(RowsFrom(0))[hash := [RowOf(db)] + old(RowsFrom(0))[hash]]
    {
      hide Linked, Hash, Keyed, AllSound, Named, RowOf, Ipv4Addr, DbOf;
      ghost var t, was := RowsFrom(0), chains;
      EnteredSound(db, hash, was, repr);
      RowsWere(t);
      NamedIn();
      Link(db, hash);
      RowAdded(t, db, hash, was);
      EnteredNamed(db, hash, was);
    }

    lemma NamedIn()
      requires Shape() && Named()
      ensures scdbEntry == null || (scdbEntry.addr == Ipv4Addr(scdbIp) && scdbEntry in chains[Hash(scdbEntry.addr)])
    {
    }

    lemma RowsWere(t: Table)
      requires Shape() && t == RowsFrom(0)
      ensures forall i :: 0 <= i < HASH_SIZE ==> t[i] == Rows(chains[i])
    {
    }

    lemma InsertedNew(db: Db, a: NetAddr, mac: Mac, now: Jiffies)
      requires a !in db
      ensures Inserted(db, a, mac, now) == db[a := Entry(mac, now, 1)]
    {
    }

    /** __nat25_db_network_insert */
    method Insert(mac: Mac, a: NetAddr, now: Jiffies)
      requires Valid()
      modifies nethash, repr, this`chains, this`repr
      ensures Valid() && fresh(repr - old(repr))
      ensures View() == Inserted(old(View()), a, mac, now)
    {
      hide Linked, Hash, Keyed, DbOf, View, Sound, Named, Inserted;
      ghost var k;
      var db;
      db, k := Seek(a);
      if db != null {
        InRepr(Hash(a), k);
        Refresh(db, a, mac, now, k);
      } else {
        Enter(a, mac, now);
      }
    }

    // ---------- the remembered client ----------

    method Stamp(db: Node, now: Jiffies, ghost h: nat, ghost k: nat)
      requires Shape() && h < HASH_SIZE && k < |chains[h]| && chains[h][k] == db
      modifies db`timer
      ensures db.timer == now
      ensures RowsFrom(0) == old(RowsFrom(0))[h := old(RowsFrom(0))[h][k := RowOf(db)]]
    {
      hide Keyed, OnlyAt;
      ghost var t := RowsFrom(0);
      AllRows();
      StandsOnce(h, k);
      db.timer := now;
      Unaffected(t, db, h, k);
    }

    /** An entry that is there gets a new time. */
    method Touch(db: Node, a: NetAddr, now: Jiffies, ghost k: nat)
      requires Valid() && k < |chains[Hash(a)]| && chains[Hash(a)][k] == db && db.addr == a
      modifies db`timer
      ensures Valid()
      ensures View() == Touched(old(View()), a, now)
    {
      hide Linked, Hash, Keyed, DbOf, View, Shape, Sound, Named;
      ghost var t := RowsFrom(0);
      ViewIs();
      FoundRow(a, k);
      ghost var e := RowOf(db).entry.(timer := now);
      UpdatedDb(t, a, k, e);
      Stamp(db, now, Hash(a), k);
      assert RowOf(db) == Row(a, e);
      ViewIs();
    }

    /** rtw_br_client_tx, on an IP frame of a client: the source is remembered if its address has an entry,
        and the entry's time renewed; the answer is whether the database is still to be asked. */
    method RememberSource(mac: Mac, ip: Ip, now: Jiffies) returns (doNat25: bool)
      requires Valid()
      modifies this`scdbEntry, this`scdbMac, this`scdbIp, repr`timer
      ensures Valid()
      ensures NatView() == Remembered(old(NatView()), mac, ip, now)
      ensures doNat25 == Remembers(old(NatView()), mac, ip).None?
    {
      hide Linked, Hash, Keyed, View, Shape, Sound, Ipv4Addr, Touched;
      doNat25 := true;
      if scdbMac != mac {
        ghost var k;
        scdbEntry, k := ScdbFindEntry(ip);
        if scdbEntry != null {
          scdbMac := mac;
          scdbIp := ip;
          RenewScdb(now, k);
          doNat25 := false;
        }
      } else if scdbEntry != null {
        ghost var k := ScdbPlace();
        RenewScdb(now, k);
        doNat25 := false;
      } else {
        scdbMac := NO_MAC;
        scdbIp := NO_IP;
      }
    }

    lemma ScdbPlace() returns (k: nat)
      requires Shape() && Named() && scdbEntry != null
      ensures k < |chains[Hash(scdbEntry.addr)]| && chains[Hash(scdbEntry.addr)][k] == scdbEntry
    {
      hide Hash, Keyed;
      k :| k < |chains[Hash(scdbEntry.addr)]| && chains[Hash(scdbEntry.addr)][k] == scdbEntry;
    }

    /** The remembered client's entry, whose time is renewed. */
    method RefreshScdb(now: Jiffies)
      requires Valid() && scdbEntry != null
      modifies repr`timer
      ensures Valid() && NatView() == Remembered(old(NatView()), scdbMac, scdbIp, now)
    {
      hide Linked, Hash, Keyed, View, Shape, Sound, Ipv4Addr, Touched;
      ghost var k := ScdbPlace();
      RenewScdb(now, k);
    }

    method RenewScdb(now: Jiffies, ghost k: nat)
      requires Shape() && Linked() && Sound() && scdbEntry != null && scdbEntry.addr == Ipv4Addr(scdbIp)
      requires k < |chains[Hash(scdbEntry.addr)]| && chains[Hash(scdbEntry.addr)][k] == scdbEntry
      modifies repr`timer
      ensures Valid()
      ensures Ipv4Addr(scdbIp) in old(View()) && View() == Touched(old(View()), Ipv4Addr(scdbIp), now)
    {
      hide Linked, Hash, Keyed, Sound, Ipv4Addr, View, Touched;
      InRepr(Hash(scdbEntry.addr), k);
      Sought(scdbEntry.addr, scdbEntry, k);
      Touch(scdbEntry, Ipv4Addr(scdbIp), now, k);
    }

    // ---------- expiry and cleanup ----------

    /** The remembered entry is forgotten before it is freed. */
    method ForgetScdb(f: Node)
      modifies this`scdbEntry, this`scdbMac, this`scdbIp
      ensures scdbEntry != f && ShortView() == if old(scdbEntry) == f then NO_SHORT else old(ShortView())
      ensures old(scdbEntry) != f ==> scdbEntry == old(scdbEntry)
    {
      if scdbEntry == f {
        scdbMac := NO_MAC;
        scdbIp := NO_IP;
        scdbEntry := null;
      }
    }

    /** Since a client was remembered like this it still is, or it is forgotten and its entry is gone. */
    ghost predicate Kept(e: Node?, s: Short)
      requires Shape()
      reads this`chains, this`repr, this`scdbEntry, this`scdbIp, this`scdbMac
    {
      || (scdbEntry == e && ShortView() == s)
      || (e != null && scdbEntry == null && ShortView() == NO_SHORT && Absent(e.addr))
    }

    ghost predicate Absent(a: NetAddr)
      requires Shape()
      reads this`chains, this`repr
    {
      forall n :: n in chains[Hash(a)] ==> n.addr != a
    }

    lemma CutAbsent(h: nat, k: nat, was: seq<seq<Node>>)
      requires Shape() && h < HASH_SIZE == |was| && k < |was[h]| && chains == was[h := Cut(was[h], k)] && Keyed(h, was[h])
      ensures Absent(was[h][k].addr)
      ensures forall a :: (forall n :: n in was[Hash(a)] ==> n.addr != a) ==> Absent(a)
    {
      hide Hash;
      assert Hash(was[h][k].addr) == h;
      forall n | n in chains[h]
        ensures n in was[h]
      {
      }
    }

    lemma CutNamed(h: nat, k: nat, was: seq<seq<Node>>)
      requires Shape() && h < HASH_SIZE == |was| && k < |was[h]| && chains == was[h := Cut(was[h], k)]
      requires scdbEntry == null || (scdbEntry.addr == Ipv4Addr(scdbIp) && scdbEntry in was[Hash(scdbEntry.addr)])
      requires scdbEntry != was[h][k]
      ensures Named()
    {
      hide Keyed, Hash, Ipv4Addr;
      if scdbEntry != null && Hash(scdbEntry.addr) == h {
        var j :| 0 <= j < |was[h]| && was[h][j] == scdbEntry;
        assert Cut(was[h], k)[if j < k then j else j - 1] == scdbEntry;
      }
    }

    /** Unlinking and freeing a node, as expiry and cleanup do. */
    method Discard(f: Node, ghost h: nat, ghost k: nat, ghost e: Node?, ghost s: Short)
      requires Shape() && Linked() && Named() && Kept(e, s)
      requires h < HASH_SIZE && k < |chains[h]| && chains[h][k] == f
      modifies nethash, repr`next, repr`pprev, f`freed, this`chains, this`scdbEntry, this`scdbMac, this`scdbIp
      ensures Shape() && Linked() && Named() && Kept(e, s)
      ensures chains == old(chains)[h := Cut(old(chains)[h], k)]
      ensures f.freed && scdbEntry != f
    {
      hide Linked, Keyed, Hash, Cut, Ipv4Addr;
      ghost var was := chains;
      NamedIn();
      assert Keyed(h, was[h]);
      ForgetScdb(f);
      Unlink(f, h, k);
      CutNamed(h, k, was);
      CutAbsent(h, k, was);
      f.freed := true;
    }

    /** The walk of an expiry pass along one bucket has reached position p: the survivors so far, with their
        counts lowered, stand before the rest of the old chain. */
    ghost predicate Walked(i: nat, c: seq<Node>, rows: seq<Row>, kept: seq<Node>, p: nat, now: Jiffies, ageing: nat)
      requires Shape() && i < HASH_SIZE
      reads this`chains, this`repr, repr`mac, repr`timer, repr`useCount
    {
      && p <= |c| == |rows| && (forall n :: n in c ==> n in repr)
      && chains[i] == kept + c[p..]
      && (forall n :: n in kept ==> n in c[..p] && n in repr)
      && Rows(kept) == Survivors(rows[..p], now, ageing)
      && Rows(c[p..]) == rows[p..]
    }

    lemma WalkStart(i: nat, now: Jiffies, ageing: nat)
      requires Shape() && i < HASH_SIZE
      ensures Walked(i, chains[i], Rows(chains[i]), [], 0, now, ageing)
    {
      var c := chains[i];
      assert c[0..] == c && [] + c == c;
      assert Rows(c)[..0] == [];
    }

    lemma WalkEnd(i: nat, c: seq<Node>, rows: seq<Row>, kept: seq<Node>, now: Jiffies, ageing: nat)
      requires Shape() && i < HASH_SIZE && Walked(i, c, rows, kept, |c|, now, ageing)
      ensures Bucket(i) == Survivors(rows, now, ageing) && chains[i] == kept && forall n :: n in kept ==> n in c
    {
      assert kept + c[|c|..] == kept && rows[..|c|] == rows;
    }

    lemma WalkStep(i: nat, c: seq<Node>, rows: seq<Row>, kept: seq<Node>, p: nat, now: Jiffies, ageing: nat, left: seq<Node>)
      requires Shape() && i < HASH_SIZE && p < |c| == |rows| && (forall n :: n in c ==> n in repr)
      requires chains[i] == left + c[p + 1..]
      requires forall n :: n in kept ==> n in c[..p] && n in repr
      requires Rows(kept) == Survivors(rows[..p], now, ageing) && Rows(c[p + 1..]) == rows[p + 1..]
      requires if Drops(rows[p].entry, now, ageing) then left == kept
               else left == kept + [c[p]] && RowOf(c[p]) == Row(rows[p].addr, Older(rows[p].entry, now, ageing))
      ensures Walked(i, c, rows, left, p + 1, now, ageing)
    {
      hide Drops, Older, RowOf, Keyed;
      assert c[..p + 1] == c[..p] + [c[p]];
      assert rows[..p + 1] == rows[..p] + [rows[p]];
      SurvivorsAppend(rows[..p], [rows[p]], now, ageing);
      SurvivorsOfOne(rows[p], now, ageing);
      if !Drops(rows[p].entry, now, ageing) {
        RowsSnoc(kept, c[p]);
      }
    }

    lemma RowsSnoc(c: seq<Node>, n: Node)
      ensures Rows(c + [n]) == Rows(c) + [RowOf(n)]
    {
    }

    /** Position of the walk's node in the present chain, and that it stands nowhere else. */
    lemma WalkHere(i: nat, c: seq<Node>, rows: seq<Row>, kept: seq<Node>, p: nat, now: Jiffies, ageing: nat)
      requires Shape() && i < HASH_SIZE && Walked(i, c, rows, kept, p, now, ageing) && p < |c| && Keyed(i, c)
      ensures |kept| < |chains[i]| && chains[i][|kept|] == c[p] && c[p] in repr
      ensures c[p] !in kept && c[p] !in c[p + 1..]
      ensures Cut(chains[i], |kept|) == kept + c[p + 1..]
      ensures chains[i] == (kept + [c[p]]) + c[p + 1..]
      ensures RowOf(c[p]) == rows[p] && Rows(c[p + 1..]) == rows[p + 1..] && Rows(kept) == Survivors(rows[..p], now, ageing)
      ensures |chains[i]| - |kept| - 1 == |c| - (p + 1)
    {
      hide Keyed, RowOf, Survivors, Rows, Cut;
      StandsAlone(i, c, p);
      WalkFacts(i, c, rows, kept, p, now, ageing);
      RowsHead(c, rows, p);
      CutMiddle(kept, c, p);
    }

    lemma StandsAlone(i: nat, c: seq<Node>, p: nat)
      requires Keyed(i, c) && p < |c|
      ensures c[p] !in c[..p] && c[p] !in c[p + 1..]
    {
      KeyedUnlike(i, c, p);
      hide Keyed;
    }

    lemma RowsHead(c: seq<Node>, rows: seq<Row>, p: nat)
      requires p < |c| == |rows| && Rows(c[p..]) == rows[p..]
      ensures RowOf(c[p]) == rows[p] && Rows(c[p + 1..]) == rows[p + 1..]
    {
      hide RowOf;
      assert c[p..][0] == c[p] && rows[p..][0] == rows[p];
      assert c[p..][1..] == c[p + 1..] && rows[p..][1..] == rows[p + 1..];
    }

    lemma CutMiddle<T>(a: seq<T>, c: seq<T>, p: nat)
      requires p < |c|
      ensures |a + c[p..]| == |a| + |c| - p && (a + c[p..])[|a|] == c[p]
      ensures Cut(a + c[p..], |a|) == a + c[p + 1..]
      ensures a + c[p..] == (a + [c[p]]) + c[p + 1..]
    {
    }

    /** atomic_dec_and_test: the count goes down, and the last use has gone when it is zero. */
    method DecAndTest(f: Node) returns (last: bool)
      modifies f`useCount
      ensures f.useCount == old(f.useCount) - 1
      ensures last == (f.useCount == 0)
    {
      f.useCount := f.useCount - 1;
      last := f.useCount == 0;
    }

    ghost predicate Uses(ns: seq<Node>)
      reads ns`freed, ns`useCount
    {
      forall n :: n in ns ==> !n.freed && n.useCount >= 1
    }

    lemma UsesTail(c: seq<Node>, p: nat)
      requires p < |c| && Uses(c[p..])
      ensures Uses(c[p + 1..]) && Uses([c[p]])
    {
      assert c[p..][0] == c[p] && c[p + 1..] == c[p..][1..];
    }

    lemma UsesSnoc(c: seq<Node>, n: Node)
      requires Uses(c) && Uses([n])
      ensures Uses(c + [n])
    {
      assert [n][0] == n && n in [n];
    }

    /** One node of an expiry pass. */
    method ExpireOne(f: Node, ghost i: nat, ghost c: seq<Node>, ghost rows: seq<Row>, ghost kept: seq<Node>, ghost p: nat,
                     now: Jiffies, ageing: nat, ghost e: Node?, ghost s: Short)
      returns (ghost left: seq<Node>)
      requires Shape() && Linked() && Named() && Kept(e, s)
      requires i < HASH_SIZE && Keyed(i, c) && p < |c| && f == c[p] && Walked(i, c, rows, kept, p, now, ageing)
      requires Uses(kept) && Uses(c[p..])
      modifies nethash, repr`next, repr`pprev, f`freed, f`useCount, this`chains, this`scdbEntry, this`scdbMac, this`scdbIp
      ensures Shape() && Linked() && Named() && Kept(e, s)
      ensures Walked(i, c, rows, left, p + 1, now, ageing)
      ensures forall h :: 0 <= h < HASH_SIZE && h != i ==> chains[h] == old(chains)[h]
      ensures Uses(left) && Uses(c[p + 1..])
    {
      hide Linked, Keyed, Hash, Named, Kept, Walked, HasExpired, Survivors, Rows, Cut;
      WalkHere(i, c, rows, kept, p, now, ageing);
      WalkFacts(i, c, rows, kept, p, now, ageing);
      left := kept + [f];
      UsesTail(c, p);
      UsedNode(f);
      hide Uses;
      if HasExpired(f.timer, now, ageing) {
        var last := DecAndTest(f);
        if last {
          Discard(f, i, |kept|, e, s);
          left := kept;
        } else {
          NodeUsed(f);
          UsesSnoc(kept, f);
        }
      } else {
        UsesSnoc(kept, f);
      }
      WalkStep(i, c, rows, kept, p, now, ageing, left);
    }

    lemma UsedNode(n: Node)
      requires Uses([n])
      ensures !n.freed && n.useCount >= 1
    {
      assert n in [n];
    }

    lemma NodeUsed(n: Node)
      requires !n.freed && n.useCount >= 1
      ensures Uses([n])
    {
    }

    lemma WalkFacts(i: nat, c: seq<Node>, rows: seq<Row>, kept: seq<Node>, p: nat, now: Jiffies, ageing: nat)
      requires Shape() && i < HASH_SIZE && Walked(i, c, rows, kept, p, now, ageing)
      ensures |c| == |rows| && (forall n :: n in c ==> n in repr) && forall n :: n in kept ==> n in c[..p] && n in repr
    {
    }

    lemma SoundUses(i: nat)
      requires Shape() && i < HASH_SIZE && Sound()
      ensures Uses(chains[i]) && Keyed(i, chains[i])
    {
      hide Keyed;
      assert Keyed(i, chains[i]);
    }

    lemma UsesSound()
      requires Shape() && forall h :: 0 <= h < HASH_SIZE ==> Uses(chains[h])
      ensures Sound()
    {
      hide Keyed;
    }

    lemma NoUses()
      ensures Uses([])
    {
    }

    lemma WalkNext(i: nat, c: seq<Node>, rows: seq<Row>, kept: seq<Node>, p: nat, now: Jiffies, ageing: nat)
      requires Shape() && Linked() && i < HASH_SIZE && Walked(i, c, rows, kept, p, now, ageing) && p < |c|
      ensures c[p].next == Nth(c, p + 1)
    {
      hide Keyed, Links, Survivors, Rows;
      NextLinked(i, |kept|);
    }

    /** A pass along one bucket; the successor is read before the node may go. */
    method ExpireBucket(i: nat, now: Jiffies, ageing: nat, ghost e: Node?, ghost s: Short)
      requires Valid() && i < HASH_SIZE && Kept(e, s)
      modifies nethash, repr`next, repr`pprev, chains[i]`freed, chains[i]`useCount, this`chains, this`scdbEntry, this`scdbMac, this`scdbIp
      ensures Shape() && Linked() && Named() && Kept(e, s)
      ensures Bucket(i) == Survivors(old(Bucket(i)), now, ageing) && Uses(chains[i])
      ensures forall h :: 0 <= h < HASH_SIZE && h != i ==> chains[h] == old(chains)[h]
      ensures forall n :: n in chains[i] ==> n in old(chains)[i]
    {
      hide Linked, Keyed, Hash, Named, Kept, Walked, HasExpired, Survivors, Rows, Uses;
      ghost var c, rows, kept, p := chains[i], Bucket(i), [], 0;
      SoundUses(i);
      WalkStart(i, now, ageing);
      NoUses();
      assert c[0..] == c;
      HeadLinked(i);
      var f := nethash[i];
      while f != null
        invariant Shape() && Linked() && Named() && Kept(e, s)
        invariant p <= |c| && f == Nth(c, p) && Walked(i, c, rows, kept, p, now, ageing)
        invariant Uses(kept) && Uses(c[p..])
        invariant forall h :: 0 <= h < HASH_SIZE && h != i ==> chains[h] == old(chains)[h]
        decreases |c| - p
      {
        WalkNext(i, c, rows, kept, p, now, ageing);
        var g := f.next;
        ghost var left := ExpireOne(f, i, c, rows, kept, p, now, ageing, e, s);
        kept, p := left, p + 1;
        f := g;
      }
      WalkEnd(i, c, rows, kept, now, ageing);
    }

    ghost predicate BucketIs(h: nat, rows: seq<Row>)
      requires Shape() && h < HASH_SIZE
      reads this`chains, this`repr, repr`mac, repr`timer, repr`useCount, repr`freed
    {
      Bucket(h) == rows && Uses(chains[h])
    }

    /** Expiring one bucket leaves the rows of the others. */
    method ExpireNext(i: nat, now: Jiffies, ageing: nat, ghost t: Table, ghost e: Node?, ghost s: Short)
      requires Valid() && i < HASH_SIZE == |t| && Kept(e, s)
      requires forall h :: 0 <= h < HASH_SIZE ==> BucketIs(h, if h < i then Survivors(t[h], now, ageing) else t[h])
      modifies nethash, repr`next, repr`pprev, repr`freed, repr`useCount, this`chains, this`scdbEntry, this`scdbMac, this`scdbIp
      ensures Valid() && Kept(e, s)
      ensures forall h :: 0 <= h < HASH_SIZE ==> BucketIs(h, if h < i + 1 then Survivors(t[h], now, ageing) else t[h])
    {
      hide Linked, Keyed, Hash, Named, Kept, Survivors, Rows, Uses, AllSound;
      forall h | 0 <= h < HASH_SIZE && h != i
        ensures forall n :: n in chains[h] ==> n !in chains[i]
      {
        ChainsApart(h, i);
      }
      ExpireBucket(i, now, ageing, e, s);
      forall h | 0 <= h < HASH_SIZE
        ensures BucketIs(h, if h < i + 1 then Survivors(t[h], now, ageing) else t[h])
      {
        if h != i {
          assert forall n :: n in chains[h] ==> n.useCount == old(n.useCount) && n.freed == old(n.freed);
          assert forall n :: n in chains[h] ==> n.mac == old(n.mac) && n.timer == old(n.timer);
          assert Rows(chains[h]) == old(Rows(chains[h]));
          assert Uses(chains[h]) == old(Uses(chains[h]));
        }
      }
      forall h | 0 <= h < HASH_SIZE
        ensures Uses(chains[h])
      {
        assert BucketIs(h, if h < i + 1 then Survivors(t[h], now, ageing) else t[h]);
      }
      UsesSound();
    }

    lemma TableDistinct()
      requires Shape()
      ensures forall h :: 0 <= h < HASH_SIZE ==> Distinct(RowsFrom(0)[h])
    {
      forall h | 0 <= h < HASH_SIZE
        ensures Distinct(RowsFrom(0)[h])
      {
        assert Keyed(h, chains[h]);
      }
    }

    /** nat25_db_expire */
    method Expire(now: Jiffies, ageing: nat)
      requires Valid()
      modifies nethash, repr`next, repr`pprev, repr`freed, repr`useCount, this`chains, this`scdbEntry, this`scdbMac, this`scdbIp
      ensures Valid()
      ensures NatView() == Passed(old(NatView()), now, ageing)
    {
      hide Linked, Keyed, Hash, Named, Kept, Survivors, Rows, Uses, AllSound, DbOf, Distinct, Expired, Passed;
      ghost var t, db, e, s := RowsFrom(0), View(), scdbEntry, ShortView();
      if scdbEntry != null {
        ScdbIn();
      }
      KeptSoFar();
      TableDistinct();
      forall h | 0 <= h < HASH_SIZE
        ensures BucketIs(h, t[h])
      {
        SoundUses(h);
      }
      for i := 0 to HASH_SIZE
        invariant Valid() && Kept(e, s)
        invariant forall h :: 0 <= h < HASH_SIZE ==> BucketIs(h, if h < i then Survivors(t[h], now, ageing) else t[h])
      {
        ExpireNext(i, now, ageing, t, e, s);
      }
      forall h | 0 <= h < HASH_SIZE
        ensures RowsFrom(0)[h] == Survivors(t[h], now, ageing)
      {
        assert BucketIs(h, Survivors(t[h], now, ageing));
      }
      ExpiredDb(t, RowsFrom(0), now, ageing);
      KeptPassed(e, s, db, now, ageing);
    }

    lemma KeptSoFar()
      requires Shape()
      ensures Kept(scdbEntry, ShortView())
    {
    }

    lemma ScdbIn()
      requires Shape() && Named() && scdbEntry != null
      ensures scdbEntry.addr == Ipv4Addr(scdbIp) && Ipv4Addr(scdbIp) in View() && RowOf(scdbEntry).entry == View()[Ipv4Addr(scdbIp)]
    {
      hide Keyed, Hash, DbOf, Ipv4Addr;
      var h := Hash(scdbEntry.addr);
      var k :| 0 <= k < |chains[h]| && chains[h][k] == scdbEntry;
      Sought(scdbEntry.addr, scdbEntry, k);
    }

    lemma AbsentView(a: NetAddr)
      requires Shape() && Absent(a)
      ensures a !in View()
    {
      hide Keyed, Hash;
      Sought(a, null, 0);
    }

    /** A client is forgotten exactly when the pass has dropped its entry. */
    lemma KeptPassed(e: Node?, s: Short, db: Db, now: Jiffies, ageing: nat)
      requires Shape() && Named() && Kept(e, s) && View() == Expired(db, now, ageing)
      requires s.linked <==> e != null
      requires e != null ==> e.addr == Ipv4Addr(s.ip) && e.addr in db
      ensures NatView() == Passed(Nat(db, s), now, ageing)
    {
      hide Keyed, Hash, DbOf, Ipv4Addr, View, Drops, Named, Absent;
      if e != null {
        if scdbEntry == null {
          AbsentView(e.addr);
        } else {
          ScdbIn();
        }
      }
    }

    /** One bucket emptied and its nodes freed. */
    method CleanBucket(i: nat, ghost e: Node?, ghost s: Short)
      requires Shape() && Linked() && Named() && Kept(e, s) && i < HASH_SIZE
      modifies nethash, repr`next, repr`pprev, repr`freed, this`chains, this`scdbEntry, this`scdbMac, this`scdbIp
      ensures Shape() && Linked() && Named() && Kept(e, s)
      ensures chains == old(chains)[i := []]
      ensures forall n :: n in old(chains)[i] ==> n.freed
      ensures forall n :: n in repr && old(n.freed) ==> n.freed
    {
      hide Linked, Keyed, Hash, Named, Kept;
      ghost var c, p := chains[i], 0;
      HeadLinked(i);
      var f := nethash[i];
      while f != null
        invariant Shape() && Linked() && Named() && Kept(e, s)
        invariant p <= |c| && f == Nth(c, p) && chains == old(chains)[i := c[p..]]
        invariant forall n :: n in c[..p] ==> n.freed
        invariant forall n :: n in repr && old(n.freed) ==> n.freed
        decreases |c| - p
      {
        assert c[p..][0] == f && Cut(c[p..], 0) == c[p + 1..];
        assert Nth(c[p..], 1) == Nth(c, p + 1);
        NextLinked(i, 0);
        var g := f.next;
        Discard(f, i, 0, e, s);
        assert c[..p + 1] == c[..p] + [f];
        f, p := g, p + 1;
      }
      assert c[..|c|] == c && c[|c|..] == [];
    }

    /** nat25_db_cleanup: the table is empty, every node it held is freed, and with them their client is
        forgotten. */
    method Cleanup()
      requires Valid()
      modifies nethash, repr`next, repr`pprev, repr`freed, this`chains, this`scdbEntry, this`scdbMac, this`scdbIp
      ensures Valid()
      ensures NatView() == Cleared(old(NatView()))
      ensures forall h, k :: 0 <= h < HASH_SIZE && 0 <= k < |old(chains)[h]| ==> old(chains)[h][k].freed
    {
      hide Linked, Keyed, Hash, Named, Kept, DbOf, Rows;
      ghost var e, s := scdbEntry, ShortView();
      KeptSoFar();
      for i := 0 to HASH_SIZE
        invariant Shape() && Linked() && Named() && Kept(e, s)
        invariant forall h :: 0 <= h < HASH_SIZE ==> chains[h] == if h < i then [] else old(chains)[h]
        invariant forall h, k :: 0 <= h < i && 0 <= k < |old(chains)[h]| ==> old(chains)[h][k].freed
      {
        CleanBucket(i, e, s);
      }
      Emptied(e, s);
    }

    lemma Emptied(e: Node?, s: Short)
      requires Shape() && Named() && Kept(e, s) && (s.linked <==> e != null)
      requires forall h :: 0 <= h < HASH_SIZE ==> chains[h] == []
      ensures Sound() && View() == map[] && ShortView() == if s.linked then NO_SHORT else s
    {
      hide Keyed, Hash;
      EmptyDb(RowsFrom(0));
    }

    // ---------- what every operation keeps ----------

    /** Every entry of the map has a use left. */
    lemma ViewCounted()
      requires Valid()
      ensures Counted(View())
    {
      hide Linked, Keyed, Hash, Named, DbOf;
      forall a | a in View()
        ensures View()[a].count >= 1
      {
        var h := Hash(a);
        DbAt(RowsFrom(0), a);
        FindAt(RowsFrom(0)[h], a);
        var k :| 0 <= k < |RowsFrom(0)[h]| && RowsFrom(0)[h][k] == Row(a, Find(RowsFrom(0)[h], a).value);
        CountsOne(h, k);
      }
    }

    /** The remembered entry has not been freed and is the map's entry for the remembered address. */
    lemma ScdbEntryIsLive()
      requires Valid() && scdbEntry != null
      ensures !scdbEntry.freed && scdbEntry.addr == Ipv4Addr(scdbIp)
      ensures Ipv4Addr(scdbIp) in View() && View()[Ipv4Addr(scdbIp)] == RowOf(scdbEntry).entry
    {
      hide Linked, Keyed, Hash, DbOf, Ipv4Addr;
      var h := Hash(scdbEntry.addr);
      var k :| 0 <= k < |chains[h]| && chains[h][k] == scdbEntry;
      CountsOne(h, k);
      ScdbIn();
    }
  }
}
