/** The hash table between its nodes and the map it stands for: sixteen lists of rows. */
module Nat25Rows {
  import opened Memory
  import opened Nat25Spec

  datatype Row = Row(addr: NetAddr, entry: Entry)

  type Table = seq<seq<Row>>

  function Find(rows: seq<Row>, a: NetAddr): Option<Entry> {
    if rows == [] then None else if rows[0].addr == a then Some(rows[0].entry) else Find(rows[1..], a)
  }

  lemma {:induction false} FindAt(rows: seq<Row>, a: NetAddr)
    ensures Find(rows, a).Some? <==> exists k :: 0 <= k < |rows| && rows[k].addr == a
    ensures Find(rows, a).Some? ==> exists k :: 0 <= k < |rows| && rows[k] == Row(a, Find(rows, a).value)
  {
    if rows != [] {
      FindAt(rows[1..], a);
      if rows[0].addr == a {
        assert rows[0] == Row(a, rows[0].entry);
      } else {
        if k :| 0 <= k < |rows[1..]| && rows[1..][k].addr == a {
          assert rows[k + 1].addr == a;
        }
        if k :| 0 <= k < |rows[1..]| && Find(rows[1..], a).Some? && rows[1..][k] == Row(a, Find(rows[1..], a).value) {
          assert rows[k + 1] == Row(a, Find(rows, a).value);
        }
        if k :| 0 <= k < |rows| && rows[k].addr == a {
          assert rows[1..][k - 1].addr == a;
        }
      }
    }
  }

  function Keys(t: Table): set<NetAddr> {
    set h, k | 0 <= h < |t| && 0 <= k < |t[h]| :: t[h][k].addr
  }

  /** The map that the table stands for: an address is looked for in the bucket of its hash only. */
  function DbOf(t: Table): Db
    requires |t| == HASH_SIZE
  {
    map a | a in Keys(t) && Find(t[Hash(a)], a).Some? :: Find(t[Hash(a)], a).value
  }

  lemma {:induction false} DbAt(t: Table, a: NetAddr)
    requires |t| == HASH_SIZE
    ensures a in DbOf(t) <==> Find(t[Hash(a)], a).Some?
    ensures a in DbOf(t) ==> DbOf(t)[a] == Find(t[Hash(a)], a).value
  {
    FindAt(t[Hash(a)], a);
    if Find(t[Hash(a)], a).Some? {
      var k :| 0 <= k < |t[Hash(a)]| && t[Hash(a)][k].addr == a;
      assert a in Keys(t);
    }
  }

  // ---------- a row changed, added or removed ----------

  /** Row k is the first with its address. */
  predicate FirstAt(rows: seq<Row>, a: NetAddr, k: nat) {
    k < |rows| && rows[k].addr == a && forall j :: 0 <= j < k ==> rows[j].addr != a
  }

  lemma {:induction false} FindFirst(rows: seq<Row>, a: NetAddr, k: nat)
    requires FirstAt(rows, a, k)
    ensures Find(rows, a) == Some(rows[k].entry)
  {
    if k > 0 {
      FindFirst(rows[1..], a, k - 1);
    }
  }

  lemma {:induction false} FindNone(rows: seq<Row>, a: NetAddr)
    requires forall j :: 0 <= j < |rows| ==> rows[j].addr != a
    ensures Find(rows, a) == None
  {
    FindAt(rows, a);
  }

  lemma {:induction false} FindUpdated(rows: seq<Row>, a: NetAddr, k: nat, e: Entry, b: NetAddr)
    requires FirstAt(rows, a, k)
    ensures Find(rows[k := Row(a, e)], b) == if b == a then Some(e) else Find(rows, b)
    decreases k
  {
    var new_ := rows[k := Row(a, e)];
    if k == 0 {
      assert new_[1..] == rows[1..];
    } else {
      FindUpdated(rows[1..], a, k - 1, e, b);
      assert new_[1..] == rows[1..][k - 1 := Row(a, e)];
      assert new_[0] == rows[0];
    }
  }

  /** A changed row changes the map at its address. */
  lemma {:induction false} UpdatedDb(t: Table, a: NetAddr, k: nat, e: Entry)
    requires |t| == HASH_SIZE && FirstAt(t[Hash(a)], a, k)
    ensures DbOf(t[Hash(a) := t[Hash(a)][k := Row(a, e)]]) == DbOf(t)[a := e]
    ensures a in DbOf(t) && DbOf(t)[a] == t[Hash(a)][k].entry
  {
    var u := t[Hash(a) := t[Hash(a)][k := Row(a, e)]];
    forall b
      ensures b in DbOf(u) <==> b in DbOf(t)[a := e]
      ensures b in DbOf(u) ==> DbOf(u)[b] == DbOf(t)[a := e][b]
    {
      DbAt(t, b);
      DbAt(u, b);
      FindUpdated(t[Hash(a)], a, k, e, b);
    }
    FindFirst(t[Hash(a)], a, k);
    DbAt(t, a);
  }

  /** A row added in front. */
  lemma {:induction false} AddedDb(t: Table, a: NetAddr, e: Entry)
    requires |t| == HASH_SIZE && forall j :: 0 <= j < |t[Hash(a)]| ==> t[Hash(a)][j].addr != a
    ensures DbOf(t[Hash(a) := [Row(a, e)] + t[Hash(a)]]) == DbOf(t)[a := e]
    ensures a !in DbOf(t)
  {
    var rows := [Row(a, e)] + t[Hash(a)];
    var u := t[Hash(a) := rows];
    assert rows[1..] == t[Hash(a)];
    forall b
      ensures b in DbOf(u) <==> b in DbOf(t)[a := e]
      ensures b in DbOf(u) ==> DbOf(u)[b] == DbOf(t)[a := e][b]
    {
      DbAt(t, b);
      DbAt(u, b);
    }
    FindNone(t[Hash(a)], a);
    DbAt(t, a);
  }

  // ---------- the expiry pass ----------

  predicate Distinct(rows: seq<Row>) {
    forall j, k :: 0 <= j < k < |rows| ==> rows[j].addr != rows[k].addr
  }

  /** What an expiry pass leaves of a bucket, in order. */
  function Survivors(rows: seq<Row>, now: Jiffies, ageing: nat): seq<Row> {
    if rows == [] then []
    else
      var rest := Survivors(rows[1..], now, ageing);
      if Drops(rows[0].entry, now, ageing) then rest
      else [Row(rows[0].addr, Older(rows[0].entry, now, ageing))] + rest
  }

  lemma {:induction false} SurvivorsAppend(x: seq<Row>, y: seq<Row>, now: Jiffies, ageing: nat)
    ensures Survivors(x + y, now, ageing) == Survivors(x, now, ageing) + Survivors(y, now, ageing)
    decreases |x|
  {
    hide Drops, Older;
    if x == [] {
      assert x + y == y;
    } else {
      assert (x + y)[0] == x[0] && (x + y)[1..] == x[1..] + y;
      SurvivorsAppend(x[1..], y, now, ageing);
    }
  }

  lemma {:induction false} SurvivorsOfOne(r: Row, now: Jiffies, ageing: nat)
    ensures Survivors([r], now, ageing) ==
      if Drops(r.entry, now, ageing) then [] else [Row(r.addr, Older(r.entry, now, ageing))]
  {
    hide Drops, Older;
    assert Survivors([r][1..], now, ageing) == [];
  }

  lemma {:induction false} FindSurvivor(rows: seq<Row>, now: Jiffies, ageing: nat, a: NetAddr)
    requires Distinct(rows)
    ensures
      var was := Find(rows, a);
      Find(Survivors(rows, now, ageing), a) ==
      if was.None? || Drops(was.value, now, ageing) then None else Some(Older(was.value, now, ageing))
  {
    hide Drops, Older;
    if rows != [] {
      FindSurvivor(rows[1..], now, ageing, a);
      if rows[0].addr == a {
        FindNone(rows[1..], a);
      }
      var rest := Survivors(rows[1..], now, ageing);
      var front := Row(rows[0].addr, Older(rows[0].entry, now, ageing));
      assert ([front] + rest)[1..] == rest;
    }
  }

  /** A pass over every bucket is a pass over the map. */
  lemma {:induction false} ExpiredDb(t: Table, u: Table, now: Jiffies, ageing: nat)
    requires |t| == |u| == HASH_SIZE
    requires forall h :: 0 <= h < HASH_SIZE ==> Distinct(t[h]) && u[h] == Survivors(t[h], now, ageing)
    ensures DbOf(u) == Expired(DbOf(t), now, ageing)
  {
    hide Drops, Older;
    forall a
      ensures a in DbOf(u) <==> a in Expired(DbOf(t), now, ageing)
      ensures a in DbOf(u) ==> DbOf(u)[a] == Expired(DbOf(t), now, ageing)[a]
    {
      DbAt(t, a);
      DbAt(u, a);
      FindSurvivor(t[Hash(a)], now, ageing, a);
    }
  }

  lemma {:induction false} EmptyDb(t: Table)
    requires |t| == HASH_SIZE && forall h :: 0 <= h < HASH_SIZE ==> t[h] == []
    ensures DbOf(t) == map[]
  {
    assert Keys(t) == {};
  }
}
