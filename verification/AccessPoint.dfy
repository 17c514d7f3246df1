/** The access point at work: stations join, leave and age, and the counters, the HT operation mode and
    the beacon follow (`core/rtw_ap.c`). */
module AccessPoint {
  import opened Memory
  import opened Elements
  import opened BssElements
  import opened Beacon
  import opened Tim
  import opened ApStations
  import KeepAlive

  /** The six per-station marks that the six counters count. */
  datatype Flag = NoShortPreamble | NonErp | NoShortSlot | NoHt | NoHtGf | Ht20

  datatype Marks = Marks(noShortPreamble: bool, nonErp: bool, noShortSlot: bool, noHt: bool, noHtGf: bool, ht20: bool) {
    predicate Has(f: Flag) {
      match f
      case NoShortPreamble => noShortPreamble
      case NonErp => nonErp
      case NoShortSlot => noShortSlot
      case NoHt => noHt
      case NoHtGf => noHtGf
      case Ht20 => ht20
    }

    function With(f: Flag, on: bool): Marks {
      match f
      case NoShortPreamble => this.(noShortPreamble := on)
      case NonErp => this.(nonErp := on)
      case NoShortSlot => this.(noShortSlot := on)
      case NoHt => this.(noHt := on)
      case NoHtGf => this.(noHtGf := on)
      case Ht20 => this.(ht20 := on)
    }
  }

  const UNMARKED := Marks(false, false, false, false, false, false)

  /** How many stations carry a mark. */
  function Tally(ms: seq<Marks>, f: Flag): nat {
    if ms == [] then 0 else One(ms[0], f) + Tally(ms[1..], f)
  }

  function One(m: Marks, f: Flag): nat {
    Unit(m.Has(f))
  }

  function Unit(b: bool): nat {
    if b then 1 else 0
  }

  lemma {:induction false} TallyAppend(a: seq<Marks>, b: seq<Marks>, f: Flag)
    ensures Tally(a + b, f) == Tally(a, f) + Tally(b, f)
  {
    if a == [] {
      PlusNothing(b);
    } else {
      TailOfSum(a, b);
      TallyAppend(a[1..], b, f);
    }
  }

  lemma TallyCut(ms: seq<Marks>, k: nat, f: Flag)
    requires k < |ms|
    ensures Tally(ms, f) == Tally(ms[..k], f) + One(ms[k], f) + Tally(ms[k + 1..], f)
    ensures Tally(ms[..k] + ms[k + 1..], f) == Tally(ms, f) - One(ms[k], f)
  {
    hide One;
    assert Tally([ms[k]], f) == One(ms[k], f) + Tally([], f);
    hide Tally;
    assert ms == ms[..k] + [ms[k]] + ms[k + 1..];
    TallyAppend(ms[..k], [ms[k]], f);
    TallyAppend(ms[..k] + [ms[k]], ms[k + 1..], f);
    TallyAppend(ms[..k], ms[k + 1..], f);
  }

  /** The six counters. */
  datatype Counters = Counters(noShortPreamble: int, nonErp: int, noShortSlot: int, noHt: int, noHtGf: int, ht20: int) {
    function Plus(f: Flag, d: int): Counters {
      match f
      case NoShortPreamble => this.(noShortPreamble := noShortPreamble + d)
      case NonErp => this.(nonErp := nonErp + d)
      case NoShortSlot => this.(noShortSlot := noShortSlot + d)
      case NoHt => this.(noHt := noHt + d)
      case NoHtGf => this.(noHtGf := noHtGf + d)
      case Ht20 => this.(ht20 := ht20 + d)
    }
  }

  /** Each counter is the number of stations that carry its mark. */
  predicate Counts(c: Counters, ms: seq<Marks>) {
    && c.noShortPreamble == Tally(ms, NoShortPreamble)
    && c.nonErp == Tally(ms, NonErp)
    && c.noShortSlot == Tally(ms, NoShortSlot)
    && c.noHt == Tally(ms, NoHt)
    && c.noHtGf == Tally(ms, NoHtGf)
    && c.ht20 == Tally(ms, Ht20)
  }

  /** The counters without one station's share. */
  function Less(c: Counters, m: Marks): Counters {
    Counters(c.noShortPreamble - Unit(m.noShortPreamble), c.nonErp - Unit(m.nonErp),
             c.noShortSlot - Unit(m.noShortSlot), c.noHt - Unit(m.noHt),
             c.noHtGf - Unit(m.noHtGf), c.ht20 - Unit(m.ht20))
  }

  /** Changing a mark and its counter together keeps the counters without that station's share. */
  lemma LessKept(c: Counters, m: Marks, f: Flag, on: bool)
    ensures Less(c.Plus(f, Unit(on) - Unit(m.Has(f))), m.With(f, on)) == Less(c, m)
    ensures c.Plus(f, Unit(on) - Unit(m.Has(f))).nonErp == c.nonErp + if f == NonErp then Unit(on) - Unit(m.Has(f)) else 0
    ensures m.Has(f) == on ==> m.With(f, on) == m && c.Plus(f, 0) == c
    ensures f != NonErp ==> m.With(f, on).nonErp == m.nonErp
    ensures f != NoShortPreamble ==> c.Plus(f, Unit(on) - Unit(m.Has(f))).noShortPreamble == c.noShortPreamble
  {
  }

  lemma CountsUpdate(c0: Counters, c: Counters, ms: seq<Marks>, k: nat, m: Marks)
    requires k < |ms| && Counts(c0, ms) && Less(c, m) == Less(c0, ms[k])
    ensures Counts(c, ms[k := m])
  {
    hide Tally;
    forall f: Flag ensures Tally(ms[k := m], f) == Tally(ms, f) - One(ms[k], f) + One(m, f) {
      TallyUpdate(ms, k, m, f);
    }
  }

  lemma CountsAppend(c: Counters, ms: seq<Marks>)
    requires Counts(c, ms)
    ensures Counts(c, ms + [UNMARKED])
  {
    forall f: Flag ensures Tally(ms + [UNMARKED], f) == Tally(ms, f) {
      TallyAppend(ms, [UNMARKED], f);
      assert Tally([UNMARKED], f) == One(UNMARKED, f) + Tally([], f);
    }
  }

  /** A station that leaves takes its share along. */
  lemma CountsWithout(c: Counters, ms: seq<Marks>, k: nat)
    requires k < |ms| && Counts(c, ms)
    ensures Counts(Less(c, ms[k]), ms[..k] + ms[k + 1..])
  {
    hide Tally;
    forall f: Flag ensures Tally(ms[..k] + ms[k + 1..], f) == Tally(ms, f) - One(ms[k], f) {
      TallyCut(ms, k, f);
    }
  }

  /** No counter is negative, and a marked station is counted. */
  lemma CountsShare(c: Counters, ms: seq<Marks>, k: nat)
    requires k < |ms| && Counts(c, ms)
    ensures Unit(ms[k].noShortPreamble) <= c.noShortPreamble && Unit(ms[k].nonErp) <= c.nonErp
    ensures Unit(ms[k].noShortSlot) <= c.noShortSlot && Unit(ms[k].noHt) <= c.noHt
    ensures Unit(ms[k].noHtGf) <= c.noHtGf && Unit(ms[k].ht20) <= c.ht20
  {
    forall f: Flag ensures One(ms[k], f) <= Tally(ms, f) {
      TallyShare(ms, k, f);
    }
  }

  lemma CountsNonErp(c: Counters, m: Marks, ms: seq<Marks>)
    requires Counts(Less(c, m), ms)
    ensures Unit(m.Has(NonErp)) <= c.nonErp
  {
  }

  lemma TallyShare(ms: seq<Marks>, k: nat, f: Flag)
    requires k < |ms|
    ensures One(ms[k], f) <= Tally(ms, f)
  {
    TallyCut(ms, k, f);
  }

  /** Remarking one station changes each tally by that station's share. */
  lemma TallyUpdate(ms: seq<Marks>, k: nat, m: Marks, f: Flag)
    requires k < |ms|
    ensures Tally(ms[k := m], f) == Tally(ms, f) - One(ms[k], f) + One(m, f)
  {
    hide Tally, One;
    TallyCut(ms, k, f);
    TallyCut(ms[k := m], k, f);
    assert ms[k := m][..k] == ms[..k] && ms[k := m][k + 1..] == ms[k + 1..];
  }

  /** What a station announces when it associates. */
  datatype Announced = Announced(shortPreamble: bool, nonErp: bool, shortSlot: bool, ht: bool, greenfield: bool, width40: bool)

  /** The marks a station carries after its association with what it announced then: the first four are
      set or cleared to match; the two other HT marks are only ever set. */
  function JoinMarks(m: Marks, a: Announced): Marks {
    Marks(!a.shortPreamble, a.nonErp, !a.shortSlot, !a.ht,
          m.noHtGf || (a.ht && !a.greenfield), m.ht20 || (a.ht && !a.width40))
  }

  /** The marks of a joined station, mark by mark. */
  lemma JoinMarksAre(m: Marks, a: Announced)
    ensures
      var m1 := m.With(NoShortPreamble, !a.shortPreamble).With(NonErp, a.nonErp).With(NoShortSlot, !a.shortSlot).With(NoHt, !a.ht);
      var m2 := if a.ht && !a.greenfield then m1.With(NoHtGf, true) else m1;
      JoinMarks(m, a) == if a.ht && !a.width40 then m2.With(Ht20, true) else m2
  {
  }

  lemma UnmarkedIs(m: Marks)
    ensures m.With(NoShortPreamble, false).With(NonErp, false).With(NoShortSlot, false)
      .With(NoHtGf, false).With(NoHt, false).With(Ht20, false) == UNMARKED
    ensures forall c: Counters :: Less(c, UNMARKED) == c
  {
  }

  /** A station entry: what it announced, which counters it is in, and its ageing. */
  class Sta {
    const aid: nat
    var announced: Announced
    var marks: Marks
    var age: KeepAlive.Ageing
    var rxPkts: nat
    var lastRxPkts: nat
    var sleepqLen: nat

    /** A station entry as the pool hands it out. */
    constructor (aid: nat)
      ensures this.aid == aid && marks == UNMARKED
      ensures age == KeepAlive.Ageing(0, 0, false, false, false) && rxPkts == lastRxPkts == 0 && sleepqLen == 0
    {
      this.aid := aid;
      announced := Announced(false, false, false, false, false, false);
      marks := UNMARKED;
      age := KeepAlive.Ageing(0, 0, false, false, false);
      rxPkts, lastRxPkts, sleepqLen := 0, 0, 0;
    }
  }

  /** The marks of a list of stations. */
  ghost function MarksOf(list: seq<Sta>): (ms: seq<Marks>)
    reads list`marks
    ensures |ms| == |list|
    ensures forall i :: 0 <= i < |list| ==> ms[i] == list[i].marks
  {
    if list == [] then [] else [list[0].marks] + MarksOf(list[1..])
  }

  /** A tally is not zero exactly if some station carries the mark. */
  lemma {:induction false} SomeMarked(list: seq<Sta>, f: Flag)
    ensures Tally(MarksOf(list), f) != 0 <==> exists s :: s in list && s.marks.Has(f)
  {
    if list != [] {
      hide Marks.Has;
      var ms := MarksOf(list);
      assert ms[0] == list[0].marks && ms[1..] == MarksOf(list[1..]);
      SomeMarked(list[1..], f);
      if exists s :: s in list && s.marks.Has(f) {
        var s :| s in list && s.marks.Has(f);
        assert s == list[0] || s in list[1..];
      }
      assert list[0] in list && forall s :: s in list[1..] ==> s in list;
    }
  }

  ghost predicate Distinct(list: seq<Sta>) {
    forall i, j :: 0 <= i < j < |list| ==> list[i] != list[j]
  }

  /** The list without the station at one place. */
  function Unlisted(list: seq<Sta>, k: nat): seq<Sta>
    requires k < |list|
  {
    list[..k] + list[k + 1..]
  }

  /** The second list is the first one without the station. */
  predicate IsUnlisted(list: seq<Sta>, sta: Sta, rest: seq<Sta>) {
    sta !in rest && exists k :: 0 <= k < |list| && list[k] == sta && rest == Unlisted(list, k)
  }

  /** The list without a set of stations. */
  function Keep(list: seq<Sta>, gone: set<Sta>): seq<Sta> {
    if list == [] then []
    else (if list[0] in gone then [] else [list[0]]) + Keep(list[1..], gone)
  }

  lemma {:induction false} KeepMembers(list: seq<Sta>, gone: set<Sta>, sta: Sta)
    ensures sta in Keep(list, gone) <==> sta in list && sta !in gone
  {
    if list != [] {
      KeepMembers(list[1..], gone, sta);
    }
  }

  lemma {:induction false} KeepAll(list: seq<Sta>)
    ensures Keep(list, {}) == list
  {
    if list != [] {
      KeepAll(list[1..]);
    }
  }

  lemma {:induction false} KeepTwice(list: seq<Sta>, gone: set<Sta>, more: set<Sta>)
    ensures Keep(Keep(list, gone), more) == Keep(list, gone + more)
  {
    if list != [] {
      KeepTwice(list[1..], gone, more);
      var t := Keep(list[1..], gone);
      if list[0] in gone {
        PlusNothing(t);
      } else {
        TailOfSum([list[0]], t);
      }
    }
  }

  lemma {:induction false} KeepAppend(a: seq<Sta>, b: seq<Sta>, gone: set<Sta>)
    ensures Keep(a + b, gone) == Keep(a, gone) + Keep(b, gone)
  {
    if a == [] {
      PlusNothing(b);
    } else {
      TailOfSum(a, b);
      KeepAppend(a[1..], b, gone);
    }
  }

  lemma {:induction false} KeepOthers(list: seq<Sta>, sta: Sta)
    requires sta !in list
    ensures Keep(list, {sta}) == list
  {
    if list != [] {
      KeepOthers(list[1..], sta);
    }
  }

  /** Unlisting one more station keeps the list without the larger set. */
  lemma UnlistedIsKeep(list: seq<Sta>, gone: set<Sta>, sta: Sta, rest: seq<Sta>)
    requires IsUnlisted(Keep(list, gone), sta, rest)
    ensures rest == Keep(list, gone + {sta})
  {
    hide Keep;
    var cur := Keep(list, gone);
    var k :| 0 <= k < |cur| && cur[k] == sta && rest == Unlisted(cur, k);
    KeepTwice(list, gone, {sta});
    KeepCut(cur, k);
    assert forall s :: s in cur[..k] ==> s in rest;
    assert forall s :: s in cur[k + 1..] ==> s in rest;
    KeepOthers(cur[..k], sta);
    KeepOthers(cur[k + 1..], sta);
  }

  lemma KeepCut(list: seq<Sta>, k: nat)
    requires k < |list|
    ensures Keep(list, {list[k]}) == Keep(list[..k], {list[k]}) + Keep(list[k + 1..], {list[k]})
  {
    var sta := list[k];
    KeepHead(list[k..], sta);
    hide Keep;
    assert list == list[..k] + list[k..] && list[k..][1..] == list[k + 1..];
    KeepAppend(list[..k], list[k..], {sta});
  }

  lemma KeepHead(list: seq<Sta>, sta: Sta)
    requires list != [] && list[0] == sta
    ensures Keep(list, {sta}) == Keep(list[1..], {sta})
  {
  }

  /** What the timer goes by, of one station. */
  datatype Snap = Snap(age: KeepAlive.Ageing, heard: bool, sleepqLen: nat, aid: nat)

  ghost function SnapOf(sta: Sta): Snap
    reads sta`age, sta`rxPkts, sta`lastRxPkts, sta`sleepqLen
  {
    Snap(sta.age, sta.rxPkts != sta.lastRxPkts, sta.sleepqLen, sta.aid)
  }

  ghost function SnapsOf(list: seq<Sta>): (ss: seq<Snap>)
    reads list`age, list`rxPkts, list`lastRxPkts, list`sleepqLen
    ensures |ss| == |list|
    ensures forall i :: 0 <= i < |list| ==> ss[i] == SnapOf(list[i])
  {
    if list == [] then [] else [SnapOf(list[0])] + SnapsOf(list[1..])
  }

  /** What the walk will do with each station. */
  function Walks(ss: seq<Snap>, cfg: KeepAlive.Config): (ws: seq<KeepAlive.Walked>)
    ensures |ws| == |ss|
  {
    seq(|ss|, i requires 0 <= i < |ss| => KeepAlive.Walk(ss[i].age, ss[i].heard, cfg))
  }

  /** The timer is at zero after the countdown: it stood at 1 and nothing was received, or it has been
      started anew with a limit of zero. */
  predicate TimerEnds(s: Snap, cfg: KeepAlive.Config) {
    if s.heard || s.age.expireTo == 0 then cfg.expireTo == 0 else s.age.expireTo == 1
  }

  /** The station is asleep, has not been told before, and its timer ends. */
  predicate IsTold(s: Snap, cfg: KeepAlive.Config) {
    !cfg.wifiSpec && s.age.sleeping && !s.age.aliveChk && TimerEnds(s, cfg)
  }

  /** The station's queue is longer than its share of the transmit frames, and few of them are free. */
  predicate IsOverfull(s: Snap, cfg: KeepAlive.Config, listed: nat, free: nat) {
    !TimerEnds(s, cfg) && listed > 0 && s.sleepqLen > 256 / listed && free < 256 / listed / 2
  }

  /** How many of the first stations the walk takes off the list. */
  function GoneCount(ws: seq<KeepAlive.Walked>, i: nat): (n: nat)
    requires i <= |ws|
    ensures n <= i
  {
    if i == 0 then 0 else GoneCount(ws, i - 1) + if ws[i - 1].Gone? then 1 else 0
  }

  /** Those of the first stations, in order, that the walk wakes. */
  function Overfull(list: seq<Sta>, ss: seq<Snap>, free: seq<nat>, cfg: KeepAlive.Config, i: nat): seq<Sta>
    requires i <= |list| == |ss| && |list| <= |free|
  {
    if i == 0 then []
    else
      var rest := Overfull(list, ss, free, cfg, i - 1);
      if IsOverfull(ss[i - 1], cfg, |list| - GoneCount(Walks(ss, cfg), i - 1), free[i - 1]) then rest + [list[i - 1]] else rest
  }

  // ---------- who is told, and who is no longer ----------

  /** The association ids of the first stations that are told. */
  function ToldAids(ss: seq<Snap>, cfg: KeepAlive.Config, i: nat): set<nat>
    requires i <= |ss|
  {
    set j | 0 <= j < i && IsTold(ss[j], cfg) :: ss[j].aid
  }

  predicate ToldBetween(ss: seq<Snap>, cfg: KeepAlive.Config, j: nat, i: nat)
    requires i <= |ss|
  {
    exists k :: j < k < i && IsTold(ss[k], cfg)
  }

  /** Of those that the walk takes off the list before another one is told. */
  function EarlyAids(ss: seq<Snap>, cfg: KeepAlive.Config, i: nat): set<nat>
    requires i <= |ss|
  {
    set j | 0 <= j < i && Walks(ss, cfg)[j].Gone? && ToldBetween(ss, cfg, j, i) :: ss[j].aid
  }

  /** Of the stations of a list that are gone. */
  function GoneAids(list: seq<Sta>, gone: set<Sta>): set<nat> {
    set j | 0 <= j < |list| && list[j] in gone :: list[j].aid
  }

  ghost predicate AidsApart(list: seq<Sta>) {
    forall i, j :: 0 <= i < j < |list| ==> list[i].aid != list[j].aid
  }

  lemma ToldStep(ss: seq<Snap>, cfg: KeepAlive.Config, i: nat)
    requires i < |ss|
    ensures ToldAids(ss, cfg, i + 1) == ToldAids(ss, cfg, i) + if IsTold(ss[i], cfg) then {ss[i].aid} else {}
  {
    hide IsTold;
    var a, b := ToldAids(ss, cfg, i + 1), ToldAids(ss, cfg, i) + if IsTold(ss[i], cfg) then {ss[i].aid} else {};
    forall x | x in b
      ensures x in a
    {
      if x in ToldAids(ss, cfg, i) {
        var j :| 0 <= j < i && IsTold(ss[j], cfg) && x == ss[j].aid;
        assert 0 <= j < i + 1;
      }
    }
  }

  /** Telling one more station makes all that are gone by then early. */
  lemma EarlyStep(list: seq<Sta>, ss: seq<Snap>, gone: set<Sta>, cfg: KeepAlive.Config, i: nat)
    requires i < |ss| == |list| && forall j :: 0 <= j < |list| ==> ss[j].aid == list[j].aid
    requires forall j :: 0 <= j < |list| ==> (list[j] in gone <==> j < i && Walks(ss, cfg)[j].Gone?)
    ensures EarlyAids(ss, cfg, i + 1) == if IsTold(ss[i], cfg) then GoneAids(list, gone) else EarlyAids(ss, cfg, i)
  {
    hide IsTold, Walks;
    forall j | 0 <= j < i
      ensures ToldBetween(ss, cfg, j, i + 1) <==> IsTold(ss[i], cfg) || ToldBetween(ss, cfg, j, i)
    {
      if ToldBetween(ss, cfg, j, i) {
        var k :| j < k < i && IsTold(ss[k], cfg);
        assert j < k < i + 1;
      }
      assert j < i < i + 1;
    }
    hide ToldBetween;
  }

  lemma GoneMore(list: seq<Sta>, gone: set<Sta>, k: nat)
    requires k < |list|
    ensures GoneAids(list, gone + {list[k]}) == GoneAids(list, gone) + {list[k].aid}
  {
    var a, b := GoneAids(list, gone + {list[k]}), GoneAids(list, gone) + {list[k].aid};
    forall x | x in b
      ensures x in a
    {
      if x in GoneAids(list, gone) {
        var j :| 0 <= j < |list| && list[j] in gone && x == list[j].aid;
        assert list[j] in gone + {list[k]};
      } else {
        assert list[k] in gone + {list[k]};
      }
    }
  }

  lemma GoneGrows(list: seq<Sta>, gone: set<Sta>, gone': set<Sta>)
    requires gone <= gone'
    ensures GoneAids(list, gone) <= GoneAids(list, gone')
  {
  }

  lemma NotGoneAid(list: seq<Sta>, gone: set<Sta>, k: nat)
    requires k < |list| && AidsApart(list) && list[k] !in gone
    ensures list[k].aid !in GoneAids(list, gone)
  {
  }

  /** What one call of the timer makes of a station. */
  ghost function TickOf(sta: Sta, acked: set<Sta>, cfg: KeepAlive.Config): KeepAlive.Outcome
    reads sta`age, sta`rxPkts, sta`lastRxPkts
  {
    KeepAlive.Tick(sta.age, KeepAlive.Seen(sta.rxPkts != sta.lastRxPkts, sta in acked), cfg)
  }

  lemma TickIs(list: seq<Sta>, ss: seq<Snap>, acked: set<Sta>, cfg: KeepAlive.Config)
    requires ss == SnapsOf(list)
    ensures forall i :: 0 <= i < |list| ==> TickOf(list[i], acked, cfg) == AfterProbe(Walks(ss, cfg)[i], list[i] in acked, cfg)
  {
  }

  /** A station stands where an outcome says: off the list, or aged like this. */
  ghost predicate StandsAs(sta: Sta, o: KeepAlive.Outcome, gone: set<Sta>)
    reads sta`age
  {
    match o
    case Stays(a) => sta !in gone && sta.age == a
    case Expires => sta in gone
  }

  /** Where a station stands after the walk and before its probe. */
  function AfterWalk(w: KeepAlive.Walked): KeepAlive.Outcome {
    match w
    case Settled(a) => KeepAlive.Stays(a)
    case ToProbe(a) => KeepAlive.Stays(a)
    case Gone => KeepAlive.Expires
  }

  function AfterProbe(w: KeepAlive.Walked, acked: bool, cfg: KeepAlive.Config): KeepAlive.Outcome {
    match w
    case ToProbe(a) => KeepAlive.Probe(a, acked, cfg)
    case _ => AfterWalk(w)
  }

  /** The chosen places, in order, are those among the first i whose station waits for a probe. */
  predicate Chosen(chk: seq<nat>, walks: seq<KeepAlive.Walked>, i: nat) {
    && i <= |walks|
    && (forall j :: 0 <= j < i ==> (j in chk <==> walks[j].ToProbe?))
    && (forall c :: 0 <= c < |chk| ==> chk[c] < i)
    && (forall c, d :: 0 <= c < d < |chk| ==> chk[c] < chk[d])
  }

  lemma NoneChosen(walks: seq<KeepAlive.Walked>)
    ensures Chosen([], walks, 0)
  {
  }

  lemma OneChosen(chk: seq<nat>, walks: seq<KeepAlive.Walked>, i: nat)
    requires Chosen(chk, walks, i) && i < |walks|
    ensures Chosen(if walks[i].ToProbe? then chk + [i] else chk, walks, i + 1)
  {
    assert forall c :: 0 <= c < |chk| ==> chk[c] in chk;
    if walks[i].ToProbe? {
      var t := chk + [i];
      forall j | 0 <= j < i + 1
        ensures j in t <==> walks[j].ToProbe?
      {
        assert j in t <==> j in chk || j == i;
      }
    } else {
      assert i !in chk;
    }
  }

  lemma ChosenAt(chk: seq<nat>, walks: seq<KeepAlive.Walked>, c: nat)
    requires Chosen(chk, walks, |walks|) && c < |chk|
    ensures chk[c] < |walks| && walks[chk[c]].ToProbe? && chk[c] !in chk[..c]
  {
    assert chk[c] in chk;
  }

  lemma ListedCount(list: seq<Sta>, sta: Sta)
    requires sta in list
    ensures |list| > 0
  {
  }

  /** The beacon's elements after the count of non-ERP stations went from n0 to n. */
  function ErpAfter(elems: seq<Elem>, n0: int, n: int, enabled: bool, noShortPreamble: int): seq<Elem> {
    if enabled && ((n > n0 && n == 1) || (n < n0 && n == 0)) then ErpUpdated(elems, n == 1, noShortPreamble > 0)
    else elems
  }

  /** That is one step of the run in which a station comes or goes, or no step. */
  lemma ErpAfterIsStep(elems: seq<Elem>, n0: nat, n: nat, p: int)
    requires n0 - 1 <= n <= n0 + 1
    ensures n == n0 ==> ErpAfter(elems, n0, n, true, p) == elems
    ensures n == n0 + 1 ==> ErpState(n, ErpAfter(elems, n0, n, true, p)) == ErpStep(ErpState(n0, elems), Came(p))
    ensures n == n0 - 1 ==> ErpState(n, ErpAfter(elems, n0, n, true, p)) == ErpStep(ErpState(n0, elems), Went(p))
  {
  }

  /** A station that is told is not taken off in the same walk. */
  lemma ToldIsNotGone(s: Snap, cfg: KeepAlive.Config)
    ensures IsTold(s, cfg) ==> !KeepAlive.Walk(s.age, s.heard, cfg).Gone?
  {
  }

  /** What the countdown leaves. */
  lemma TimerIs(s: Snap, cfg: KeepAlive.Config)
    ensures
      var a := KeepAlive.CountDown(s.age, s.heard, cfg);
      && (a.expireTo == 0 <==> TimerEnds(s, cfg))
      && a.sleeping == s.age.sleeping && a.aliveChk == s.age.aliveChk
    ensures IsTold(s, cfg) ==> !KeepAlive.Walk(s.age, s.heard, cfg).Gone?
  {
  }

  lemma EarlyIsGone(list: seq<Sta>, ss: seq<Snap>, gone: set<Sta>, cfg: KeepAlive.Config)
    requires |ss| == |list| && forall j :: 0 <= j < |list| ==> ss[j].aid == list[j].aid
    requires forall j :: 0 <= j < |list| && Walks(ss, cfg)[j].Gone? ==> list[j] in gone
    ensures EarlyAids(ss, cfg, |ss|) <= GoneAids(list, gone)
  {
    hide Walks, ToldBetween;
  }

  /** Who is told: the walk leaves exactly those newly marked, and their timer runs again. */
  lemma ToldExactly(ss: seq<Snap>, cfg: KeepAlive.Config, a: nat)
    ensures a in ToldAids(ss, cfg, |ss|) <==> exists i :: 0 <= i < |ss| && ss[i].aid == a && NewlyMarked(ss[i].age, Walks(ss, cfg)[i])
  {
    assert forall i :: 0 <= i < |ss| ==> (IsTold(ss[i], cfg) <==> NewlyMarked(ss[i].age, Walks(ss, cfg)[i]));
    hide Walks, IsTold, NewlyMarked;
  }

  /** A station that the walk has marked as told. */
  predicate NewlyMarked(a: KeepAlive.Ageing, w: KeepAlive.Walked) {
    !w.Gone? && w.a.aliveChk && !a.aliveChk
  }

  /** How many stations the walk has taken off the list before. */
  lemma {:induction false} GoneCountIs(ws: seq<KeepAlive.Walked>, i: nat)
    requires i <= |ws|
    ensures GoneCount(ws, i) == |set j | 0 <= j < i && ws[j].Gone?|
  {
    var gone := set j | 0 <= j < i && ws[j].Gone?;
    if i > 0 {
      GoneCountIs(ws, i - 1);
      var before := set j | 0 <= j < i - 1 && ws[j].Gone?;
      assert gone == before + if ws[i - 1].Gone? then {i - 1} else {};
    } else {
      assert gone == {};
    }
  }

  /** A station has time left after the countdown, and its queue is longer than its share of 256 transmit
      frames among the stations still listed, while less than half a share is free. */
  predicate Wakes(ss: seq<Snap>, cfg: KeepAlive.Config, i: nat, free: nat)
    requires i < |ss|
  {
    KeepAlive.CountDown(ss[i].age, ss[i].heard, cfg).expireTo > 0 && Pressed(ss[i].sleepqLen, free, |ss| - GoneCount(Walks(ss, cfg), i))
  }

  predicate Pressed(queued: nat, free: nat, listed: nat) {
    listed > 0 && var share := 256 / listed; queued > share && free < share / 2
  }

  lemma PressedIs(s: Snap, cfg: KeepAlive.Config, listed: nat, free: nat)
    ensures IsOverfull(s, cfg, listed, free) <==> !TimerEnds(s, cfg) && Pressed(s.sleepqLen, free, listed)
  {
    hide TimerEnds;
  }

  lemma WakesIs(ss: seq<Snap>, cfg: KeepAlive.Config, i: nat, free: nat)
    requires i < |ss|
    ensures IsOverfull(ss[i], cfg, |ss| - GoneCount(Walks(ss, cfg), i), free) <==> Wakes(ss, cfg, i, free)
  {
    TimerIs(ss[i], cfg);
    hide Walks, TimerEnds, KeepAlive.CountDown, GoneCount, IsOverfull, Pressed;
    PressedIs(ss[i], cfg, |ss| - GoneCount(Walks(ss, cfg), i), free);
  }

  /** Those are the stations that are woken. */
  lemma {:induction false} WokenExactly(list: seq<Sta>, ss: seq<Snap>, free: seq<nat>, cfg: KeepAlive.Config, n: nat, sta: Sta)
    requires n <= |list| == |ss| && |list| <= |free|
    ensures sta in Overfull(list, ss, free, cfg, n) <==> exists i :: 0 <= i < n && list[i] == sta && Wakes(ss, cfg, i, free[i])
    decreases n
  {
    if n > 0 {
      hide Walks, GoneCount, Wakes, IsOverfull;
      WokenExactly(list, ss, free, cfg, n - 1, sta);
      WakesIs(ss, cfg, n - 1, free[n - 1]);
      assert 0 <= n - 1 < n;
    }
  }

  /** The beacon's TIM is that of the bitmap exactly unless a station that has gone since the last telling had
      its bit set. */
  lemma {:induction false} TimIsCurrentExactly(bm: Bitmap, shown: Bitmap, bm0: Bitmap, told: set<nat>, gone: set<nat>, early: set<nat>)
    requires BitsAre(bm, bm0, told, gone) && BitsAre(shown, bm0, told, early) && early <= gone
    ensures shown == bm <==> forall a :: a in gone && a !in early && a <= 15 ==> !Bit(bm0, a) && a !in told
  {
    SameBits(shown, bm);
    hide Bit;
    if forall a :: a in gone && a !in early && a <= 15 ==> !Bit(bm0, a) && a !in told {
      assert forall a :: 0 <= a <= 15 ==> (Bit(shown, a) <==> Bit(bm, a));
    }
  }

  /** The input that shows it: a sleeping station whose probes are used up is told and, in the same call, taken
      off the list.  Its bit is cleared in the bitmap and stays set in the beacon. */
  lemma {:induction false} GoneStationStaysTold(aid: nat, cfg: KeepAlive.Config, bm0: Bitmap, bm: Bitmap, shown: Bitmap)
    requires 1 <= aid <= 15 && cfg.activeCheck && !cfg.wifiSpec
    requires
      var ss := [Snap(KeepAlive.Ageing(1, 3, true, false, true), false, 0, aid)];
      BitsAre(bm, bm0, ToldAids(ss, cfg, 1), {aid}) && BitsAre(shown, bm0, ToldAids(ss, cfg, 1), EarlyAids(ss, cfg, 1))
    ensures KeepAlive.Tick(KeepAlive.Ageing(1, 3, true, false, true), KeepAlive.Seen(false, false), cfg).Expires?
    ensures Bit(shown, aid) && !Bit(bm, aid)
  {
    hide Bit;
    var ss := [Snap(KeepAlive.Ageing(1, 3, true, false, true), false, 0, aid)];
    assert IsTold(ss[0], cfg) && aid in ToldAids(ss, cfg, 1);
    assert EarlyAids(ss, cfg, 1) == {};
  }

  lemma UnlistedApart(list: seq<Sta>, k: nat)
    requires k < |list| && Distinct(list) && AidsApart(list)
    ensures
      var rest := Unlisted(list, k);
      Distinct(rest) && AidsApart(rest) && list[k] !in rest && IsUnlisted(list, list[k], rest)
  {
    var rest := Unlisted(list, k);
    assert forall j :: 0 <= j < |rest| ==> rest[j] == list[if j < k then j else j + 1];
  }

  lemma WalkAt(ss: seq<Snap>, cfg: KeepAlive.Config, i: nat)
    requires i < |ss|
    ensures Walks(ss, cfg)[i] == KeepAlive.Walk(ss[i].age, ss[i].heard, cfg)
    ensures GoneCount(Walks(ss, cfg), i + 1) == GoneCount(Walks(ss, cfg), i) + if Walks(ss, cfg)[i].Gone? then 1 else 0
  {
  }

  lemma OneShorter(list: seq<Sta>, sta: Sta, rest: seq<Sta>)
    requires IsUnlisted(list, sta, rest)
    ensures |rest| == |list| - 1
  {
  }

  lemma OverfullStarts(list: seq<Sta>, ss: seq<Snap>, free: seq<nat>, cfg: KeepAlive.Config)
    requires |list| == |ss| && |list| <= |free|
    ensures Overfull(list, ss, free, cfg, 0) == []
  {
  }

  lemma OverfullStep(list: seq<Sta>, ss: seq<Snap>, free: seq<nat>, cfg: KeepAlive.Config, i: nat)
    requires i < |list| == |ss| && |list| <= |free|
    ensures
      var rest := Overfull(list, ss, free, cfg, i);
      Overfull(list, ss, free, cfg, i + 1) ==
        if IsOverfull(ss[i], cfg, |list| - GoneCount(Walks(ss, cfg), i), free[i]) then rest + [list[i]] else rest
  {
    hide IsOverfull, GoneCount, Walks;
  }

  lemma ErpAfterKeepsTim(elems: seq<Elem>, n0: int, n: int, enabled: bool, p: int)
    ensures
      var t := ErpAfter(elems, n0, n, enabled, p);
      && (HasNonEmpty(t, TIM_IE) <==> HasNonEmpty(elems, TIM_IE))
      && (HasNonEmpty(elems, TIM_IE) ==> TimOf(t) == TimOf(elems))
  {
    ErpKeepsTim(elems, n == 1, p > 0);
    hide ErpUpdated, HasNonEmpty, TimOf;
  }

  const NR_XMITFRAME := 256

  class Ap {
    var asocList: seq<Sta>
    var asocListCnt: nat

    var num: Counters

    var htOption: bool
    var apWidth40: bool
    var olbcHt: bool
    var htOpMode: OpMode

    var bstartBss: bool
    var erpEnable: bool
    const bss: BssEx
    ghost var elems: seq<Elem>

    var timBitmap: Bitmap
    var expireTo: nat
    var activeKeepAliveCheck: bool
    var wifiSpec: bool

    /** The beacon is readable, has room for a TIM, and shows protection just when it should. */
    ghost predicate BeaconOk(n: int)
      reads this`elems, this`bstartBss, this`erpEnable, bss, bss.ies
    {
      && IsBeacon(bss, elems)
      && (bstartBss ==> TimReady(elems))
      && (bstartBss && erpEnable && HasNonEmpty(elems, ERPINFO_IE) ==> ProtectionShown(elems, n))
    }

    ghost predicate Valid()
      reads this, asocList`marks, bss, bss.ies
    {
      && Distinct(asocList) && AidsApart(asocList)
      && asocListCnt == |asocList|
      && Counts(num, MarksOf(asocList))
      && BeaconOk(num.nonErp)
    }

    predicate HtModeAgrees()
      reads this`htOption, this`htOpMode, this`num, this`olbcHt, this`apWidth40
    {
      htOption ==> ModeAgrees(htOpMode, num.noHt, num.noHtGf, num.ht20, olbcHt, apWidth40)
    }

    /** The first TIM in a started beacon. */
    ghost function BeaconTim(): Option<Elem>
      reads this`elems, this`bstartBss
    {
      if bstartBss && HasNonEmpty(elems, TIM_IE) then Some(TimOf(elems)) else None
    }

    /** The mode word, by the stations: 3 with a non-HT station; without one 2 if the BSS is 40 MHz wide and has
        a 20 MHz station; else 1 if an overlapping BSS may hold non-HT stations, and 0 if not. */
    ghost predicate ModeTells()
      reads this`asocList, this`htOption, this`htOpMode, this`olbcHt, this`apWidth40, asocList`marks
    {
      htOption ==>
        && (htOpMode.mode == 3 <==> exists s :: s in asocList && s.marks.noHt)
        && (htOpMode.mode == 2 <==> (forall s :: s in asocList ==> !s.marks.noHt) && apWidth40 && exists s :: s in asocList && s.marks.ht20)
        && (htOpMode.mode == 1 <==>
              (forall s :: s in asocList ==> !s.marks.noHt) && !(apWidth40 && exists s :: s in asocList && s.marks.ht20) && olbcHt)
        && htOpMode.mode <= 3
        && (htOpMode.nonGfPresent <==> exists s :: s in asocList && s.marks.noHtGf)
        && (htOpMode.nonHtPresent <==> olbcHt || exists s :: s in asocList && s.marks.noHt)
    }

    /** That is what agreement with the counters means. */
    lemma ModeFromStations()
      requires Counts(num, MarksOf(asocList)) && HtModeAgrees()
      ensures ModeTells()
    {
      hide Tally, MarksOf;
      SomeMarked(asocList, NoHt);
      SomeMarked(asocList, NoHtGf);
      SomeMarked(asocList, Ht20);
    }

    /** A started access point without stations, on a beacon whose protection bits are clear. */
    constructor (bss: BssEx, ghost es: seq<Elem>, htOption: bool, width40: bool, olbcHt: bool, erpEnable: bool,
                 expireTo: nat, activeCheck: bool, wifiSpec: bool)
      requires IsBeacon(bss, es) && TimReady(es)
      requires erpEnable && HasNonEmpty(es, ERPINFO_IE) ==> ProtectionShown(es, 0)
      ensures Valid() && this.bss == bss && elems == es && asocList == [] && bstartBss
      ensures this.htOption == htOption && this.erpEnable == erpEnable && this.expireTo == expireTo
    {
      asocList, asocListCnt := [], 0;
      num := Counters(0, 0, 0, 0, 0, 0);
      this.htOption, this.apWidth40, this.olbcHt, this.htOpMode := htOption, width40, olbcHt, OpMode(OP_MODE_PURE, false, false, false, 0);
      this.bstartBss, this.erpEnable, this.bss, this.elems := true, erpEnable, bss, es;
      this.timBitmap, this.expireTo, this.activeKeepAliveCheck, this.wifiSpec := 0, expireTo, activeCheck, wifiSpec;
    }

    /** Makes the mode word agree with the counters and says how many of its three fields changed. */
    method HtOperationUpdate() returns (changes: nat)
      modifies this`htOpMode
      ensures HtModeAgrees()
      ensures SameOtherBits(htOpMode, old(htOpMode))
      ensures changes == 0 <==> old(HtModeAgrees())
      ensures changes == 0 ==> htOpMode == old(htOpMode)
    {
      changes := 0;
      if !htOption {
        return;
      }
      if !htOpMode.nonGfPresent && num.noHtGf != 0 {
        htOpMode := htOpMode.(nonGfPresent := true);
        changes := changes + 1;
      } else if htOpMode.nonGfPresent && num.noHtGf == 0 {
        htOpMode := htOpMode.(nonGfPresent := false);
        changes := changes + 1;
      }
      if !htOpMode.nonHtPresent && (num.noHt != 0 || olbcHt) {
        htOpMode := htOpMode.(nonHtPresent := true);
        changes := changes + 1;
      } else if htOpMode.nonHtPresent && num.noHt == 0 && !olbcHt {
        htOpMode := htOpMode.(nonHtPresent := false);
        changes := changes + 1;
      }
      var newOpMode := OP_MODE_PURE;
      if num.noHt != 0 {
        newOpMode := OP_MODE_MIXED;
      } else if apWidth40 && num.ht20 != 0 {
        newOpMode := OP_MODE_20MHZ_HT_STA_ASSOCED;
      } else if olbcHt {
        newOpMode := OP_MODE_MAY_BE_LEGACY_STAS;
      }
      var curOpMode := htOpMode.mode;
      if curOpMode != newOpMode {
        htOpMode := htOpMode.(mode := newOpMode);
        changes := changes + 1;
      }
    }

    /** `update_beacon` for the ERP element. */
    method UpdateBeaconErp(ghost n0: int)
      requires BeaconOk(n0) && num.nonErp != n0 && (num.nonErp == 0 || num.nonErp == 1)
      modifies this`elems, bss.ies
      ensures BeaconOk(num.nonErp)
      ensures elems == if bstartBss && erpEnable
        then ErpUpdated(old(elems), num.nonErp == 1, num.noShortPreamble > 0) else old(elems)
    {
      if !bstartBss {
        return;
      }
      UpdateBcnErpInfo(bss, erpEnable, num.nonErp, num.noShortPreamble, elems);
      if erpEnable {
        TimReadyKeptByErp(elems, num.nonErp == 1, num.noShortPreamble > 0);
        if HasNonEmpty(elems, ERPINFO_IE) {
          UpdateShowsProtection(elems, num.nonErp == 1, num.noShortPreamble > 0);
        }
        elems := ErpUpdated(elems, num.nonErp == 1, num.noShortPreamble > 0);
      }
    }

    /** Sets or clears one mark of a station and counts the change, if there is one. */
    method Remark(sta: Sta, f: Flag, on: bool) returns (changed: bool)
      modifies this`num, sta`marks
      ensures changed <==> old(sta.marks).Has(f) != on
      ensures sta.marks == old(sta.marks).With(f, on)
      ensures Less(num, sta.marks) == old(Less(num, sta.marks))
      ensures num.nonErp == old(num.nonErp) + if f == NonErp then Unit(on) - Unit(old(sta.marks).Has(f)) else 0
      ensures f != NonErp ==> sta.marks.nonErp == old(sta.marks).nonErp
      ensures f != NoShortPreamble ==> num.noShortPreamble == old(num.noShortPreamble)
    {
      hide Less, Marks.With, Counters.Plus;
      LessKept(num, sta.marks, f, on);
      changed := sta.marks.Has(f) != on;
      if on {
        if !sta.marks.Has(f) {
          sta.marks := sta.marks.With(f, true);
          num := num.Plus(f, 1);
        }
      } else {
        if sta.marks.Has(f) {
          sta.marks := sta.marks.With(f, false);
          num := num.Plus(f, -1);
        }
      }
    }

    /** The non-ERP mark, with the beacon refresh on the first such station and on the last. */
    method RemarkNonErp(sta: Sta, on: bool)
      requires BeaconOk(num.nonErp) && Unit(sta.marks.Has(NonErp)) <= num.nonErp
      modifies this`num, this`elems, bss.ies, sta`marks
      ensures sta.marks == old(sta.marks).With(NonErp, on)
      ensures Less(num, sta.marks) == old(Less(num, sta.marks))
      ensures BeaconOk(num.nonErp)
      ensures elems == ErpAfter(old(elems), old(num.nonErp), num.nonErp, bstartBss && erpEnable, num.noShortPreamble)
    {
      hide Less, Marks.With, ErpUpdated, HasNonEmpty, TimReady, IsBeacon;
      ghost var n0 := num.nonErp;
      var changed := Remark(sta, NonErp, on);
      if changed && num.nonErp == (if on then 1 else 0) {
        UpdateBeaconErp(n0);
      }
    }

    /** All marks of a join.  An HT station's greenfield and 20 MHz marks are set but never cleared. */
    method JoinRemarks(sta: Sta)
      requires BeaconOk(num.nonErp) && Unit(sta.marks.nonErp) <= num.nonErp
      modifies this`num, this`elems, bss.ies, sta`marks
      ensures sta.marks == JoinMarks(old(sta.marks), sta.announced)
      ensures Less(num, sta.marks) == old(Less(num, sta.marks))
      ensures BeaconOk(num.nonErp)
      ensures elems == ErpAfter(old(elems), old(num.nonErp), num.nonErp, bstartBss && erpEnable, num.noShortPreamble)
    {
      hide Ap.BeaconOk, ErpAfter, Less, Marks.With, JoinMarks;
      JoinMarksAre(sta.marks, sta.announced);
      var changed := Remark(sta, NoShortPreamble, !sta.announced.shortPreamble);
      RemarkNonErp(sta, sta.announced.nonErp);
      changed := Remark(sta, NoShortSlot, !sta.announced.shortSlot);
      if sta.announced.ht {
        changed := Remark(sta, NoHt, false);
        if !sta.announced.greenfield {
          changed := Remark(sta, NoHtGf, true);
        }
        if !sta.announced.width40 {
          changed := Remark(sta, Ht20, true);
        }
      } else {
        changed := Remark(sta, NoHt, true);
      }
    }

    /** Marks a joined station and counts the marks. */
    method CountJoined(sta: Sta, ghost k: nat)
      requires Valid() && k < |asocList| && asocList[k] == sta
      modifies this`num, this`elems, bss.ies, sta`marks
      ensures Valid() && sta.marks == JoinMarks(old(sta.marks), sta.announced)
      ensures elems == ErpAfter(old(elems), old(num.nonErp), num.nonErp, bstartBss && erpEnable, num.noShortPreamble)
    {
      hide Counts, Ap.BeaconOk, ErpAfter, Less, JoinMarks, AidsApart;
      ghost var ms, num0 := MarksOf(asocList), num;
      CountsShare(num0, ms, k);
      JoinRemarks(sta);
      assert MarksOf(asocList) == ms[k := sta.marks];
      CountsUpdate(num0, num, ms, k, sta.marks);
    }

    /** And brings the mode word up to date. */
    method BssCapUpdateOnStaJoin(sta: Sta)
      requires Valid() && sta in asocList
      modifies this`num, this`htOpMode, this`elems, bss.ies, sta`marks
      ensures Valid() && HtModeAgrees() && ModeTells()
      ensures sta.marks == JoinMarks(old(sta.marks), sta.announced)
      ensures elems == ErpAfter(old(elems), old(num.nonErp), num.nonErp, bstartBss && erpEnable, num.noShortPreamble)
    {
      hide Counts, Ap.BeaconOk, ErpAfter, JoinMarks, AidsApart, Distinct, MarksOf, Ap.ModeTells, Ap.HtModeAgrees;
      ghost var k :| 0 <= k < |asocList| && asocList[k] == sta;
      CountJoined(sta, k);
      var changes := HtOperationUpdate();
      ModeFromStations();
    }

    /** All marks of a leave. */
    method LeaveRemarks(sta: Sta)
      requires BeaconOk(num.nonErp) && Unit(sta.marks.nonErp) <= num.nonErp
      modifies this`num, this`elems, bss.ies, sta`marks
      ensures sta.marks == UNMARKED && num == old(Less(num, sta.marks))
      ensures BeaconOk(num.nonErp)
      ensures elems == ErpAfter(old(elems), old(num.nonErp), num.nonErp, bstartBss && erpEnable, num.noShortPreamble)
    {
      hide Ap.BeaconOk, ErpAfter, Less, Marks.With;
      UnmarkedIs(sta.marks);
      var changed := Remark(sta, NoShortPreamble, false);
      RemarkNonErp(sta, false);
      changed := Remark(sta, NoShortSlot, false);
      changed := Remark(sta, NoHtGf, false);
      changed := Remark(sta, NoHt, false);
      changed := Remark(sta, Ht20, false);
    }

    /** A station that has been taken off the list, and is not yet out of the counters. */
    ghost predicate Leaving(sta: Sta)
      reads this, asocList`marks, bss, bss.ies, sta`marks
    {
      && Distinct(asocList) && AidsApart(asocList) && asocListCnt == |asocList| && sta !in asocList
      && Counts(Less(num, sta.marks), MarksOf(asocList))
      && BeaconOk(num.nonErp)
    }

    /** Takes it out of the counters. */
    method CountLeft(sta: Sta)
      requires Leaving(sta)
      modifies this`num, this`elems, bss.ies, sta`marks
      ensures Valid() && sta.marks == UNMARKED
      ensures elems == ErpAfter(old(elems), old(num.nonErp), num.nonErp, bstartBss && erpEnable, num.noShortPreamble)
    {
      hide Counts, Ap.BeaconOk, ErpAfter, Less, AidsApart, Distinct, MarksOf;
      CountsNonErp(num, sta.marks, MarksOf(asocList));
      LeaveRemarks(sta);
      assert MarksOf(asocList) == old(MarksOf(asocList));
    }

    /** And brings the mode word up to date. */
    method BssCapUpdateOnStaLeave(sta: Sta)
      requires Leaving(sta)
      modifies this`num, this`htOpMode, this`elems, bss.ies, sta`marks
      ensures Valid() && HtModeAgrees() && ModeTells()
      ensures sta.marks == UNMARKED
      ensures elems == ErpAfter(old(elems), old(num.nonErp), num.nonErp, bstartBss && erpEnable, num.noShortPreamble)
    {
      hide Counts, Ap.BeaconOk, ErpAfter, AidsApart, Distinct, MarksOf, Ap.ModeTells, Ap.HtModeAgrees;
      CountLeft(sta);
      var changes := HtOperationUpdate();
      ModeFromStations();
    }

    /** A station associates: it is listed unless it already is, and then counted. */
    method StaJoin(sta: Sta)
      requires Valid()
      requires sta !in asocList ==> sta.marks == UNMARKED && forall s :: s in asocList ==> s.aid != sta.aid
      modifies this`asocList, this`asocListCnt, this`num, this`htOpMode, this`elems, bss.ies, sta`marks, sta`age
      ensures Valid() && HtModeAgrees() && ModeTells()
      ensures asocList == if sta in old(asocList) then old(asocList) else old(asocList) + [sta]
      ensures sta.marks == JoinMarks(old(sta.marks), sta.announced)
      ensures sta.marks.noShortPreamble == !sta.announced.shortPreamble && sta.marks.nonErp == sta.announced.nonErp
      ensures sta.marks.noShortSlot == !sta.announced.shortSlot && sta.marks.noHt == !sta.announced.ht
      ensures sta !in old(asocList) ==>
        && sta.marks.noHtGf == (sta.announced.ht && !sta.announced.greenfield)
        && sta.marks.ht20 == (sta.announced.ht && !sta.announced.width40)
      ensures sta.age == if sta in old(asocList) then old(sta.age) else old(sta.age).(expireTo := expireTo)
      ensures elems == ErpAfter(old(elems), old(num.nonErp), num.nonErp, bstartBss && erpEnable, num.noShortPreamble)
    {
      hide Counts, Ap.BeaconOk, ErpAfter;
      if sta !in asocList {
        ghost var ms := MarksOf(asocList);
        CountsAppend(num, ms);
        sta.age := sta.age.(expireTo := expireTo);
        asocList := asocList + [sta];
        asocListCnt := asocListCnt + 1;
        assert MarksOf(asocList) == ms + [UNMARKED];
      }
      BssCapUpdateOnStaJoin(sta);
    }

    /** A station is taken off the list and freed: its timer and its queue are cleared, and so is its bit in
        the bitmap, while the beacon's TIM stays as it is. */
    method StaLeave(sta: Sta)
      requires Valid() && sta in asocList
      modifies this`asocList, this`asocListCnt, this`num, this`htOpMode, this`elems, this`timBitmap
      modifies bss.ies, sta`marks, sta`age, sta`sleepqLen
      ensures Valid() && HtModeAgrees() && ModeTells()
      ensures IsUnlisted(old(asocList), sta, asocList) && sta.marks == UNMARKED
      ensures sta.age == old(sta.age).(linked := false, expireTo := 0) && sta.sleepqLen == 0
      ensures timBitmap == AndNotBit(old(timBitmap), sta.aid) && BeaconTim() == old(BeaconTim())
      ensures elems == ErpAfter(old(elems), old(num.nonErp), num.nonErp, bstartBss && erpEnable, num.noShortPreamble)
    {
      hide Counts, Ap.BeaconOk, ErpAfter, Less, MarksOf, AndNotBit, Ap.ModeTells, Ap.HtModeAgrees, IsUnlisted, Distinct, AidsApart,
           HasNonEmpty, TimOf;
      ghost var es, n := elems, num.nonErp;
      var k :| 0 <= k < |asocList| && asocList[k] == sta;
      ghost var ms := MarksOf(asocList);
      UnlistedApart(asocList, k);
      asocList := Unlisted(asocList, k);
      asocListCnt := asocListCnt - 1;
      sta.age := sta.age.(linked := false, expireTo := 0);
      assert MarksOf(asocList) == ms[..k] + ms[k + 1..];
      CountsWithout(num, ms, k);
      BssCapUpdateOnStaLeave(sta);
      ErpAfterKeepsTim(es, n, num.nonErp, bstartBss && erpEnable, num.noShortPreamble);
      sta.sleepqLen := 0;
      timBitmap := AndNotBit(timBitmap, sta.aid);
    }

    // ---------- expire_timeout_chk ----------

    function Cfg(): (c: KeepAlive.Config)
      reads this`expireTo, this`activeKeepAliveCheck, this`wifiSpec
    {
      KeepAlive.Config(expireTo, activeKeepAliveCheck, wifiSpec)
    }

    /** `update_beacon` for the TIM. */
    method UpdateBeaconTim(ghost n: int)
      requires BeaconOk(n)
      modifies this`elems, bss`ieLength, bss.ies
      ensures BeaconOk(n)
      ensures elems == if bstartBss then TimUpdated(old(elems), timBitmap) else old(elems)
    {
      if bstartBss {
        hide TimReady, ErpByte, HasPlace, TimUpdated, IsBeacon, HasNonEmpty;
        TimReadyKept(elems, timBitmap);
        TimUpdateKeepsErp(elems, timBitmap);
        UpdateBcnTim(bss, timBitmap, elems);
        elems := TimUpdated(elems, timBitmap);
      }
    }

    /** The countdown at the start of the walk's work on one station. */
    method CountDownStation(sta: Sta)
      modifies sta`age, sta`lastRxPkts
      ensures sta.age == KeepAlive.CountDown(old(sta.age), old(sta.rxPkts != sta.lastRxPkts), Cfg())
      ensures sta.lastRxPkts == sta.rxPkts
    {
      var heard := sta.rxPkts != sta.lastRxPkts;
      sta.lastRxPkts := sta.rxPkts;
      if heard || sta.age.expireTo == 0 {
        sta.age := sta.age.(expireTo := expireTo, trycnt := 0);
      } else {
        sta.age := sta.age.(expireTo := sta.age.expireTo - 1);
      }
    }

    lemma TimIsThere(n: int)
      requires BeaconOk(n)
      ensures bstartBss ==> HasNonEmpty(elems, TIM_IE)
    {
    }

    /** A sleeping station's traffic bit goes into the beacon. */
    method AnnounceStation(sta: Sta)
      requires BeaconOk(num.nonErp)
      modifies this`elems, this`timBitmap, bss`ieLength, bss.ies, sta`age
      ensures BeaconOk(num.nonErp)
      ensures sta.age == KeepAlive.Announced(old(sta.age), Cfg())
      ensures timBitmap == OrBit(old(timBitmap), sta.aid)
      ensures BeaconTim() == if bstartBss then Some(TimElem(timBitmap)) else old(BeaconTim())
    {
      TimIsThere(num.nonErp);
      hide Ap.BeaconOk, TimUpdated, OrBit, HasNonEmpty, TimOf, TimElem;
      TimOfUpdatedAll(elems);
      sta.age := sta.age.(expireTo := expireTo, aliveChk := true);
      timBitmap := OrBit(timBitmap, sta.aid);
      UpdateBeaconTim(num.nonErp);
    }

    /** The walk's work on one station.  The divisions need a listed station, which this one is. */
    method AgeStation(sta: Sta, freeXmitframes: nat) returns (probe: bool, wake: bool)
      requires Valid() && sta in asocList
      modifies this`asocList, this`asocListCnt, this`num, this`htOpMode, this`elems, this`timBitmap
      modifies bss`ieLength, bss.ies, sta`age, sta`marks, sta`lastRxPkts, sta`sleepqLen
      ensures Valid() && (old(HtModeAgrees()) ==> HtModeAgrees())
      ensures sta.lastRxPkts == sta.rxPkts
      ensures
        match KeepAlive.Walk(old(sta.age), old(sta.rxPkts != sta.lastRxPkts), Cfg())
        case Settled(a) => sta.age == a && !probe && asocList == old(asocList)
        case ToProbe(a) => sta.age == a && probe && asocList == old(asocList)
        case Gone => !probe && IsUnlisted(old(asocList), sta, asocList)
      ensures wake <==> IsOverfull(old(SnapOf(sta)), Cfg(), old(asocListCnt), freeXmitframes)
      ensures timBitmap ==
        if IsTold(old(SnapOf(sta)), Cfg()) then OrBit(old(timBitmap), sta.aid)
        else if KeepAlive.Walk(old(sta.age), old(sta.rxPkts != sta.lastRxPkts), Cfg()).Gone? then AndNotBit(old(timBitmap), sta.aid)
        else old(timBitmap)
      ensures BeaconTim() == if IsTold(old(SnapOf(sta)), Cfg()) && bstartBss then Some(TimElem(timBitmap)) else old(BeaconTim())
    {
      hide Ap.BeaconOk, Counts, TimUpdated, OrBit, AndNotBit, MarksOf, IsUnlisted, Distinct, KeepAlive.CountDown, ModeAgrees, TimElem,
           Ap.BeaconTim, TimReady, ErpAfter, AidsApart, Ap.ModeTells, TimerEnds;
      probe, wake := false, false;
      TimerIs(SnapOf(sta), Cfg());
      CountDownStation(sta);
      if sta.age.expireTo > 0 {
        ListedCount(asocList, sta);
        var quota := NR_XMITFRAME / asocListCnt;
        wake := sta.sleepqLen > quota && freeXmitframes < quota / 2;
        return;
      }
      if wifiSpec {
        sta.age := sta.age.(expireTo := expireTo);
        return;
      }
      if sta.age.sleeping && !sta.age.aliveChk {
        AnnounceStation(sta);
        if !activeKeepAliveCheck {
          return;
        }
      }
      if activeKeepAliveCheck {
        probe := true;
        return;
      }
      StaLeave(sta);
    }

    /** The probe of one station that the walk put aside. */
    method ProbeStation(sta: Sta, acked: bool)
      requires Valid() && sta in asocList
      modifies this`asocList, this`asocListCnt, this`num, this`htOpMode, this`elems, this`timBitmap
      modifies bss.ies, sta`marks, sta`age, sta`sleepqLen
      ensures Valid() && (old(HtModeAgrees()) ==> HtModeAgrees())
      ensures
        match KeepAlive.Probe(old(sta.age), acked, Cfg())
        case Stays(a) => sta.age == a && asocList == old(asocList) && timBitmap == old(timBitmap)
        case Expires => IsUnlisted(old(asocList), sta, asocList) && timBitmap == AndNotBit(old(timBitmap), sta.aid)
      ensures BeaconTim() == old(BeaconTim())
    {
      hide Ap.BeaconOk, Counts, MarksOf, IsUnlisted, Distinct, ModeAgrees, AidsApart, AndNotBit, Ap.BeaconTim, Ap.ModeTells;
      if !sta.age.linked {
        return;
      }
      sta.age := sta.age.(trycnt := sta.age.trycnt + 1);
      if acked {
        sta.age := sta.age.(expireTo := expireTo, trycnt := 0);
        return;
      } else if sta.age.trycnt <= KeepAlive.PROBE_TRIES {
        sta.age := sta.age.(expireTo := 1);
        return;
      }
      sta.age := sta.age.(trycnt := 0);
      StaLeave(sta);
    }

    /** The bitmap and the beacon's TIM, against those before: the bits of those who have been told are set
        and the bits of those who are gone are clear, and the TIM is still that of the last telling. */
    ghost predicate Tells(bm0: Bitmap, tim0: Option<Elem>, told: set<nat>, gone: set<nat>, early: set<nat>, shown: Bitmap)
      reads this`timBitmap, this`elems, this`bstartBss
    {
      && BitsAre(timBitmap, bm0, told, gone)
      && BitsAre(shown, bm0, told, early)
      && BeaconTim() == if told != {} && bstartBss then Some(TimElem(shown)) else tim0
    }

    /** The walk has done its work on the first i stations of the list, and none on the others. */
    ghost predicate WalkedTo(list: seq<Sta>, ss: seq<Snap>, i: nat, gone: set<Sta>)
      requires |ss| == |list|
      reads this`asocList, this`expireTo, this`activeKeepAliveCheck, this`wifiSpec
      reads list`age, list`rxPkts, list`lastRxPkts, list`sleepqLen
    {
      && asocList == Keep(list, gone)
      && (forall j :: 0 <= j < |list| ==> ss[j].aid == list[j].aid)
      && (forall j :: 0 <= j < i && j < |list| ==>
            StandsAs(list[j], AfterWalk(Walks(ss, Cfg())[j]), gone) && list[j].lastRxPkts == list[j].rxPkts)
      && (forall j :: i <= j < |list| ==> list[j] !in gone && SnapOf(list[j]) == ss[j])
    }

    lemma WalkedGone(list: seq<Sta>, ss: seq<Snap>, i: nat, gone: set<Sta>)
      requires |ss| == |list| && WalkedTo(list, ss, i, gone)
      ensures forall j :: 0 <= j < |list| ==> ss[j].aid == list[j].aid
      ensures forall j :: 0 <= j < |list| ==> (list[j] in gone <==> j < i && Walks(ss, Cfg())[j].Gone?)
    {
      hide Keep;
    }

    /** One step of the walk. */
    method WalkOne(list: seq<Sta>, i: nat, sta: Sta, freeXmitframes: nat, ghost ss: seq<Snap>, ghost gone: set<Sta>)
      returns (probe: bool, wake: bool, ghost gone': set<Sta>)
      requires Valid() && Distinct(list) && i < |list| == |ss| && list[i] == sta && WalkedTo(list, ss, i, gone)
      requires asocListCnt == |list| - GoneCount(Walks(ss, Cfg()), i)
      modifies this`asocList, this`asocListCnt, this`num, this`htOpMode, this`elems, this`timBitmap
      modifies bss`ieLength, bss.ies, sta`age, sta`marks, sta`lastRxPkts, sta`sleepqLen
      ensures Valid() && (old(HtModeAgrees()) ==> HtModeAgrees())
      ensures WalkedTo(list, ss, i + 1, gone') && asocListCnt == |list| - GoneCount(Walks(ss, Cfg()), i + 1)
      ensures gone' == if Walks(ss, Cfg())[i].Gone? then gone + {sta} else gone
      ensures probe <==> Walks(ss, Cfg())[i].ToProbe?
      ensures wake <==> IsOverfull(ss[i], Cfg(), old(asocListCnt), freeXmitframes)
      ensures timBitmap ==
        if IsTold(ss[i], Cfg()) then OrBit(old(timBitmap), ss[i].aid)
        else if Walks(ss, Cfg())[i].Gone? then AndNotBit(old(timBitmap), ss[i].aid)
        else old(timBitmap)
      ensures BeaconTim() == if IsTold(ss[i], Cfg()) && bstartBss then Some(TimElem(timBitmap)) else old(BeaconTim())
    {
      hide Ap.Valid, Keep, Ap.HtModeAgrees, KeepAlive.Walk, IsUnlisted, IsTold, IsOverfull, OrBit, AndNotBit, TimElem, Ap.BeaconTim,
           Walks, GoneCount;
      WalkAt(ss, Cfg(), i);
      KeepMembers(list, gone, list[i]);
      CountIs();
      ghost var before := asocList;
      probe, wake := AgeStation(list[i], freeXmitframes);
      CountIs();
      gone' := gone;
      if Walks(ss, Cfg())[i].Gone? {
        OneShorter(before, list[i], asocList);
        UnlistedIsKeep(list, gone, list[i], asocList);
        gone' := gone + {list[i]};
      }
      assert StandsAs(list[i], AfterWalk(Walks(ss, Cfg())[i]), gone');
      forall j | 0 <= j < i ensures StandsAs(list[j], AfterWalk(Walks(ss, Cfg())[j]), gone') {
        assert list[j] != list[i];
        assert StandsAs(list[j], AfterWalk(Walks(ss, Cfg())[j]), gone);
      }
    }

    lemma CountIs()
      requires Valid()
      ensures asocListCnt == |asocList|
    {
    }

    /** The same step, for the bitmap. */
    lemma TellsStep(list: seq<Sta>, ss: seq<Snap>, i: nat, gone: set<Sta>, gone': set<Sta>, bm: Bitmap, bm': Bitmap, bm0: Bitmap, shown: Bitmap)
      returns (shown': Bitmap)
      requires i < |list| == |ss| && AidsApart(list) && WalkedTo(list, ss, i + 1, gone')
      requires list[i] !in gone && gone' == if Walks(ss, Cfg())[i].Gone? then gone + {list[i]} else gone
      requires forall j :: 0 <= j < |list| ==> (list[j] in gone <==> j < i && Walks(ss, Cfg())[j].Gone?)
      requires BitsAre(bm, bm0, ToldAids(ss, Cfg(), i), GoneAids(list, gone))
      requires BitsAre(shown, bm0, ToldAids(ss, Cfg(), i), EarlyAids(ss, Cfg(), i))
      requires bm' ==
        if IsTold(ss[i], Cfg()) then OrBit(bm, ss[i].aid)
        else if Walks(ss, Cfg())[i].Gone? then AndNotBit(bm, ss[i].aid) else bm
      ensures BitsAre(bm', bm0, ToldAids(ss, Cfg(), i + 1), GoneAids(list, gone'))
      ensures BitsAre(shown', bm0, ToldAids(ss, Cfg(), i + 1), EarlyAids(ss, Cfg(), i + 1))
      ensures shown' == if IsTold(ss[i], Cfg()) then bm' else shown
    {
      WalkedGone(list, ss, i + 1, gone');
      ToldIsNotGone(ss[i], Cfg());
      hide BitsAre, ToldAids, EarlyAids, GoneAids, IsTold, KeepAlive.Walk, OrBit, AndNotBit, Ap.WalkedTo;
      ToldStep(ss, Cfg(), i);
      EarlyStep(list, ss, gone, Cfg(), i);
      var told, off := ToldAids(ss, Cfg(), i), GoneAids(list, gone);
      assert told + {} == told;
      if IsTold(ss[i], Cfg()) {
        NotGoneAid(list, gone, i);
        BitsMore(bm, bm0, told, off, ss[i].aid);
        shown' := bm';
      } else {
        shown' := shown;
        if Walks(ss, Cfg())[i].Gone? {
          BitsLess(bm, bm0, told, off, ss[i].aid);
          GoneMore(list, gone, i);
        }
      }
    }

    /** One step of the walk, with what it tells. */
    method WalkAndTell(list: seq<Sta>, i: nat, sta: Sta, freeXmitframes: nat, ghost ss: seq<Snap>, ghost gone: set<Sta>,
                       ghost bm0: Bitmap, ghost tim0: Option<Elem>, ghost shown: Bitmap)
      returns (probe: bool, wake: bool, ghost gone': set<Sta>, ghost shown': Bitmap)
      requires Valid() && Distinct(list) && AidsApart(list) && i < |list| == |ss| && list[i] == sta && WalkedTo(list, ss, i, gone)
      requires asocListCnt == |list| - GoneCount(Walks(ss, Cfg()), i)
      requires Tells(bm0, tim0, ToldAids(ss, Cfg(), i), GoneAids(list, gone), EarlyAids(ss, Cfg(), i), shown)
      modifies this`asocList, this`asocListCnt, this`num, this`htOpMode, this`elems, this`timBitmap
      modifies bss`ieLength, bss.ies, sta`age, sta`marks, sta`lastRxPkts, sta`sleepqLen
      ensures Valid() && (old(HtModeAgrees()) ==> HtModeAgrees())
      ensures WalkedTo(list, ss, i + 1, gone') && asocListCnt == |list| - GoneCount(Walks(ss, Cfg()), i + 1)
      ensures probe <==> Walks(ss, Cfg())[i].ToProbe?
      ensures wake <==> IsOverfull(ss[i], Cfg(), |list| - GoneCount(Walks(ss, Cfg()), i), freeXmitframes)
      ensures Tells(bm0, tim0, ToldAids(ss, Cfg(), i + 1), GoneAids(list, gone'), EarlyAids(ss, Cfg(), i + 1), shown')
    {
      hide *;
      ghost var bm, tim := timBitmap, BeaconTim();
      TellsIs(bm0, tim0, ToldAids(ss, Cfg(), i), GoneAids(list, gone), EarlyAids(ss, Cfg(), i), shown);
      WalkedGone(list, ss, i, gone);
      probe, wake, gone' := WalkOne(list, i, sta, freeXmitframes, ss, gone);
      shown' := TellsStep(list, ss, i, gone, gone', bm, timBitmap, bm0, shown);
      ToldStep(ss, Cfg(), i);
      TellsSo(bm0, tim0, tim, ToldAids(ss, Cfg(), i), ss[i], GoneAids(list, gone'), EarlyAids(ss, Cfg(), i + 1), shown, shown');
    }

    /** The walk over the list; it returns the places of the stations to probe. */
    method WalkStations(free: seq<nat>, ghost ss: seq<Snap>)
      returns (chk: seq<nat>, woken: seq<Sta>, ghost gone: set<Sta>, ghost shown: Bitmap)
      requires Valid() && ss == SnapsOf(asocList) && |free| >= |asocList|
      modifies this`asocList, this`asocListCnt, this`num, this`htOpMode, this`elems, this`timBitmap
      modifies bss`ieLength, bss.ies, asocList`age, asocList`marks, asocList`lastRxPkts, asocList`sleepqLen
      ensures Valid() && (old(HtModeAgrees()) ==> HtModeAgrees())
      ensures WalkedTo(old(asocList), ss, |ss|, gone)
      ensures Chosen(chk, Walks(ss, Cfg()), |ss|)
      ensures woken == Overfull(old(asocList), ss, free, Cfg(), |ss|)
      ensures Tells(old(timBitmap), old(BeaconTim()), ToldAids(ss, Cfg(), |ss|), GoneAids(old(asocList), gone), EarlyAids(ss, Cfg(), |ss|), shown)
    {
      var list := asocList;
      chk, woken, gone, shown := [], [], {}, timBitmap;
      ghost var agreed, bm0, tim0 := HtModeAgrees(), timBitmap, BeaconTim();
      hide *;
      ValidDistinct();
      WalkStarts(list, ss);
      TellsNothing(list, ss);
      NoneChosen(Walks(ss, Cfg()));
      OverfullStarts(list, ss, free, Cfg());
      for i := 0 to |list|
        invariant Valid() && (agreed ==> HtModeAgrees())
        invariant WalkedTo(list, ss, i, gone) && asocListCnt == |list| - GoneCount(Walks(ss, Cfg()), i)
        invariant Chosen(chk, Walks(ss, Cfg()), i)
        invariant woken == Overfull(list, ss, free, Cfg(), i)
        invariant Tells(bm0, tim0, ToldAids(ss, Cfg(), i), GoneAids(list, gone), EarlyAids(ss, Cfg(), i), shown)
      {
        var probe, wake;
        probe, wake, gone, shown := WalkAndTell(list, i, list[i], free[i], ss, gone, bm0, tim0, shown);
        OneChosen(chk, Walks(ss, Cfg()), i);
        OverfullStep(list, ss, free, Cfg(), i);
        if probe {
          chk := chk + [i];
        }
        if wake {
          woken := woken + [list[i]];
        }
      }
    }

    lemma TellsIs(bm0: Bitmap, tim0: Option<Elem>, told: set<nat>, gone: set<nat>, early: set<nat>, shown: Bitmap)
      requires Tells(bm0, tim0, told, gone, early, shown)
      ensures BitsAre(timBitmap, bm0, told, gone) && BitsAre(shown, bm0, told, early)
      ensures BeaconTim() == if told != {} && bstartBss then Some(TimElem(shown)) else tim0
    {
    }

    lemma TellsSo(bm0: Bitmap, tim0: Option<Elem>, tim: Option<Elem>, told: set<nat>, s: Snap, gone: set<nat>, early: set<nat>, shown: Bitmap, shown': Bitmap)
      requires tim == if told != {} && bstartBss then Some(TimElem(shown)) else tim0
      requires shown' == if IsTold(s, Cfg()) then timBitmap else shown
      requires BeaconTim() == if IsTold(s, Cfg()) && bstartBss then Some(TimElem(timBitmap)) else tim
      requires
        var t := told + if IsTold(s, Cfg()) then {s.aid} else {};
        BitsAre(timBitmap, bm0, t, gone) && BitsAre(shown', bm0, t, early)
      ensures Tells(bm0, tim0, told + if IsTold(s, Cfg()) then {s.aid} else {}, gone, early, shown')
    {
      hide IsTold, BitsAre, Ap.BeaconTim, TimElem;
      if IsTold(s, Cfg()) {
        assert s.aid in told + {s.aid};
      }
    }

    lemma TellsNothing(list: seq<Sta>, ss: seq<Snap>)
      requires |ss| == |list|
      ensures Tells(timBitmap, BeaconTim(), ToldAids(ss, Cfg(), 0), GoneAids(list, {}), EarlyAids(ss, Cfg(), 0), timBitmap)
    {
      hide TimElem, Ap.BeaconTim;
      BitsBegin(timBitmap);
      assert ToldAids(ss, Cfg(), 0) == {} && GoneAids(list, {}) == {} && EarlyAids(ss, Cfg(), 0) == {};
    }

    lemma WalkStarts(list: seq<Sta>, ss: seq<Snap>)
      requires Valid() && list == asocList && ss == SnapsOf(list)
      ensures WalkedTo(list, ss, 0, {}) && asocListCnt == |list| - GoneCount(Walks(ss, Cfg()), 0)
    {
      KeepAll(list);
    }

    lemma ValidDistinct()
      requires Valid()
      ensures Distinct(asocList) && AidsApart(asocList)
    {
    }

    /** The stations at places chk[..c] have been probed, those at later places have not, and all others
        stand where the walk left them. */
    ghost predicate ProbedTo(list: seq<Sta>, walks: seq<KeepAlive.Walked>, chk: seq<nat>, c: nat, acked: set<Sta>, gone: set<Sta>)
      requires |walks| == |list| && c <= |chk|
      reads this`asocList, this`expireTo, this`activeKeepAliveCheck, this`wifiSpec, list`age
    {
      && asocList == Keep(list, gone)
      && forall j :: 0 <= j < |list| ==>
           StandsAs(list[j], if j in chk[..c] then AfterProbe(walks[j], list[j] in acked, Cfg()) else AfterWalk(walks[j]), gone)
    }

    /** One probe. */
    method ProbeOne(list: seq<Sta>, acked: set<Sta>, chk: seq<nat>, c: nat, sta: Sta, ghost walks: seq<KeepAlive.Walked>, ghost gone: set<Sta>)
      returns (ghost gone': set<Sta>)
      requires Valid() && Distinct(list) && |walks| == |list| && c < |chk| && chk[c] < |list| && list[chk[c]] == sta
      requires walks[chk[c]].ToProbe? && chk[c] !in chk[..c]
      requires ProbedTo(list, walks, chk, c, acked, gone)
      modifies this`asocList, this`asocListCnt, this`num, this`htOpMode, this`elems, this`timBitmap
      modifies bss.ies, sta`age, sta`marks, sta`sleepqLen
      ensures Valid() && (old(HtModeAgrees()) ==> HtModeAgrees())
      ensures ProbedTo(list, walks, chk, c + 1, acked, gone')
      ensures gone' == gone || gone' == gone + {sta}
      ensures timBitmap == if gone' == gone then old(timBitmap) else AndNotBit(old(timBitmap), sta.aid)
      ensures BeaconTim() == old(BeaconTim())
    {
      hide Ap.Valid, Keep, Ap.HtModeAgrees, KeepAlive.Probe, IsUnlisted, AndNotBit, Ap.BeaconTim;
      ghost var i := chk[c];
      KeepMembers(list, gone, sta);
      assert StandsAs(sta, AfterWalk(walks[i]), gone);
      gone' := gone;
      if sta in asocList {
        ProbeStation(sta, sta in acked);
      }
      if AfterProbe(walks[i], sta in acked, Cfg()).Expires? {
        UnlistedIsKeep(list, gone, sta, asocList);
        gone' := gone + {sta};
      }
      assert StandsAs(sta, AfterProbe(walks[i], sta in acked, Cfg()), gone');
      assert chk[..c + 1] == chk[..c] + [i];
      forall j | 0 <= j < |list| && j != i
        ensures StandsAs(list[j], if j in chk[..c + 1] then AfterProbe(walks[j], list[j] in acked, Cfg()) else AfterWalk(walks[j]), gone')
      {
        assert list[j] != sta;
      }
    }

    /** The probes, in the order in which the walk put the stations aside. */
    method ProbeStations(list: seq<Sta>, acked: set<Sta>, chk: seq<nat>, ghost walks: seq<KeepAlive.Walked>, ghost gone0: set<Sta>,
                         ghost bm0: Bitmap, ghost tim0: Option<Elem>, ghost told: set<nat>, ghost early: set<nat>, ghost shown: Bitmap)
      returns (ghost gone: set<Sta>)
      requires Valid() && Distinct(list) && |walks| == |list| && Chosen(chk, walks, |walks|)
      requires ProbedTo(list, walks, chk, 0, acked, gone0)
      requires AidsApart(list) && Tells(bm0, tim0, told, GoneAids(list, gone0), early, shown)
      modifies this`asocList, this`asocListCnt, this`num, this`htOpMode, this`elems, this`timBitmap
      modifies bss.ies, list`age, list`marks, list`sleepqLen
      ensures Valid() && (old(HtModeAgrees()) ==> HtModeAgrees())
      ensures ProbedTo(list, walks, chk, |chk|, acked, gone)
      ensures Tells(bm0, tim0, told, GoneAids(list, gone), early, shown) && gone0 <= gone
    {
      hide *;
      ghost var agreed := HtModeAgrees();
      gone := gone0;
      var c := 0;
      while c < |chk|
        invariant c <= |chk| && Valid() && (agreed ==> HtModeAgrees())
        invariant ProbedTo(list, walks, chk, c, acked, gone)
        invariant Tells(bm0, tim0, told, GoneAids(list, gone), early, shown) && gone0 <= gone
      {
        ChosenAt(chk, walks, c);
        ghost var was, bm := gone, timBitmap;
        TellsIs(bm0, tim0, told, GoneAids(list, gone), early, shown);
        gone := ProbeOne(list, acked, chk, c, list[chk[c]], walks, gone);
        TellsStill(list, was, gone, chk[c], bm, bm0, tim0, told, early, shown);
        c := c + 1;
      }
    }

    lemma TellsStill(list: seq<Sta>, gone: set<Sta>, gone': set<Sta>, k: nat, bm: Bitmap, bm0: Bitmap, tim0: Option<Elem>, told: set<nat>,
                     early: set<nat>, shown: Bitmap)
      requires k < |list| && BitsAre(bm, bm0, told, GoneAids(list, gone)) && BitsAre(shown, bm0, told, early)
      requires gone' == gone || gone' == gone + {list[k]}
      requires timBitmap == if gone' == gone then bm else AndNotBit(bm, list[k].aid)
      requires BeaconTim() == if told != {} && bstartBss then Some(TimElem(shown)) else tim0
      ensures Tells(bm0, tim0, told, GoneAids(list, gone'), early, shown)
    {
      hide BitsAre, GoneAids, AndNotBit, Ap.BeaconTim, TimElem;
      BitsLess(bm, bm0, told, GoneAids(list, gone), list[k].aid);
      GoneMore(list, gone, k);
    }

    /** One call of the ageing timer: the walk, then the probes.  Each station ends as `KeepAlive.Tick`
        says, the list keeps its order, and the counters and the beacon's ERP byte follow every removal.  The
        bits of the stations that are told are set in the bitmap, and those of the stations that go are
        cleared; but the beacon's TIM is the one of the last telling, in which only those were missing that
        had gone before it. */
    method ExpireTimeoutChk(acked: set<Sta>, free: seq<nat>) returns (woken: seq<Sta>, ghost gone: set<Sta>, ghost shown: Bitmap)
      requires Valid() && |free| >= |asocList|
      modifies this`asocList, this`asocListCnt, this`num, this`htOpMode, this`elems, this`timBitmap
      modifies bss`ieLength, bss.ies, asocList`age, asocList`marks, asocList`lastRxPkts, asocList`sleepqLen
      ensures Valid() && (old(HtModeAgrees()) ==> HtModeAgrees())
      ensures asocList == Keep(old(asocList), gone)
      ensures forall i :: 0 <= i < |old(asocList)| ==>
        StandsAs(old(asocList)[i], old(TickOf(asocList[i], acked, Cfg())), gone)
      ensures
        var ss := old(SnapsOf(asocList));
        var told := ToldAids(ss, Cfg(), |ss|);
        && woken == Overfull(old(asocList), ss, free, Cfg(), |ss|)
        && BitsAre(timBitmap, old(timBitmap), told, GoneAids(old(asocList), gone))
        && BitsAre(shown, old(timBitmap), told, EarlyAids(ss, Cfg(), |ss|))
        && EarlyAids(ss, Cfg(), |ss|) <= GoneAids(old(asocList), gone)
        && BeaconTim() == if told != {} && bstartBss then Some(TimElem(shown)) else old(BeaconTim())
    {
      hide *;
      ghost var cfg := Cfg();
      ghost var ss := SnapsOf(asocList);
      ghost var bm0, tim0 := timBitmap, BeaconTim();
      var list := asocList;
      var chk;
      ValidDistinct();
      TickIs(list, ss, acked, cfg);
      chk, woken, gone, shown := WalkStations(free, ss);
      WalkedGone(list, ss, |ss|, gone);
      EarlyIsGone(list, ss, gone, cfg);
      ghost var walked := gone;
      ProbedStarts(list, ss, chk, acked, gone);
      gone := ProbeStations(list, acked, chk, Walks(ss, cfg), gone, bm0, tim0, ToldAids(ss, cfg, |ss|), EarlyAids(ss, cfg, |ss|), shown);
      ProbedEnds(list, Walks(ss, cfg), chk, acked, gone);
      GoneGrows(list, walked, gone);
      TellsIs(bm0, tim0, ToldAids(ss, cfg, |ss|), GoneAids(list, gone), EarlyAids(ss, cfg, |ss|), shown);
    }

    lemma ProbedStarts(list: seq<Sta>, ss: seq<Snap>, chk: seq<nat>, acked: set<Sta>, gone: set<Sta>)
      requires |ss| == |list| && WalkedTo(list, ss, |ss|, gone)
      ensures ProbedTo(list, Walks(ss, Cfg()), chk, 0, acked, gone)
    {
    }

    lemma ProbedEnds(list: seq<Sta>, walks: seq<KeepAlive.Walked>, chk: seq<nat>, acked: set<Sta>, gone: set<Sta>)
      requires |walks| == |list| && ProbedTo(list, walks, chk, |chk|, acked, gone) && Chosen(chk, walks, |walks|)
      ensures asocList == Keep(list, gone)
      ensures forall i :: 0 <= i < |list| ==> StandsAs(list[i], AfterProbe(walks[i], list[i] in acked, Cfg()), gone)
    {
      hide Keep, KeepAlive.Probe, StandsAs;
      assert chk[..|chk|] == chk;
      forall i | 0 <= i < |list| ensures StandsAs(list[i], AfterProbe(walks[i], list[i] in acked, Cfg()), gone) {
        assert i !in chk ==> AfterProbe(walks[i], list[i] in acked, Cfg()) == AfterWalk(walks[i]);
      }
    }
  }
}
