/** The ageing of one associated station: one call of `expire_timeout_chk` as seen by that station, with
    active keep-alive checking compiled in, and what it means over whole runs. */
module KeepAlive {

  /** The fields of a station that ageing uses. */
  datatype Ageing = Ageing(expireTo: nat, trycnt: nat, sleeping: bool, aliveChk: bool, linked: bool)

  datatype Config = Config(expireTo: nat, activeCheck: bool, wifiSpec: bool)

  /** What the station did since the last tick: whether anything was received from it, and whether it
      acknowledges a probe sent now. */
  datatype Seen = Seen(heard: bool, acked: bool)

  datatype Outcome = Stays(a: Ageing) | Expires

  const PROBE_TRIES: nat := 3

  /** The countdown at the start of a tick. */
  function CountDown(a: Ageing, heard: bool, cfg: Config): Ageing {
    if heard || a.expireTo == 0 then a.(expireTo := cfg.expireTo, trycnt := 0)
    else a.(expireTo := a.expireTo - 1)
  }

  /** A sleeping station is given one more round, in which the beacon announces traffic for it. */
  predicate Announces(a: Ageing, cfg: Config) {
    a.expireTo == 0 && !cfg.wifiSpec && a.sleeping && !a.aliveChk
  }

  function Announced(a: Ageing, cfg: Config): Ageing {
    a.(expireTo := cfg.expireTo, aliveChk := true)
  }

  /** A null-data frame is sent, and its acknowledgement decides. */
  function Probe(a: Ageing, acked: bool, cfg: Config): Outcome {
    if !a.linked then Stays(a)
    else if acked then Stays(a.(expireTo := cfg.expireTo, trycnt := 0))
    else if a.trycnt + 1 <= PROBE_TRIES then Stays(a.(expireTo := 1, trycnt := a.trycnt + 1))
    else Expires
  }

  /** Where the walk over the station list leaves one station: settled, waiting for its probe, or gone. */
  datatype Walked = Settled(a: Ageing) | ToProbe(a: Ageing) | Gone

  function Walk(a: Ageing, heard: bool, cfg: Config): Walked {
    var b := CountDown(a, heard, cfg);
    if b.expireTo > 0 then Settled(b)
    else if cfg.wifiSpec then Settled(b.(expireTo := cfg.expireTo))
    else
      var c := if Announces(b, cfg) then Announced(b, cfg) else b;
      if cfg.activeCheck then ToProbe(c)
      else if Announces(b, cfg) then Settled(c)
      else Gone
  }

  /** One call: the walk over the list, then the probes. */
  function Tick(a: Ageing, seen: Seen, cfg: Config): Outcome {
    match Walk(a, seen.heard, cfg)
    case Settled(b) => Stays(b)
    case ToProbe(b) => Probe(b, seen.acked, cfg)
    case Gone => Expires
  }

  /** A run of ticks; an expired station sees no further ones. */
  function Run(a: Ageing, run: seq<Seen>, cfg: Config): Outcome
    decreases |run|
  {
    if run == [] then Stays(a)
    else
      match Tick(a, run[0], cfg)
      case Expires => Expires
      case Stays(b) => Run(b, run[1..], cfg)
  }

  // ---------- a station that answers ----------

  /** A station that acknowledges every probe is never removed, whatever else happens. */
  lemma {:induction false} AnsweringStationStays(a: Ageing, run: seq<Seen>, cfg: Config)
    requires cfg.activeCheck && forall s :: s in run ==> s.acked
    ensures Run(a, run, cfg).Stays?
    decreases |run|
  {
    if run != [] {
      var o := Tick(a, run[0], cfg);
      assert run[0] in run && o.Stays?;
      AnsweringStationStays(o.a, run[1..], cfg);
    }
  }

  // ---------- a silent station ----------

  const SILENT := Seen(false, false)

  function Silence(n: nat): (run: seq<Seen>)
    ensures |run| == n && (n > 0 ==> run[0] == SILENT && run[1..] == Silence(n - 1))
  {
    seq(n, i => SILENT)
  }

  /** Ticks a silent station still has: the countdown, then one tick for each probe left. */
  function Remaining(a: Ageing): int {
    a.expireTo + PROBE_TRIES - a.trycnt
  }

  /** Every silent tick uses up exactly one of them, awake or sleeping. */
  lemma SilentTickCountsDown(a: Ageing, cfg: Config)
    requires cfg.activeCheck && !cfg.wifiSpec && a.linked
    requires a.expireTo >= 1 && a.trycnt <= PROBE_TRIES
    ensures
      match Tick(a, SILENT, cfg)
      case Expires => Remaining(a) == 1
      case Stays(b) => b.linked && b.expireTo >= 1 && b.trycnt <= PROBE_TRIES && Remaining(b) == Remaining(a) - 1
  {
  }

  /** So it stays for fewer ticks than that, and is gone after exactly that many. */
  lemma {:induction false} SilentStationExpires(a: Ageing, cfg: Config, n: nat)
    requires cfg.activeCheck && !cfg.wifiSpec && a.linked
    requires a.expireTo >= 1 && a.trycnt <= PROBE_TRIES
    ensures Run(a, Silence(n), cfg).Expires? <==> n >= Remaining(a)
    decreases n
  {
    if n > 0 {
      SilentTickCountsDown(a, cfg);
      match Tick(a, SILENT, cfg) {
        case Expires =>
        case Stays(b) => SilentStationExpires(b, cfg, n - 1);
      }
    }
  }

  /** The timer value e and no probes so far: removed on tick e + 3.  With e = 0 the first tick restarts
      the timer, so the limit in the configuration counts instead, plus that tick. */
  lemma SilentStationDeadline(a: Ageing, cfg: Config, n: nat)
    requires cfg.activeCheck && !cfg.wifiSpec && a.linked && a.trycnt == 0
    ensures a.expireTo >= 1 ==> (Run(a, Silence(n), cfg).Expires? <==> n >= a.expireTo + 3)
    ensures a.expireTo == 0 ==> (Run(a, Silence(n), cfg).Expires? <==> n >= cfg.expireTo + 4)
  {
    if a.expireTo >= 1 {
      SilentStationExpires(a, cfg, n);
    } else if n > 0 {
      var o := Tick(a, SILENT, cfg);
      if cfg.expireTo == 0 {
        assert o.Stays? && o.a.expireTo == 1 && o.a.trycnt == 1;
      } else {
        assert o.Stays? && o.a.expireTo == cfg.expireTo && o.a.trycnt == 0;
      }
      SilentStationExpires(o.a, cfg, n - 1);
    }
  }

  /** Hearing from the station at any moment starts the whole count again. */
  lemma HeardStationStartsAgain(a: Ageing, cfg: Config, acked: bool, n: nat)
    requires cfg.activeCheck && !cfg.wifiSpec && a.linked && cfg.expireTo >= 1
    ensures Run(a, [Seen(true, acked)] + Silence(n), cfg).Expires? <==> n >= cfg.expireTo + 3
  {
    var b := CountDown(a, true, cfg);
    assert ([Seen(true, acked)] + Silence(n))[1..] == Silence(n);
    SilentStationExpires(b, cfg, n);
  }

  /** And so does its answer to a probe. */
  lemma AnsweredProbeStartsAgain(a: Ageing, cfg: Config, n: nat)
    requires cfg.activeCheck && !cfg.wifiSpec && a.linked && cfg.expireTo >= 1 && a.expireTo == 1
    ensures Run(a, [Seen(false, true)] + Silence(n), cfg).Expires? <==> n >= cfg.expireTo + 3
  {
    var o := Tick(a, Seen(false, true), cfg);
    assert ([Seen(false, true)] + Silence(n))[1..] == Silence(n);
    SilentStationExpires(o.a, cfg, n);
  }

  /** A station that is not linked is never probed, and so stays. */
  lemma {:induction false} UnlinkedStationStays(a: Ageing, run: seq<Seen>, cfg: Config)
    requires cfg.activeCheck && !a.linked
    ensures Run(a, run, cfg).Stays?
    decreases |run|
  {
    if run != [] {
      var o := Tick(a, run[0], cfg);
      UnlinkedStationStays(o.a, run[1..], cfg);
    }
  }

  /** In the conformance-test mode nothing ever expires. */
  lemma {:induction false} SpecModeKeepsAll(a: Ageing, run: seq<Seen>, cfg: Config)
    requires cfg.wifiSpec
    ensures Run(a, run, cfg).Stays?
    decreases |run|
  {
    if run != [] {
      var o := Tick(a, run[0], cfg);
      SpecModeKeepsAll(o.a, run[1..], cfg);
    }
  }

  // ---------- without probes ----------

  /** Without active checking a silent station is removed when its timer ends, and a sleeping one that has not
      been told before when it has ended once more. */
  lemma {:induction false} PassiveStationDeadline(a: Ageing, cfg: Config, n: nat)
    requires !cfg.activeCheck && !cfg.wifiSpec && a.expireTo >= 1 && cfg.expireTo >= 1
    ensures Run(a, Silence(n), cfg).Expires? <==> n >= a.expireTo + if a.sleeping && !a.aliveChk then cfg.expireTo else 0
    decreases n
  {
    if n > 0 {
      match Tick(a, SILENT, cfg) {
        case Expires =>
        case Stays(b) => PassiveStationDeadline(b, cfg, n - 1);
      }
    }
  }
}
