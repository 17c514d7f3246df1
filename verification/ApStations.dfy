/** The access point's view of its stations: six capability counters kept over joins and leaves, the HT
    operation mode derived from them, and the ERP protection bits in the beacon
    (`bss_cap_update_on_sta_join`, `bss_cap_update_on_sta_leave`, `rtw_ht_operation_update`). */
module ApStations {
  import opened Memory
  import opened Elements
  import opened BssElements
  import opened Beacon
  import opened Tim

  // ---------- the HT operation mode ----------

  const OP_MODE_PURE := 0
  const OP_MODE_MAY_BE_LEGACY_STAS := 1
  const OP_MODE_20MHZ_HT_STA_ASSOCED := 2
  const OP_MODE_MIXED := 3

  /** The 16-bit mode word by its disjoint fields: bits 0-1, bit 2, bit 3, bit 4 and the rest. */
  datatype OpMode = OpMode(mode: nat, nonGfPresent: bool, burstLimit: bool, nonHtPresent: bool, upper: nat)

  /** The documented mode: mixed when a non-HT station is associated, 20 MHz when only HT stations are
      but a 20 MHz one is in a 20/40 MHz BSS, non-member protection when an overlapping BSS may hold
      non-HT stations, pure otherwise. */
  function DocumentedMode(numNoHt: int, numHt20: int, olbcHt: bool, width40: bool): nat {
    if numNoHt != 0 then OP_MODE_MIXED
    else if width40 && numHt20 != 0 then OP_MODE_20MHZ_HT_STA_ASSOCED
    else if olbcHt then OP_MODE_MAY_BE_LEGACY_STAS
    else OP_MODE_PURE
  }

  /** The three fields of the mode word agree with the counters. */
  predicate ModeAgrees(m: OpMode, numNoHt: int, numNoGf: int, numHt20: int, olbcHt: bool, width40: bool) {
    && m.mode == DocumentedMode(numNoHt, numHt20, olbcHt, width40)
    && (m.nonGfPresent <==> numNoGf != 0)
    && (m.nonHtPresent <==> numNoHt != 0 || olbcHt)
  }

  /** The word's fields that no update touches. */
  predicate SameOtherBits(m: OpMode, n: OpMode) {
    m.burstLimit == n.burstLimit && m.upper == n.upper
  }

  // ---------- protection bits over a run ----------

  /** What happens to the count of non-ERP stations and to the beacon: a station of that kind comes, one
      goes, or the TIM is rewritten. */
  datatype ErpEvent = Came(noShortPreamble: int) | Went(noShortPreamble: int) | TimRewritten(bitmap: Bitmap)

  datatype ErpState = ErpState(numNonErp: nat, elems: seq<Elem>)

  predicate ErpEnabled(s: ErpState, e: ErpEvent) {
    match e
    case Came(_) => true
    case Went(_) => s.numNonErp > 0
    case TimRewritten(_) => HasPlace(s.elems)
  }

  /** The beacon is refreshed only when the count becomes 1 by a join or 0 by a leave. */
  function ErpStep(s: ErpState, e: ErpEvent): ErpState
    requires ErpEnabled(s, e)
  {
    match e
    case Came(p) =>
      var n := s.numNonErp + 1;
      ErpState(n, if n == 1 then ErpUpdated(s.elems, n == 1, p > 0) else s.elems)
    case Went(p) =>
      var n := s.numNonErp - 1;
      ErpState(n, if n == 0 then ErpUpdated(s.elems, n == 1, p > 0) else s.elems)
    case TimRewritten(bm) => ErpState(s.numNonErp, TimUpdated(s.elems, bm))
  }

  predicate ErpRunnable(s: ErpState, run: seq<ErpEvent>)
    decreases |run|
  {
    run == [] || (ErpEnabled(s, run[0]) && ErpRunnable(ErpStep(s, run[0]), run[1..]))
  }

  function ErpRun(s: ErpState, run: seq<ErpEvent>): ErpState
    requires ErpRunnable(s, run)
    decreases |run|
  {
    if run == [] then s else ErpRun(ErpStep(s, run[0]), run[1..])
  }

  /** The beacon has an ERP byte, whose two protection bits say whether non-ERP stations are present. */
  predicate ProtectionShown(elems: seq<Elem>, numNonErp: int) {
    && HasNonEmpty(elems, ERPINFO_IE)
    && NonErpPresent(ErpByte(elems)) == UseProtection(ErpByte(elems)) == (numNonErp > 0)
  }

  lemma UpdateShowsProtection(elems: seq<Elem>, protect: bool, barker: bool)
    requires HasNonEmpty(elems, ERPINFO_IE)
    ensures
      var t := ErpUpdated(elems, protect, barker);
      && HasNonEmpty(t, ERPINFO_IE)
      && NonErpPresent(ErpByte(t)) == UseProtection(ErpByte(t)) == protect
      && BarkerPreamble(ErpByte(t)) == barker
  {
    hide IndexOf, WithProtection, WithBarker;
    var k := IndexOf(elems, ERPINFO_IE, []);
    var t := ErpUpdated(elems, protect, barker);
    assert forall j :: 0 <= j < k ==> !Matches(elems[j], ERPINFO_IE, []);
    IndexIs(t, ERPINFO_IE, k);
    ErpBits(elems[k].data[0], protect, barker);
  }

  lemma ErpStepShows(s: ErpState, e: ErpEvent)
    requires ProtectionShown(s.elems, s.numNonErp) && ErpEnabled(s, e)
    ensures ProtectionShown(ErpStep(s, e).elems, ErpStep(s, e).numNonErp)
  {
    hide HasNonEmpty, ErpByte, HasPlace, TimUpdated, ErpUpdated, NonErpPresent, UseProtection;
    match e
    case Came(p) => UpdateShowsProtection(s.elems, true, p > 0);
    case Went(p) => UpdateShowsProtection(s.elems, false, p > 0);
    case TimRewritten(bm) => TimUpdateKeepsErp(s.elems, bm);
  }

  /** Over every run the protection bits are set exactly while non-ERP stations are counted. */
  lemma {:induction false} ProtectionOverRuns(s: ErpState, run: seq<ErpEvent>)
    requires ProtectionShown(s.elems, s.numNonErp) && ErpRunnable(s, run)
    ensures ProtectionShown(ErpRun(s, run).elems, ErpRun(s, run).numNonErp)
    decreases |run|
  {
    if run != [] {
      hide ProtectionShown;
      ErpStepShows(s, run[0]);
      ProtectionOverRuns(ErpStep(s, run[0]), run[1..]);
    }
  }
}
