/**
 * The device compromise model and the device collection of the import panel
 * (import_devices_ui.py): per-device resilience from the enabled CVEs, the
 * aggregate probability of software compromise, and the in-place edits of the
 * session's device list (search import, manual entry, CVE toggle, removal,
 * clearing, group-file term counting).
 */
module ImportDevices {
  import opened Wrappers
  import opened Seqs
  import Text

  /** Confidentiality impact of a CVE; any other value is normalised to NONE on import. */
  datatype Impact = NONE | LOW | HIGH

  /** `cve_info = [id, exploitability, impact]`. */
  datatype CveInfo = CveInfo(id: string, exploitability: real, impact: Impact)

  /** `(cve_info, status)`: status False marks a patched CVE that is left out of the score. */
  datatype Cve = Cve(info: CveInfo, status: bool)

  /** `(cpe name, [(cve_info, status), ...])`, one entry of `deviceInfoList`. */
  datatype Device = Device(cpe: string, cves: seq<Cve>)

  /** `b_d`: the compromise probability of a device with no enabled CVE. */
  const DefaultBaseRate: real := 0.03
  /** `c_w`: the exponent applied to the normalised exploitability. */
  const DefaultWeighting: nat := 2
  /** The largest exploitability score; scores are divided by it. */
  const MaxExploitability: real := 3.9

  // ----- resilience of one device (calculate_resilience) -----

  /** The weight of an impact category: 0.1 for NONE, 0.3 for LOW, 1.0 for HIGH. */
  function Weight(impact: Impact): (w: real)
    ensures 0.0 < w <= 1.0
  {
    match impact
    case NONE => 0.1
    case LOW => 0.3
    case HIGH => 1.0
  }

  /** `quantizedExploit = w(impact) * (exploit / 3.9) ** c_w`. */
  function QuantizedExploit(info: CveInfo, cw: nat): real
  {
    Weight(info.impact) * Pow(info.exploitability / MaxExploitability, cw)
  }

  /** Exploitability within the range the score is defined for. */
  predicate ValidExploitability(info: CveInfo)
  {
    0.0 <= info.exploitability <= MaxExploitability
  }

  lemma QuantizedExploitInUnit(info: CveInfo, cw: nat)
    requires ValidExploitability(info)
    ensures 0.0 <= QuantizedExploit(info, cw) <= 1.0
  {
    var x := info.exploitability / MaxExploitability;
    PowInUnit(x, cw);
    ScaleInUnit(Pow(x, cw), Weight(info.impact));
  }

  /** The factor one CVE contributes to `deviceResilience`: 1 when it is disabled. */
  function Factor(c: Cve, cw: nat): real
  {
    if c.status then 1.0 - QuantizedExploit(c.info, cw) else 1.0
  }

  function Factors(cves: seq<Cve>, cw: nat): (r: seq<real>)
    ensures |r| == |cves| && forall i :: 0 <= i < |r| ==> r[i] == Factor(cves[i], cw)
  {
    seq(|cves|, i requires 0 <= i < |cves| => Factor(cves[i], cw))
  }

  /**
   * The running product `deviceResilience` after the given CVEs: each enabled
   * CVE multiplies it by `1 - quantizedExploit`, a disabled one leaves it alone.
   */
  function SurvivalProduct(cves: seq<Cve>, cw: nat): real
  {
    Product(Factors(cves, cw))
  }

  lemma FactorsAppend(a: seq<Cve>, b: seq<Cve>, cw: nat)
    ensures Factors(a + b, cw) == Factors(a, cw) + Factors(b, cw)
  {
    var l := a + b;
    forall i | 0 <= i < |l|
      ensures Factors(l, cw)[i] == (Factors(a, cw) + Factors(b, cw))[i]
    {
      if i < |a| { assert l[i] == a[i]; } else { assert l[i] == b[i - |a|]; }
    }
  }

  lemma SurvivalSnoc(cves: seq<Cve>, c: Cve, cw: nat)
    ensures SurvivalProduct(cves + [c], cw) == SurvivalProduct(cves, cw) * Factor(c, cw)
  {
    FactorsAppend(cves, [c], cw);
    ProductSnoc(Factors(cves, cw), Factor(c, cw));
  }

  /** `b_d + (1 - b_d) * (1 - deviceResilience)`. */
  function Resilience(cves: seq<Cve>, bd: real, cw: nat): real
  {
    bd + (1.0 - bd) * (1.0 - SurvivalProduct(cves, cw))
  }

  /** `calculate_resilience(cves, b_d, c_w)`, the loop over the CVE list. */
  method CalculateResilience(cves: seq<Cve>, bd: real, cw: nat) returns (r: real)
    ensures r == Resilience(cves, bd, cw)
  {
    var deviceResilience := 1.0;
    for i := 0 to |cves|
      invariant deviceResilience == SurvivalProduct(cves[..i], cw)
    {
      PrefixSnoc(cves, i);
      SurvivalSnoc(cves[..i], cves[i], cw);
      var c := cves[i];
      if c.status {
        var quantizedExploit := QuantizedExploit(c.info, cw);
        deviceResilience := deviceResilience * (1.0 - quantizedExploit);
      }
    }
    assert cves[..|cves|] == cves;
    r := bd + (1.0 - bd) * (1.0 - deviceResilience);
  }

  /**
   * Inserting a CVE anywhere multiplies the product by its own factor when it is
   * enabled, and leaves the product unchanged when it is disabled.
   */
  lemma {:induction false} InsertCve(a: seq<Cve>, c: Cve, b: seq<Cve>, cw: nat)
    ensures SurvivalProduct(a + [c] + b, cw) == SurvivalProduct(a + b, cw) * Factor(c, cw)
  {
    var fa, x, fb := Factors(a, cw), Factor(c, cw), Factors(b, cw);
    calc {
      SurvivalProduct(a + [c] + b, cw);
      Product(Factors(a + [c] + b, cw));
      { FactorsInsert(a, c, b, cw); }
      Product(fa + [x] + fb);
      { ProductInsert(fa, x, fb); }
      Product(fa + fb) * x;
      { FactorsAppend(a, b, cw); }
      Product(Factors(a + b, cw)) * x;
      SurvivalProduct(a + b, cw) * Factor(c, cw);
    }
  }

  lemma FactorsInsert(a: seq<Cve>, c: Cve, b: seq<Cve>, cw: nat)
    ensures Factors(a + [c] + b, cw) == Factors(a, cw) + [Factor(c, cw)] + Factors(b, cw)
  {
    FactorsAppend(a, [c], cw);
    FactorsAppend(a + [c], b, cw);
  }

  /** A device whose CVEs are all disabled (or that has none) has exactly the base rate. */
  lemma NoEnabledCveGivesBaseRate(cves: seq<Cve>, bd: real, cw: nat)
    requires forall i :: 0 <= i < |cves| ==> !cves[i].status
    ensures SurvivalProduct(cves, cw) == 1.0
    ensures Resilience(cves, bd, cw) == bd
  {
    ProductOfEqual(Factors(cves, cw), 1.0);
    PowOfOne(|cves|);
  }

  lemma SurvivalProductInUnit(cves: seq<Cve>, cw: nat)
    requires forall i :: 0 <= i < |cves| ==> ValidExploitability(cves[i].info)
    ensures 0.0 <= SurvivalProduct(cves, cw) <= 1.0
  {
    forall i | 0 <= i < |cves| {
      QuantizedExploitInUnit(cves[i].info, cw);
    }
    ProductInUnit(Factors(cves, cw));
  }

  /** With exploitability in [0, 3.9] and a base rate in [0, 1], resilience lies in [b_d, 1]. */
  lemma ResilienceBounds(cves: seq<Cve>, bd: real, cw: nat)
    requires 0.0 <= bd <= 1.0
    requires forall i :: 0 <= i < |cves| ==> ValidExploitability(cves[i].info)
    ensures bd <= Resilience(cves, bd, cw) <= 1.0
  {
    SurvivalProductInUnit(cves, cw);
    ScaleInUnit(1.0 - bd, 1.0 - SurvivalProduct(cves, cw));
  }

  /** One enabled CVE with exploitability 3.9 and HIGH impact makes compromise certain. */
  lemma CertainCompromise(cves: seq<Cve>, k: nat, bd: real, cw: nat)
    requires k < |cves| && cves[k].status
    requires cves[k].info.exploitability == MaxExploitability && cves[k].info.impact == HIGH
    ensures SurvivalProduct(cves, cw) == 0.0
    ensures Resilience(cves, bd, cw) == 1.0
  {
    assert cves == cves[..k] + [cves[k]] + cves[k + 1..];
    InsertCve(cves[..k], cves[k], cves[k + 1..], cw);
    PowOfOne(cw);
    assert Factor(cves[k], cw) == 0.0;
  }

  /** The CVE list with the exploitability of CVE `k` replaced by `x`. */
  function RaisedAt(cves: seq<Cve>, k: nat, x: real): (r: seq<Cve>)
    requires k < |cves|
    ensures |r| == |cves| && r[k].info.exploitability == x
    ensures r[k].info.id == cves[k].info.id && r[k].info.impact == cves[k].info.impact && r[k].status == cves[k].status
    ensures forall i :: 0 <= i < |r| && i != k ==> r[i] == cves[i]
  {
    cves[k := Cve(CveInfo(cves[k].info.id, x, cves[k].info.impact), cves[k].status)]
  }

  /** A higher exploitability never gives a larger factor, and gives a smaller one for an enabled CVE when `c_w > 0`. */
  lemma FactorMonotone(c: Cve, x: real, cw: nat)
    requires 0.0 <= c.info.exploitability <= x
    ensures var c' := Cve(CveInfo(c.info.id, x, c.info.impact), c.status);
      Factor(c', cw) <= Factor(c, cw)
      && (c.status && c.info.exploitability < x && cw > 0 ==> Factor(c', cw) < Factor(c, cw))
  {
    var e, e' := c.info.exploitability / MaxExploitability, x / MaxExploitability;
    var w := Weight(c.info.impact);
    PowMonotone(e, e', cw);
    MulLeftMonotone(w, Pow(e, cw), Pow(e', cw));
    if c.info.exploitability < x && cw > 0 {
      PowStrictlyMonotone(e, e', cw);
      MulLeftStrict(w, Pow(e, cw), Pow(e', cw));
    }
  }

  /**
   * Raising the exploitability of one CVE never lowers the device's compromise
   * probability, for any base rate in [0, 1] and valid scores.
   */
  lemma ResilienceMonotone(cves: seq<Cve>, k: nat, x: real, bd: real, cw: nat)
    requires 0.0 <= bd <= 1.0 && k < |cves|
    requires forall i :: 0 <= i < |cves| ==> ValidExploitability(cves[i].info)
    requires cves[k].info.exploitability <= x
    ensures Resilience(cves, bd, cw) <= Resilience(RaisedAt(cves, k, x), bd, cw)
  {
    ResilienceOrder(cves, k, x, bd, cw);
  }

  /**
   * The raise is strict when the CVE is enabled, the base rate is below 1, the
   * exponent is positive and no other CVE has a zero factor.
   */
  lemma ResilienceStrictlyMonotone(cves: seq<Cve>, k: nat, x: real, bd: real, cw: nat)
    requires 0.0 <= bd < 1.0 && k < |cves| && cw > 0
    requires forall i :: 0 <= i < |cves| ==> ValidExploitability(cves[i].info)
    requires cves[k].status && cves[k].info.exploitability < x
    requires forall i :: 0 <= i < |cves| && i != k ==> Factor(cves[i], cw) > 0.0
    ensures Resilience(cves, bd, cw) < Resilience(RaisedAt(cves, k, x), bd, cw)
  {
    ResilienceOrder(cves, k, x, bd, cw);
  }

  /** Both orders at once, shared by the two lemmas above. */
  lemma ResilienceOrder(cves: seq<Cve>, k: nat, x: real, bd: real, cw: nat)
    requires 0.0 <= bd <= 1.0 && k < |cves|
    requires forall i :: 0 <= i < |cves| ==> ValidExploitability(cves[i].info)
    requires cves[k].info.exploitability <= x
    ensures Resilience(cves, bd, cw) <= Resilience(RaisedAt(cves, k, x), bd, cw)
    ensures bd < 1.0 && cw > 0 && cves[k].status && cves[k].info.exploitability < x
      && (forall i :: 0 <= i < |cves| && i != k ==> Factor(cves[i], cw) > 0.0)
      ==> Resilience(cves, bd, cw) < Resilience(RaisedAt(cves, k, x), bd, cw)
  {
    SurvivalOrder(cves, k, x, cw);
    ResilienceCompare(cves, RaisedAt(cves, k, x), bd, cw);
  }

  /** A lower survival product means a higher compromise probability. */
  lemma ResilienceCompare(a: seq<Cve>, b: seq<Cve>, bd: real, cw: nat)
    requires 0.0 <= bd <= 1.0 && SurvivalProduct(b, cw) <= SurvivalProduct(a, cw)
    ensures Resilience(a, bd, cw) <= Resilience(b, bd, cw)
    ensures bd < 1.0 && SurvivalProduct(b, cw) < SurvivalProduct(a, cw) ==> Resilience(a, bd, cw) < Resilience(b, bd, cw)
  {
    ResilienceOfOrder(SurvivalProduct(a, cw), SurvivalProduct(b, cw), bd);
  }

  /** The step from survival products to compromise probabilities. */
  lemma ResilienceOfOrder(s: real, s': real, bd: real)
    requires 0.0 <= bd <= 1.0 && s' <= s
    ensures bd + (1.0 - bd) * (1.0 - s) <= bd + (1.0 - bd) * (1.0 - s')
    ensures bd < 1.0 && s' < s ==> bd + (1.0 - bd) * (1.0 - s) < bd + (1.0 - bd) * (1.0 - s')
  {
    var q, a, b := 1.0 - bd, 1.0 - s, 1.0 - s';
    MulLeftMonotone(q, a, b);
    if bd < 1.0 && s' < s {
      MulLeftStrict(q, a, b);
      assert bd + q * a < bd + q * b;
      assert q * a == (1.0 - bd) * (1.0 - s) && q * b == (1.0 - bd) * (1.0 - s');
    }
  }

  /** The survival product falls as one exploitability rises, strictly under the side conditions. */
  lemma SurvivalOrder(cves: seq<Cve>, k: nat, x: real, cw: nat)
    requires k < |cves|
    requires forall i :: 0 <= i < |cves| ==> ValidExploitability(cves[i].info)
    requires cves[k].info.exploitability <= x
    ensures SurvivalProduct(RaisedAt(cves, k, x), cw) <= SurvivalProduct(cves, cw)
    ensures cw > 0 && cves[k].status && cves[k].info.exploitability < x
      && (forall i :: 0 <= i < |cves| && i != k ==> Factor(cves[i], cw) > 0.0)
      ==> SurvivalProduct(RaisedAt(cves, k, x), cw) < SurvivalProduct(cves, cw)
  {
    var raised := RaisedAt(cves, k, x);
    var f := Factors(cves, cw);
    var y := Factor(raised[k], cw);
    forall i | 0 <= i < |cves| ensures 0.0 <= f[i] <= 1.0 {
      QuantizedExploitInUnit(cves[i].info, cw);
    }
    assert raised[k] == Cve(CveInfo(cves[k].info.id, x, cves[k].info.impact), cves[k].status);
    FactorMonotone(cves[k], x, cw);
    assert Factors(raised, cw) == f[k := y];
    ProductReplace(f, k, y);
    if cw > 0 && cves[k].status && cves[k].info.exploitability < x
      && (forall i :: 0 <= i < |cves| && i != k ==> Factor(cves[i], cw) > 0.0)
    {
      ProductReplaceStrict(f, k, y);
    }
  }

  // ----- aggregation (get_import_values) -----

  /** `[(cve_info, status) for cve_info, status in cves if status]`. */
  function ActiveCves(cves: seq<Cve>): (r: seq<Cve>)
    ensures forall i :: 0 <= i < |r| ==> r[i].status
    ensures |r| <= |cves|
  {
    if cves == [] then []
    else
      var init := ActiveCves(cves[..|cves| - 1]);
      if cves[|cves| - 1].status then init + [cves[|cves| - 1]] else init
  }

  /** Pre-filtering to the enabled CVEs does not change a device's product. */
  lemma {:induction false} ActiveCvesKeepProduct(cves: seq<Cve>, cw: nat)
    ensures SurvivalProduct(ActiveCves(cves), cw) == SurvivalProduct(cves, cw)
  {
    if cves != [] {
      var init, c := cves[..|cves| - 1], cves[|cves| - 1];
      ActiveCvesKeepProduct(init, cw);
      assert cves == init + [c];
      SurvivalSnoc(init, c, cw);
      if c.status {
        SurvivalSnoc(ActiveCves(init), c, cw);
      }
    }
  }

  lemma {:induction false} ActiveCvesKeepResilience(cves: seq<Cve>, bd: real, cw: nat)
    ensures Resilience(ActiveCves(cves), bd, cw) == Resilience(cves, bd, cw)
  {
    ActiveCvesKeepProduct(cves, cw);
  }

  /** `1 - deviceCompromise` of one device, its CVEs first filtered to the enabled ones. */
  function DeviceFactor(d: Device, bd: real, cw: nat): real
  {
    1.0 - Resilience(ActiveCves(d.cves), bd, cw)
  }

  function DeviceFactors(devices: seq<Device>, bd: real, cw: nat): (r: seq<real>)
    ensures |r| == |devices| && forall i :: 0 <= i < |r| ==> r[i] == DeviceFactor(devices[i], bd, cw)
  {
    seq(|devices|, i requires 0 <= i < |devices| => DeviceFactor(devices[i], bd, cw))
  }

  /** `overallResilience`: the product of `1 - deviceCompromise` over the devices. */
  function SystemSurvival(devices: seq<Device>, bd: real, cw: nat): real
  {
    Product(DeviceFactors(devices, bd, cw))
  }

  /**
   * `get_import_values()`: `(1 - overallResilience, True)` for a non-empty
   * collection, and the sentinel `(0, False)` for an empty one.
   */
  function ImportValues(devices: seq<Device>): (r: (real, bool))
    ensures r.1 <==> devices != []
    ensures devices == [] ==> r.0 == 0.0
  {
    if devices == [] then (0.0, false)
    else (1.0 - SystemSurvival(devices, DefaultBaseRate, DefaultWeighting), true)
  }

  /** Every CVE of every device has exploitability in [0, 3.9]. */
  predicate ValidScores(devices: seq<Device>)
  {
    forall i, j :: 0 <= i < |devices| && 0 <= j < |devices[i].cves| ==> ValidExploitability(devices[i].cves[j].info)
  }

  /** Every CVE of every device is disabled. */
  predicate AllDisabled(devices: seq<Device>)
  {
    forall i, j :: 0 <= i < |devices| && 0 <= j < |devices[i].cves| ==> !devices[i].cves[j].status
  }

  lemma SurvivalPrefix(devices: seq<Device>, i: nat, bd: real, cw: nat)
    requires i < |devices|
    ensures SystemSurvival(devices[..i + 1], bd, cw) == SystemSurvival(devices[..i], bd, cw) * DeviceFactor(devices[i], bd, cw)
  {
    PrefixSnoc(devices, i);
    SystemSurvivalSnoc(devices[..i], devices[i], bd, cw);
  }

  lemma SystemSurvivalSnoc(devices: seq<Device>, d: Device, bd: real, cw: nat)
    ensures SystemSurvival(devices + [d], bd, cw) == SystemSurvival(devices, bd, cw) * DeviceFactor(d, bd, cw)
  {
    var f, x := DeviceFactors(devices, bd, cw), DeviceFactor(d, bd, cw);
    var l := devices + [d];
    forall i | 0 <= i < |l|
      ensures DeviceFactors(l, bd, cw)[i] == (f + [x])[i]
    {
      if i < |devices| { assert l[i] == devices[i]; } else { assert l[i] == d; }
    }
    assert DeviceFactors(l, bd, cw) == f + [x];
    ProductSnoc(f, x);
    var p1, p2 := Product(f + [x]), Product(f);
    assert SystemSurvival(l, bd, cw) == p1;
    assert SystemSurvival(devices, bd, cw) == p2;
  }

  /** With every CVE of N devices disabled, the product is `(1 - b_d)^N`. */
  lemma AllDisabledSurvival(devices: seq<Device>, bd: real, cw: nat)
    requires AllDisabled(devices)
    ensures SystemSurvival(devices, bd, cw) == Pow(1.0 - bd, |devices|)
  {
    forall i | 0 <= i < |devices|
      ensures DeviceFactors(devices, bd, cw)[i] == 1.0 - bd
    {
      var cves := devices[i].cves;
      assert forall j :: 0 <= j < |cves| ==> !cves[j].status;
      NoEnabledCveGivesBaseRate(cves, bd, cw);
      ActiveCvesKeepResilience(cves, bd, cw);
    }
    ProductOfEqual(DeviceFactors(devices, bd, cw), 1.0 - bd);
  }

  /** All CVEs disabled on N > 0 devices: the total is `1 - 0.97^N`, which is positive. */
  lemma AllDisabledTotal(devices: seq<Device>)
    requires AllDisabled(devices) && devices != []
    ensures ImportValues(devices) == (1.0 - Pow(1.0 - DefaultBaseRate, |devices|), true)
    ensures ImportValues(devices).0 > 0.0
  {
    AllDisabledSurvival(devices, DefaultBaseRate, DefaultWeighting);
    PowBelowOne(1.0 - DefaultBaseRate, |devices|);
  }

  lemma SystemSurvivalBounds(devices: seq<Device>, bd: real, cw: nat)
    requires 0.0 <= bd <= 1.0 && ValidScores(devices)
    ensures 0.0 <= SystemSurvival(devices, bd, cw) <= 1.0
    ensures devices != [] ==> SystemSurvival(devices, bd, cw) <= 1.0 - bd
  {
    var f := DeviceFactors(devices, bd, cw);
    forall i | 0 <= i < |devices|
      ensures 0.0 <= f[i] <= 1.0 - bd
    {
      var cves := devices[i].cves;
      assert forall j :: 0 <= j < |cves| ==> ValidExploitability(cves[j].info);
      ResilienceBounds(cves, bd, cw);
      ActiveCvesKeepResilience(cves, bd, cw);
    }
    ProductInUnit(f);
    if devices != [] {
      ProductAtMostLast(f);
    }
  }

  /**
   * Any non-empty collection with valid scores has total compromise at least
   * b_d, so it is never the numeric zero that marks "no devices".
   */
  lemma NonEmptyTotalAtLeastBaseRate(devices: seq<Device>)
    requires devices != [] && ValidScores(devices)
    ensures DefaultBaseRate <= ImportValues(devices).0 <= 1.0
  {
    SystemSurvivalBounds(devices, DefaultBaseRate, DefaultWeighting);
  }

  /** A device with valid scores contributes a factor in [0, 1 - b_d]. */
  lemma DeviceFactorBounds(d: Device, bd: real, cw: nat)
    requires 0.0 <= bd <= 1.0
    requires forall j :: 0 <= j < |d.cves| ==> ValidExploitability(d.cves[j].info)
    ensures 0.0 <= DeviceFactor(d, bd, cw) <= 1.0 - bd
  {
    ResilienceBounds(d.cves, bd, cw);
    ActiveCvesKeepResilience(d.cves, bd, cw);
  }

  /**
   * Replacing device `k` by a device whose compromise probability is no lower
   * never lowers the total compromise, and raises it when the other devices
   * leave a positive product and the new device is strictly more exposed.
   */
  lemma AggregateMonotone(devices: seq<Device>, k: nat, d: Device)
    requires k < |devices| && ValidScores(devices)
    requires Resilience(devices[k].cves, DefaultBaseRate, DefaultWeighting) <= Resilience(d.cves, DefaultBaseRate, DefaultWeighting)
    ensures ImportValues(devices).0 <= ImportValues(devices[k := d]).0
    ensures (forall i :: 0 <= i < |devices| && i != k ==> Resilience(devices[i].cves, DefaultBaseRate, DefaultWeighting) < 1.0)
      && Resilience(devices[k].cves, DefaultBaseRate, DefaultWeighting) < Resilience(d.cves, DefaultBaseRate, DefaultWeighting)
      ==> ImportValues(devices).0 < ImportValues(devices[k := d]).0
  {
    var bd, cw := DefaultBaseRate, DefaultWeighting;
    var f := DeviceFactors(devices, bd, cw);
    var y := DeviceFactor(d, bd, cw);
    forall i | 0 <= i < |devices|
      ensures 0.0 <= f[i] <= 1.0
      ensures f[i] == 1.0 - Resilience(devices[i].cves, bd, cw)
    {
      DeviceFactorBounds(devices[i], bd, cw);
      ActiveCvesKeepResilience(devices[i].cves, bd, cw);
    }
    ActiveCvesKeepResilience(d.cves, bd, cw);
    ProductReplace(f, k, y);
    if (forall i :: 0 <= i < |devices| && i != k ==> Resilience(devices[i].cves, bd, cw) < 1.0) && y < f[k] {
      ProductReplaceStrict(f, k, y);
    }
    assert DeviceFactors(devices[k := d], bd, cw) == f[k := y];
  }

  /**
   * Raising the exploitability of one CVE of one device never lowers the
   * total compromise: the two monotonicity lemmas composed.
   */
  lemma TotalMonotoneInExploitability(devices: seq<Device>, i: nat, k: nat, x: real)
    requires i < |devices| && k < |devices[i].cves| && ValidScores(devices)
    requires devices[i].cves[k].info.exploitability <= x
    ensures ImportValues(devices).0 <= ImportValues(devices[i := Device(devices[i].cpe, RaisedAt(devices[i].cves, k, x))]).0
  {
    var cves := devices[i].cves;
    assert forall j :: 0 <= j < |cves| ==> ValidExploitability(cves[j].info);
    ResilienceMonotone(cves, k, x, DefaultBaseRate, DefaultWeighting);
    AggregateMonotone(devices, i, Device(devices[i].cpe, RaisedAt(cves, k, x)));
  }

  // ----- edits of the device list -----

  /** The index of the first CVE whose id is `id`. */
  function FirstCveWithId(cves: seq<Cve>, id: string): (k: Option<nat>)
    ensures k.Some? ==> k.value < |cves| && cves[k.value].info.id == id
    ensures k.Some? ==> forall j :: 0 <= j < k.value ==> cves[j].info.id != id
    ensures k.None? ==> forall j :: 0 <= j < |cves| ==> cves[j].info.id != id
  {
    if cves == [] then None
    else if cves[0].info.id == id then Some(0)
    else match FirstCveWithId(cves[1..], id)
      case Some(j) => Some(j + 1)
      case None => None
  }

  /** The CVE list after `toggleCVE(idx, cve_id, checked)`. */
  function SetStatus(cves: seq<Cve>, id: string, checked: bool): (r: seq<Cve>)
    ensures |r| == |cves|
    ensures forall i :: 0 <= i < |r| ==> r[i].info == cves[i].info
    ensures FirstCveWithId(cves, id).None? ==> r == cves
    ensures FirstCveWithId(cves, id).Some? ==>
      var k := FirstCveWithId(cves, id).value;
      r[k].status == checked && forall i :: 0 <= i < |r| && i != k ==> r[i] == cves[i]
  {
    match FirstCveWithId(cves, id)
    case Some(k) => cves[k := Cve(cves[k].info, checked)]
    case None => cves
  }

  /** `del s[idx]`: the rest, in order. */
  function RemoveAt<T>(s: seq<T>, idx: nat): (r: seq<T>)
    requires idx < |s|
    ensures |r| == |s| - 1
    ensures forall i :: 0 <= i < idx ==> r[i] == s[i]
    ensures forall i :: idx <= i < |r| ==> r[i] == s[i + 1]
  {
    s[..idx] + s[idx + 1..]
  }

  /** The labels of the results list: one item per device, showing its name. */
  function Labels(devices: seq<Device>): (r: seq<string>)
    ensures |r| == |devices| && forall i :: 0 <= i < |r| ==> r[i] == devices[i].cpe
  {
    seq(|devices|, i requires 0 <= i < |devices| => devices[i].cpe)
  }

  /** `results_to_device_map`: row index to list item, for rows 0 .. n-1. */
  function IndexMap(items: seq<string>): (m: map<int, string>)
    ensures forall i :: i in m <==> 0 <= i < |items|
    ensures forall i :: 0 <= i < |items| ==> m[i] == items[i]
  {
    map i | 0 <= i < |items| :: items[i]
  }

  lemma LabelsSnoc(devices: seq<Device>, d: Device)
    ensures Labels(devices + [d]) == Labels(devices) + [d.cpe]
  {
  }

  lemma IndexMapSnoc(items: seq<string>, x: string)
    ensures IndexMap(items + [x]) == IndexMap(items)[|items| := x]
  {
  }

  // ----- manual entry (save_device) -----

  /** One row of the manual-entry dialog: id text, spin-box value in [0, 3.9], combo-box impact. */
  datatype ManualEntry = ManualEntry(idText: string, severity: real, impact: Impact)

  datatype SaveOutcome = Saved(device: Device) | BlankName | DuplicateCveId

  /** The stripped, non-blank CVE ids of the entries, in order. */
  function ManualIds(entries: seq<ManualEntry>): seq<string>
  {
    if entries == [] then []
    else
      var init := ManualIds(entries[..|entries| - 1]);
      var id := Text.Strip(entries[|entries| - 1].idText);
      if id == "" then init else init + [id]
  }

  /** The CVEs saved for the entries: blank ids skipped, every status True. */
  function ManualCves(entries: seq<ManualEntry>): seq<Cve>
  {
    if entries == [] then []
    else
      var init := ManualCves(entries[..|entries| - 1]);
      var e := entries[|entries| - 1];
      var id := Text.Strip(e.idText);
      if id == "" then init else init + [Cve(CveInfo(id, e.severity, e.impact), true)]
  }

  /** What `save_device` does with the dialog's contents. */
  function ManualDevice(cpeText: string, entries: seq<ManualEntry>): SaveOutcome
  {
    var name := Text.Strip(cpeText);
    if name == "" then BlankName
    else if !Distinct(ManualIds(entries)) then DuplicateCveId
    else Saved(Device(name, ManualCves(entries)))
  }

  lemma {:induction false} ManualSnoc(entries: seq<ManualEntry>, e: ManualEntry)
    ensures var id := Text.Strip(e.idText);
      ManualIds(entries + [e]) == (if id == "" then ManualIds(entries) else ManualIds(entries) + [id])
      && ManualCves(entries + [e])
         == (if id == "" then ManualCves(entries) else ManualCves(entries) + [Cve(CveInfo(id, e.severity, e.impact), true)])
  {
    assert (entries + [e])[..|entries + [e]| - 1] == entries;
  }

  lemma {:induction false} ManualIdsSnoc(entries: seq<ManualEntry>, e: ManualEntry)
    ensures var id := Text.Strip(e.idText);
      ManualIds(entries + [e]) == if id == "" then ManualIds(entries) else ManualIds(entries) + [id]
  {
    assert (entries + [e])[..|entries + [e]| - 1] == entries;
  }

  lemma {:induction false} ManualIdsAppend(a: seq<ManualEntry>, b: seq<ManualEntry>)
    ensures ManualIds(a + b) == ManualIds(a) + ManualIds(b)
    decreases |b|
  {
    if b == [] {
      assert a + b == a;
    } else {
      var b', e := b[..|b| - 1], b[|b| - 1];
      ManualIdsAppend(a, b');
      AppendSnoc(a, b);
      ManualIdsSnoc(a + b', e);
      ManualIdsSnoc(b', e);
      var id := Text.Strip(e.idText);
      if id != "" {
        calc {
          ManualIds(a + b);
          ManualIds(a + b') + [id];
          (ManualIds(a) + ManualIds(b')) + [id];
          ManualIds(a) + (ManualIds(b') + [id]);
          ManualIds(a) + ManualIds(b);
        }
      }
    }
  }

  lemma {:induction false} ManualCvesMatchIds(entries: seq<ManualEntry>)
    ensures |ManualCves(entries)| == |ManualIds(entries)|
    ensures forall i :: 0 <= i < |ManualCves(entries)| ==>
      ManualCves(entries)[i].status && ManualCves(entries)[i].info.id == ManualIds(entries)[i]
  {
    if entries != [] {
      var init, e := entries[..|entries| - 1], entries[|entries| - 1];
      ManualCvesMatchIds(init);
      assert entries == init + [e];
      ManualSnoc(init, e);
    }
  }

  /**
   * A saved device carries the stripped name, one CVE per non-blank id, in order,
   * each enabled, with pairwise distinct ids; an abort happens exactly for a
   * blank name or a repeated non-blank id.
   */
  lemma SavedDeviceShape(cpeText: string, entries: seq<ManualEntry>)
    ensures ManualDevice(cpeText, entries) == BlankName <==> Text.Strip(cpeText) == ""
    ensures ManualDevice(cpeText, entries) == DuplicateCveId
        <==> Text.Strip(cpeText) != "" && !Distinct(ManualIds(entries))
    ensures ManualDevice(cpeText, entries).Saved? ==>
      var d := ManualDevice(cpeText, entries).device;
      d.cpe == Text.Strip(cpeText) && |d.cves| == |ManualIds(entries)|
      && (forall i :: 0 <= i < |d.cves| ==> d.cves[i].status && d.cves[i].info.id == ManualIds(entries)[i])
      && (forall i, j :: 0 <= i < j < |d.cves| ==> d.cves[i].info.id != d.cves[j].info.id)
  {
    ManualCvesMatchIds(entries);
  }

  /** After the first `k` entries: the CVEs built so far and the set of ids seen, with no id repeated yet. */
  ghost predicate Validated(cveList: seq<Cve>, cveIds: set<string>, entries: seq<ManualEntry>, k: nat)
    requires k <= |entries|
  {
    && cveList == ManualCves(entries[..k])
    && Distinct(ManualIds(entries[..k]))
    && (forall id :: id in cveIds <==> id in ManualIds(entries[..k]))
  }

  /** A blank id is skipped. */
  lemma ValidatedBlank(cveList: seq<Cve>, cveIds: set<string>, entries: seq<ManualEntry>, k: nat)
    requires k < |entries| && Validated(cveList, cveIds, entries, k)
    requires Text.Strip(entries[k].idText) == ""
    ensures Validated(cveList, cveIds, entries, k + 1)
  {
    PrefixSnoc(entries, k);
    ManualSnoc(entries[..k], entries[k]);
  }

  /** A new non-blank id is recorded and its CVE appended, enabled. */
  lemma ValidatedNew(cveList: seq<Cve>, cveIds: set<string>, entries: seq<ManualEntry>, k: nat)
    requires k < |entries| && Validated(cveList, cveIds, entries, k)
    requires var id := Text.Strip(entries[k].idText); id != "" && id !in cveIds
    ensures var e := entries[k]; var id := Text.Strip(e.idText);
      Validated(cveList + [Cve(CveInfo(id, e.severity, e.impact), true)], cveIds + {id}, entries, k + 1)
  {
    PrefixSnoc(entries, k);
    ManualSnoc(entries[..k], entries[k]);
    var id := Text.Strip(entries[k].idText);
    var before := ManualIds(entries[..k]);
    assert ManualIds(entries[..k + 1]) == before + [id];
    forall x
      ensures x in cveIds + {id} <==> x in before + [id]
    {
      assert x in before + [id] <==> x in before || x == id;
    }
  }

  /** A non-blank id seen before makes the ids of all entries repeat. */
  lemma ValidatedRepeat(cveList: seq<Cve>, cveIds: set<string>, entries: seq<ManualEntry>, k: nat)
    requires k < |entries| && Validated(cveList, cveIds, entries, k)
    requires var id := Text.Strip(entries[k].idText); id != "" && id in cveIds
    ensures !Distinct(ManualIds(entries))
  {
    var id := Text.Strip(entries[k].idText);
    PrefixSnoc(entries, k);
    ManualSnoc(entries[..k], entries[k]);
    ManualIdsAppend(entries[..k + 1], entries[k + 1..]);
    assert entries[..k + 1] + entries[k + 1..] == entries;
    var before := ManualIds(entries[..k]);
    var j :| 0 <= j < |before| && before[j] == id;
    var ids := ManualIds(entries);
    assert ids[j] == id && ids[|before|] == id;
  }

  /** The validation loop of `save_device`, with its set of ids seen so far. */
  method ValidateManualDevice(cpeText: string, entries: seq<ManualEntry>) returns (outcome: SaveOutcome)
    ensures outcome == ManualDevice(cpeText, entries)
  {
    var cpeName := Text.Strip(cpeText);
    if cpeName == "" {
      return BlankName;
    }
    var cveList: seq<Cve> := [];
    var cveIds: set<string> := {};
    assert entries[..0] == [];
    for k := 0 to |entries|
      invariant Validated(cveList, cveIds, entries, k)
    {
      var cveId := Text.Strip(entries[k].idText);
      if cveId != "" {
        if cveId in cveIds {
          ValidatedRepeat(cveList, cveIds, entries, k);
          return DuplicateCveId;
        }
        ValidatedNew(cveList, cveIds, entries, k);
        cveIds := cveIds + {cveId};
        cveList := cveList + [Cve(CveInfo(cveId, entries[k].severity, entries[k].impact), true)];
      } else {
        ValidatedBlank(cveList, cveIds, entries, k);
      }
    }
    assert entries[..|entries|] == entries;
    outcome := Saved(Device(cpeName, cveList));
  }

  // ----- import through the lookup (handle_search) -----

  /** A CVE as the lookup hands it over: the impact is still the database's text. */
  datatype FoundCve = FoundCve(id: string, exploitability: real, impact: string, status: bool)

  datatype FoundDevice = FoundDevice(cpe: string, cves: seq<FoundCve>)

  /** An impact outside NONE / LOW / HIGH is read as NONE. */
  function NormaliseImpact(s: string): (i: Impact)
    ensures s == "LOW" ==> i == LOW
    ensures s == "HIGH" ==> i == HIGH
    ensures s != "LOW" && s != "HIGH" ==> i == NONE
  {
    if s == "NONE" then NONE else if s == "LOW" then LOW else if s == "HIGH" then HIGH else NONE
  }

  function NormaliseCve(c: FoundCve): Cve
  {
    Cve(CveInfo(c.id, c.exploitability, NormaliseImpact(c.impact)), c.status)
  }

  /** One found device with each of its CVEs normalised, name and order kept. */
  function NormaliseDevice(f: FoundDevice): (d: Device)
    ensures d.cpe == f.cpe && |d.cves| == |f.cves|
    ensures forall j :: 0 <= j < |d.cves| ==>
      d.cves[j].info.id == f.cves[j].id && d.cves[j].status == f.cves[j].status
      && d.cves[j].info.exploitability == f.cves[j].exploitability
      && d.cves[j].info.impact == NormaliseImpact(f.cves[j].impact)
  {
    Device(f.cpe, seq(|f.cves|, j requires 0 <= j < |f.cves| => NormaliseCve(f.cves[j])))
  }

  /** `updated_device_info_list`: every found device, normalised, in order. */
  function NormaliseDevices(found: seq<FoundDevice>): (r: seq<Device>)
    ensures |r| == |found| && forall i :: 0 <= i < |r| ==> r[i] == NormaliseDevice(found[i])
  {
    seq(|found|, i requires 0 <= i < |found| => NormaliseDevice(found[i]))
  }

  // ----- group file (handle_group_file_load) -----

  /** The stripped text of every line that does not start with `#`, in file order. */
  function SearchTermLines(lines: seq<string>): (r: seq<string>)
    ensures |r| <= |lines|
  {
    if lines == [] then []
    else
      var init := SearchTermLines(lines[..|lines| - 1]);
      var line := lines[|lines| - 1];
      if Text.StartsWith(line, "#") then init else init + [Text.Strip(line)]
  }

  lemma {:induction false} SearchTermLinesSnoc(lines: seq<string>, line: string)
    ensures SearchTermLines(lines + [line])
         == if Text.StartsWith(line, "#") then SearchTermLines(lines) else SearchTermLines(lines) + [Text.Strip(line)]
  {
    assert (lines + [line])[..|lines + [line]| - 1] == lines;
  }

  lemma {:induction false} SearchTermLinesAppend(a: seq<string>, b: seq<string>)
    ensures SearchTermLines(a + b) == SearchTermLines(a) + SearchTermLines(b)
    decreases |b|
  {
    if b == [] {
      assert a + b == a;
    } else {
      var b', l := b[..|b| - 1], b[|b| - 1];
      SearchTermLinesAppend(a, b');
      AppendSnoc(a, b);
      SearchTermLinesSnoc(a + b', l);
      SearchTermLinesSnoc(b', l);
      if !Text.StartsWith(l, "#") {
        var t := Text.Strip(l);
        calc {
          SearchTermLines(a + b);
          SearchTermLines(a + b') + [t];
          (SearchTermLines(a) + SearchTermLines(b')) + [t];
          SearchTermLines(a) + (SearchTermLines(b') + [t]);
          SearchTermLines(a) + SearchTermLines(b);
        }
      }
    }
  }

  /**
   * A `#` line contributes nothing wherever it sits; any other line contributes
   * its stripped text at its own position.
   */
  lemma LineContribution(a: seq<string>, line: string, b: seq<string>)
    ensures SearchTermLines(a + [line] + b)
         == SearchTermLines(a) + (if Text.StartsWith(line, "#") then [] else [Text.Strip(line)]) + SearchTermLines(b)
  {
    SearchTermLinesAppend(a + [line], b);
    SearchTermLinesAppend(a, [line]);
    SearchTermLinesSnoc([], line);
    assert [] + [line] == [line];
  }

  /** A search term with the number of devices it should populate. */
  type SearchTerm = (string, nat)

  /** `order` and `counts` are the key order and the values of `search_term_counts` after the terms `seen`. */
  ghost predicate Tallied(order: seq<string>, counts: map<string, nat>, seen: seq<string>)
  {
    && order == Dedup(seen)
    && (forall t :: t in counts <==> t in order)
    && (forall t :: t in counts ==> counts[t] == Count(seen, t))
  }

  /** One more line's term keeps the tally exact. */
  lemma TalliedSnoc(order: seq<string>, counts: map<string, nat>, seen: seq<string>, x: string)
    requires Tallied(order, counts, seen)
    ensures x in counts ==> Tallied(order, counts[x := counts[x] + 1], seen + [x])
    ensures x !in counts ==> Tallied(order + [x], counts[x := 1], seen + [x])
  {
    DedupSnoc(seen, x);
    DedupFacts(seen);
    var counts' := if x in counts then counts[x := counts[x] + 1] else counts[x := 1];
    var order' := if x in counts then order else order + [x];
    forall t | t in counts'
      ensures counts'[t] == Count(seen + [x], t)
    {
      CountSnoc(seen, x, t);
    }
    forall t
      ensures t in counts' <==> t in order'
    {
      assert t in counts' <==> t in counts || t == x;
      assert t in order + [x] <==> t in order || t == x;
    }
    assert order' == Dedup(seen + [x]);
    assert Tallied(order', counts', seen + [x]);
  }

  /** A `#` line leaves the tally as it is. */
  lemma TalliedComment(order: seq<string>, counts: map<string, nat>, lines: seq<string>, j: nat)
    requires j < |lines| && Tallied(order, counts, SearchTermLines(lines[..j]))
    requires Text.StartsWith(lines[j], "#")
    ensures Tallied(order, counts, SearchTermLines(lines[..j + 1]))
  {
    PrefixSnoc(lines, j);
    SearchTermLinesSnoc(lines[..j], lines[j]);
  }

  /** Any other line adds its stripped text to the tally. */
  lemma TalliedTerm(order: seq<string>, counts: map<string, nat>, lines: seq<string>, j: nat)
    requires j < |lines| && Tallied(order, counts, SearchTermLines(lines[..j]))
    requires !Text.StartsWith(lines[j], "#")
    ensures var t := Text.Strip(lines[j]);
      t in counts ==> Tallied(order, counts[t := counts[t] + 1], SearchTermLines(lines[..j + 1]))
    ensures var t := Text.Strip(lines[j]);
      t !in counts ==> Tallied(order + [t], counts[t := 1], SearchTermLines(lines[..j + 1]))
  {
    PrefixSnoc(lines, j);
    SearchTermLinesSnoc(lines[..j], lines[j]);
    TalliedSnoc(order, counts, SearchTermLines(lines[..j]), Text.Strip(lines[j]));
  }

  /**
   * The counting loop of `handle_group_file_load`: `search_term_counts` as a map
   * plus the order in which the dict first saw each key.
   */
  method TallySearchTerms(lines: seq<string>) returns (order: seq<string>, searchTermCounts: map<string, nat>)
    ensures Tallied(order, searchTermCounts, SearchTermLines(lines))
  {
    searchTermCounts := map[];
    order := [];
    assert lines[..0] == [];
    for j := 0 to |lines|
      invariant Tallied(order, searchTermCounts, SearchTermLines(lines[..j]))
    {
      var line := lines[j];
      if !Text.StartsWith(line, "#") {
        TalliedTerm(order, searchTermCounts, lines, j);
        var searchTerm := Text.Strip(line);
        if searchTerm in searchTermCounts {
          searchTermCounts := searchTermCounts[searchTerm := searchTermCounts[searchTerm] + 1];
        } else {
          searchTermCounts := searchTermCounts[searchTerm := 1];
          order := order + [searchTerm];
        }
      } else {
        TalliedComment(order, searchTermCounts, lines, j);
      }
    }
    assert lines[..|lines|] == lines;
  }

  /**
   * `search_terms` as `handle_group_file_load` builds it from the dict: the
   * distinct terms in first-seen order, each with its number of lines.
   */
  method CountSearchTerms(lines: seq<string>) returns (terms: seq<SearchTerm>)
    ensures var t := SearchTermLines(lines);
      |terms| == |Dedup(t)| && forall i :: 0 <= i < |terms| ==> terms[i] == (Dedup(t)[i], Count(t, Dedup(t)[i]))
  {
    var order, searchTermCounts := TallySearchTerms(lines);
    terms := [];
    for i := 0 to |order|
      invariant |terms| == i
      invariant forall k :: 0 <= k < i ==> terms[k] == (order[k], searchTermCounts[order[k]])
    {
      terms := terms + [(order[i], searchTermCounts[order[i]])];
    }
  }

  /** The counts of the distinct terms add up to the number of non-comment lines. */
  lemma GroupCountsCoverLines(lines: seq<string>)
    ensures SumCounts(Dedup(SearchTermLines(lines)), SearchTermLines(lines)) == |SearchTermLines(lines)|
  {
    CountsOfDedupSum(SearchTermLines(lines));
  }

  // ----- the session's device collection -----

  datatype SearchSource = Individual | Group

  datatype SearchOutcome = Searched | MissingDeviceName

  /**
   * The module globals of the import panel: `search_terms`, `deviceInfoList`,
   * the labels of the results list, and `results_to_device_map`.
   */
  class ImportSession {
    var searchTerms: seq<SearchTerm>
    var devices: seq<Device>
    var resultsList: seq<string>
    var resultsMap: map<int, string>

    /** The list widget shows one item per device, and the map indexes exactly those items. */
    ghost predicate Valid()
      reads this
    {
      resultsList == Labels(devices) && resultsMap == IndexMap(resultsList)
    }

    constructor ()
      ensures Valid()
      ensures searchTerms == [] && devices == [] && resultsList == [] && resultsMap == map[]
    {
      searchTerms := [];
      devices := [];
      resultsList := [];
      resultsMap := map[];
    }

    /** `get_import_values()`: filters each device to its enabled CVEs, then folds. */
    method GetImportValues() returns (totalCompromise: real, isNotEmpty: bool)
      ensures (totalCompromise, isNotEmpty) == ImportValues(devices)
    {
      if devices == [] {
        return 0.0, false;
      }
      var activeDeviceInfoList: seq<Device> := [];
      for i := 0 to |devices|
        invariant |activeDeviceInfoList| == i
        invariant forall k :: 0 <= k < i ==>
          activeDeviceInfoList[k] == Device(devices[k].cpe, ActiveCves(devices[k].cves))
      {
        activeDeviceInfoList := activeDeviceInfoList + [Device(devices[i].cpe, ActiveCves(devices[i].cves))];
      }
      var overallResilience := 1.0;
      for i := 0 to |activeDeviceInfoList|
        invariant overallResilience == SystemSurvival(devices[..i], DefaultBaseRate, DefaultWeighting)
      {
        var deviceCompromise := CalculateResilience(activeDeviceInfoList[i].cves, DefaultBaseRate, DefaultWeighting);
        var factor := 1.0 - deviceCompromise;
        assert factor == DeviceFactor(devices[i], DefaultBaseRate, DefaultWeighting);
        SurvivalPrefix(devices, i, DefaultBaseRate, DefaultWeighting);
        overallResilience := overallResilience * factor;
      }
      assert devices[..|devices|] == devices;
      totalCompromise := 1.0 - overallResilience;
      isNotEmpty := true;
    }

    /**
     * `handle_search`: an individual search needs a non-blank name and makes it
     * the only search term; `found` is the lookup's answer for the search terms.
     * Found devices are normalised and appended, and the list is rebuilt.
     */
    method HandleSearch(source: SearchSource, deviceNameText: string, found: seq<FoundDevice>)
      returns (outcome: SearchOutcome)
      requires Valid()
      modifies this
      ensures Valid()
      ensures outcome == MissingDeviceName <==> source == Individual && Text.Strip(deviceNameText) == ""
      ensures outcome == MissingDeviceName ==>
        searchTerms == old(searchTerms) && devices == old(devices)
      ensures outcome == Searched ==>
        searchTerms == (if source == Individual then [(Text.Strip(deviceNameText), 1)] else old(searchTerms))
        && devices == old(devices) + NormaliseDevices(found)
    {
      var terms := searchTerms;
      if source == Individual {
        var deviceName := Text.Strip(deviceNameText);
        if deviceName == "" {
          return MissingDeviceName;
        }
        terms := [(deviceName, 1)];
      }
      var updated: seq<Device> := [];
      for i := 0 to |found|
        invariant |updated| == i && forall k :: 0 <= k < i ==> updated[k] == NormaliseDevice(found[k])
      {
        var updatedCves: seq<Cve> := [];
        for j := 0 to |found[i].cves|
          invariant |updatedCves| == j && forall k :: 0 <= k < j ==> updatedCves[k] == NormaliseCve(found[i].cves[k])
        {
          updatedCves := updatedCves + [NormaliseCve(found[i].cves[j])];
        }
        assert Device(found[i].cpe, updatedCves) == NormaliseDevice(found[i]);
        updated := updated + [Device(found[i].cpe, updatedCves)];
      }
      assert updated == NormaliseDevices(found);
      var all := devices + updated;
      var items: seq<string> := [];
      var indexMap: map<int, string> := map[];
      for idx := 0 to |all|
        invariant items == Labels(all[..idx])
        invariant indexMap == IndexMap(items)
      {
        PrefixSnoc(all, idx);
        LabelsSnoc(all[..idx], all[idx]);
        IndexMapSnoc(items, all[idx].cpe);
        items := items + [all[idx].cpe];
        indexMap := indexMap[idx := all[idx].cpe];
      }
      assert all[..|all|] == all;
      searchTerms, devices, resultsList, resultsMap := terms, all, items, indexMap;
      outcome := Searched;
    }

    /** `handle_group_file_load` once a file was chosen: its lines replace the search terms. */
    method LoadGroupFile(lines: seq<string>)
      requires Valid()
      modifies this`searchTerms
      ensures Valid()
      ensures var t := SearchTermLines(lines);
        |searchTerms| == |Dedup(t)|
        && forall i :: 0 <= i < |searchTerms| ==> searchTerms[i] == (Dedup(t)[i], Count(t, Dedup(t)[i]))
    {
      searchTerms := CountSearchTerms(lines);
    }

    /** `toggleCVE`: only the status of the first CVE with that id changes. */
    method ToggleCve(idx: nat, cveId: string, checked: bool)
      requires Valid() && idx < |devices|
      modifies this`devices
      ensures Valid()
      ensures devices == old(devices)[idx := Device(old(devices)[idx].cpe, SetStatus(old(devices)[idx].cves, cveId, checked))]
    {
      var cves := devices[idx].cves;
      var i := 0;
      while i < |cves|
        invariant 0 <= i <= |cves|
        invariant forall j :: 0 <= j < i ==> cves[j].info.id != cveId
      {
        if cves[i].info.id == cveId {
          assert FirstCveWithId(cves, cveId) == Some(i);
          cves := cves[i := Cve(cves[i].info, checked)];
          break;
        }
        i := i + 1;
      }
      devices := devices[idx := Device(devices[idx].cpe, cves)];
    }

    /** `remove_device`, once confirmed: entry `idx` goes, the map is rebuilt for 0 .. n-2. */
    method RemoveDevice(idx: nat, confirmed: bool)
      requires Valid() && idx < |devices|
      modifies this`devices, this`resultsList, this`resultsMap
      ensures Valid()
      ensures devices == if confirmed then RemoveAt(old(devices), idx) else old(devices)
    {
      if confirmed {
        var rest := RemoveAt(devices, idx);
        var items := RemoveAt(resultsList, idx);
        assert items == Labels(rest);
        var indexMap: map<int, string> := map[];
        for i := 0 to |rest|
          invariant indexMap == IndexMap(items[..i])
        {
          PrefixSnoc(items, i);
          IndexMapSnoc(items[..i], items[i]);
          indexMap := indexMap[i := items[i]];
        }
        assert items[..|rest|] == items;
        devices, resultsList, resultsMap := rest, items, indexMap;
      }
    }

    /** `save_device`: a valid manual entry appends exactly one device at the end. */
    method SaveDevice(cpeText: string, entries: seq<ManualEntry>) returns (outcome: SaveOutcome)
      requires Valid()
      modifies this`devices, this`resultsList, this`resultsMap
      ensures Valid()
      ensures outcome == ManualDevice(cpeText, entries)
      ensures devices == if outcome.Saved? then old(devices) + [outcome.device] else old(devices)
    {
      outcome := ValidateManualDevice(cpeText, entries);
      if outcome.Saved? {
        var d := outcome.device;
        LabelsSnoc(devices, d);
        IndexMapSnoc(resultsList, d.cpe);
        devices, resultsList, resultsMap := devices + [d], resultsList + [d.cpe], resultsMap[|devices| := d.cpe];
      }
    }

    /** `clear_devices`, once confirmed: the collection is empty again. */
    method ClearDevices(confirmed: bool)
      requires Valid()
      modifies this`devices, this`resultsList, this`resultsMap
      ensures Valid()
      ensures devices == if confirmed then [] else old(devices)
    {
      if confirmed {
        devices := [];
        resultsMap := map[];
        resultsList := [];
      }
    }
  }
}
