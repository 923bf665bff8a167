/**
 The fleet of Freedom Radio transmitters on Réunion island: one record per
 site, generated in site order with a running counter for the identifier.
 Every random draw of the generator is an explicit `SiteDraw` parameter.
 */
module Fleet {
  import opened Text
  import opened Ids

  /** Operating status, spelled as the dashboard stores it. */
  datatype Status = Actif | Maintenance | Inactif

  function StatusLabel(s: Status): string
  {
    match s
    case Actif => "Actif"
    case Maintenance => "Maintenance"
    case Inactif => "Inactif"
  }

  /** A site: town name and base coordinates. */
  datatype Site = Site(city: string, latitude: real, longitude: real)

  /** The twelve sites, in the order the generator visits them. */
  const Sites: seq<Site> := [
    Site("Saint-Denis", -20.8789, 55.4481),
    Site("Saint-Paul", -21.0073, 55.2854),
    Site("Saint-Pierre", -21.3429, 55.4787),
    Site("Le Tampon", -21.3583, 55.5250),
    Site("Saint-André", -20.9667, 55.6333),
    Site("Saint-Louis", -21.2833, 55.4167),
    Site("Sainte-Marie", -20.9167, 55.5667),
    Site("Sainte-Suzanne", -20.8833, 55.6167),
    Site("Le Port", -20.9333, 55.2833),
    Site("La Possession", -20.9167, 55.3333),
    Site("Saint-Joseph", -21.3667, 55.6167),
    Site("Cilaos", -21.1333, 55.4667)
  ]

  /** The main transmitters, which draw their power from `PrimaryPowers`. */
  const PrimaryCities: seq<string> := ["Saint-Denis", "Saint-Paul", "Saint-Pierre"]
  const PrimaryPowers: seq<int> := [1000, 2000, 5000]
  const SecondaryPowers: seq<int> := [100, 250, 500]

  /** The status is a uniform choice from this list, so `Actif` is three times as likely. */
  const StatusOptions: seq<Status> := [Actif, Actif, Actif, Maintenance, Inactif]

  /** One transmitter record (power in watts, coverage radius in km). */
  datatype Emitter = Emitter(
    id: string,
    name: string,
    city: string,
    latitude: real,
    longitude: real,
    frequency: real,
    power: int,
    altitude: int,
    installDate: string,
    status: Status,
    coverage: real,
    technician: string,
    lastMaintenance: string)

  /** The random draws the generator makes for one site. */
  datatype SiteDraw = SiteDraw(
    latJitter: real,
    lonJitter: real,
    frequency: real,
    powerChoice: nat,
    statusChoice: nat,
    altitude: int,
    installDate: Date,
    coverageFactor: real,
    technician: nat,
    lastMaintenance: Date)

  /** The ranges of the generator's `random.uniform`, `random.choice` and `random.randint` calls. */
  predicate ValidSiteDraw(d: SiteDraw)
  {
    && -0.05 <= d.latJitter <= 0.05
    && -0.05 <= d.lonJitter <= 0.05
    && 88.0 <= d.frequency <= 108.0
    && d.powerChoice < 3
    && d.statusChoice < |StatusOptions|
    && 100 <= d.altitude <= 1500
    && 2005 <= d.installDate.year <= 2022
    && 1 <= d.installDate.month <= 12 && 1 <= d.installDate.day <= 28
    && 0.8 <= d.coverageFactor <= 1.2
    && 1 <= d.technician <= 5
    && 2023 <= d.lastMaintenance.year <= 2024
    && 1 <= d.lastMaintenance.month <= 12 && 1 <= d.lastMaintenance.day <= 28
  }

  /** Power in watts: main sites choose among 1000/2000/5000 W, the others among 100/250/500 W. */
  function PowerFor(city: string, choice: nat): (p: int)
    requires choice < 3
    ensures city in PrimaryCities <==> p >= 1000
    ensures city in PrimaryCities ==> p in PrimaryPowers
    ensures city !in PrimaryCities ==> p in SecondaryPowers
    ensures 100 <= p <= 5000
  {
    if city in PrimaryCities then PrimaryPowers[choice] else SecondaryPowers[choice]
  }

  /** `power * U(0.8, 1.2) / 10` stays within 20% of a tenth of the power. */
  lemma CoverageBounds(power: real, factor: real)
    requires power > 0.0 && 0.8 <= factor <= 1.2
    ensures 0.0 < 0.08 * power <= power * factor / 10.0 <= 0.12 * power
  {
    assert power * factor >= power * 0.8;
    assert power * factor <= power * 1.2;
  }

  /** The coverage radius in km, `power * factor / 10`. */
  function CoverageRadius(power: int, factor: real): (c: real)
    requires power > 0 && 0.8 <= factor <= 1.2
    ensures 0.0 < 0.08 * (power as real) <= c <= 0.12 * (power as real)
  {
    CoverageBounds(power as real, factor);
    (power as real) * factor / 10.0
  }

  /** `f"Tech-{n:02d}"` for `n` in 1..9: `Tech-0` then the digit, reading back as `n`. */
  lemma TechnicianShape(n: nat)
    requires 1 <= n <= 9
    ensures var t := "Tech-" + ZeroPad(n, 2);
      && |t| == 7 && t[..5] == "Tech-" && t[5] == '0'
      && AllDigits(t[5..]) && DecimalValue(t[5..]) == n
  {
    Pow10Small();
    ZeroPadIsFixed(n, 2);
    ZeroPadValue(n, 2);
    var digits := ZeroPad(n, 2);
    assert digits == Fixed(n, 2) == Fixed(0, 1) + [DigitChar(n)];
    assert ("Tech-" + digits)[5..] == digits;
  }

  /** The record generated for `site` when the counter stands at `counter`. */
  function MakeEmitter(counter: nat, site: Site, d: SiteDraw): (e: Emitter)
    requires ValidSiteDraw(d)
    ensures e.id == FormatId(counter)
    ensures e.city == site.city && e.name == "Freedom Radio - " + site.city
    ensures site.latitude - 0.05 <= e.latitude <= site.latitude + 0.05
    ensures site.longitude - 0.05 <= e.longitude <= site.longitude + 0.05
    ensures e.status == StatusOptions[d.statusChoice]
    ensures 88.0 <= e.frequency <= 108.0 && 100 <= e.altitude <= 1500
    ensures site.city in PrimaryCities <==> e.power >= 1000
    ensures e.power in PrimaryPowers + SecondaryPowers
    ensures 0.0 < 0.08 * (e.power as real) <= e.coverage <= 0.12 * (e.power as real)
  {
    var power := PowerFor(site.city, d.powerChoice);
    Emitter(
      FormatId(counter),
      "Freedom Radio - " + site.city,
      site.city,
      site.latitude + d.latJitter,
      site.longitude + d.lonJitter,
      d.frequency,
      power,
      d.altitude,
      FormatDate(d.installDate),
      StatusOptions[d.statusChoice],
      CoverageRadius(power, d.coverageFactor),
      "Tech-" + ZeroPad(d.technician, 2),
      FormatDate(d.lastMaintenance))
  }

  /**
   The generated text fields: the technician is `Tech-01` … `Tech-05`, and
   the installation date (2005–2022) sorts strictly before the last
   maintenance date (2023–2024), as `YYYY-MM-DD` strings.
   */
  lemma GeneratedTextFields(counter: nat, site: Site, d: SiteDraw)
    requires ValidSiteDraw(d)
    ensures var e := MakeEmitter(counter, site, d);
      && e.installDate == FormatDate(d.installDate)
      && e.lastMaintenance == FormatDate(d.lastMaintenance)
      && LexLe(e.installDate, e.lastMaintenance) && e.installDate != e.lastMaintenance
      && |e.technician| == 7 && e.technician[..5] == "Tech-" && e.technician[5] == '0'
      && AllDigits(e.technician[5..]) && 1 <= DecimalValue(e.technician[5..]) <= 5
  {
    var e := MakeEmitter(counter, site, d);
    TechnicianShape(d.technician);
    DateStringOrder(d.installDate, d.lastMaintenance);
    DateStringOrder(d.lastMaintenance, d.installDate);
    LexLeReflexive(e.installDate);
  }

  /**
   Identifiers drawn from a counter that starts at 1 (up to 999 records) are
   distinct, read back as their position, and sort as strings in position order.
   */
  lemma SequentialIds(emitters: seq<Emitter>)
    requires |emitters| <= 999
    requires forall i :: 0 <= i < |emitters| ==> emitters[i].id == FormatId(i + 1)
    ensures forall i :: 0 <= i < |emitters| ==> ParseId(emitters[i].id) == Some(i + 1)
    ensures forall i, j :: 0 <= i < |emitters| && 0 <= j < |emitters| && i != j ==> emitters[i].id != emitters[j].id
    ensures forall i, j :: 0 <= i <= j < |emitters| ==> LexLe(emitters[i].id, emitters[j].id)
  {
    forall i | 0 <= i < |emitters|
      ensures ParseId(emitters[i].id) == Some(i + 1)
    {
      IdRoundTrip(i + 1);
    }
    forall i, j | 0 <= i < |emitters| && 0 <= j < |emitters| && i != j
      ensures emitters[i].id != emitters[j].id
    {
      IdInjective(i + 1, j + 1);
    }
    forall i, j | 0 <= i <= j < |emitters|
      ensures LexLe(emitters[i].id, emitters[j].id)
    {
      IdOrder(i + 1, j + 1);
    }
  }

  /** Every record of a generated fleet has the counter's identifier and a positive radius. */
  lemma GeneratedFleetFacts(emitters: seq<Emitter>, sites: seq<Site>, draws: seq<SiteDraw>)
    requires |emitters| == |draws| == |sites| <= 999
    requires forall i :: 0 <= i < |draws| ==> ValidSiteDraw(draws[i])
    requires forall i :: 0 <= i < |emitters| ==> emitters[i] == MakeEmitter(i + 1, sites[i], draws[i])
    ensures forall i :: 0 <= i < |emitters| ==> ParseId(emitters[i].id) == Some(i + 1)
    ensures forall i, j :: 0 <= i < |emitters| && 0 <= j < |emitters| && i != j ==> emitters[i].id != emitters[j].id
    ensures forall i, j :: 0 <= i <= j < |emitters| ==> LexLe(emitters[i].id, emitters[j].id)
    ensures forall i :: 0 <= i < |emitters| ==> emitters[i].coverage > 0.0
  {
    forall i | 0 <= i < |emitters|
      ensures emitters[i].id == FormatId(i + 1) && emitters[i].coverage > 0.0
    {
      var e := MakeEmitter(i + 1, sites[i], draws[i]);
      assert emitters[i] == e;
    }
    SequentialIds(emitters);
  }

  /** The prefix of length `k + 1` is the prefix of length `k` and then element `k`. */
  lemma PrefixStep<T>(s: seq<T>, k: nat)
    requires k < |s|
    ensures s[..k + 1] == s[..k] + [s[k]]
  {
  }

  /**
   The generator's loop over a list of sites: one record per site, in site
   order, the counter starting at 1 and going up by one per record.
   */
  method GenerateFleet(sites: seq<Site>, draws: seq<SiteDraw>) returns (emitters: seq<Emitter>)
    requires |draws| == |sites|
    requires forall i :: 0 <= i < |draws| ==> ValidSiteDraw(draws[i])
    ensures |emitters| == |sites|
    ensures forall i :: 0 <= i < |emitters| ==> emitters[i] == MakeEmitter(i + 1, sites[i], draws[i])
  {
    ghost var fleet := seq(|sites|, i requires 0 <= i < |sites| => MakeEmitter(i + 1, sites[i], draws[i]));
    emitters := [];
    var emitterId := 1;
    for k := 0 to |sites|
      invariant emitterId == k + 1
      invariant emitters == fleet[..k]
    {
      var e := MakeEmitter(emitterId, sites[k], draws[k]);
      assert e == fleet[k];
      PrefixStep(fleet, k);
      emitters := emitters + [e];
      emitterId := emitterId + 1;
    }
    assert emitters == fleet;
  }

  /**
   Builds the fleet over the twelve sites: twelve records with identifiers
   `FR-001` … `FR-012` that are distinct, read back as their position, and
   sort as strings in generation order.
   */
  method InitializeEmitters(draws: seq<SiteDraw>) returns (emitters: seq<Emitter>)
    requires |draws| == |Sites|
    requires forall i :: 0 <= i < |draws| ==> ValidSiteDraw(draws[i])
    ensures |emitters| == |Sites| == 12
    ensures forall i :: 0 <= i < |emitters| ==> emitters[i] == MakeEmitter(i + 1, Sites[i], draws[i])
    ensures forall i :: 0 <= i < |emitters| ==> ParseId(emitters[i].id) == Some(i + 1)
    ensures forall i, j :: 0 <= i < |emitters| && 0 <= j < |emitters| && i != j ==> emitters[i].id != emitters[j].id
    ensures forall i, j :: 0 <= i <= j < |emitters| ==> LexLe(emitters[i].id, emitters[j].id)
    ensures forall i :: 0 <= i < |emitters| ==> emitters[i].coverage > 0.0
  {
    emitters := GenerateFleet(Sites, draws);
    GeneratedFleetFacts(emitters, Sites, draws);
  }
}
