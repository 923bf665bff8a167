/**
 The transmitter details table and the power pie chart: a status filter, a
 power filter with three power ranges, a sort key, and the counts of
 transmitters per power range.
 */
module Details {
  import opened Text
  import opened TableOps
  import opened Fleet
  import opened Ids

  /** The status select box: `Tous` keeps every row. */
  datatype StatusFilter = Tous | Only(status: Status)

  /** The power select box: `Toutes`, `> 1000W`, `500-1000W`, `< 500W`. */
  datatype PowerFilter = Toutes | Above1000 | From500To1000 | Below500

  /** The sort select box: `ID`, `Nom`, `Fréquence`, `Puissance`, `Statut`. */
  datatype SortKey = ById | ByName | ByFrequency | ByPower | ByStatus

  predicate StatusMatches(f: StatusFilter, s: Status)
  {
    f.Tous? || f.status == s
  }

  /** The power masks; `500-1000W` includes both ends. */
  predicate PowerMatches(f: PowerFilter, power: int)
  {
    match f
    case Toutes => true
    case Above1000 => power > 1000
    case From500To1000 => 500 <= power <= 1000
    case Below500 => power < 500
  }

  /** The three power ranges of the pie chart cover every power exactly once. */
  lemma PowerRangesPartition(power: int)
    ensures PowerMatches(Below500, power) || PowerMatches(From500To1000, power) || PowerMatches(Above1000, power)
    ensures !(PowerMatches(Below500, power) && PowerMatches(From500To1000, power))
    ensures !(PowerMatches(Below500, power) && PowerMatches(Above1000, power))
    ensures !(PowerMatches(From500To1000, power) && PowerMatches(Above1000, power))
  {
  }

  function PowerMask(f: PowerFilter): Emitter -> bool
  {
    (e: Emitter) => PowerMatches(f, e.power)
  }

  /** The combined mask of both filters. */
  function Keep(sf: StatusFilter, pf: PowerFilter): Emitter -> bool
  {
    (e: Emitter) => StatusMatches(sf, e.status) && PowerMatches(pf, e.power)
  }

  /** The status filter step: no mask for `Tous`, else `statut == status`. */
  function ApplyStatusFilter(rows: seq<Emitter>, f: StatusFilter): seq<Emitter>
  {
    if f.Tous? then rows else Select(rows, (e: Emitter) => e.status == f.status)
  }

  /** The power filter step: no mask for `Toutes`, else the range mask. */
  function ApplyPowerFilter(rows: seq<Emitter>, f: PowerFilter): seq<Emitter>
  {
    if f.Toutes? then rows else Select(rows, PowerMask(f))
  }

  /**
   The two filters applied one after the other keep exactly the rows that
   pass both, in their original order.
   */
  function FilterTable(rows: seq<Emitter>, sf: StatusFilter, pf: PowerFilter): (r: seq<Emitter>)
    ensures r == Select(rows, Keep(sf, pf))
    ensures forall e :: e in r <==> e in rows && StatusMatches(sf, e.status) && PowerMatches(pf, e.power)
  {
    var afterStatus := ApplyStatusFilter(rows, sf);
    FilterIsSelection(rows, sf, pf);
    SelectMembers(rows, Keep(sf, pf));
    ApplyPowerFilter(afterStatus, pf)
  }

  lemma FilterIsSelection(rows: seq<Emitter>, sf: StatusFilter, pf: PowerFilter)
    ensures ApplyPowerFilter(ApplyStatusFilter(rows, sf), pf) == Select(rows, Keep(sf, pf))
  {
    var keep := Keep(sf, pf);
    if sf.Tous? {
      if pf.Toutes? {
        SelectKeepsAll(rows, keep);
      } else {
        SelectExtensional(rows, PowerMask(pf), keep);
      }
    } else {
      var statusMask := (e: Emitter) => e.status == sf.status;
      if pf.Toutes? {
        SelectExtensional(rows, statusMask, keep);
      } else {
        SelectTwice(rows, statusMask, PowerMask(pf), keep);
      }
    }
  }

  /** Filtering a table made of two parts filters each part: the filter never reorders rows. */
  lemma FilterKeepsOrder(a: seq<Emitter>, b: seq<Emitter>, sf: StatusFilter, pf: PowerFilter)
    ensures FilterTable(a + b, sf, pf) == FilterTable(a, sf, pf) + FilterTable(b, sf, pf)
  {
    SelectAppend(a, b, Keep(sf, pf));
  }

  /** The pie chart's counts `len(df[puissance < 500])`, `len(df[500 <= puissance <= 1000])`, `len(df[puissance > 1000])`. */
  function PowerCounts(rows: seq<Emitter>): (counts: (nat, nat, nat))
    ensures counts.0 + counts.1 + counts.2 == |rows|
    ensures counts.0 == |FilterTable(rows, Tous, Below500)|
    ensures counts.1 == |FilterTable(rows, Tous, From500To1000)|
    ensures counts.2 == |FilterTable(rows, Tous, Above1000)|
  {
    var low := Select(rows, PowerMask(Below500));
    var mid := Select(rows, PowerMask(From500To1000));
    var high := Select(rows, PowerMask(Above1000));
    SelectPartition3(rows, PowerMask(Below500), PowerMask(From500To1000), PowerMask(Above1000));
    (|low|, |mid|, |high|)
  }

  /** The rank of a status label in string order: "Actif" < "Inactif" < "Maintenance". */
  function StatusRank(s: Status): nat
  {
    match s
    case Actif => 0
    case Inactif => 1
    case Maintenance => 2
  }

  /** Sorting on the `statut` strings orders Actif, then Inactif, then Maintenance. */
  lemma StatusLabelOrder(a: Status, b: Status)
    ensures LexLe(StatusLabel(a), StatusLabel(b)) <==> StatusRank(a) <= StatusRank(b)
  {
    LexLeReflexive(StatusLabel(a));
    var la, lb := StatusLabel(a), StatusLabel(b);
    if a != b {
      assert la[0] != lb[0];
    }
  }

  /** The comparison behind each sort key; `Puissance` sorts descending. */
  function KeyLe(key: SortKey): (Emitter, Emitter) -> bool
  {
    match key
    case ById => (a: Emitter, b: Emitter) => LexLe(a.id, b.id)
    case ByName => (a: Emitter, b: Emitter) => LexLe(a.name, b.name)
    case ByFrequency => (a: Emitter, b: Emitter) => a.frequency <= b.frequency
    case ByPower => (a: Emitter, b: Emitter) => a.power >= b.power
    case ByStatus => (a: Emitter, b: Emitter) => LexLe(StatusLabel(a.status), StatusLabel(b.status))
  }

  lemma KeyLeTotalPreorder(key: SortKey)
    ensures TotalPreorder(KeyLe(key))
  {
    var le := KeyLe(key);
    forall a: Emitter, b: Emitter
      ensures le(a, b) || le(b, a)
    {
      match key
      case ById => LexLeTotal(a.id, b.id);
      case ByName => LexLeTotal(a.name, b.name);
      case ByStatus => LexLeTotal(StatusLabel(a.status), StatusLabel(b.status));
      case _ =>
    }
    forall a: Emitter, b: Emitter, c: Emitter | le(a, b) && le(b, c)
      ensures le(a, c)
    {
      match key
      case ById => LexLeTransitive(a.id, b.id, c.id);
      case ByName => LexLeTransitive(a.name, b.name, c.name);
      case ByStatus => LexLeTransitive(StatusLabel(a.status), StatusLabel(b.status), StatusLabel(c.status));
      case _ =>
    }
  }

  /**
   `sort_values` on the chosen column: a permutation of the rows, ascending
   by identifier, name, frequency or status label, descending by power.
   */
  function SortTable(rows: seq<Emitter>, key: SortKey): (r: seq<Emitter>)
    ensures multiset(r) == multiset(rows)
    ensures key == ById ==> forall i, j :: 0 <= i < j < |r| ==> LexLe(r[i].id, r[j].id)
    ensures key == ByName ==> forall i, j :: 0 <= i < j < |r| ==> LexLe(r[i].name, r[j].name)
    ensures key == ByFrequency ==> forall i, j :: 0 <= i < j < |r| ==> r[i].frequency <= r[j].frequency
    ensures key == ByPower ==> forall i, j :: 0 <= i < j < |r| ==> r[i].power >= r[j].power
    ensures key == ByStatus ==> forall i, j :: 0 <= i < j < |r| ==> StatusRank(r[i].status) <= StatusRank(r[j].status)
  {
    KeyLeTotalPreorder(key);
    var r := InsertionSort(rows, KeyLe(key));
    if key == ByStatus then SortedByStatus(r, key); r else r
  }

  lemma SortedByStatus(r: seq<Emitter>, key: SortKey)
    requires key == ByStatus && SortedBy(r, KeyLe(key))
    ensures forall i, j :: 0 <= i < j < |r| ==> StatusRank(r[i].status) <= StatusRank(r[j].status)
  {
    forall i, j | 0 <= i < j < |r|
      ensures StatusRank(r[i].status) <= StatusRank(r[j].status)
    {
      assert KeyLe(key)(r[i], r[j]);
      StatusLabelOrder(r[i].status, r[j].status);
    }
  }

  /**
   Sorting by `ID` a fleet generated with a counter from 1 (up to 999
   records) shows it in generation order.
   */
  lemma SortByIdIsGenerationOrder(rows: seq<Emitter>)
    requires |rows| <= 999
    requires forall i :: 0 <= i < |rows| ==> rows[i].id == FormatId(i + 1)
    ensures SortTable(rows, ById) == rows
  {
    var le := KeyLe(ById);
    SequentialIds(rows);
    var r := SortTable(rows, ById);
    assert SortedBy(rows, le) by {
      forall i, j | 0 <= i < j < |rows|
        ensures le(rows[i], rows[j])
      {
        assert LexLe(rows[i].id, rows[j].id);
      }
    }
    assert SortedBy(r, le) by {
      forall i, j | 0 <= i < j < |r|
        ensures le(r[i], r[j])
      {
        assert LexLe(r[i].id, r[j].id);
      }
    }
    forall x, y | x in r && y in r && le(x, y) && le(y, x)
      ensures x == y
    {
      LexLeAntisymmetric(x.id, y.id);
      assert x in multiset(rows) && y in multiset(rows);
      var i :| 0 <= i < |rows| && rows[i] == x;
      var j :| 0 <= j < |rows| && rows[j] == y;
    }
    SortedUnique(r, rows, le);
  }

  /**
   The details table as displayed: a permutation of exactly the rows that
   pass both filters, ordered by the chosen key.
   */
  function DetailsView(rows: seq<Emitter>, sf: StatusFilter, pf: PowerFilter, key: SortKey): (r: seq<Emitter>)
    ensures |r| <= |rows|
    ensures multiset(r) == multiset(Select(rows, Keep(sf, pf)))
    ensures forall e :: e in r <==> e in rows && StatusMatches(sf, e.status) && PowerMatches(pf, e.power)
    ensures key == ById ==> forall i, j :: 0 <= i < j < |r| ==> LexLe(r[i].id, r[j].id)
    ensures key == ByName ==> forall i, j :: 0 <= i < j < |r| ==> LexLe(r[i].name, r[j].name)
    ensures key == ByFrequency ==> forall i, j :: 0 <= i < j < |r| ==> r[i].frequency <= r[j].frequency
    ensures key == ByPower ==> forall i, j :: 0 <= i < j < |r| ==> r[i].power >= r[j].power
    ensures key == ByStatus ==> forall i, j :: 0 <= i < j < |r| ==> StatusRank(r[i].status) <= StatusRank(r[j].status)
  {
    var filtered := FilterTable(rows, sf, pf);
    var r := SortTable(filtered, key);
    assert forall e :: e in r <==> e in multiset(r);
    r
  }
}
