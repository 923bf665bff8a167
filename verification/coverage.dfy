/**
 One cell of the coverage heatmap: the strongest signal any active
 transmitter gives at a grid point, where a transmitter's signal falls
 linearly from 100 at its site to 0 at its coverage radius. Distances are
 inputs (the square root of the planar distance is not modelled).
 */
module Coverage {
  import opened Fleet

  /** `max(0, 100 - distance * 100 / radius)` for one transmitter. */
  function EmitterSignal(distance: real, radius: real): (v: real)
    requires distance >= 0.0 && radius > 0.0
    ensures 0.0 <= v <= 100.0
    ensures v == 100.0 <==> distance == 0.0
    ensures v == 0.0 <==> distance >= radius
  {
    var raw := 100.0 - distance * 100.0 / radius;
    SignalRawBounds(distance, radius);
    if raw > 0.0 then raw else 0.0
  }

  /** Multiplying by a positive number keeps strict order and equality. */
  lemma MulPreservesOrder(a: real, b: real, c: real)
    requires c > 0.0
    ensures a < b <==> a * c < b * c
    ensures a == b <==> a * c == b * c
  {
    assert (b - a) * c == b * c - a * c;
  }

  lemma SignalRawBounds(distance: real, radius: real)
    requires distance >= 0.0 && radius > 0.0
    ensures 100.0 - distance * 100.0 / radius <= 100.0
    ensures 100.0 - distance * 100.0 / radius == 100.0 <==> distance == 0.0
    ensures 100.0 - distance * 100.0 / radius > 0.0 <==> distance < radius
  {
    var q := distance * 100.0 / radius;
    assert q * radius == distance * 100.0;
    MulPreservesOrder(q, 100.0, radius);
    MulPreservesOrder(distance, radius, 100.0);
    MulPreservesOrder(q, 0.0, radius);
  }

  /** A transmitter further away never gives a stronger signal. */
  lemma SignalDecreasesWithDistance(d1: real, d2: real, radius: real)
    requires 0.0 <= d1 <= d2 && radius > 0.0
    ensures EmitterSignal(d1, radius) >= EmitterSignal(d2, radius)
  {
    var q1, q2 := d1 * 100.0 / radius, d2 * 100.0 / radius;
    assert q1 * radius == d1 * 100.0 && q2 * radius == d2 * 100.0;
    MulPreservesOrder(q2, q1, radius);
  }

  /**
   Inputs of one cell: a distance per transmitter, non-negative, and a
   positive radius for every active transmitter (the only ones divided by).
   */
  predicate CellInputs(es: seq<Emitter>, ds: seq<real>)
  {
    && |ds| == |es|
    && (forall i :: 0 <= i < |ds| ==> ds[i] >= 0.0)
    && (forall i :: 0 <= i < |es| ==> es[i].status == Actif ==> es[i].coverage > 0.0)
  }

  /**
   The reference meaning of a cell value: 0 or the signal of some active
   transmitter, and no active transmitter gives more.
   */
  ghost predicate IsCellValue(es: seq<Emitter>, ds: seq<real>, v: real)
    requires CellInputs(es, ds)
  {
    && v >= 0.0
    && (forall i :: 0 <= i < |es| && es[i].status == Actif ==> EmitterSignal(ds[i], es[i].coverage) <= v)
    && (v == 0.0 || exists i :: 0 <= i < |es| && es[i].status == Actif && v == EmitterSignal(ds[i], es[i].coverage))
  }

  /** At most one value meets the reference meaning. */
  lemma CellValueUnique(es: seq<Emitter>, ds: seq<real>, v1: real, v2: real)
    requires CellInputs(es, ds)
    requires IsCellValue(es, ds, v1) && IsCellValue(es, ds, v2)
    ensures v1 == v2
  {
    if v1 != 0.0 {
      var i :| 0 <= i < |es| && es[i].status == Actif && v1 == EmitterSignal(ds[i], es[i].coverage);
      assert v1 <= v2;
    }
    if v2 != 0.0 {
      var j :| 0 <= j < |es| && es[j].status == Actif && v2 == EmitterSignal(ds[j], es[j].coverage);
      assert v2 <= v1;
    }
  }

  /** The cell value, folded over the transmitters in table order as the dashboard does. */
  function CellSignal(es: seq<Emitter>, ds: seq<real>): (v: real)
    requires CellInputs(es, ds)
    ensures 0.0 <= v <= 100.0
    ensures IsCellValue(es, ds, v)
  {
    if |es| == 0 then 0.0
    else
      var n := |es| - 1;
      assert CellInputs(es[..n], ds[..n]);
      var prev := CellSignal(es[..n], ds[..n]);
      assert forall i :: 0 <= i < n ==> es[..n][i] == es[i] && ds[..n][i] == ds[i];
      if es[n].status == Actif then
        var own := EmitterSignal(ds[n], es[n].coverage);
        if own > prev then own else prev
      else prev
  }

  /** The dashboard's loop: start at 0, take the maximum with each active transmitter's signal. */
  method ComputeCell(es: seq<Emitter>, ds: seq<real>) returns (signalStrength: real)
    requires CellInputs(es, ds)
    ensures 0.0 <= signalStrength <= 100.0
    ensures IsCellValue(es, ds, signalStrength)
    ensures signalStrength == CellSignal(es, ds)
  {
    signalStrength := 0.0;
    for i := 0 to |es|
      invariant 0.0 <= signalStrength <= 100.0
      invariant forall k :: 0 <= k < i && es[k].status == Actif ==> EmitterSignal(ds[k], es[k].coverage) <= signalStrength
      invariant signalStrength == 0.0 || exists k :: 0 <= k < i && es[k].status == Actif && signalStrength == EmitterSignal(ds[k], es[k].coverage)
    {
      if es[i].status == Actif {
        var emitterSignal := EmitterSignal(ds[i], es[i].coverage);
        if emitterSignal > signalStrength {
          signalStrength := emitterSignal;
        }
      }
    }
    CellValueUnique(es, ds, signalStrength, CellSignal(es, ds));
  }

  /** With no active transmitter the cell is 0. */
  lemma NoActiveMeansZero(es: seq<Emitter>, ds: seq<real>)
    requires CellInputs(es, ds)
    requires forall i :: 0 <= i < |es| ==> es[i].status != Actif
    ensures CellSignal(es, ds) == 0.0
  {
  }

  /** A grid point on the site of an active transmitter has signal 100. */
  lemma FullSignalAtActiveSite(es: seq<Emitter>, ds: seq<real>, k: nat)
    requires CellInputs(es, ds)
    requires k < |es| && es[k].status == Actif && ds[k] == 0.0
    ensures CellSignal(es, ds) == 100.0
  {
    assert EmitterSignal(ds[k], es[k].coverage) == 100.0;
  }

  /** Removing a transmitter that is not active leaves every cell unchanged. */
  lemma InactiveIgnored(es: seq<Emitter>, ds: seq<real>, k: nat)
    requires CellInputs(es, ds)
    requires k < |es| && es[k].status != Actif
    ensures CellInputs(es[..k] + es[k + 1..], ds[..k] + ds[k + 1..])
    ensures CellSignal(es[..k] + es[k + 1..], ds[..k] + ds[k + 1..]) == CellSignal(es, ds)
  {
    var es', ds' := es[..k] + es[k + 1..], ds[..k] + ds[k + 1..];
    var v := CellSignal(es, ds);
    RemovalKeepsValue(es, ds, k, v);
    CellValueUnique(es', ds', v, CellSignal(es', ds'));
  }

  /** A cell value of the full table is still the cell value once an inactive transmitter is removed. */
  lemma RemovalKeepsValue(es: seq<Emitter>, ds: seq<real>, k: nat, v: real)
    requires CellInputs(es, ds) && IsCellValue(es, ds, v)
    requires k < |es| && es[k].status != Actif
    ensures CellInputs(es[..k] + es[k + 1..], ds[..k] + ds[k + 1..])
    ensures IsCellValue(es[..k] + es[k + 1..], ds[..k] + ds[k + 1..], v)
  {
    var es', ds' := es[..k] + es[k + 1..], ds[..k] + ds[k + 1..];
    forall i | 0 <= i < |es'|
      ensures es'[i] == es[Skip(i, k)] && ds'[i] == ds[Skip(i, k)]
    {
    }
    assert CellInputs(es', ds');
    forall i | 0 <= i < |es'| && es'[i].status == Actif
      ensures EmitterSignal(ds'[i], es'[i].coverage) <= v
    {
      assert es'[i] == es[Skip(i, k)];
    }
    if v != 0.0 {
      var i :| 0 <= i < |es| && es[i].status == Actif && v == EmitterSignal(ds[i], es[i].coverage);
      var j := if i < k then i else i - 1;
      assert Skip(j, k) == i;
      assert es'[j].status == Actif && v == EmitterSignal(ds'[j], es'[j].coverage);
    }
  }

  /** The index in the full table of row `i` once row `k` is removed. */
  function Skip(i: nat, k: nat): nat
  {
    if i < k then i else i + 1
  }

  /** Adding a transmitter to the fleet never weakens any cell. */
  lemma MoreEmittersNeverWeaker(es: seq<Emitter>, ds: seq<real>, e: Emitter, d: real)
    requires CellInputs(es, ds) && CellInputs(es + [e], ds + [d])
    ensures CellSignal(es, ds) <= CellSignal(es + [e], ds + [d])
  {
    var v := CellSignal(es, ds);
    if v != 0.0 {
      var i :| 0 <= i < |es| && es[i].status == Actif && v == EmitterSignal(ds[i], es[i].coverage);
      assert (es + [e])[i] == es[i] && (ds + [d])[i] == ds[i];
    }
  }
}
