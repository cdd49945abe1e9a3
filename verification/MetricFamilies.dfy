/**
  The registry as metrics.cpp lays it out: families by name, each with its counters and gauges by
  printed labels, and the cap checked against a sum over all families. It serves one request
  exactly as the flat registry of module Metrics does.
 */
module MetricFamilies {
  import opened Labels
  import opened Metrics
  import opened Wrappers
  import Secrets

  datatype Family = Family(isGauge: bool, counters: map<string, nat>, gauges: map<string, nat>)
  {
    function Side(kind: Kind): map<string, nat> {
      if kind.CounterKind? then counters else gauges
    }

    function With(kind: Kind, key: string, h: nat): Family {
      if kind.CounterKind? then this.(counters := counters[key := h]) else this.(gauges := gauges[key := h])
    }
  }

  const NO_FAMILY := Family(false, map[], map[])

  function FamilyOf(families: map<string, Family>, name: string): Family {
    if name in families then families[name] else NO_FAMILY
  }

  // ---------------------------------------------------------------------------
  // The series of some families, and how many they are

  function SideIds(name: string, kind: Kind, keys: set<string>): set<Id> {
    set k | k in keys :: Id(kind, name, k)
  }

  function FamilyIds(name: string, f: Family): set<Id> {
    SideIds(name, CounterKind, f.counters.Keys) + SideIds(name, GaugeKind, f.gauges.Keys)
  }

  function Ids(families: map<string, Family>, names: set<string>): set<Id> {
    set n, i | n in names && n in families && i in FamilyIds(n, families[n]) :: i
  }

  lemma {:induction false} SideSize(name: string, kind: Kind, keys: set<string>)
    ensures |SideIds(name, kind, keys)| == |keys|
    decreases |keys|
  {
    if keys == {} {
      assert SideIds(name, kind, keys) == {};
    } else {
      var k :| k in keys;
      SideSize(name, kind, keys - {k});
      assert SideIds(name, kind, keys) == SideIds(name, kind, keys - {k}) + {Id(kind, name, k)};
    }
  }

  lemma FamilySize(name: string, f: Family)
    ensures |FamilyIds(name, f)| == |f.counters| + |f.gauges|
  {
    SideSize(name, CounterKind, f.counters.Keys);
    SideSize(name, GaugeKind, f.gauges.Keys);
    assert SideIds(name, CounterKind, f.counters.Keys) !! SideIds(name, GaugeKind, f.gauges.Keys);
  }

  lemma OneMoreFamily(families: map<string, Family>, names: set<string>, name: string)
    requires name in families && name !in names
    ensures |Ids(families, names + {name})|
         == |Ids(families, names)| + |families[name].counters| + |families[name].gauges|
  {
    var some, more := Ids(families, names), FamilyIds(name, families[name]);
    FamilySize(name, families[name]);
    IdsGrow(families, names, name);
    hide Ids, FamilyIds;
    assert |some + more| == |some| + |more|;
  }

  lemma IdsGrow(families: map<string, Family>, names: set<string>, name: string)
    requires name in families && name !in names
    ensures Ids(families, names + {name}) == Ids(families, names) + FamilyIds(name, families[name])
    ensures Ids(families, names) !! FamilyIds(name, families[name])
  {
    FamilyIdsNamed(name, families[name]);
    forall n | n in names && n in families {
      FamilyIdsNamed(n, families[n]);
    }
    hide FamilyIds;
  }

  lemma FamilyIdsNamed(name: string, f: Family)
    ensures forall i | i in FamilyIds(name, f) :: i.name == name
  {
  }

  predicate Has(families: map<string, Family>, id: Id) {
    id.name in families && id.key in families[id.name].Side(id.kind)
  }

  /** The families hold exactly the series of the flat registry, under the same handles. */
  ghost predicate Holds(families: map<string, Family>, series: map<Id, nat>) {
    && (forall id :: id in series <==> Has(families, id))
    && (forall id | id in series :: families[id.name].Side(id.kind)[id.key] == series[id])
  }

  lemma IdsAreHad(families: map<string, Family>, series: map<Id, nat>)
    requires Holds(families, series)
    ensures Ids(families, families.Keys) == series.Keys
  {
    forall id
      ensures id in Ids(families, families.Keys) <==> Has(families, id)
    {
      if Has(families, id) {
        assert id in FamilyIds(id.name, families[id.name]);
      }
    }
  }

  lemma HoldsFinds(families: map<string, Family>, series: map<Id, nat>, id: Id)
    requires Holds(families, series)
    ensures id in series <==> Has(families, id)
    ensures Has(families, id) ==> families[id.name].Side(id.kind)[id.key] == series[id]
    ensures id.name !in families ==> id.key !in NO_FAMILY.Side(id.kind)
  {
  }

  /** Naming a family, or calling it a gauge family, makes no series. */
  lemma HoldsNamed(families: map<string, Family>, series: map<Id, nat>, name: string, g: bool)
    requires Holds(families, series)
    ensures Holds(families[name := FamilyOf(families, name).(isGauge := g)], series)
  {
    var next := families[name := FamilyOf(families, name).(isGauge := g)];
    assert forall id :: Has(next, id) <==> Has(families, id);
  }

  lemma HoldsMore(families: map<string, Family>, series: map<Id, nat>, id: Id, h: nat)
    requires Holds(families, series) && id.name in families
    ensures Holds(families[id.name := families[id.name].With(id.kind, id.key, h)], series[id := h])
  {
    var next := families[id.name := families[id.name].With(id.kind, id.key, h)];
    assert forall other :: Has(next, other) <==> Has(families, other) || other == id;
  }

  lemma OneMoreKey(series: map<Id, nat>, id: Id, h: nat)
    requires id !in series
    ensures |series[id := h]| == |series| + 1
  {
    assert series[id := h].Keys == series.Keys + {id};
  }

  class MetricRegistry {
    const maxSeries: nat
    var families: map<string, Family>
    var made: nat
    var rejected: nat
    var redacted: nat
    ghost var flat: Registry

    ghost predicate Valid()
      reads this
    {
      && Holds(families, flat.series)
      && made == |flat.series|
      && rejected == flat.rejected && redacted == flat.redacted
    }

    constructor (max: nat)
      ensures Valid() && maxSeries == max && flat == EMPTY
    {
      maxSeries := max;
      families, made, rejected, redacted := map[], 0, 0, 0;
      flat := EMPTY;
    }

    method RefuseSensitive(labels: seq<Label>) returns (refused: bool)
      requires Valid()
      modifies this
      ensures Valid() && refused == NamesSecret(labels)
      ensures flat == if refused then old(flat).(redacted := old(flat).redacted + 1) else old(flat)
    {
      for i := 0 to |labels|
        invariant forall k | 0 <= k < i :: !Secrets.IsSensitiveKey(labels[k].0)
        invariant Valid() && flat == old(flat)
      {
        if Secrets.IsSensitiveKey(labels[i].0) {
          redacted := redacted + 1;
          flat := flat.(redacted := flat.redacted + 1);
          return true;
        }
      }
      return false;
    }

    /** The loop both `counter` and `gauge` run before making a series. */
    method SeriesCount() returns (total: nat)
      requires Valid()
      ensures total == |flat.series|
    {
      var todo := families.Keys;
      total := 0;
      assert Ids(families, {}) == {};
      while todo != {}
        invariant todo <= families.Keys
        invariant total == |Ids(families, families.Keys - todo)|
        decreases |todo|
      {
        var n :| n in todo;
        OneMoreFamily(families, families.Keys - todo, n);
        assert families.Keys - todo + {n} == families.Keys - (todo - {n});
        total := total + |families[n].counters| + |families[n].gauges|;
        todo := todo - {n};
      }
      assert families.Keys - {} == families.Keys;
      IdsAreHad(families, flat.series);
    }

    /** The first piece of a call, under the shared lock. */
    method LookUp(kind: Kind, name: string, key: string) returns (found: Option<nat>)
      requires Valid()
      ensures var id := Id(kind, name, key);
              found == if id in flat.series then Some(flat.series[id]) else None
    {
      HoldsFinds(families, flat.series, Id(kind, name, key));
      if name in families && key in families[name].Side(kind) {
        return Some(families[name].Side(kind)[key]);
      }
      return None;
    }

    /** The second piece, under the exclusive lock; the series may have been made in between. */
    method Insert(kind: Kind, name: string, key: string) returns (handle: Option<nat>)
      requires Valid()
      modifies this
      ensures Valid()
      ensures var id, size := Id(kind, name, key), |old(flat).series|;
              if id in old(flat).series then handle == Some(old(flat).series[id]) && flat == old(flat)
              else if size >= maxSeries then handle == None && flat == old(flat).(rejected := old(flat).rejected + 1)
              else handle == Some(size) && flat == old(flat).(series := old(flat).series[id := size])
    {
      ghost var id := Id(kind, name, key);
      var f := FamilyOf(families, name);
      HoldsFinds(families, flat.series, id);
      HoldsNamed(families, flat.series, name, f.isGauge || kind == GaugeKind);
      hide Holds;
      if kind == GaugeKind {
        f := f.(isGauge := true);
      }
      families := families[name := f];
      if key in f.Side(kind) {
        return Some(f.Side(kind)[key]);
      }
      var total := SeriesCount();
      if total >= maxSeries {
        rejected := rejected + 1;
        flat := flat.(rejected := flat.rejected + 1);
        return None;
      }
      handle := Make(f, kind, name, key);
    }

    method Make(f: Family, kind: Kind, name: string, key: string) returns (handle: Option<nat>)
      requires Valid() && Id(kind, name, key) !in flat.series && name in families && families[name] == f
      modifies this
      ensures Valid() && handle == Some(|old(flat).series|)
      ensures flat == old(flat).(series := old(flat).series[Id(kind, name, key) := |old(flat).series|])
    {
      hide Holds, Family.With, Family.Side;
      ghost var id := Id(kind, name, key);
      HoldsMore(families, flat.series, id, made);
      families := families[name := f.With(kind, key, made)];
      OneMoreKey(flat.series, id, made);
      flat := flat.(series := flat.series[id := made]);
      handle := Some(made);
      made := made + 1;
    }

    /** `counter` and `gauge` when nobody comes in between: None is the null handle. */
    method Obtain(kind: Kind, name: string, labels: seq<Label>) returns (handle: Option<nat>)
      requires Valid()
      modifies this
      ensures Valid()
      ensures var r := Obtained(old(flat), maxSeries, Request(kind, name, labels));
              flat == r.0 && handle == if r.1.Handle? then Some(r.1.h) else None
    {
      hide Holds, NamesSecret, Encoded;
      var refused := RefuseSensitive(labels);
      if refused {
        return None;
      }
      var key := EncodeLabels(labels);
      handle := LookUp(kind, name, key);
      if handle == None {
        handle := Insert(kind, name, key);
      }
    }
  }
}
