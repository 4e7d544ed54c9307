/** The risk overview pie: one slice per risk level present among the
    devices, sized by the number of devices at that level. */
module RiskOverviewChart {

  import opened Types
  import opened Seqs
  import opened Tally

  datatype Slice = Slice(name: RiskLevel, value: nat)

  function RiskOf(): Device -> RiskLevel {
    (d: Device) => d.riskLevel
  }

  function LevelIs(r: RiskLevel): Device -> bool {
    (d: Device) => d.riskLevel == r
  }

  function ToSlices(entries: seq<Entry<RiskLevel>>): seq<Slice> {
    seq(|entries|, i requires 0 <= i < |entries| => Slice(entries[i].name, entries[i].count))
  }

  /** The slices the chart draws. */
  function Slices(devices: seq<Device>): seq<Slice> {
    ToSlices(Tallied(devices, RiskOf()))
  }

  /** The chart's `data`: the counting reduce, then `{name, value}` entries. */
  method RiskData(devices: seq<Device>) returns (data: seq<Slice>)
    ensures data == Slices(devices)
  {
    var counts := CountBy(devices, RiskOf());
    data := seq(|counts|, i requires 0 <= i < |counts| => Slice(counts[i].name, counts[i].count));
  }

  /** Some slice is for level `r`. */
  predicate HasSlice(slices: seq<Slice>, r: RiskLevel) {
    exists i :: 0 <= i < |slices| && slices[i].name == r
  }

  /** Some device is at level `r`. */
  predicate SomeDeviceAt(devices: seq<Device>, r: RiskLevel) {
    exists j :: 0 <= j < |devices| && devices[j].riskLevel == r
  }

  function TotalValue(slices: seq<Slice>): nat {
    if slices == [] then 0 else slices[0].value + TotalValue(slices[1..])
  }

  lemma {:induction false} TotalValueIsSum(entries: seq<Entry<RiskLevel>>)
    ensures TotalValue(ToSlices(entries)) == SumCounts(entries)
  {
    if entries != [] {
      TotalValueIsSum(entries[1..]);
      assert ToSlices(entries)[1..] == ToSlices(entries[1..]);
    }
  }

  /** The slice values add up to the number of devices. */
  lemma SlicesTotal(devices: seq<Device>)
    ensures TotalValue(Slices(devices)) == |devices|
  {
    TalliedTotal(devices, RiskOf());
    TotalValueIsSum(Tallied(devices, RiskOf()));
  }

  /** Each slice's value is the number of devices at its level, so none is
      zero. */
  lemma SliceValues(devices: seq<Device>)
    ensures forall i :: 0 <= i < |Slices(devices)| ==>
              Slices(devices)[i].value == |Filter(devices, LevelIs(Slices(devices)[i].name))|
              && Slices(devices)[i].value > 0
  {
    var slices := Slices(devices);
    TalliedCounts(devices, RiskOf());
    forall i | 0 <= i < |slices|
      ensures slices[i].value == |Filter(devices, LevelIs(slices[i].name))|
    {
      var r := slices[i].name;
      var entries := Tallied(devices, RiskOf());
      assert slices[i].value == entries[i].count == multiset(Keys(devices, RiskOf()))[r];
      CountIsFilterLength(devices, RiskOf(), r, LevelIs(r));
    }
  }

  /** A level has a slice exactly when some device is at it, and at most one. */
  lemma SliceLevels(devices: seq<Device>)
    ensures forall r :: HasSlice(Slices(devices), r) <==> SomeDeviceAt(devices, r)
    ensures forall i, j :: 0 <= i < j < |Slices(devices)| ==> Slices(devices)[i].name != Slices(devices)[j].name
  {
    var entries := Tallied(devices, RiskOf());
    var slices := Slices(devices);
    TalliedCounts(devices, RiskOf());
    forall r
      ensures HasSlice(slices, r) <==> SomeDeviceAt(devices, r)
    {
      if HasSlice(slices, r) {
        var i :| 0 <= i < |slices| && slices[i].name == r;
        assert Names(entries)[i] == r;
      }
      if SomeDeviceAt(devices, r) {
        var j :| 0 <= j < |devices| && devices[j].riskLevel == r;
        assert RiskOf()(devices[j]) == r;
        assert r in Names(entries);
        var i :| 0 <= i < |Names(entries)| && Names(entries)[i] == r;
        assert slices[i].name == r;
      }
    }
    forall i, j | 0 <= i < j < |slices|
      ensures slices[i].name != slices[j].name
    {
      assert Names(entries)[i] == slices[i].name && Names(entries)[j] == slices[j].name;
    }
  }

  /** The slices come in order of the first device at each level. */
  lemma SlicesInFirstOccurrenceOrder(devices: seq<Device>)
    ensures var levels := Keys(devices, RiskOf());
            var names := seq(|Slices(devices)|, i requires 0 <= i < |Slices(devices)| => Slices(devices)[i].name);
            && Embeds(FirstPositions(levels), names, levels)
            && forall i :: 0 <= i < |FirstPositions(levels)| ==>
                 levels[FirstPositions(levels)[i]] !in levels[..FirstPositions(levels)[i]]
  {
    TalliedOrder(devices, RiskOf());
    var names := seq(|Slices(devices)|, i requires 0 <= i < |Slices(devices)| => Slices(devices)[i].name);
    assert names == Names(Tallied(devices, RiskOf()));
  }
}
