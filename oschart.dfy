/** The OS bar chart: one bar per operating system present among the
    devices, as tall as the number of devices running it. The bars follow
    insertion order only while no OS name looks like an array index, which
    `Object.entries` would list first. */
module DeviceOSChart {

  import opened Types
  import opened Seqs
  import opened Tally

  datatype Bar = Bar(name: string, count: nat)

  function OsOf(): Device -> string {
    (d: Device) => d.os
  }

  function OsIs(os: string): Device -> bool {
    (d: Device) => d.os == os
  }

  function ToBars(entries: seq<Entry<string>>): seq<Bar> {
    seq(|entries|, i requires 0 <= i < |entries| => Bar(entries[i].name, entries[i].count))
  }

  /** The bars the chart draws. */
  function Bars(devices: seq<Device>): seq<Bar> {
    ToBars(Tallied(devices, OsOf()))
  }

  /** The chart's `data`: the counting reduce, then `{name, count}` entries. */
  method OsData(devices: seq<Device>) returns (data: seq<Bar>)
    ensures data == Bars(devices)
  {
    var osCounts := CountBy(devices, OsOf());
    data := seq(|osCounts|, i requires 0 <= i < |osCounts| => Bar(osCounts[i].name, osCounts[i].count));
  }

  /** Some bar is for `os`. */
  predicate HasBar(bars: seq<Bar>, os: string) {
    exists i :: 0 <= i < |bars| && bars[i].name == os
  }

  /** Some device runs `os`. */
  predicate SomeDeviceRuns(devices: seq<Device>, os: string) {
    exists j :: 0 <= j < |devices| && devices[j].os == os
  }

  function TotalCount(bars: seq<Bar>): nat {
    if bars == [] then 0 else bars[0].count + TotalCount(bars[1..])
  }

  lemma {:induction false} TotalCountIsSum(entries: seq<Entry<string>>)
    ensures TotalCount(ToBars(entries)) == SumCounts(entries)
  {
    if entries != [] {
      TotalCountIsSum(entries[1..]);
      assert ToBars(entries)[1..] == ToBars(entries[1..]);
    }
  }

  /** The bar counts add up to the number of devices. */
  lemma BarsTotal(devices: seq<Device>)
    ensures TotalCount(Bars(devices)) == |devices|
  {
    TalliedTotal(devices, OsOf());
    TotalCountIsSum(Tallied(devices, OsOf()));
  }

  /** Each bar's count is the number of devices running its OS, so none is
      zero. */
  lemma BarCounts(devices: seq<Device>)
    ensures forall i :: 0 <= i < |Bars(devices)| ==>
              Bars(devices)[i].count == |Filter(devices, OsIs(Bars(devices)[i].name))|
              && Bars(devices)[i].count > 0
  {
    var bars := Bars(devices);
    TalliedCounts(devices, OsOf());
    forall i | 0 <= i < |bars|
      ensures bars[i].count == |Filter(devices, OsIs(bars[i].name))|
    {
      var os := bars[i].name;
      var entries := Tallied(devices, OsOf());
      assert bars[i].count == entries[i].count == multiset(Keys(devices, OsOf()))[os];
      CountIsFilterLength(devices, OsOf(), os, OsIs(os));
    }
  }

  /** An OS has a bar exactly when some device runs it, and at most one. */
  lemma BarNames(devices: seq<Device>)
    ensures forall os :: HasBar(Bars(devices), os) <==> SomeDeviceRuns(devices, os)
    ensures forall i, j :: 0 <= i < j < |Bars(devices)| ==> Bars(devices)[i].name != Bars(devices)[j].name
  {
    var entries := Tallied(devices, OsOf());
    var bars := Bars(devices);
    TalliedCounts(devices, OsOf());
    forall os
      ensures HasBar(bars, os) <==> SomeDeviceRuns(devices, os)
    {
      if HasBar(bars, os) {
        var i :| 0 <= i < |bars| && bars[i].name == os;
        assert Names(entries)[i] == os;
      }
      if SomeDeviceRuns(devices, os) {
        var j :| 0 <= j < |devices| && devices[j].os == os;
        assert OsOf()(devices[j]) == os;
        assert os in Names(entries);
        var i :| 0 <= i < |Names(entries)| && Names(entries)[i] == os;
        assert bars[i].name == os;
      }
    }
    forall i, j | 0 <= i < j < |bars|
      ensures bars[i].name != bars[j].name
    {
      assert Names(entries)[i] == bars[i].name && Names(entries)[j] == bars[j].name;
    }
  }

  /** The bars come in order of the first device running each OS. */
  lemma BarsInFirstOccurrenceOrder(devices: seq<Device>)
    ensures var oses := Keys(devices, OsOf());
            var names := seq(|Bars(devices)|, i requires 0 <= i < |Bars(devices)| => Bars(devices)[i].name);
            && Embeds(FirstPositions(oses), names, oses)
            && forall i :: 0 <= i < |FirstPositions(oses)| ==>
                 oses[FirstPositions(oses)[i]] !in oses[..FirstPositions(oses)[i]]
  {
    TalliedOrder(devices, OsOf());
    var names := seq(|Bars(devices)|, i requires 0 <= i < |Bars(devices)| => Bars(devices)[i].name);
    assert names == Names(Tallied(devices, OsOf()));
  }
}
