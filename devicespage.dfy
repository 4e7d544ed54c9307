/** The devices page: the device list narrowed by a search term, an OS and a
    risk level, the list of OS choices, and the colour of a risk chip. */
module DevicesPage {

  import opened Types
  import opened Text
  import opened Seqs

  /** The value of either selector that imposes no constraint. */
  const AllChoice: string := "All"

  /** `deviceName || id || 'Unknown Device'` */
  function DisplayName(d: Device): string {
    if d.deviceName != "" then d.deviceName
    else if d.id != "" then d.id
    else "Unknown Device"
  }

  /** The lower-cased shown name or OS includes the lower-cased term. */
  predicate MatchesSearch(d: Device, term: string) {
    Contains(LowerStr(DisplayName(d)), LowerStr(term)) || Contains(LowerStr(d.os), LowerStr(term))
  }

  predicate MatchesOS(d: Device, osFilter: string) {
    osFilter == AllChoice || d.os == osFilter
  }

  predicate MatchesRisk(d: Device, riskFilter: string) {
    riskFilter == AllChoice || RiskName(d.riskLevel) == riskFilter
  }

  function Kept(term: string, osFilter: string, riskFilter: string): Device -> bool {
    d => MatchesSearch(d, term) && MatchesOS(d, osFilter) && MatchesRisk(d, riskFilter)
  }

  /** `filteredDevices` */
  function FilteredDevices(devices: seq<Device>, term: string, osFilter: string, riskFilter: string): seq<Device> {
    Filter(devices, Kept(term, osFilter, riskFilter))
  }

  /** The list keeps, in order, exactly the devices matching the search, the
      OS selector and the risk selector, an `"All"` selector matching any
      device. */
  lemma FilteredDevicesSelect(devices: seq<Device>, term: string, osFilter: string, riskFilter: string)
    ensures exists idx :: Embeds(idx, FilteredDevices(devices, term, osFilter, riskFilter), devices)
              && forall i :: 0 <= i < |devices| ==>
                   (i in idx <==> MatchesSearch(devices[i], term)
                                  && (osFilter == AllChoice || devices[i].os == osFilter)
                                  && (riskFilter == AllChoice || RiskName(devices[i].riskLevel) == riskFilter))
  {
    var keep := Kept(term, osFilter, riskFilter);
    FilterSelects(devices, keep);
    var idx :| Embeds(idx, Filter(devices, keep), devices)
               && forall i :: 0 <= i < |devices| ==> (i in idx <==> keep(devices[i]));
    assert FilteredDevices(devices, term, osFilter, riskFilter) == Filter(devices, keep);
    forall i | 0 <= i < |devices|
      ensures i in idx <==> MatchesSearch(devices[i], term)
                            && (osFilter == AllChoice || devices[i].os == osFilter)
                            && (riskFilter == AllChoice || RiskName(devices[i].riskLevel) == riskFilter)
    {
      assert keep(devices[i]) == (MatchesSearch(devices[i], term) && MatchesOS(devices[i], osFilter)
                                  && MatchesRisk(devices[i], riskFilter));
    }
  }

  /** With both selectors at "All" only the search narrows the list, and an
      empty search then keeps every device. */
  lemma AllSelectorsOnlySearch(devices: seq<Device>, term: string)
    ensures FilteredDevices(devices, term, AllChoice, AllChoice) == Filter(devices, d => MatchesSearch(d, term))
    ensures FilteredDevices(devices, "", AllChoice, AllChoice) == devices
  {
    FilterExt(devices, Kept(term, AllChoice, AllChoice), d => MatchesSearch(d, term));
    assert LowerStr("") == "";
    forall d | d in devices
      ensures Kept("", AllChoice, AllChoice)(d)
    {
      ContainsEmptyAndSelf(LowerStr(DisplayName(d)));
    }
    FilterKeepsAll(devices, Kept("", AllChoice, AllChoice));
  }

  function Oses(devices: seq<Device>): seq<string> {
    seq(|devices|, i requires 0 <= i < |devices| => devices[i].os)
  }

  function NonEmpty(): string -> bool {
    (s: string) => s != ""
  }

  /** `[...new Set(devices.map(d => d.os).filter(Boolean))]` */
  function UniqueOS(devices: seq<Device>): seq<string> {
    Distinct(Filter(Oses(devices), NonEmpty()))
  }

  /** The OS choices are the non-empty OS values of the devices, each once, in
      order of first occurrence. */
  lemma UniqueOSChoices(devices: seq<Device>)
    ensures forall os :: os in UniqueOS(devices) <==>
              os != "" && exists i :: 0 <= i < |devices| && devices[i].os == os
    ensures NoDuplicates(UniqueOS(devices))
    ensures var named := Filter(Oses(devices), NonEmpty());
            && Embeds(FirstPositions(named), UniqueOS(devices), named)
            && forall i :: 0 <= i < |FirstPositions(named)| ==>
                 named[FirstPositions(named)[i]] !in named[..FirstPositions(named)[i]]
  {
    var named := Filter(Oses(devices), NonEmpty());
    DistinctFirstOccurrences(named);
    forall os
      ensures os in UniqueOS(devices) <==> os != "" && exists i :: 0 <= i < |devices| && devices[i].os == os
    {
      if os != "" && exists i :: 0 <= i < |devices| && devices[i].os == os {
        var i :| 0 <= i < |devices| && devices[i].os == os;
        assert Oses(devices)[i] == os;
      }
      if os in UniqueOS(devices) {
        assert os in Oses(devices);
      }
    }
  }

  // ---------------------------------------------------------------------------
  // The risk chip

  datatype Tone = Red | Yellow | Green | Gray

  function ToneOf(risk: string): Tone {
    if risk == "High" then Red
    else if risk == "Medium" then Yellow
    else if risk == "Low" then Green
    else Gray
  }

  /** The CSS classes of each tone. */
  function ToneClasses(t: Tone): string {
    match t
    case Red => "bg-red-100 text-red-800 dark:bg-red-900 dark:text-red-300"
    case Yellow => "bg-yellow-100 text-yellow-800 dark:bg-yellow-900 dark:text-yellow-300"
    case Green => "bg-green-100 text-green-800 dark:bg-green-900 dark:text-green-300"
    case Gray => "bg-gray-100 text-gray-800 dark:bg-gray-700 dark:text-gray-300"
  }

  /** `getRiskColor` */
  function RiskColor(risk: string): string {
    ToneClasses(ToneOf(risk))
  }

  /** The three named levels get three distinct tones, and every other value,
      Unknown included, is gray; the chip's classes are the gray ones exactly
      for Unknown. */
  lemma RiskChipTones(r: RiskLevel)
    ensures ToneOf(RiskName(r)) == Gray <==> r == Unknown
    ensures r == High ==> ToneOf(RiskName(r)) == Red
    ensures r == Medium ==> ToneOf(RiskName(r)) == Yellow
    ensures r == Low ==> ToneOf(RiskName(r)) == Green
    ensures forall s :: s != "High" && s != "Medium" && s != "Low" ==> ToneOf(s) == Gray
    ensures RiskColor(RiskName(r)) == ToneClasses(Gray) <==> r == Unknown
  {
  }
}
