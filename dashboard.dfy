/** The dashboard's derived views: the user list narrowed by a search term and
    a risk level, the count of devices at risk, and the role gate on the export
    and refresh actions. */
module Dashboard {

  import opened Types
  import opened Text
  import opened Seqs

  /** The risk selector: every level, or one level. */
  datatype RiskFilter = AllLevels | Level(level: RiskLevel)

  predicate IsUserAdmin(current: User) {
    current.role == Admin
  }

  /** The export button is enabled for admins only. */
  predicate ExportEnabled(current: User) {
    IsUserAdmin(current)
  }

  /** The refresh button is enabled for admins, and not while loading. */
  predicate RefreshEnabled(current: User, loading: bool) {
    !loading && IsUserAdmin(current)
  }

  /** A viewer can neither export nor refresh; an admin can always export and
      can refresh whenever nothing is loading. */
  lemma OnlyAdminsExportOrRefresh(current: User, loading: bool)
    ensures ExportEnabled(current) || RefreshEnabled(current, loading) ==> current.role == Admin
    ensures current.role == Viewer ==> !ExportEnabled(current) && !RefreshEnabled(current, loading)
    ensures current.role == Admin ==> ExportEnabled(current) && (RefreshEnabled(current, loading) <==> !loading)
  {
  }

  /** The lower-cased name or mail includes the lower-cased term. */
  predicate MatchesSearch(u: User, lowerTerm: string) {
    Contains(LowerStr(u.displayName), lowerTerm) || Contains(LowerStr(u.mail), lowerTerm)
  }

  /** Some device at `level` names `id` as its owner. */
  predicate OwnsDeviceAt(devices: seq<Device>, id: string, level: RiskLevel) {
    exists j :: 0 <= j < |devices| && devices[j].riskLevel == level && devices[j].userId == id
  }

  /** Whether `u` stays in the list. */
  predicate Shown(devices: seq<Device>, searchTerm: string, filter: RiskFilter, u: User) {
    MatchesSearch(u, LowerStr(searchTerm))
    && (filter.AllLevels? || OwnsDeviceAt(devices, u.id, filter.level))
  }

  function ShownBy(devices: seq<Device>, searchTerm: string, filter: RiskFilter): User -> bool {
    u => Shown(devices, searchTerm, filter, u)
  }

  /** The users the list shows. */
  function UsersShown(users: seq<User>, devices: seq<Device>, searchTerm: string, filter: RiskFilter): seq<User> {
    Filter(users, ShownBy(devices, searchTerm, filter))
  }

  /** `filteredUsers`: the owner ids of devices at the selected level are
      gathered into a set first, then the users are filtered against it. */
  method FilteredUsers(users: seq<User>, devices: seq<Device>, searchTerm: string, riskFilter: RiskFilter)
    returns (r: seq<User>)
    ensures r == UsersShown(users, devices, searchTerm, riskFilter)
  {
    var lowercasedSearchTerm := LowerStr(searchTerm);
    var userIdsWithRisk: set<string> := {};
    if riskFilter.Level? {
      for i := 0 to |devices|
        invariant forall id :: id in userIdsWithRisk <==>
                    exists j :: 0 <= j < i && devices[j].riskLevel == riskFilter.level && devices[j].userId == id
      {
        if devices[i].riskLevel == riskFilter.level {
          userIdsWithRisk := userIdsWithRisk + {devices[i].userId};
        }
      }
    }
    r := Filter(users, u => MatchesSearch(u, lowercasedSearchTerm)
                            && (riskFilter.AllLevels? || u.id in userIdsWithRisk));
    FilterExt(users, u => MatchesSearch(u, lowercasedSearchTerm)
                          && (riskFilter.AllLevels? || u.id in userIdsWithRisk),
                     ShownBy(devices, searchTerm, riskFilter));
  }

  /** The shown users are the users, in order, at exactly the positions whose
      user matches the search and, under a level, owns a device at that level. */
  lemma UsersShownSelects(users: seq<User>, devices: seq<Device>, searchTerm: string, filter: RiskFilter)
    ensures exists idx :: Embeds(idx, UsersShown(users, devices, searchTerm, filter), users)
              && forall i :: 0 <= i < |users| ==>
                   (i in idx <==> MatchesSearch(users[i], LowerStr(searchTerm))
                                  && (filter.AllLevels? || OwnsDeviceAt(devices, users[i].id, filter.level)))
  {
    var shown := ShownBy(devices, searchTerm, filter);
    FilterSelects(users, shown);
    var idx :| Embeds(idx, Filter(users, shown), users)
               && forall i :: 0 <= i < |users| ==> (i in idx <==> shown(users[i]));
    assert UsersShown(users, devices, searchTerm, filter) == Filter(users, shown);
    forall i | 0 <= i < |users|
      ensures i in idx <==> MatchesSearch(users[i], LowerStr(searchTerm))
                            && (filter.AllLevels? || OwnsDeviceAt(devices, users[i].id, filter.level))
    {
      assert shown(users[i]) == Shown(devices, searchTerm, filter, users[i]);
    }
  }

  /** An empty search over all levels shows every user. */
  lemma EmptySearchShowsAll(users: seq<User>, devices: seq<Device>)
    ensures UsersShown(users, devices, "", AllLevels) == users
  {
    assert LowerStr("") == "";
    forall u | u in users
      ensures ShownBy(devices, "", AllLevels)(u)
    {
      ContainsEmptyAndSelf(LowerStr(u.displayName));
    }
    FilterKeepsAll(users, ShownBy(devices, "", AllLevels));
  }

  function HasLevel(level: RiskLevel): Device -> bool {
    (d: Device) => d.riskLevel == level
  }

  /** The number of devices at `level`. */
  function CountAt(devices: seq<Device>, level: RiskLevel): nat {
    |Filter(devices, HasLevel(level))|
  }

  /** `devicesAtRisk`: the devices whose risk is High or Medium. */
  function DevicesAtRisk(devices: seq<Device>): nat {
    |Filter(devices, (d: Device) => d.riskLevel == High || d.riskLevel == Medium)|
  }

  /** The at-risk count is the High count plus the Medium count; with the Low
      and Unknown counts it makes up every device. */
  lemma {:induction false} DevicesAtRiskCount(devices: seq<Device>)
    ensures DevicesAtRisk(devices) == CountAt(devices, High) + CountAt(devices, Medium)
    ensures DevicesAtRisk(devices) + CountAt(devices, Low) + CountAt(devices, Unknown) == |devices|
  {
    if devices != [] {
      DevicesAtRiskCount(devices[1..]);
    }
  }
}
