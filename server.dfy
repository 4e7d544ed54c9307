/** The improved backend's two endpoints: `/api/users` reads every directory
    user page by page, keeps the users holding a target licence and adds a role
    and a photo URL; `/api/devices` reads every security-platform machine page
    by page and projects it onto the dashboard's device record.

    The remote services are parameters. A sequence of pages stands for the
    responses to successive requests, and running out of pages stands for a
    request that fails, which the endpoint answers with an error. */
module ServerImproved {

  import opened Wrappers
  import opened Types
  import opened Seqs
  import DeviceUserMapping

  // ---------------------------------------------------------------------------
  // Users

  datatype License = License(skuId: string)

  /** A directory user as the Graph API returns it; a JSON `null` mail is
      `None`, and absent licences are `None`. */
  datatype GraphUser = GraphUser(
    id: string,
    displayName: string,
    mail: Option<string>,
    jobTitle: string,
    department: string,
    assignedLicenses: Option<seq<License>>)

  /** One response of the user listing: its users and the link to the next
      page, which is absent (or empty) on the last page. */
  datatype UserPage = UserPage(value: seq<GraphUser>, nextLink: Option<string>)

  const FirstUsersLink: string :=
    "https://graph.microsoft.com/v1.0/users?$select=id,displayName,mail,jobTitle,department,assignedLicenses&$top=999"

  /** The SKUs of Defender for Endpoint P2, Microsoft 365 Business Standard,
      Microsoft 365 Business Premium and Microsoft 365 E3. */
  const TargetSkuIds: seq<string> := [
    "c7df2760-2c81-4ef7-b578-5b5392b571df",
    "f245ecc8-75af-4f8e-b61f-27d8114de5f3",
    "cbdc14ab-d96c-4c30-b9f4-6ada7cdc1d46",
    "05e9a617-0261-4cee-bb44-138d3ef5d965"
  ]

  function IsLastPage(): UserPage -> bool {
    (p: UserPage) => !Truthy(p.nextLink)
  }

  /** How many responses the link-following loop reads: up to and including
      the first page without a next link; `None` when the pages run out first. */
  function UserPagesRead(pages: seq<UserPage>): Option<nat> {
    match FindIndex(pages, IsLastPage())
    case None => None
    case Some(j) => Some(j + 1)
  }

  function PageValues(pages: seq<UserPage>): seq<seq<GraphUser>> {
    seq(|pages|, i requires 0 <= i < |pages| => pages[i].value)
  }

  /** Every user of the pages read, page after page. */
  function AllUsers(pages: seq<UserPage>): Option<seq<GraphUser>> {
    match UserPagesRead(pages)
    case None => None
    case Some(n) => Some(Flatten(PageValues(pages[..n])))
  }

  /** `assignedLicenses` is non-empty and one of its SKUs is a target SKU. */
  predicate HasTargetLicense(u: GraphUser) {
    && u.assignedLicenses.Some?
    && |u.assignedLicenses.value| > 0
    && exists l :: l in u.assignedLicenses.value && l.skuId in TargetSkuIds
  }

  function Licensed(): GraphUser -> bool {
    u => HasTargetLicense(u)
  }

  function LicensedUsers(users: seq<GraphUser>): seq<GraphUser> {
    Filter(users, Licensed())
  }

  /** The user the endpoint answers with: the directory record spread, plus a
      role and a photo URL. */
  datatype ApiUser = ApiUser(profile: GraphUser, role: UserRole, photoUrl: string)

  const PhotoFallbackPrefix: string := "https://i.pravatar.cc/150?u="
  const PhotoDataPrefix: string := "data:image/jpeg;base64,"

  /** `${u.mail}` in the fallback URL: a `null` mail renders as "null". */
  function MailText(mail: Option<string>): string {
    match mail
    case Some(m) => m
    case None => "null"
  }

  /** The photo URL: the fetched photo as a data URL, or the avatar fallback
      keyed by mail when the fetch fails. */
  function PhotoUrl(u: GraphUser, photo: Option<string>): string {
    match photo
    case Some(base64) => PhotoDataPrefix + base64
    case None => PhotoFallbackPrefix + MailText(u.mail)
  }

  /** `photos(id)` is the base64 photo of user `id`, or `None` when the photo
      request fails. */
  function Enrich(u: GraphUser, photos: string -> Option<string>): ApiUser {
    ApiUser(u, Viewer, PhotoUrl(u, photos(u.id)))
  }

  /** What `/api/users` answers: `None` for the error response. */
  function UsersResponse(pages: seq<UserPage>, photos: string -> Option<string>): Option<seq<ApiUser>> {
    match AllUsers(pages)
    case None => None
    case Some(all) =>
      var kept := LicensedUsers(all);
      Some(seq(|kept|, i requires 0 <= i < |kept| => Enrich(kept[i], photos)))
  }

  /** The `/api/users` handler: follow `nextLink` while it is truthy, then
      filter by licence and enrich each user. */
  method GetUsers(pages: seq<UserPage>, photos: string -> Option<string>) returns (r: Option<seq<ApiUser>>)
    ensures r == UsersResponse(pages, photos)
  {
    var allUsers: seq<GraphUser> := [];
    var nextLink: Option<string> := Some(FirstUsersLink);
    var k := 0;
    while Truthy(nextLink)
      invariant 0 <= k <= |pages|
      invariant allUsers == Flatten(PageValues(pages[..k]))
      invariant k > 0 ==> nextLink == pages[k - 1].nextLink
      invariant forall j :: 0 <= j < k - 1 ==> Truthy(pages[j].nextLink)
      invariant k == 0 ==> Truthy(nextLink)
      decreases |pages| - k
    {
      if k == |pages| {
        LinksNeverEnd(pages);
        return None;
      }
      FlattenNextPage(pages, k);
      allUsers := allUsers + pages[k].value;
      nextLink := pages[k].nextLink;
      k := k + 1;
    }
    LinksEndAt(pages, k);
    var filteredUsers := LicensedUsers(allUsers);
    r := Some(seq(|filteredUsers|, i requires 0 <= i < |filteredUsers| => Enrich(filteredUsers[i], photos)));
  }

  /** Reading one more page appends its users. */
  lemma FlattenNextPage(pages: seq<UserPage>, k: nat)
    requires k < |pages|
    ensures Flatten(PageValues(pages[..k + 1])) == Flatten(PageValues(pages[..k])) + pages[k].value
  {
    var before, after := PageValues(pages[..k]), PageValues(pages[..k + 1]);
    assert after == before + [pages[k].value];
    assert after[..|after| - 1] == before;
  }

  /** When every page links onward, the pages run out and the listing fails. */
  lemma LinksNeverEnd(pages: seq<UserPage>)
    requires forall j :: 0 <= j < |pages| ==> Truthy(pages[j].nextLink)
    ensures AllUsers(pages).None?
  {
  }

  /** When the first `n - 1` pages link onward and page `n - 1` does not,
      the listing reads exactly the first `n` pages. */
  lemma LinksEndAt(pages: seq<UserPage>, n: nat)
    requires 1 <= n <= |pages| && !Truthy(pages[n - 1].nextLink)
    requires forall j :: 0 <= j < n - 1 ==> Truthy(pages[j].nextLink)
    ensures AllUsers(pages) == Some(Flatten(PageValues(pages[..n])))
  {
    assert FindIndex(pages, IsLastPage()) == Some(n - 1);
  }

  /** The listing stops at the first page without a next link: every earlier
      page had one, and the users are those pages' users in order. With no
      such page among the responses, the endpoint fails. */
  lemma UsersPagination(pages: seq<UserPage>)
    ensures AllUsers(pages).Some? <==> exists j :: 0 <= j < |pages| && !Truthy(pages[j].nextLink)
    ensures AllUsers(pages).Some? ==>
              exists n :: 1 <= n <= |pages|
                && !Truthy(pages[n - 1].nextLink)
                && (forall j :: 0 <= j < n - 1 ==> Truthy(pages[j].nextLink))
                && AllUsers(pages).value == Flatten(PageValues(pages[..n]))
  {
    if AllUsers(pages).None? {
      forall j | 0 <= j < |pages| ensures Truthy(pages[j].nextLink) {
        assert !IsLastPage()(pages[j]);
      }
    } else {
      var n := UserPagesRead(pages).value;
      assert IsLastPage()(pages[n - 1]);
      forall j | 0 <= j < n - 1 ensures Truthy(pages[j].nextLink) {
        assert !IsLastPage()(pages[j]);
      }
    }
  }

  /** The licence filter keeps, in order, exactly the users with a non-empty
      licence list naming a target SKU. */
  lemma LicensedUsersSelects(users: seq<GraphUser>)
    ensures exists idx :: Embeds(idx, LicensedUsers(users), users)
              && forall i :: 0 <= i < |users| ==>
                   (i in idx <==> users[i].assignedLicenses.Some? && |users[i].assignedLicenses.value| > 0
                                  && exists l :: l in users[i].assignedLicenses.value && l.skuId in TargetSkuIds)
  {
    FilterSelects(users, Licensed());
    var idx :| Embeds(idx, Filter(users, Licensed()), users)
               && forall i :: 0 <= i < |users| ==> (i in idx <==> Licensed()(users[i]));
    assert LicensedUsers(users) == Filter(users, Licensed());
    forall i | 0 <= i < |users|
      ensures i in idx <==> HasTargetLicense(users[i])
    {
      assert Licensed()(users[i]) == HasTargetLicense(users[i]);
    }
  }

  /** Every answered user is a viewer with a photo URL; the URL is a data URL
      exactly when the photo was fetched, and the avatar fallback keyed by mail
      otherwise. */
  lemma AnsweredUsersAreViewersWithPhoto(pages: seq<UserPage>, photos: string -> Option<string>)
    ensures UsersResponse(pages, photos).Some? ==>
              var answered := UsersResponse(pages, photos).value;
              var kept := LicensedUsers(AllUsers(pages).value);
              && |answered| == |kept|
              && forall i :: 0 <= i < |answered| ==>
                   && answered[i].profile == kept[i]
                   && answered[i].role == Viewer
                   && (photos(kept[i].id).Some? <==> StartsWith(answered[i].photoUrl, PhotoDataPrefix))
                   && (photos(kept[i].id).Some? ==>
                         answered[i].photoUrl == PhotoDataPrefix + photos(kept[i].id).value)
                   && (photos(kept[i].id).None? ==>
                         answered[i].photoUrl == PhotoFallbackPrefix + MailText(kept[i].mail))
  {
    if UsersResponse(pages, photos).Some? {
      var answered := UsersResponse(pages, photos).value;
      var kept := LicensedUsers(AllUsers(pages).value);
      forall i | 0 <= i < |answered|
        ensures photos(kept[i].id).Some? <==> StartsWith(answered[i].photoUrl, PhotoDataPrefix)
      {
        if photos(kept[i].id).None? {
          assert answered[i].photoUrl[..|PhotoDataPrefix|][0] != PhotoDataPrefix[0];
        }
      }
    }
  }

  predicate StartsWith(s: string, prefix: string) {
    |prefix| <= |s| && s[..|prefix|] == prefix
  }

  // ---------------------------------------------------------------------------
  // Devices

  /** The user last logged on to a machine; a missing name is empty. */
  datatype LoggedOnUser = LoggedOnUser(aadUserId: string, userPrincipalName: string)

  /** A machine as the security platform returns it; missing strings are empty. */
  datatype Machine = Machine(
    id: string,
    computerDnsName: string,
    deviceName: string,
    osPlatform: string,
    healthStatus: HealthStatus,
    riskScore: string,
    lastSeen: string,
    lastLoggedOnUser: Option<LoggedOnUser>,
    machineTags: Option<seq<string>>)

  /** The page size of the machine listing. */
  const Top: nat := 1000

  function IsShortPage(): seq<Machine> -> bool {
    (p: seq<Machine>) => |p| < Top
  }

  /** Every machine of the pages read: all pages up to and including the first
      one shorter than `Top` (an empty page adds nothing); `None` when the
      responses run out before such a page. */
  function AllMachines(pages: seq<seq<Machine>>): Option<seq<Machine>> {
    match FindIndex(pages, IsShortPage())
    case None => None
    case Some(j) => Some(Flatten(pages[..j + 1]))
  }

  /** `aadUserId || userPrincipalName || 'unknown'` */
  function ProjectedUserId(m: Machine): string {
    match m.lastLoggedOnUser
    case None => UnknownOwner
    case Some(l) =>
      if l.aadUserId != "" then l.aadUserId
      else if l.userPrincipalName != "" then l.userPrincipalName
      else UnknownOwner
  }

  function ProjectedRisk(riskScore: string): RiskLevel {
    if riskScore == "High" then High else if riskScore == "Medium" then Medium else Low
  }

  /** The device record built from a machine; tags are not carried over. */
  function Project(m: Machine): Device {
    Device(m.id, ProjectedUserId(m),
           if m.computerDnsName != "" then m.computerDnsName else m.deviceName,
           m.osPlatform, m.healthStatus, ProjectedRisk(m.riskScore), m.lastSeen, None)
  }

  /** What `/api/devices` answers: `None` for the error response. */
  function DevicesResponse(pages: seq<seq<Machine>>): Option<seq<Device>> {
    match AllMachines(pages)
    case None => None
    case Some(all) => Some(seq(|all|, i requires 0 <= i < |all| => Project(all[i])))
  }

  /** The `/api/devices` handler: request pages of `Top` at offset `skip`,
      stopping at an empty page or after a short one, then project. The
      response to the request at offset `skip` is `pages[skip / Top]`. */
  method GetDevices(pages: seq<seq<Machine>>) returns (r: Option<seq<Device>>)
    ensures r == DevicesResponse(pages)
  {
    var allDevices: seq<Machine> := [];
    var skip := 0;
    ghost var k: nat := 0;  // requests made so far
    ghost var stopAt: nat := 0;
    while true
      invariant skip == Top * k && k <= |pages|
      invariant allDevices == Flatten(pages[..k])
      invariant forall j :: 0 <= j < k ==> |pages[j]| >= Top
      decreases |pages| - k
    {
      assert skip / Top == k;
      if skip / Top == |pages| {
        return None;  // the request fails
      }
      var value := pages[skip / Top];
      assert pages[..k + 1][..k] == pages[..k];
      if |value| == 0 {
        stopAt := k;
        break;
      }
      allDevices := allDevices + value;
      skip := skip + Top;
      k := k + 1;
      if |value| < Top {
        stopAt := k - 1;
        break;
      }
    }
    assert FindIndex(pages, IsShortPage()) == Some(stopAt);
    assert allDevices == Flatten(pages[..stopAt + 1]);
    r := Some(seq(|allDevices|, i requires 0 <= i < |allDevices| => Project(allDevices[i])));
  }

  /** The listing stops at the first page shorter than `Top`: every earlier
      page was full, the machines are those of the pages up to it in order,
      and there are at least `Top` per full page. With no short page among
      the responses, the endpoint fails. */
  lemma MachinesPagination(pages: seq<seq<Machine>>)
    ensures AllMachines(pages).Some? <==> exists j :: 0 <= j < |pages| && |pages[j]| < Top
    ensures AllMachines(pages).Some? ==>
              exists j :: 0 <= j < |pages|
                && |pages[j]| < Top
                && (forall i :: 0 <= i < j ==> |pages[i]| >= Top)
                && AllMachines(pages).value == Flatten(pages[..j + 1])
                && |AllMachines(pages).value| >= Top * j + |pages[j]|
  {
    if AllMachines(pages).None? {
      forall j | 0 <= j < |pages| ensures |pages[j]| >= Top {
        assert !IsShortPage()(pages[j]);
      }
    } else {
      var j := FindIndex(pages, IsShortPage()).value;
      forall i | 0 <= i < j ensures |pages[i]| >= Top {
        assert !IsShortPage()(pages[i]);
      }
      assert IsShortPage()(pages[j]);
      var before := pages[..j];
      assert forall i :: 0 <= i < |before| ==> |before[i]| >= Top;
      FlattenLengthAtLeast(before, Top);
      assert pages[..j + 1][..j] == before;
    }
  }

  /** A projected device has a risk of High, Medium or Low, never Unknown
      (any other score is Low); an owner id that is never empty, falling back
      from the directory id to the principal name to `'unknown'`; the DNS name
      when there is one; no tags; and the machine's id, OS platform, health
      status and last-seen time passed through unchanged. */
  lemma ProjectedDeviceShape(m: Machine)
    ensures var d := Project(m);
      && d.riskLevel != Unknown
      && (d.riskLevel == High <==> m.riskScore == "High")
      && (d.riskLevel == Medium <==> m.riskScore == "Medium")
      && d.userId != ""
      && (m.lastLoggedOnUser.None? ==> d.userId == UnknownOwner)
      && (m.lastLoggedOnUser.Some? ==>
            var l := m.lastLoggedOnUser.value;
            && (l.aadUserId != "" ==> d.userId == l.aadUserId)
            && (l.aadUserId == "" && l.userPrincipalName != "" ==> d.userId == l.userPrincipalName)
            && (l.aadUserId == "" && l.userPrincipalName == "" ==> d.userId == UnknownOwner))
      && d.machineTags.None?
      && d.id == m.id && d.os == m.osPlatform && d.healthStatus == m.healthStatus && d.lastSeen == m.lastSeen
      && (m.computerDnsName != "" ==> d.deviceName == m.computerDnsName)
      && (m.computerDnsName == "" ==> d.deviceName == m.deviceName)
  {
  }

  /** Devices served by this backend never reach the tag strategy: their
      owner is the direct match on the projected owner id, or none. */
  lemma ProjectedDevicesResolveDirectly(users: seq<User>, m: Machine)
    ensures DeviceUserMapping.OwnerOf(users, Project(m)) == DeviceUserMapping.DirectMatch(users, Project(m))
  {
    assert DeviceUserMapping.Tags(Project(m)) == [];
  }
}
