# Security dashboard: device-to-user reconciliation, in Dafny

This project models the core of a security operations dashboard. The dashboard
joins directory users (from Microsoft Graph) with endpoint devices (from
Microsoft Defender for Endpoint). Its central operation is `mapDevicesToUsers`.
For each device it resolves the user who owns it, in two steps:

1. The device's owner hint (`userId`) is looked up by exact id, unless it is
   empty or the `'unknown'` sentinel.
2. Otherwise, the machine tags are scanned in order. The model takes the first
   email-shaped substring of each tag, lower-cases it, and compares it with each
   user's lower-cased mail. The first tag that yields a user stops the scan.

The device is then re-labelled with the owner's id when that id is non-empty.

Around that core, the model covers what the dashboard computes from users and
devices:

- the user search with its risk-level filter;
- the at-risk count;
- the administrator gating of export and refresh;
- the per-user device cards and the synthetic "Unassigned Devices" bucket;
- the CSV report;
- the device page's filters and OS choices;
- the risk-colour chip;
- the risk and OS chart tallies;
- the avatar's initials, colour and photo choice.

It also covers the two backend endpoints:

- users: follows `@odata.nextLink` pages, keeps users holding a target licence,
  and adds a role and a photo URL;
- devices: reads `$top`/`$skip` pages and projects each machine onto the
  dashboard's device record.

Layout:

- `wrappers.dfy`: `Option`.
- `seqs.dfy`: `filter`, `find`, page concatenation, and the order of a `Set`.
- `text.dfy`: ASCII case mapping, `includes`, `split`/`join`, decimal rendering.
- `types.dfy`: the records and enumerations.
- `email.dfy`: the tag email pattern.
- `mapping.dfy`: the reconciliation.
- `dashboard.dfy`, `userlist.dfy`, `export.dfy`, `devicespage.dfy`,
  `riskchart.dfy`, `oschart.dfy`, `avatar.dfy`: the components.
- `tally.dfy`: the counting `reduce` that both charts share.
- `server.dfy`: the backend.

Operations the source writes as loops are methods proved equal to a
specification function:

- `ResolveOwner` and `ScanTags`: the owner lookup and the tag loop that stops at the first match;
- `FilteredUsers`: the id set built by a loop;
- `GetUsers` and `GetDevices`: the pagination loops;
- `CountBy`, `RiskData` and `OsData`: the `reduce` into a counting object.

Lemmas then state what those functions guarantee.

## Model

| member | source | states |
|---|---|---|
| Seqs.Find | services/deviceUserMapping.ts:9 | `find` yields a member iff some element satisfies the predicate, and then the one at the first satisfying position |
| Seqs.FilterSelects | components/Dashboard.tsx:75 | `filter` keeps exactly the positions whose element satisfies the predicate, in their original order |
| Seqs.DistinctFirstOccurrences | components/DevicesPage.tsx:68 | spreading a `Set` gives the values in order of first occurrence, each taken where it has not occurred before |
| Text.SplitJoin | components/UserAvatar.tsx:15 | splitting a join on a separator that no part contains gives the parts back |
| Text.JoinSplit | components/UserAvatar.tsx:15 | joining the pieces of a split with the separator gives the string back |
| Text.DecimalRoundTrip | components/UserList.tsx:57 | the decimal text a count renders to reads back as that count |
| EmailPattern.MatchEnd | services/deviceUserMapping.ts:16 | a match the engine reports from a start position is a match of the pattern |
| EmailPattern.MatchEndCompleteAndLongest | services/deviceUserMapping.ts:16 | every match from a start is found there, and none is longer than the reported one (greedy runs with backtracking) |
| EmailPattern.FirstMatch | services/deviceUserMapping.ts:16 | a reported span is a non-empty match the engine finds from its start, inside the tag |
| EmailPattern.FirstMatchIsFirst | services/deviceUserMapping.ts:16 | no start before the reported one has a match; when nothing is reported, no start has one |
| EmailPattern.FirstMatchIsLeftmostLongest | services/deviceUserMapping.ts:16-17 | the extracted span is the leftmost match, and the longest from that start; nothing is extracted iff the tag holds no match at all |
| EmailPattern.ExtractedEmailShape | services/deviceUserMapping.ts:16-18 | an extracted email is a substring of the tag with exactly one `@`, ending in `.` and at least two letters |
| DeviceUserMapping.TagOwner | services/deviceUserMapping.ts:14-24 | an owner found through tags is one of the users |
| Seqs.FirstSomeIsFirst | services/deviceUserMapping.ts:14-24 | a scan that stops at the first element yielding a value returns what the earliest yielding element yields, and nothing iff no element yields anything |
| DeviceUserMapping.ScanTags | services/deviceUserMapping.ts:13-24 | the tag loop (extract, lower-case, look up by mail, stop at the first user found) returns the tag owner |
| DeviceUserMapping.ResolveOwner | services/deviceUserMapping.ts:5-25 | the direct lookup, then the tag loop only when it found nobody, resolves the owner that the two strategies define, direct first |
| DeviceUserMapping.MapDevicesToUsers | services/deviceUserMapping.ts:3-32 | one record per device, in order; every device field except `userId` is kept; the matched user is the resolved owner |
| DeviceUserMapping.DirectMatchWins | services/deviceUserMapping.ts:8-13 | a hint naming an existing user resolves to the first user with that id, whatever the tags say |
| DeviceUserMapping.TagsDecideWithoutDirectMatch | services/deviceUserMapping.ts:8-13 | with no usable hint or no user with that id, the tags alone decide; absent or empty tags leave the device unresolved |
| DeviceUserMapping.TagMatchIsFirstUserWithMail | services/deviceUserMapping.ts:16-21 | a tag yields a user iff it holds an email and some user's lower-cased mail equals it; then the first such user |
| DeviceUserMapping.TagOwnerIsFirstYieldingTag | services/deviceUserMapping.ts:14-24 | the tag owner is what the earliest yielding tag yields; there is none iff no tag yields a user |
| DeviceUserMapping.MappedRecord | services/deviceUserMapping.ts:27-31 | an unresolved device is returned unchanged; a resolved one takes the owner's id when it is non-empty and keeps its hint when it is empty; a direct match changes nothing |
| DeviceUserMapping.RemapIsStable | services/deviceUserMapping.ts:8-30 | with unique user ids, reconciling a reconciled device changes neither the device nor its owner |
| DeviceUserMapping.ReconcileIsStable | services/deviceUserMapping.ts:3-32 | with unique user ids, reconciling the reconciled devices again gives the same records |
| DeviceUserMapping.SampleTagEmail | services/deviceUserMapping.ts:16 | the pattern extracts a whole mixed-case address from a tag |
| DeviceUserMapping.TagResolvesSentinelHint | services/deviceUserMapping.ts:8-31 | a device with the `'unknown'` hint and a tag naming a user's mail in another case is re-labelled with that user's id |
| Dashboard.OnlyAdminsExportOrRefresh | components/Dashboard.tsx:150-159 | only administrators may export or refresh; an administrator may refresh iff nothing is loading |
| Dashboard.FilteredUsers | components/Dashboard.tsx:63-85 | the id set built by the loop and the filter over it show exactly the users the search and risk filter select |
| Dashboard.UsersShownSelects | components/Dashboard.tsx:75-84 | a user is shown iff the search term is in their lower-cased name or mail and, for a chosen level, they own a device at that level; order is kept |
| Dashboard.EmptySearchShowsAll | components/Dashboard.tsx:76-80 | an empty search with all levels shows every user |
| Dashboard.DevicesAtRiskCount | components/Dashboard.tsx:87-89 | the at-risk count is the High count plus the Medium count; with Low and Unknown it accounts for every device |
| UserList.Render | components/UserList.tsx:12-67 | cards are shown iff nothing is loading and there are users; loading shows five placeholders |
| UserList.AssignedUnassignedPartition | components/UserList.tsx:39-40 | unassigned and assigned devices split the device list with nothing shared or lost |
| UserList.DevicesOfSelects | components/UserList.tsx:48 | a user's card lists exactly the devices whose `userId` is that user's id, in order |
| UserList.CardsLayout | components/UserList.tsx:44-65 | one card per user, in order, then the bucket card iff some device is unassigned, labelled with the unassigned count and the rest |
| UserList.NoCardsWhileLoadingOrEmpty | components/UserList.tsx:12-37 | while loading, placeholders; with no users, the empty notice |
| UserList.BucketLabelCounts | components/UserList.tsx:57 | the bucket label reads back as the unassigned count and the assigned count |
| UserList.ReconciledDeviceGroupsUnderOwner | components/UserList.tsx:48 | a reconciled device with a resolved owner whose id is non-empty appears on that owner's card |
| CsvExport.UserMap | utils/export.ts:16 | the map has a key iff some user has that id |
| CsvExport.UserMapHoldsLast | utils/export.ts:16 | for a repeated id the map holds the last user with it |
| CsvExport.DropNullsAllPresent | utils/export.ts:36 | dropping nulls from rows that are all present keeps them all, in order |
| CsvExport.ExportedSelects | utils/export.ts:18-19 | a device gets a row iff its `userId` is some user's id; order is kept |
| CsvExport.RowsOfExported | utils/export.ts:18-36 | the rows are one per exported device, each built from the mapped user and the device |
| CsvExport.RowSplitsIntoFields | utils/export.ts:24-34 | a row of comma-free fields splits back into its nine fields, one per header |
| CsvExport.ContentSplitsIntoLines | utils/export.ts:38-41 | when no user or device field holds a newline (commas are allowed) the report splits into the header line and one line per exported device |
| ServerImproved.GetUsers | backend/server-improved.js:44-90 | the `nextLink` loop, licence filter and enrichment answer what the users endpoint specifies, or the error response when pages run out |
| ServerImproved.UsersPagination | backend/server-improved.js:44-56 | users are read iff some page has no truthy next link; they are the pages up to the first such page, concatenated |
| ServerImproved.LicensedUsersSelects | backend/server-improved.js:59-69 | a user is kept iff it has a non-empty licence list holding one of the four target SKUs; order is kept |
| ServerImproved.AnsweredUsersAreViewersWithPhoto | backend/server-improved.js:72-90 | each kept user is answered as a Viewer with its profile; the photo URL is a data URL iff the photo was fetched, and then exactly the data prefix followed by the fetched base64; otherwise the fallback keyed by mail |
| ServerImproved.GetDevices | backend/server-improved.js:110-137 | the `$skip` loop and projection answer what the devices endpoint specifies |
| ServerImproved.MachinesPagination | backend/server-improved.js:110-127 | machines are read iff some page is shorter than 1000; they are the full pages before it plus that page |
| ServerImproved.ProjectedDeviceShape | backend/server-improved.js:129-137 | owner hint from the logged-on user or `'unknown'`, never empty; High and Medium kept, anything else Low; DNS name preferred; no tags; id, OS platform, health status and last-seen passed through |
| ServerImproved.ProjectedDevicesResolveDirectly | backend/server-improved.js:129-137 | devices from the backend carry no tags, so only the direct lookup can resolve them |
| DevicesPage.FilteredDevicesSelect | components/DevicesPage.tsx:57-66 | a device is listed iff the search term is in its name or OS and it passes the OS and risk selectors; order is kept |
| DevicesPage.AllSelectorsOnlySearch | components/DevicesPage.tsx:59-64 | with both selectors on "All" only the search filters, and an empty search lists every device |
| DevicesPage.UniqueOSChoices | components/DevicesPage.tsx:68 | the OS choices are exactly the non-empty OS names, without repeats, in order of first occurrence |
| DevicesPage.RiskChipTones | components/DevicesPage.tsx:8-15 | High is red, Medium yellow, Low green, and every other value gray; the chip classes are the gray ones exactly for Unknown |
| Tally.CountBy | components/RiskOverviewChart.tsx:18-26 | the counting loop yields one entry per distinct key, in order of first occurrence, with its number of items |
| Tally.TalliedCounts | components/RiskOverviewChart.tsx:18-21 | each entry counts the items with its key, and that count is positive; names are distinct and are exactly the occurring keys |
| Tally.TalliedOrder | components/RiskOverviewChart.tsx:23-26 | the entries follow the order in which keys first occur |
| Tally.TalliedTotal | components/DeviceOSChart.tsx:11-14 | the counts add up to the number of items |
| Tally.CountIsFilterLength | components/DeviceOSChart.tsx:11-14 | the count of a key equals the number of items a filter on that key keeps |
| RiskOverviewChart.RiskData | components/RiskOverviewChart.tsx:17-27 | the reduce and entries give the slices of the tally |
| RiskOverviewChart.SlicesTotal | components/RiskOverviewChart.tsx:18-26 | the slice values add up to the number of devices |
| RiskOverviewChart.SliceValues | components/RiskOverviewChart.tsx:18-21 | each slice's value is the number of devices at its level, and is positive |
| RiskOverviewChart.SliceLevels | components/RiskOverviewChart.tsx:18-26 | there is a slice for a level iff some device has it, and no level has two slices |
| RiskOverviewChart.SlicesInFirstOccurrenceOrder | components/RiskOverviewChart.tsx:23-26 | slices follow the order in which levels first occur among the devices |
| DeviceOSChart.OsData | components/DeviceOSChart.tsx:10-20 | the reduce and entries give the bars of the tally |
| DeviceOSChart.BarsTotal | components/DeviceOSChart.tsx:11-19 | the bar counts add up to the number of devices |
| DeviceOSChart.BarCounts | components/DeviceOSChart.tsx:11-14 | each bar's count is the number of devices with its OS, and is positive |
| DeviceOSChart.BarNames | components/DeviceOSChart.tsx:11-19 | there is a bar for an OS iff some device runs it, and no OS has two bars |
| DeviceOSChart.BarsInFirstOccurrenceOrder | components/DeviceOSChart.tsx:16-19 | bars follow the order in which OS names first occur among the devices |
| UserAvatar.InitialsShape | components/UserAvatar.tsx:13-19 | at most two initials, none lower-case |
| UserAvatar.InitialsOfWords | components/UserAvatar.tsx:13-19 | for single-spaced non-empty words, the initials are the first letters of the first two words, upper-cased |
| UserAvatar.LeadingSpaceDropsAnInitial | components/UserAvatar.tsx:14-17 | a leading space produces an empty first piece, so only one initial remains |
| UserAvatar.BackgroundColor | components/UserAvatar.tsx:27-34 | a colour is picked exactly for a non-empty name, and only from the eight listed classes |
| UserAvatar.ColorByFirstCharacter | components/UserAvatar.tsx:27-34 | the colour is `Colors[code of the first character mod 8]`, so it depends only on the first character; an empty name yields none |
| UserAvatar.AvatarChoice | components/UserAvatar.tsx:36-52 | the photo is shown iff the photo URL is truthy, with that URL as its source; otherwise the badge shows `Initials(displayName)` (at most two) in `BackgroundColor(displayName)`, coloured iff the name is non-empty |
| UserAvatar.BackendUsersShowPhoto | components/UserAvatar.tsx:36-44 | every user answered by the backend has a photo URL, so its avatar is the photo |

## Left out

- Rendering (React, JSX, CSS classes other than the risk chip and avatar colour strings) is not modelled; a component's output is the data it renders.
- HTTP, authentication tokens and the remote services are parameters. Graph and Defender responses are sequences of pages. A photo request is a function from user id to an optional base64 photo. Running out of pages stands for a failed request, which the endpoints answer with an error response.
- The base64 encoding of a fetched photo is taken as given (the photo function returns it already encoded).
- Concurrency (`Promise.all`, React effects) is not modelled; the enrichment is a map in user order, which is what `Promise.all` returns.
- Logging and console output are left out.
- `CsvExport.Rows`: the date-to-ISO conversion is a parameter; an invalid date, which would throw, is not modelled.
- The CSV download (Blob, object URL, anchor click) is left out.
- Case mapping is ASCII-only; `toLowerCase`/`toUpperCase` of other characters is taken as the identity.
- A `null`, `undefined` or empty string field of a user or device is the empty string. Two visible effects follow. The dashboard search calls `toLowerCase` on both `displayName` and `mail`, which would throw when either is null; the model's fields are always strings. The OS chart would show a bar named `"undefined"` for a device without `os` (the key `acc[undefined]`), where the model's bar is named `""`.
- The health status delivered by the device service is assumed to be one of the enumerated values.
- The backend answers each user with all directory fields spread into it, including `assignedLicenses`; the model keeps the whole directory record as the answered user's profile.
- `DeviceOSChart.Bars`: `Object.entries` lists integer-like keys first in numeric order; the model keeps first-occurrence order, which is what JavaScript gives for OS names that are not array indices.
- `DeviceOSChart.OsData`: the source counts into a plain object `{}`, so an OS name that is an inherited property name behaves differently. `__proto__` produces no bar, and its devices are missing from the total. `constructor`, `toString`, `valueOf` and the like start from the inherited function, so their count becomes a string such as `"function Object() { [native code] }1"`. The model counts every OS name as an ordinary key, and `DeviceOSChart.BarsTotal` holds only for OS names that are not `Object.prototype` property names.
- `UserList.BucketUser`: the label's "assigned via tags" figure counts every assigned device, not only those resolved through tags; the model renders it as the source does. The bucket photo URL is a constant.
- None of the shown components calls `mapDevicesToUsers`, and the backend's devices carry no machine tags (`ServerImproved.ProjectedDevicesResolveDirectly`); the reconciliation is modelled on its own terms.
- `UserAvatar.Initial`: `charAt(0)` of a part starting with a character outside the basic multilingual plane (an emoji, say) is a lone UTF-16 high surrogate, which the model cannot represent; the model's initial is the whole character, upper-cased.
- `UserAvatar.FirstCodeUnit`: `charCodeAt(0)` of a character outside the basic multilingual plane is its UTF-16 high surrogate; strings are sequences of Unicode scalar values, so a lone surrogate is not representable.
