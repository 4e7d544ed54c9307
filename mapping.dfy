/** Device-to-user reconciliation (`mapDevicesToUsers`): every device gets the
    user who owns it, found first by the device's owner hint and otherwise by
    an email address written in one of its machine tags. */
module DeviceUserMapping {

  import opened Wrappers
  import opened Types
  import opened Text
  import opened Seqs
  import EmailPattern

  /** The device carries an owner hint worth looking up: non-empty and not the
      `'unknown'` sentinel. */
  predicate HasOwnerHint(d: Device) {
    d.userId != "" && d.userId != UnknownOwner
  }

  function IdIs(id: string): User -> bool {
    (u: User) => u.id == id
  }

  function MailIs(email: string): User -> bool {
    (u: User) => LowerStr(u.mail) == email
  }

  /** Strategy 1: the first user whose id equals the hint exactly. */
  function DirectMatch(users: seq<User>, d: Device): Option<User> {
    if HasOwnerHint(d) then Find(users, IdIs(d.userId)) else None
  }

  /** The lower-cased first email-shaped substring of a tag. */
  function TagEmail(tag: string): Option<string> {
    match EmailPattern.FirstEmail(tag)
    case None => None
    case Some(m) => Some(LowerStr(m))
  }

  /** What one tag yields: the first user whose lower-cased mail equals the
      tag's email, if the tag has one. */
  function TagMatch(users: seq<User>, tag: string): Option<User> {
    match TagEmail(tag)
    case None => None
    case Some(email) => Find(users, MailIs(email))
  }

  function TagMatcher(users: seq<User>): string -> Option<User> {
    (tag: string) => TagMatch(users, tag)
  }

  /** Strategy 2: the user yielded by the earliest tag that yields one. */
  function TagOwner(users: seq<User>, tags: seq<string>): (r: Option<User>)
    ensures r.Some? ==> r.value in users
  {
    FirstSome(tags, TagMatcher(users))
  }

  /** The tags of a device; absent tags scan like no tags. */
  function Tags(d: Device): seq<string> {
    d.machineTags.GetOr([])
  }

  /** The owner the two strategies resolve, the direct match first. */
  function OwnerOf(users: seq<User>, d: Device): Option<User> {
    var direct := DirectMatch(users, d);
    if direct.Some? then direct else TagOwner(users, Tags(d))
  }

  /** The owner selection as the source performs it: `matchedUser` is set by
      the direct lookup, then, when that finds nobody, by the tag scan. */
  method ResolveOwner(users: seq<User>, device: Device) returns (matchedUser: Option<User>)
    ensures matchedUser == OwnerOf(users, device)
  {
    matchedUser := None;
    if device.userId != "" && device.userId != UnknownOwner {
      matchedUser := Find(users, IdIs(device.userId));
    }
    if matchedUser.None? && device.machineTags.Some? && |device.machineTags.value| > 0 {
      matchedUser := ScanTags(users, device.machineTags.value);
    }
  }

  /** The tag loop: each tag's email, if it has one, is lower-cased and looked
      up by mail; the first tag whose lookup finds a user ends the loop. */
  method ScanTags(users: seq<User>, tags: seq<string>) returns (matchedUser: Option<User>)
    ensures matchedUser == TagOwner(users, tags)
  {
    matchedUser := None;
    var i := 0;
    while i < |tags|
      invariant 0 <= i <= |tags|
      invariant matchedUser.None?
      invariant TagOwner(users, tags[i..]) == TagOwner(users, tags)
    {
      TagOwnerStep(users, tags, i);
      var emailMatch := EmailPattern.FirstEmail(tags[i]);
      if emailMatch.Some? {
        var tagEmail := LowerStr(emailMatch.value);
        matchedUser := Find(users, MailIs(tagEmail));
        if matchedUser.Some? {
          return;
        }
      }
      i := i + 1;
    }
    assert tags[|tags|..] == [];
  }

  /** One step of the tag scan: the tag at `i` decides if it yields a user,
      and otherwise the scan goes on with the next tag. */
  lemma TagOwnerStep(users: seq<User>, tags: seq<string>, i: nat)
    requires i < |tags|
    ensures TagOwner(users, tags[i..]) ==
              if TagMatch(users, tags[i]).Some? then TagMatch(users, tags[i]) else TagOwner(users, tags[i + 1..])
  {
    assert tags[i..][0] == tags[i] && tags[i..][1..] == tags[i + 1..];
    assert TagMatcher(users)(tags[i]) == TagMatch(users, tags[i]);
  }

  /** A device with its resolved owner; `device.userId` is replaced by the
      owner's id when there is an owner with a non-empty id. */
  datatype MappedDevice = MappedDevice(device: Device, matchedUser: Option<User>)

  /** `matchedUser?.id || device.userId` */
  function ResultUserId(matched: Option<User>, d: Device): string {
    if matched.Some? && matched.value.id != "" then matched.value.id else d.userId
  }

  function MapDevice(users: seq<User>, d: Device): MappedDevice {
    var owner := OwnerOf(users, d);
    MappedDevice(d.(userId := ResultUserId(owner, d)), owner)
  }

  /** One output record per device, in device order, each keeping every field
      of its device except possibly `userId`. */
  function MapDevicesToUsers(users: seq<User>, devices: seq<Device>): (r: seq<MappedDevice>)
    ensures |r| == |devices|
    ensures forall i :: 0 <= i < |r| ==> r[i].device.(userId := devices[i].userId) == devices[i]
    ensures forall i :: 0 <= i < |r| ==> r[i].matchedUser == OwnerOf(users, devices[i])
  {
    seq(|devices|, i requires 0 <= i < |devices| => MapDevice(users, devices[i]))
  }

  // ---------------------------------------------------------------------------
  // Properties of the matching policy

  /** A device whose hint names an existing user resolves to the first user
      with that id, whatever its tags say. */
  lemma DirectMatchWins(users: seq<User>, d: Device, tags: Option<seq<string>>)
    requires HasOwnerHint(d)
    requires exists u :: u in users && u.id == d.userId
    ensures exists i :: 0 <= i < |users| && OwnerOf(users, d) == Some(users[i])
                        && users[i].id == d.userId
                        && forall j :: 0 <= j < i ==> users[j].id != d.userId
    ensures OwnerOf(users, d.(machineTags := tags)) == OwnerOf(users, d)
  {
    assert exists u :: u in users && IdIs(d.userId)(u);
  }

  /** Without a usable hint match, the owner is what the tags yield; with no
      tags at all, the device stays unresolved. */
  lemma TagsDecideWithoutDirectMatch(users: seq<User>, d: Device)
    requires !HasOwnerHint(d) || forall u :: u in users ==> u.id != d.userId
    ensures OwnerOf(users, d) == TagOwner(users, Tags(d))
    ensures d.machineTags.None? || d.machineTags.value == [] ==> OwnerOf(users, d).None?
  {
    if HasOwnerHint(d) {
      assert forall u :: u in users ==> !IdIs(d.userId)(u);
    }
  }

  /** A tag yields a user exactly when it has an email-shaped substring and
      some user's lower-cased mail equals that substring lower-cased; the user
      yielded is the first such user. */
  lemma TagMatchIsFirstUserWithMail(users: seq<User>, tag: string)
    ensures TagMatch(users, tag).Some? <==>
              EmailPattern.FirstEmail(tag).Some?
              && exists u :: u in users && LowerStr(u.mail) == LowerStr(EmailPattern.FirstEmail(tag).value)
    ensures TagMatch(users, tag).Some? ==>
              var email := LowerStr(EmailPattern.FirstEmail(tag).value);
              exists i :: 0 <= i < |users| && TagMatch(users, tag) == Some(users[i])
                          && LowerStr(users[i].mail) == email
                          && forall j :: 0 <= j < i ==> LowerStr(users[j].mail) != email
  {
    if EmailPattern.FirstEmail(tag).Some? {
      var email := LowerStr(EmailPattern.FirstEmail(tag).value);
      assert (exists u :: u in users && LowerStr(u.mail) == email) <==>
             (exists u :: u in users && MailIs(email)(u));
    }
  }

  /** Tag `j` is the earliest tag that yields a user. */
  ghost predicate FirstYieldingTag(users: seq<User>, tags: seq<string>, j: int) {
    && 0 <= j < |tags|
    && TagMatch(users, tags[j]).Some?
    && forall i :: 0 <= i < j ==> TagMatch(users, tags[i]).None?
  }

  /** Tags are scanned in order: skipped tags yield nothing, and the owner is
      what the earliest yielding tag yields; no owner means no tag yields one. */
  lemma TagOwnerIsFirstYieldingTag(users: seq<User>, tags: seq<string>)
    ensures forall j :: FirstYieldingTag(users, tags, j) ==> TagOwner(users, tags) == TagMatch(users, tags[j])
    ensures TagOwner(users, tags).None? <==> forall i :: 0 <= i < |tags| ==> TagMatch(users, tags[i]).None?
  {
    FirstSomeIsFirst(tags, TagMatcher(users));
    assert forall i :: 0 <= i < |tags| ==> TagMatcher(users)(tags[i]) == TagMatch(users, tags[i]);
  }

  /** What the output record says: an unresolved device comes out unchanged,
      its hint included; a device resolved to a user with a non-empty id comes
      out carrying that id, which for a direct match is the original hint; a
      device resolved to a user with an empty id keeps its hint. */
  lemma MappedRecord(users: seq<User>, devices: seq<Device>, i: nat)
    requires i < |devices|
    ensures var r := MapDevicesToUsers(users, devices)[i];
            && (r.matchedUser.None? ==> r.device == devices[i])
            && (r.matchedUser.Some? && r.matchedUser.value.id != "" ==> r.device.userId == r.matchedUser.value.id)
            && (r.matchedUser.Some? && r.matchedUser.value.id == "" ==> r.device == devices[i])
            && (DirectMatch(users, devices[i]).Some? ==> r.device == devices[i])
  {
    var d := devices[i];
    if DirectMatch(users, d).Some? {
      var u := DirectMatch(users, d).value;
      assert IdIs(d.userId)(u);
    }
  }

  /** Every user has a distinct id. */
  ghost predicate UniqueIds(users: seq<User>) {
    forall i, j :: 0 <= i < j < |users| ==> users[i].id != users[j].id
  }

  /** With distinct user ids, mapping a mapped device again changes nothing. */
  lemma RemapIsStable(users: seq<User>, d: Device)
    requires UniqueIds(users)
    ensures MapDevice(users, MapDevice(users, d).device) == MapDevice(users, d)
  {
    var owner := OwnerOf(users, d);
    var d' := MapDevice(users, d).device;
    if DirectMatch(users, d).Some? {
      // a direct match carries the hint as its id
      assert IdIs(d.userId)(DirectMatch(users, d).value);
    }
    if owner.Some? && owner.value.id != "" {
      var u := owner.value;
      assert Tags(d') == Tags(d);
      if u.id != UnknownOwner {
        assert u in users by {
          if DirectMatch(users, d).Some? {
            assert exists i :: 0 <= i < |users| && users[i] == u;
          }
        }
        var k :| 0 <= k < |users| && users[k] == u;
        assert IdIs(u.id)(users[k]);
        var f := FindIndex(users, IdIs(u.id)).value;
        assert users[f].id == u.id;
        assert f == k;
        assert DirectMatch(users, d') == Some(u);
      }
    }
  }

  /** With distinct user ids, reconciling the reconciled devices again gives
      the same records. */
  lemma ReconcileIsStable(users: seq<User>, devices: seq<Device>)
    requires UniqueIds(users)
    ensures var out := MapDevicesToUsers(users, devices);
            MapDevicesToUsers(users, seq(|out|, i requires 0 <= i < |out| => out[i].device)) == out
  {
    var out := MapDevicesToUsers(users, devices);
    var again := MapDevicesToUsers(users, seq(|out|, i requires 0 <= i < |out| => out[i].device));
    forall i | 0 <= i < |out|
      ensures again[i] == out[i]
    {
      RemapIsStable(users, devices[i]);
    }
  }

  /** The tag "A@B.cd" is itself an email. */
  lemma SampleTagEmail()
    ensures EmailPattern.FirstEmail("A@B.cd") == Some("A@B.cd")
  {
    var t := "A@B.cd";
    assert EmailPattern.RunEnd(t, 1, EmailPattern.LocalPart) == 1;
    assert EmailPattern.RunEnd(t, 0, EmailPattern.LocalPart) == 1;
    assert EmailPattern.RunEnd(t, 6, EmailPattern.DomainPart) == 6;
    assert EmailPattern.RunEnd(t, 5, EmailPattern.DomainPart) == 6;
    assert EmailPattern.RunEnd(t, 4, EmailPattern.DomainPart) == 6;
    assert EmailPattern.RunEnd(t, 3, EmailPattern.DomainPart) == 6;
    assert EmailPattern.RunEnd(t, 2, EmailPattern.DomainPart) == 6;
    assert EmailPattern.RunEnd(t, 6, EmailPattern.Letters) == 6;
    assert EmailPattern.RunEnd(t, 5, EmailPattern.Letters) == 6;
    assert EmailPattern.RunEnd(t, 4, EmailPattern.Letters) == 6;
    assert !EmailPattern.DotBeforeTld(t, 4) && !EmailPattern.DotBeforeTld(t, 5);
    assert EmailPattern.TldDot(t, 3, 6) == Some(3);
    assert EmailPattern.MatchEnd(t, 0) == Some(6);
    assert EmailPattern.FirstMatch(t, 0) == Some((0, 6));
    assert t[0..6] == t;
  }

  /** Lower-casing the sample tag gives the owner's address. */
  lemma SampleTagLowered()
    ensures LowerStr("A@B.cd") == "a@b.cd"
  {
    var l := LowerStr("A@B.cd");
    assert l[0] == 'a' && l[1] == '@' && l[2] == 'b';
    assert l[3] == '.' && l[4] == 'c' && l[5] == 'd';
  }

  /** A device whose hint is the sentinel and whose only tag holds its
      owner's address in other letter case is resolved through the tag and
      re-labelled with the owner's id. */
  lemma TagResolvesSentinelHint(owner: User, device: Device)
    requires LowerStr(owner.mail) == "a@b.cd" && owner.id != ""
    requires device.userId == UnknownOwner && device.machineTags == Some(["A@B.cd"])
    ensures MapDevicesToUsers([owner], [device]) == [MappedDevice(device.(userId := owner.id), Some(owner))]
  {
    SampleTagEmail();
    SampleTagLowered();
    assert TagMatch([owner], "A@B.cd") == Some(owner);
    assert ["A@B.cd"][1..] == [];
    assert TagOwner([owner], ["A@B.cd"]) == Some(owner);
    assert OwnerOf([owner], device) == Some(owner);
    var r := MapDevicesToUsers([owner], [device]);
    assert r[0] == MapDevice([owner], device);
  }
}
