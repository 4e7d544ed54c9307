/** The user list: one card per user with the devices naming that user as
    owner, followed by a synthetic card that collects the unassigned devices. */
module UserList {

  import opened Wrappers
  import opened Types
  import opened Text
  import opened Seqs
  import DeviceUserMapping

  /** A device without an owner: the `'unknown'` sentinel or a falsy id. */
  predicate IsUnassigned(d: Device) {
    d.userId == UnknownOwner || d.userId == ""
  }

  function Assigned(): Device -> bool {
    (d: Device) => d.userId != UnknownOwner && d.userId != ""
  }

  function OwnedBy(id: string): Device -> bool {
    (d: Device) => d.userId == id
  }

  function UnassignedDevices(devices: seq<Device>): seq<Device> {
    Filter(devices, IsUnassigned)
  }

  function AssignedDevices(devices: seq<Device>): seq<Device> {
    Filter(devices, Assigned())
  }

  /** The devices a user's card receives. */
  function DevicesOf(devices: seq<Device>, id: string): seq<Device> {
    Filter(devices, OwnedBy(id))
  }

  /** A rendered card: the user it shows and the devices it lists. */
  datatype Card = Card(user: User, devices: seq<Device>)

  /** What the list renders: loading placeholders, the empty notice, or cards. */
  datatype ListView =
    | Skeleton(placeholders: nat)
    | NoUsersFound
    | Cards(cards: seq<Card>)

  /** The synthetic user heading the unassigned bucket. */
  function BucketUser(unassignedCount: nat, assignedCount: nat): User {
    User("unassigned", "Unassigned Devices",
         Decimal(unassignedCount) + " devices (" + Decimal(assignedCount) + " assigned via tags)",
         "System", "IT", Viewer, Some("https://i.pravatar.cc/150?u=system"))
  }

  function Render(users: seq<User>, devices: seq<Device>, loading: bool): (v: ListView)
    ensures v.Cards? <==> !loading && |users| > 0
    ensures loading ==> v == Skeleton(5)
  {
    if loading then Skeleton(5)
    else if |users| == 0 then NoUsersFound
    else
      var unassigned := UnassignedDevices(devices);
      var assignedDevices := AssignedDevices(devices);
      var userCards := seq(|users|, i requires 0 <= i < |users| => Card(users[i], DevicesOf(devices, users[i].id)));
      Cards(userCards + if |unassigned| > 0 then [Card(BucketUser(|unassigned|, |assignedDevices|), unassigned)] else [])
  }

  /** Assigned and unassigned devices split the devices: no device is in both,
      and together they hold every device as often as it occurs. */
  lemma AssignedUnassignedPartition(devices: seq<Device>)
    ensures multiset(UnassignedDevices(devices)) + multiset(AssignedDevices(devices)) == multiset(devices)
    ensures |UnassignedDevices(devices)| + |AssignedDevices(devices)| == |devices|
    ensures forall d :: d in UnassignedDevices(devices) <==> d in devices && IsUnassigned(d)
    ensures forall d :: !(d in UnassignedDevices(devices) && d in AssignedDevices(devices))
  {
    FilterPartition(devices, IsUnassigned, Assigned());
  }

  /** A card lists, in input order, exactly the devices whose owner id is the
      user's id. */
  lemma DevicesOfSelects(devices: seq<Device>, id: string)
    ensures exists idx :: Embeds(idx, DevicesOf(devices, id), devices)
              && forall i :: 0 <= i < |devices| ==> (i in idx <==> devices[i].userId == id)
  {
    FilterSelects(devices, OwnedBy(id));
    var idx :| Embeds(idx, Filter(devices, OwnedBy(id)), devices)
               && forall i :: 0 <= i < |devices| ==> (i in idx <==> OwnedBy(id)(devices[i]));
    assert DevicesOf(devices, id) == Filter(devices, OwnedBy(id));
    forall i | 0 <= i < |devices|
      ensures i in idx <==> devices[i].userId == id
    {
      assert OwnedBy(id)(devices[i]) == (devices[i].userId == id);
    }
  }

  /** With users to show, card `i` is user `i` with its devices, and the
      bucket follows exactly when some device is unassigned; its label counts
      the unassigned devices and all the others. */
  lemma CardsLayout(users: seq<User>, devices: seq<Device>)
    requires |users| > 0
    ensures var cards := Render(users, devices, false).cards;
            var unassigned := UnassignedDevices(devices);
            && |cards| == |users| + (if |unassigned| > 0 then 1 else 0)
            && (forall i :: 0 <= i < |users| ==> cards[i] == Card(users[i], DevicesOf(devices, users[i].id)))
            && (|unassigned| > 0 ==>
                  cards[|users|] == Card(BucketUser(|unassigned|, |devices| - |unassigned|), unassigned))
  {
    AssignedUnassignedPartition(devices);
  }

  /** Nothing is listed while loading or when there are no users. */
  lemma NoCardsWhileLoadingOrEmpty(users: seq<User>, devices: seq<Device>, loading: bool)
    requires loading || users == []
    ensures !Render(users, devices, loading).Cards?
    ensures loading ==> Render(users, devices, loading) == Skeleton(5)
    ensures !loading ==> Render(users, devices, loading) == NoUsersFound
  {
  }

  /** The bucket label reads back as its two counts: the unassigned count
      leads it, and the assigned count follows " devices (". */
  lemma BucketLabelCounts(unassignedCount: nat, assignedCount: nat)
    ensures var caption := BucketUser(unassignedCount, assignedCount).mail;
            var n := |Decimal(unassignedCount)|;
            var m := n + |" devices ("|;
            var k := |Decimal(assignedCount)|;
            && m + k < |caption|
            && ParseDecimal(caption[..n]) == unassignedCount
            && caption[n..m] == " devices ("
            && ParseDecimal(caption[m..m + k]) == assignedCount
  {
    var caption := BucketUser(unassignedCount, assignedCount).mail;
    var n := |Decimal(unassignedCount)|;
    var m := n + |" devices ("|;
    var k := |Decimal(assignedCount)|;
    assert caption[..n] == Decimal(unassignedCount);
    assert caption[m..m + k] == Decimal(assignedCount);
    DecimalRoundTrip(unassignedCount);
    DecimalRoundTrip(assignedCount);
  }

  /** Were the cards grouped by the reconciled records, a device resolved to a
      user with a non-empty id would be listed on that user's card. */
  lemma ReconciledDeviceGroupsUnderOwner(users: seq<User>, devices: seq<Device>, k: nat)
    requires k < |devices|
    requires DeviceUserMapping.OwnerOf(users, devices[k]).Some?
    requires DeviceUserMapping.OwnerOf(users, devices[k]).value.id != ""
    ensures var out := DeviceUserMapping.MapDevicesToUsers(users, devices);
            var mapped := seq(|out|, i requires 0 <= i < |out| => out[i].device);
            mapped[k] in DevicesOf(mapped, DeviceUserMapping.OwnerOf(users, devices[k]).value.id)
  {
    DeviceUserMapping.MappedRecord(users, devices, k);
  }
}
