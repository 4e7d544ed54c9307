/** The CSV report (`exportUsersToCsv`): a header line, then one line per
    device whose owner id names one of the exported users. The download of the
    text as a file is not part of this model. */
module CsvExport {

  import opened Wrappers
  import opened Types
  import opened Text
  import opened Seqs

  const Headers: seq<string> := [
    "User Display Name",
    "User Email",
    "User Job Title",
    "User Department",
    "Device Name",
    "Device OS",
    "Device Health Status",
    "Device Risk Level",
    "Device Last Seen"
  ]

  /** `new Map(users.map(u => [u.id, u]))`: a later user with the same id
      overwrites an earlier one. */
  function UserMap(users: seq<User>): (m: map<string, User>)
    ensures forall id :: id in m <==> exists i :: 0 <= i < |users| && users[i].id == id
  {
    if users == [] then map[]
    else
      var last := users[|users| - 1];
      UserMap(users[..|users| - 1])[last.id := last]
  }

  /** `users[i]` is the last user with id `id`. */
  ghost predicate LastWithId(users: seq<User>, i: int, id: string) {
    0 <= i < |users| && users[i].id == id && forall j :: i < j < |users| ==> users[j].id != id
  }

  /** The map holds, for each id, the last user with that id. */
  lemma {:induction false} UserMapHoldsLast(users: seq<User>, id: string)
    requires id in UserMap(users)
    ensures exists i :: LastWithId(users, i, id) && users[i] == UserMap(users)[id]
  {
    assert users != [];
    var n := |users|;
    var prefix, last := users[..n - 1], users[n - 1];
    var m := UserMap(prefix);
    assert UserMap(users) == m[last.id := last];
    if last.id == id {
      assert UserMap(users)[id] == last;
      assert LastWithId(users, n - 1, id);
    } else {
      assert id in m && UserMap(users)[id] == m[id];
      UserMapHoldsLast(prefix, id);
      var i :| LastWithId(prefix, i, id) && prefix[i] == UserMap(prefix)[id];
      LastWithIdExtends(prefix, last, i, id);
      assert users == prefix + [last];
      assert LastWithId(users, i, id) && users[i] == UserMap(users)[id];
    }
  }

  /** Appending a user with another id keeps the last user with `id`. */
  lemma LastWithIdExtends(prefix: seq<User>, last: User, i: int, id: string)
    requires LastWithId(prefix, i, id) && last.id != id
    ensures LastWithId(prefix + [last], i, id) && (prefix + [last])[i] == prefix[i]
  {
    var users := prefix + [last];
    forall j | i < j < |users| ensures users[j].id != id {
      if j < |prefix| { assert users[j] == prefix[j]; }
    }
  }

  function InMap(m: map<string, User>): Device -> bool {
    (d: Device) => d.userId in m
  }

  /** The nine fields of a row, in header order. */
  function RowFields(u: User, d: Device, iso: string -> string): seq<string> {
    [u.displayName, u.mail, u.jobTitle, u.department,
     d.deviceName, d.os, HealthName(d.healthStatus), RiskName(d.riskLevel), iso(d.lastSeen)]
  }

  /** A row: the fields joined by `,` with no quoting. */
  function Row(u: User, d: Device, iso: string -> string): string {
    Join(RowFields(u, d, iso), ",")
  }

  /** The row callback: `null` when the owner is not in the map. */
  function MaybeRow(m: map<string, User>, d: Device, iso: string -> string): Option<string> {
    if d.userId in m then Some(Row(m[d.userId], d, iso)) else None
  }

  /** `.filter(row => row !== null)` */
  function DropNulls(rows: seq<Option<string>>): seq<string> {
    if rows == [] then []
    else (if rows[0].Some? then [rows[0].value] else []) + DropNulls(rows[1..])
  }

  /** The devices that get a row. */
  function Exported(users: seq<User>, devices: seq<Device>): seq<Device> {
    Filter(devices, InMap(UserMap(users)))
  }

  /** The data rows as the source builds them: filter, map to row or null,
      drop the nulls. */
  function Rows(users: seq<User>, devices: seq<Device>, iso: string -> string): seq<string> {
    var m := UserMap(users);
    var kept := Filter(devices, InMap(m));
    DropNulls(seq(|kept|, i requires 0 <= i < |kept| => MaybeRow(m, kept[i], iso)))
  }

  /** The lines of the report: the header line, then the rows. */
  function Lines(users: seq<User>, devices: seq<Device>, iso: string -> string): seq<string> {
    [Join(Headers, ",")] + Rows(users, devices, iso)
  }

  /** `csvContent`: the lines joined by a newline, with none at the end. */
  function CsvContent(users: seq<User>, devices: seq<Device>, iso: string -> string): string {
    Join(Lines(users, devices, iso), "\n")
  }

  /** Dropping nulls keeps every present row, in order. */
  lemma {:induction false} DropNullsAllPresent(rows: seq<Option<string>>)
    requires forall i :: 0 <= i < |rows| ==> rows[i].Some?
    ensures |DropNulls(rows)| == |rows|
    ensures forall i :: 0 <= i < |rows| ==> DropNulls(rows)[i] == rows[i].value
  {
    if rows != [] {
      DropNullsAllPresent(rows[1..]);
    }
  }

  /** The null filter removes nothing: row `i` is the row of the `i`-th
      exported device with the user the map holds for its owner id. */
  lemma RowsOfExported(users: seq<User>, devices: seq<Device>, iso: string -> string)
    ensures var kept := Exported(users, devices);
            && |Rows(users, devices, iso)| == |kept|
            && forall i :: 0 <= i < |kept| ==>
                 kept[i].userId in UserMap(users)
                 && Rows(users, devices, iso)[i] == Row(UserMap(users)[kept[i].userId], kept[i], iso)
  {
    var m := UserMap(users);
    var kept := Filter(devices, InMap(m));
    var maybe := seq(|kept|, i requires 0 <= i < |kept| => MaybeRow(m, kept[i], iso));
    forall i | 0 <= i < |kept|
      ensures kept[i].userId in m && maybe[i].Some?
    {
      assert kept[i] in kept;
    }
    DropNullsAllPresent(maybe);
  }

  /** A device is exported exactly when its owner id is the id of an exported
      user; the exported devices keep their input order. */
  lemma ExportedSelects(users: seq<User>, devices: seq<Device>)
    ensures exists idx :: Embeds(idx, Exported(users, devices), devices)
              && forall i :: 0 <= i < |devices| ==>
                   (i in idx <==> exists j :: 0 <= j < |users| && users[j].id == devices[i].userId)
  {
    var p := InMap(UserMap(users));
    FilterSelects(devices, p);
    var idx :| Embeds(idx, Filter(devices, p), devices)
               && forall i :: 0 <= i < |devices| ==> (i in idx <==> p(devices[i]));
    assert Exported(users, devices) == Filter(devices, p);
    forall i | 0 <= i < |devices|
      ensures i in idx <==> exists j :: 0 <= j < |users| && users[j].id == devices[i].userId
    {
      assert p(devices[i]) == (devices[i].userId in UserMap(users));
    }
  }

  /** No character that would break a field or a line. */
  predicate PlainField(s: string) {
    ',' !in s && '\n' !in s
  }

  /** A row splits back into its nine fields when none holds a comma or a
      newline; the fields are the user's four, then the device's five. */
  lemma RowSplitsIntoFields(u: User, d: Device, iso: string -> string)
    requires forall f :: f in RowFields(u, d, iso) ==> PlainField(f)
    ensures Split(Row(u, d, iso), ',') == RowFields(u, d, iso)
    ensures |Split(Row(u, d, iso), ',')| == |Headers|
  {
    SplitJoin(RowFields(u, d, iso), ',');
  }

  /** No user or device field that reaches the report holds a newline;
      commas are allowed, since the line split does not look at them. */
  ghost predicate NewlineFreeInputs(users: seq<User>, devices: seq<Device>, iso: string -> string) {
    && (forall u :: u in users ==> '\n' !in u.displayName && '\n' !in u.mail
                                   && '\n' !in u.jobTitle && '\n' !in u.department)
    && (forall d :: d in devices ==> '\n' !in d.deviceName && '\n' !in d.os
                                     && '\n' !in iso(d.lastSeen))
  }

  /** The report starts with the header line; with no newline inside any
      field, it splits back into the header line and one line per exported
      device. */
  lemma ContentSplitsIntoLines(users: seq<User>, devices: seq<Device>, iso: string -> string)
    requires NewlineFreeInputs(users, devices, iso)
    ensures Split(CsvContent(users, devices, iso), '\n') == Lines(users, devices, iso)
    ensures |Lines(users, devices, iso)| == 1 + |Exported(users, devices)|
    ensures Lines(users, devices, iso)[0] == Join(Headers, ",")
  {
    LinesPlain(users, devices, iso);
    SplitJoin(Lines(users, devices, iso), '\n');
    RowsOfExported(users, devices, iso);
  }

  /** No line of the report holds a newline. */
  lemma LinesPlain(users: seq<User>, devices: seq<Device>, iso: string -> string)
    requires NewlineFreeInputs(users, devices, iso)
    ensures forall line :: line in Lines(users, devices, iso) ==> '\n' !in line
  {
    RowsPlain(users, devices, iso);
    HeaderLinePlain();
    NoNewlineInLines(Join(Headers, ","), Rows(users, devices, iso));
  }

  lemma NoNewlineInLines(header: string, rows: seq<string>)
    requires '\n' !in header
    requires forall k :: 0 <= k < |rows| ==> '\n' !in rows[k]
    ensures forall line :: line in [header] + rows ==> '\n' !in line
  {
    forall line | line in [header] + rows
      ensures '\n' !in line
    {
      if line != header {
        var k :| 0 <= k < |rows| && rows[k] == line;
      }
    }
  }

  /** No data row holds a newline when no field that reaches it does. */
  lemma RowsPlain(users: seq<User>, devices: seq<Device>, iso: string -> string)
    requires NewlineFreeInputs(users, devices, iso)
    ensures forall k :: 0 <= k < |Rows(users, devices, iso)| ==> '\n' !in Rows(users, devices, iso)[k]
  {
    RowsOfExported(users, devices, iso);
    var rows := Rows(users, devices, iso);
    var kept := Exported(users, devices);
    forall k | 0 <= k < |rows|
      ensures '\n' !in rows[k]
    {
      assert kept[k] in devices;
      RowPlain(users, kept[k], iso);
    }
  }

  lemma HeaderLinePlain()
    ensures '\n' !in Join(Headers, ",")
  {
    forall h | h in Headers
      ensures '\n' !in h
    {
      LettersAndSpacesArePlain(h);
    }
    NoNewlineInJoin(Headers);
  }

  lemma RowPlain(users: seq<User>, d: Device, iso: string -> string)
    requires d.userId in UserMap(users)
    requires forall u :: u in users ==> '\n' !in u.displayName && '\n' !in u.mail
                                        && '\n' !in u.jobTitle && '\n' !in u.department
    requires '\n' !in d.deviceName && '\n' !in d.os && '\n' !in iso(d.lastSeen)
    ensures '\n' !in Row(UserMap(users)[d.userId], d, iso)
  {
    UserMapHoldsLast(users, d.userId);
    HealthAndRiskNamesPlain(d);
    NoNewlineInJoin(RowFields(UserMap(users)[d.userId], d, iso));
  }

  lemma LettersAndSpacesArePlain(s: string)
    requires forall i :: 0 <= i < |s| ==> IsLetter(s[i]) || s[i] == ' '
    ensures PlainField(s)
  {
  }

  lemma HealthAndRiskNamesPlain(d: Device)
    ensures PlainField(HealthName(d.healthStatus)) && PlainField(RiskName(d.riskLevel))
  {
    HealthNamePlain(d.healthStatus);
    RiskNamePlain(d.riskLevel);
  }

  lemma HealthNamePlain(h: HealthStatus)
    ensures PlainField(HealthName(h))
  {
    match h
    case Active => LettersOnlyArePlain("Active");
    case Inactive => LettersOnlyArePlain("Inactive");
    case ImpairedCommunication => LettersOnlyArePlain("ImpairedCommunication");
    case NoSensorData => LettersOnlyArePlain("NoSensorData");
    case NoSensorDataImpairedCommunication => LettersOnlyArePlain("NoSensorDataImpairedCommunication");
  }

  lemma RiskNamePlain(r: RiskLevel)
    ensures PlainField(RiskName(r))
  {
    LettersOnlyArePlain(RiskName(r));
  }

  lemma LettersOnlyArePlain(s: string)
    requires forall i :: 0 <= i < |s| ==> IsLetter(s[i])
    ensures PlainField(s)
  {
  }

  /** Joining newline-free parts with commas gives a newline-free line. */
  lemma {:induction false} NoNewlineInJoin(parts: seq<string>)
    requires forall p :: p in parts ==> '\n' !in p
    ensures '\n' !in Join(parts, ",")
  {
    if |parts| > 1 {
      NoNewlineInJoin(parts[1..]);
      assert parts[0] in parts;
    }
  }
}
