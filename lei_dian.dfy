/** The LDPlayer console wrapper: parsing of the `ldconsole list2` listing,
    lookups in it, the post-processing of `getprop phone.imei`, the IMEI
    filter and the polling loops. Every external command is replaced by
    what it printed (or its failure), given as a parameter. */
module LeiDian {
  import opened Wrappers
  import opened Text

  /** Values of the `android_status` column. */
  const NotStarted: string := "0"
  const Starting: string := "1"
  const Running: string := "2"

  /** Seconds between two polls of the listing. */
  const Interval: nat := 2
  /** Declared as the boot-wait deadline in seconds, but never read. */
  const MaxWaitTime: nat := 60

  const ImeiLength: nat := 15
  /** Text that `getprop` prints instead of an IMEI when the device bridge is broken. */
  const AdbErrorMarker: string := "adb.exe"
  /** Seconds between `adb kill-server` and `adb start-server`. */
  const AdbCooldown: nat := 10

  const MaxDeviceAttempts: nat := 10
  /** Seconds `waitForDevice` sleeps after an attempt that found no device. */
  const DeviceInterval: nat := 3

  /** One row of `ldconsole list2`. */
  datatype LDSimulator = LDSimulator(
    id: string,
    name: string,
    topWindow: string,
    bindWindow: string,
    androidStatus: string,
    processPid: string,
    vboxPid: string,
    width: string,
    height: string,
    dpi: string)

  /** Go's zero value `LDSimulator{}`. */
  const Zero: LDSimulator := LDSimulator("", "", "", "", "", "", "", "", "", "")

  // ---------------------------------------------------------------------
  // Parsing the listing

  function Lines(text: string): seq<string> {
    Split(TrimSpace(text), '\n')
  }

  function Fields(line: string): seq<string> {
    Split(line, ',')
  }

  /** A line is kept when it has at least ten comma-separated fields. */
  predicate Keeps(line: string) {
    |Fields(line)| >= 10
  }

  function FromFields(f: seq<string>): LDSimulator
    requires |f| >= 10
  {
    LDSimulator(f[0], f[1], f[2], f[3], f[4], f[5], f[6], f[7], f[8], f[9])
  }

  function ToFields(s: LDSimulator): seq<string> {
    [s.id, s.name, s.topWindow, s.bindWindow, s.androidStatus,
     s.processPid, s.vboxPid, s.width, s.height, s.dpi]
  }

  /** The records of `lines[i..]`, in line order. */
  function ParseFrom(lines: seq<string>, i: nat): seq<LDSimulator>
    requires i <= |lines|
    decreases |lines| - i
  {
    if i == |lines| then []
    else (if Keeps(lines[i]) then [FromFields(Fields(lines[i]))] else []) + ParseFrom(lines, i + 1)
  }

  /** The indices of the lines of `lines[i..]` that give a record. */
  ghost function KeptFrom(lines: seq<string>, i: nat): seq<nat>
    requires i <= |lines|
    decreases |lines| - i
  {
    if i == |lines| then []
    else (if Keeps(lines[i]) then [i] else []) + KeptFrom(lines, i + 1)
  }

  /** The records of an already decoded listing. */
  function Parse(text: string): seq<LDSimulator> {
    ParseFrom(Lines(text), 0)
  }

  /** `GetSimulators` as a value: `output` is the decoded output of
      `ldconsole list2`, `None` when the command or the decoding failed. */
  function Listing(output: Option<string>): Result<seq<LDSimulator>> {
    match output
    case None => Err(ListCommandFailed)
    case Some(text) => Ok(Parse(text))
  }

  ghost predicate KeptShape(lines: seq<string>, i: nat, recs: seq<LDSimulator>, kept: seq<nat>) {
    |kept| == |recs| <= |lines| - i
    && (forall k :: 0 <= k < |kept| ==>
          i <= kept[k] < |lines| && Keeps(lines[kept[k]]) && recs[k] == FromFields(Fields(lines[kept[k]])))
    && (forall k1, k2 :: 0 <= k1 < k2 < |kept| ==> kept[k1] < kept[k2])
    && (forall j :: i <= j < |lines| && Keeps(lines[j]) ==> j in kept)
  }

  lemma {:induction false} ParseFromShape(lines: seq<string>, i: nat)
    requires i <= |lines|
    ensures KeptShape(lines, i, ParseFrom(lines, i), KeptFrom(lines, i))
    decreases |lines| - i
  {
    if i < |lines| {
      ParseFromShape(lines, i + 1);
    }
  }

  /** Each record comes from a line with at least ten fields, mapped
      field by field; no such line is dropped; records keep line order;
      there are never more records than lines. */
  lemma ParseShape(text: string)
    ensures var kept := KeptFrom(Lines(text), 0);
            KeptShape(Lines(text), 0, Parse(text), kept)
  {
    ParseFromShape(Lines(text), 0);
  }

  /** The text of one row as `ldconsole list2` prints it. */
  function RenderRow(s: LDSimulator): string {
    Join(ToFields(s), ',')
  }

  function RenderLines(sims: seq<LDSimulator>): seq<string> {
    seq(|sims|, k requires 0 <= k < |sims| => RenderRow(sims[k]))
  }

  /** A listing as `ldconsole list2` prints it, one row per line. */
  function Render(sims: seq<LDSimulator>): string {
    Join(RenderLines(sims), '\n')
  }

  predicate PlainField(f: string) {
    ',' !in f && '\n' !in f
  }

  predicate PlainRow(s: LDSimulator) {
    forall k :: 0 <= k < 10 ==> PlainField(ToFields(s)[k])
  }

  lemma {:induction false} JoinAvoids(parts: seq<string>, sep: char, c: char)
    requires c != sep
    requires forall k :: 0 <= k < |parts| ==> c !in parts[k]
    ensures c !in Join(parts, sep)
  {
    if |parts| > 1 {
      JoinAvoids(parts[1..], sep, c);
    }
  }

  lemma {:induction false} ParseRendered(lines: seq<string>, sims: seq<LDSimulator>, i: nat)
    requires |lines| == |sims| && i <= |sims|
    requires forall k :: 0 <= k < |sims| ==> PlainRow(sims[k]) && lines[k] == RenderRow(sims[k])
    ensures ParseFrom(lines, i) == sims[i..]
    decreases |sims| - i
  {
    if i < |sims| {
      var f := ToFields(sims[i]);
      SplitJoin(f, ',');
      assert Fields(lines[i]) == f;
      ParseRendered(lines, sims, i + 1);
      assert sims[i..] == [sims[i]] + sims[i + 1..];
    }
  }

  lemma RenderedLines(sims: seq<LDSimulator>)
    requires sims != []
    requires forall k :: 0 <= k < |sims| ==> PlainRow(sims[k])
    ensures Split(Render(sims), '\n') == RenderLines(sims)
  {
    var lines := RenderLines(sims);
    forall k | 0 <= k < |lines| ensures '\n' !in lines[k] {
      JoinAvoids(ToFields(sims[k]), ',', '\n');
    }
    SplitJoin(lines, '\n');
  }

  /** Parsing the printed form of records whose fields hold no comma and
      no line break gives the records back. */
  lemma ParseRender(sims: seq<LDSimulator>)
    requires forall k :: 0 <= k < |sims| ==> PlainRow(sims[k])
    requires NoEdgeSpace(Render(sims))
    ensures Parse(Render(sims)) == sims
  {
    if sims == [] {
      ParseEmpty();
    } else {
      ParseUntrimmed(Render(sims));
      RenderedLines(sims);
      ParseRendered(RenderLines(sims), sims, 0);
    }
  }

  lemma ParseUntrimmed(text: string)
    requires NoEdgeSpace(text)
    ensures Parse(text) == ParseFrom(Split(text, '\n'), 0)
  {
    TrimSpaceOfTrimmed(text);
  }

  /** An empty listing has no records. */
  lemma ParseEmpty()
    ensures Parse("") == []
  {
    assert Split("", '\n') == [""];
    assert Fields("") == [""];
    assert ParseFrom([""], 1) == [];
  }

  /** `GetSimulators`: trims the decoded listing, splits it into lines and
      hands them to `ParseLines`. */
  method GetSimulators(output: Option<string>) returns (r: Result<seq<LDSimulator>>)
    ensures r == Listing(output)
  {
    if output.None? {
      return Err(ListCommandFailed);
    }
    var lines := Lines(output.value);
    var sims := ParseLines(lines);
    return Ok(sims);
  }

  /** The loop of `GetSimulators`: appends one record per line that has
      at least ten fields. */
  method ParseLines(lines: seq<string>) returns (sims: seq<LDSimulator>)
    ensures sims == ParseFrom(lines, 0)
  {
    sims := [];
    var i := 0;
    while i < |lines|
      invariant i <= |lines|
      invariant sims + ParseFrom(lines, i) == ParseFrom(lines, 0)
    {
      var fields := Fields(lines[i]);
      if |fields| >= 10 {
        sims := sims + [FromFields(fields)];
      }
      i := i + 1;
    }
  }

  // ---------------------------------------------------------------------
  // Lookups

  /** `ContainsSimulators`. */
  method ContainsSimulators(slice: seq<string>, item: string) returns (found: bool)
    ensures found <==> item in slice
  {
    for i := 0 to |slice|
      invariant item !in slice[..i]
    {
      if slice[i] == item {
        return true;
      }
    }
    return false;
  }

  /** The first record with the given id, or the zero record. */
  function FindById(sims: seq<LDSimulator>, id: string): LDSimulator {
    if sims == [] then Zero
    else if sims[0].id == id then sims[0]
    else FindById(sims[1..], id)
  }

  /** `sims[i]` is the first record whose id is `id`. */
  predicate FirstWithId(sims: seq<LDSimulator>, id: string, i: int) {
    0 <= i < |sims| && sims[i].id == id && forall j :: 0 <= j < i ==> sims[j].id != id
  }

  lemma {:induction false} FindByIdFirst(sims: seq<LDSimulator>, id: string, i: int)
    requires FirstWithId(sims, id, i)
    ensures FindById(sims, id) == sims[i]
  {
    if i > 0 {
      assert FirstWithId(sims[1..], id, i - 1);
      FindByIdFirst(sims[1..], id, i - 1);
    }
  }

  lemma {:induction false} FindByIdAbsent(sims: seq<LDSimulator>, id: string)
    requires forall j :: 0 <= j < |sims| ==> sims[j].id != id
    ensures FindById(sims, id) == Zero
  {
    if sims != [] {
      FindByIdAbsent(sims[1..], id);
    }
  }

  /** `getByIdSimulators` as a value: the listing's error, or the first
      record with that id, or the zero record with no error. */
  function Lookup(id: string, output: Option<string>): Result<LDSimulator> {
    match Listing(output)
    case Err(f) => Err(f)
    case Ok(sims) => Ok(FindById(sims, id))
  }

  /** `getByIdSimulators`. */
  method GetByIdSimulators(id: string, output: Option<string>) returns (r: Result<LDSimulator>)
    ensures r == Lookup(id, output)
  {
    var listing := GetSimulators(output);
    if listing.Err? {
      return Err(listing.failure);
    }
    var sims := listing.value;
    var i := 0;
    while i < |sims|
      invariant i <= |sims|
      invariant FindById(sims[i..], id) == FindById(sims, id)
    {
      if sims[i].id == id {
        return Ok(sims[i]);
      }
      assert sims[i..][1..] == sims[i + 1..];
      i := i + 1;
    }
    return Ok(Zero);
  }

  /** A successful lookup finds the first record with that id, and finds
      the zero record when no record has it. */
  lemma LookupMeaning(id: string, text: string)
    ensures forall i :: FirstWithId(Parse(text), id, i) ==> Lookup(id, Some(text)) == Ok(Parse(text)[i])
    ensures (forall j :: 0 <= j < |Parse(text)| ==> Parse(text)[j].id != id) ==> Lookup(id, Some(text)) == Ok(Zero)
  {
    var sims := Parse(text);
    forall i | FirstWithId(sims, id, i) ensures FindById(sims, id) == sims[i] {
      FindByIdFirst(sims, id, i);
    }
    if forall j :: 0 <= j < |sims| ==> sims[j].id != id {
      FindByIdAbsent(sims, id);
    }
  }

  // ---------------------------------------------------------------------
  // Readiness polls

  /** One poll of `WaitForBootComplete` succeeds. */
  predicate BootReady(id: string, snapshot: Option<string>) {
    var r := Lookup(id, snapshot);
    r.Ok? && r.value.androidStatus == Starting
  }

  /** One poll of `WaitForShutdown` succeeds. */
  predicate ShutdownDone(id: string, snapshot: Option<string>) {
    var r := Lookup(id, snapshot);
    r.Err? || r.value.androidStatus == NotStarted
  }

  /** A failed listing never ends the boot wait; otherwise it ends exactly
      when the first record with that id has status "1". */
  lemma BootReadyMeaning(id: string, snapshot: Option<string>)
    ensures BootReady(id, snapshot) <==>
      snapshot.Some? && exists i :: FirstWithId(Parse(snapshot.value), id, i)
                                   && Parse(snapshot.value)[i].androidStatus == Starting
  {
    if snapshot.Some? {
      LookupMeaning(id, snapshot.value);
      var sims := Parse(snapshot.value);
      if BootReady(id, snapshot) {
        if exists j :: 0 <= j < |sims| && sims[j].id == id {
          var j :| 0 <= j < |sims| && sims[j].id == id;
          var i := FirstIndex(sims, id, j);
          assert FirstWithId(sims, id, i);
        }
      }
    }
  }

  /** A failed listing ends the shutdown wait; otherwise it ends exactly
      when the first record with that id has status "0". A listing that
      does not hold the id gives the zero record, whose status is "", so
      the wait goes on. */
  lemma ShutdownDoneMeaning(id: string, snapshot: Option<string>)
    ensures ShutdownDone(id, snapshot) <==>
      snapshot.None? || exists i :: FirstWithId(Parse(snapshot.value), id, i)
                                   && Parse(snapshot.value)[i].androidStatus == NotStarted
  {
    if snapshot.Some? {
      LookupMeaning(id, snapshot.value);
      var sims := Parse(snapshot.value);
      if ShutdownDone(id, snapshot) {
        if exists j :: 0 <= j < |sims| && sims[j].id == id {
          var j :| 0 <= j < |sims| && sims[j].id == id;
          var i := FirstIndex(sims, id, j);
          assert FirstWithId(sims, id, i);
        }
      }
    }
  }

  /** The index of the first record with id `id`, given one at `j`. */
  function FirstIndex(sims: seq<LDSimulator>, id: string, j: nat): (i: nat)
    requires j < |sims| && sims[j].id == id
    ensures i <= j && FirstWithId(sims, id, i)
  {
    if sims[0].id == id then 0
    else
      var i' := FirstIndex(sims[1..], id, j - 1);
      assert forall k :: 1 <= k <= i' ==> sims[k] == sims[1..][k - 1];
      i' + 1
  }

  /** `WaitForBootComplete` over the listings that its polls would see.
      It returns at the first poll whose record has status "1", after
      sleeping `Interval` seconds after each earlier poll; there is no
      deadline. `ready == None` means the snapshots ran out while it was
      still waiting: the source goes on polling. */
  method WaitForBootComplete(id: string, snapshots: seq<Option<string>>) returns (ready: Option<nat>, slept: nat)
    ensures ready.Some? ==> ready.value < |snapshots| && BootReady(id, snapshots[ready.value])
                            && slept == ready.value * Interval
    ensures ready.None? ==> slept == |snapshots| * Interval
    ensures forall j :: 0 <= j < |snapshots| && (ready.None? || j < ready.value) ==> !BootReady(id, snapshots[j])
  {
    var k := 0;
    slept := 0;
    while k < |snapshots|
      invariant k <= |snapshots| && slept == k * Interval
      invariant forall j :: 0 <= j < k ==> !BootReady(id, snapshots[j])
    {
      var sim := GetByIdSimulators(id, snapshots[k]);
      if sim.Ok? && sim.value.androidStatus == Starting {
        return Some(k), slept;
      }
      slept := slept + Interval;
      k := k + 1;
    }
    return None, slept;
  }

  /** `WaitForShutdown` over the listings that its polls would see: returns
      at the first poll whose listing fails or whose record has status "0". */
  method WaitForShutdown(id: string, snapshots: seq<Option<string>>) returns (done: Option<nat>, slept: nat)
    ensures done.Some? ==> done.value < |snapshots| && ShutdownDone(id, snapshots[done.value])
                           && slept == done.value * Interval
    ensures done.None? ==> slept == |snapshots| * Interval
    ensures forall j :: 0 <= j < |snapshots| && (done.None? || j < done.value) ==> !ShutdownDone(id, snapshots[j])
  {
    var k := 0;
    slept := 0;
    while k < |snapshots|
      invariant k <= |snapshots| && slept == k * Interval
      invariant forall j :: 0 <= j < k ==> !ShutdownDone(id, snapshots[j])
    {
      var sim := GetByIdSimulators(id, snapshots[k]);
      if sim.Err? || sim.value.androidStatus == NotStarted {
        return Some(k), slept;
      }
      slept := slept + Interval;
      k := k + 1;
    }
    return None, slept;
  }

  /** A line of `adb devices` output names the device and the word "device". */
  predicate DeviceLine(line: string, index: string) {
    Contains(line, "emulator-" + index) && Contains(line, "device")
  }

  predicate DeviceListed(output: string, index: string) {
    exists line :: line in Split(output, '\n') && DeviceLine(line, index)
  }

  /** `waitForDevice`: `outputs[k]` is what `adb devices` printed on attempt
      `k + 1`. It returns true at the first attempt with a matching line,
      having slept 3 s after each earlier attempt; it sleeps after the last
      failed attempt too. */
  method WaitForDevice(index: string, outputs: seq<string>) returns (connected: bool, attempts: nat, slept: nat)
    requires |outputs| == MaxDeviceAttempts
    ensures 1 <= attempts <= MaxDeviceAttempts
    ensures slept == (if connected then attempts - 1 else attempts) * DeviceInterval
    ensures connected <==> exists k :: 0 <= k < MaxDeviceAttempts && DeviceListed(outputs[k], index)
    ensures connected ==> DeviceListed(outputs[attempts - 1], index)
    ensures !connected ==> attempts == MaxDeviceAttempts
    ensures forall k :: 0 <= k < attempts - 1 ==> !DeviceListed(outputs[k], index)
  {
    var i := 0;
    slept := 0;
    while i < MaxDeviceAttempts
      invariant i <= MaxDeviceAttempts && slept == i * DeviceInterval
      invariant forall k :: 0 <= k < i ==> !DeviceListed(outputs[k], index)
    {
      var devices := Split(outputs[i], '\n');
      var j := 0;
      while j < |devices|
        invariant j <= |devices|
        invariant forall m :: 0 <= m < j ==> !DeviceLine(devices[m], index)
      {
        if Contains(devices[j], "emulator-" + index) && Contains(devices[j], "device") {
          assert devices[j] in devices;
          return true, i + 1, slept;
        }
        j := j + 1;
      }
      slept := slept + DeviceInterval;
      i := i + 1;
    }
    return false, MaxDeviceAttempts, slept;
  }

  // ---------------------------------------------------------------------
  // IMEI read and filter

  /** `GetPropImei` after its command: `output` is what `getprop` printed,
      `None` when the command failed. */
  function GetPropImei(output: Option<string>): Result<string> {
    match output
    case None => Err(PropCommandFailed)
    case Some(out) =>
      var imei := TrimSpace(out);
      if imei == "" then Err(EmptyImei) else Ok(imei)
  }

  /** A failed `getprop` is reported as such; otherwise the IMEI is the
      output with the white space cut from both ends, and it is an error
      exactly when nothing but white space was printed. */
  lemma GetPropImeiMeaning(output: Option<string>)
    ensures output.None? ==> GetPropImei(output) == Err(PropCommandFailed)
    ensures output.Some? ==>
      (GetPropImei(output) == Err(EmptyImei) <==> forall k :: 0 <= k < |output.value| ==> IsSpace(output.value[k]))
    ensures output.Some? && (exists k :: 0 <= k < |output.value| && !IsSpace(output.value[k])) ==>
      GetPropImei(output) == Ok(TrimSpace(output.value))
    ensures GetPropImei(output).Ok? ==>
      var imei := GetPropImei(output).value;
      imei != [] && NoEdgeSpace(imei) && exists i :: TrimmedAt(output.value, i, imei)
  {
    if output.Some? {
      TrimSpaceShape(output.value);
    }
  }

  /** The self-healing actions of `IsValidIMEI`, in order. */
  datatype AdbAction = KillServer | Cooldown | StartServer

  datatype Verdict = Verdict(valid: bool, actions: seq<AdbAction>)

  /** `IsValidIMEI`: a string of exactly 15 bytes that does not contain
      "adb.exe". The 15-byte string that holds the marker restarts the
      device bridge. No digit or check-digit test is made. */
  function IsValidIMEI(imei: string): Verdict {
    if Utf8Len(imei) != ImeiLength then Verdict(false, [])
    else if Contains(imei, AdbErrorMarker) then Verdict(false, [KillServer, Cooldown, StartServer])
    else Verdict(true, [])
  }

  /** Accepted exactly when the text is 15 bytes long and the marker does
      not occur in it; the device bridge is restarted exactly when the
      length is right but the marker occurs. */
  lemma IsValidImeiMeaning(imei: string)
    ensures IsValidIMEI(imei).valid <==> Utf8Len(imei) == ImeiLength && forall i :: !OccursAt(imei, AdbErrorMarker, i)
    ensures IsValidIMEI(imei).actions != [] <==> Utf8Len(imei) == ImeiLength && exists i :: OccursAt(imei, AdbErrorMarker, i)
    ensures IsValidIMEI(imei).actions != [] ==> IsValidIMEI(imei).actions == [KillServer, Cooldown, StartServer]
  {
    ContainsIff(imei, AdbErrorMarker);
  }

  /** An accepted IMEI has at most 15 characters, and exactly 15 when it is ASCII. */
  lemma ValidImeiLength(imei: string)
    requires IsValidIMEI(imei).valid
    ensures |imei| <= ImeiLength
    ensures IsAscii(imei) ==> |imei| == ImeiLength
  {
    Utf8LenBounds(imei);
  }

  /** Any 15-character ASCII text without the marker is accepted, digits or not. */
  lemma AsciiImeiAccepted(imei: string)
    requires IsAscii(imei) && |imei| == ImeiLength
    requires forall i :: !OccursAt(imei, AdbErrorMarker, i)
    ensures IsValidIMEI(imei).valid
  {
    Utf8LenBounds(imei);
    IsValidImeiMeaning(imei);
  }
}
