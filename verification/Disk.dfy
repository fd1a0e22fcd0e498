/**
 * Disk throughput from the kernel's sector counters (src/metrics/disk.rs:8-154).
 *
 * Counters are naturals and instants are reals in seconds, so wrap-around of
 * a 64-bit sum and the rounding inside a 64-bit float are not modelled; the
 * rounding of a rate to a whole number is.
 */
module Disk {
  import opened Basics

  const SECTOR_BYTES: nat := 512

  const EXCLUDED_PREFIXES: seq<string> := ["loop", "ram", "zram"]

  const NUMBERED_PREFIXES: seq<string> := ["mmcblk", "md", "nbd", "rbd", "dm-"]

  // ----- device names -------------------------------------------------------

  /** The number of leading digits. */
  function LeadingDigits(s: string): (n: nat)
    ensures n <= |s|
  {
    if s == "" || !IsDigit(s[0]) then 0 else 1 + LeadingDigits(s[1..])
  }

  /** At least one digit and nothing else. */
  predicate IsNumber(s: string) {
    s != "" && LeadingDigits(s) == |s|
  }

  /** The namespace `nvme<ctrl>n<ns>`, given what follows `nvme`. */
  predicate IsNamespace(rest: string) {
    var n := LeadingDigits(rest);
    n > 0 && n < |rest| && rest[n] == 'n' && IsNumber(rest[n + 1..])
  }

  /** The decision of the first listed prefix that the name has, or of its last character. */
  predicate IsWholeAmong(name: string, prefixes: seq<string>)
    requires name != ""
  {
    if prefixes == [] then !IsDigit(name[|name| - 1])
    else if prefixes[0] <= name then IsNumber(name[|prefixes[0]|..])
    else IsWholeAmong(name, prefixes[1..])
  }

  predicate IsWholeDevice(name: string) {
    && name != ""
    && (forall p :: p in EXCLUDED_PREFIXES ==> !(p <= name))
    && if "nvme" <= name then IsNamespace(name[4..]) else IsWholeAmong(name, NUMBERED_PREFIXES)
  }

  /** How the kernel names partition `number` of a whole device. */
  function PartitionName(name: string, number: string): string
    requires name != ""
  {
    if IsDigit(name[|name| - 1]) then name + "p" + number else name + number
  }

  // ----- readings -----------------------------------------------------------

  datatype Direction = Read | Written

  datatype DeviceCounters = DeviceCounters(name: string, sectorsRead: nat, sectorsWritten: nat) {
    function Sectors(d: Direction): nat {
      match d
      case Read => sectorsRead
      case Written => sectorsWritten
    }
  }

  datatype Reading = Reading(takenAt: real, devices: seq<DeviceCounters>)

  function WholeDevices(devices: seq<DeviceCounters>): seq<DeviceCounters> {
    if devices == [] then []
    else if IsWholeDevice(devices[0].name) then [devices[0]] + WholeDevices(devices[1..])
    else WholeDevices(devices[1..])
  }

  /** The first device of that name. */
  function Named(devices: seq<DeviceCounters>, name: string): Option<DeviceCounters> {
    if devices == [] then None
    else if devices[0].name == name then Some(devices[0])
    else Named(devices[1..], name)
  }

  /** What a device moved since an earlier reading: nothing where the counter
      went backwards or the device was not there. */
  function Moved(before: seq<DeviceCounters>, device: DeviceCounters, d: Direction): nat {
    match Named(before, device.name)
    case None => 0
    case Some(b) => if b.Sectors(d) <= device.Sectors(d) then device.Sectors(d) - b.Sectors(d) else 0
  }

  function AllMoved(before: seq<DeviceCounters>, devices: seq<DeviceCounters>, d: Direction): nat {
    if devices == [] then 0
    else AllMoved(before, devices[..|devices| - 1], d) + Moved(before, devices[|devices| - 1], d)
  }

  /** Rounds half up. */
  function BytesPerSecond(sectors: nat, elapsed: real): nat
    requires elapsed > 0.0
  {
    Rounded((sectors * SECTOR_BYTES) as real / elapsed)
  }

  function Rounded(x: real): (n: nat)
    requires x >= 0.0
    ensures n as real - 0.5 <= x < n as real + 0.5
  {
    (x + 0.5).Floor
  }

  /** The rate that a sampler reports for `current`, having last seen `previous`. */
  function Rate(previous: Option<Reading>, current: Reading, d: Direction): nat {
    if previous.None? || current.takenAt <= previous.value.takenAt then 0
    else
      BytesPerSecond(AllMoved(previous.value.devices, current.devices, d),
                     current.takenAt - previous.value.takenAt)
  }

  method IoRates(previous: Reading, current: Reading) returns (read: nat, written: nat)
    ensures read == Rate(Some(previous), current, Read)
    ensures written == Rate(Some(previous), current, Written)
  {
    if current.takenAt <= previous.takenAt {
      return 0, 0;
    }
    var elapsed := current.takenAt - previous.takenAt;
    var sectorsRead, sectorsWritten := 0, 0;
    var devices := current.devices;
    for i := 0 to |devices|
      invariant sectorsRead == AllMoved(previous.devices, devices[..i], Read)
      invariant sectorsWritten == AllMoved(previous.devices, devices[..i], Written)
    {
      assert devices[..i + 1][..i] == devices[..i];
      match Named(previous.devices, devices[i].name)
      case None =>
      case Some(before) =>
        if before.sectorsRead <= devices[i].sectorsRead {
          sectorsRead := sectorsRead + devices[i].sectorsRead - before.sectorsRead;
        }
        if before.sectorsWritten <= devices[i].sectorsWritten {
          sectorsWritten := sectorsWritten + devices[i].sectorsWritten - before.sectorsWritten;
        }
    }
    assert devices[..|devices|] == devices;
    read := BytesPerSecond(sectorsRead, elapsed);
    written := BytesPerSecond(sectorsWritten, elapsed);
  }

  class DiskIoSampler {
    var previous: Option<Reading>

    constructor ()
      ensures previous == None
    {
      previous := None;
    }

    method Sample(devices: seq<DeviceCounters>, now: real) returns (read: nat, written: nat)
      modifies this
      ensures previous == Some(Reading(now, WholeDevices(devices)))
      ensures old(previous).None? || now <= old(previous).value.takenAt ==> read == 0 && written == 0
      ensures read == Rate(old(previous), previous.value, Read)
      ensures written == Rate(old(previous), previous.value, Written)
    {
      var current := Reading(now, WholeDevices(devices));
      match previous {
        case None => read, written := 0, 0;
        case Some(before) => read, written := IoRates(before, current);
      }
      previous := Some(current);
    }
  }

  // ----- no partition counts ------------------------------------------------

  lemma {:induction false} LeadingDigitsAre(s: string)
    ensures forall i :: 0 <= i < LeadingDigits(s) ==> IsDigit(s[i])
    ensures LeadingDigits(s) < |s| ==> !IsDigit(s[LeadingDigits(s)])
  {
    if s != "" && IsDigit(s[0]) {
      LeadingDigitsAre(s[1..]);
      assert forall i :: 1 <= i < LeadingDigits(s) ==> s[i] == s[1..][i - 1];
    }
  }

  lemma NumberIsDigits(s: string)
    ensures IsNumber(s) <==> s != "" && forall i :: 0 <= i < |s| ==> IsDigit(s[i])
  {
    LeadingDigitsAre(s);
  }

  /** A number with a partition suffix is no number, and neither is a namespace. */
  lemma SuffixedIsNoNumber(s: string, number: string)
    ensures !IsNumber(s + "p" + number)
  {
    NumberIsDigits(s + "p" + number);
    assert (s + "p" + number)[|s|] == 'p';
  }

  lemma SuffixedIsNoNamespace(s: string, number: string)
    requires IsNamespace(s)
    ensures !IsNamespace(s + "p" + number)
  {
    hide IsNumber;
    var t := s + "p" + number;
    var n := LeadingDigits(s);
    LeadingDigitsAre(s);
    LeadingDigitsAre(t);
    assert t[n] == s[n];
    assert forall i :: 0 <= i < n ==> t[i] == s[i];
    assert LeadingDigits(t) == n;
    assert t[n + 1..] == s[n + 1..] + "p" + number;
    SuffixedIsNoNumber(s[n + 1..], number);
  }

  ghost predicate HoldsNoDigit(s: string) {
    forall c :: c in s ==> !IsDigit(c)
  }

  /** A partition's name has just those digit-free prefixes that its device's name has. */
  lemma PrefixOfPartition(prefix: string, name: string, number: string)
    requires name != "" && IsNumber(number) && HoldsNoDigit(prefix)
    ensures prefix <= PartitionName(name, number) <==> prefix <= name
    ensures PartitionName(name, number) == name + PartitionName(name, number)[|name|..]
  {
    var partition := PartitionName(name, number);
    NumberIsDigits(number);
    assert partition == name + if IsDigit(name[|name| - 1]) then "p" + number else number;
    var k := if IsDigit(name[|name| - 1]) then |name| - 1 else |name|;
    assert IsDigit(partition[k]);
    assert prefix <= partition && k < |prefix| ==> partition[k] in prefix;
  }

  lemma {:induction false} PartitionAmong(name: string, number: string, prefixes: seq<string>)
    requires name != "" && IsNumber(number) && IsWholeAmong(name, prefixes)
    requires forall p :: p in prefixes ==> HoldsNoDigit(p)
    ensures !IsWholeAmong(PartitionName(name, number), prefixes)
  {
    hide IsNumber;
    NumberIsDigits(number);
    var partition := PartitionName(name, number);
    if prefixes == [] {
      assert partition[|partition| - 1] == number[|number| - 1];
    } else {
      var prefix := prefixes[0];
      assert prefix in prefixes;
      PrefixOfPartition(prefix, name, number);
      if prefix <= name {
        var digits := name[|prefix|..];
        NumberIsDigits(digits);
        assert digits[|digits| - 1] == name[|name| - 1];
        SuffixedIsNoNumber(digits, number);
        assert partition[|prefix|..] == digits + "p" + number;
      } else {
        PartitionAmong(name, number, prefixes[1..]);
      }
    }
  }

  ghost predicate SpellsNamespace(rest: string, ctrl: string, ns: string) {
    IsNumber(ctrl) && IsNumber(ns) && rest == ctrl + "n" + ns
  }

  /** The namespaces accepted are a controller and a namespace number about an `n`. */
  lemma NamespaceExactly(rest: string)
    ensures IsNamespace(rest) <==> exists ctrl, ns :: SpellsNamespace(rest, ctrl, ns)
  {
    if IsNamespace(rest) {
      var n := LeadingDigits(rest);
      LeadingDigitsAre(rest);
      NumberIsDigits(rest[..n]);
      assert rest == rest[..n] + "n" + rest[n + 1..];
      assert SpellsNamespace(rest, rest[..n], rest[n + 1..]);
    }
    if ctrl, ns :| SpellsNamespace(rest, ctrl, ns) {
      SpelledIsNamespace(rest, ctrl, ns);
    }
  }

  lemma SpelledIsNamespace(rest: string, ctrl: string, ns: string)
    requires SpellsNamespace(rest, ctrl, ns)
    ensures IsNamespace(rest)
  {
    NumberIsDigits(ctrl);
    LeadingDigitsAre(rest);
    assert forall i :: 0 <= i < |ctrl| ==> rest[i] == ctrl[i];
    assert rest[|ctrl|] == 'n';
    assert LeadingDigits(rest) == |ctrl|;
    assert rest[|ctrl| + 1..] == ns;
  }

  lemma NamespaceEndsInDigit(s: string)
    requires IsNamespace(s)
    ensures s != "" && IsDigit(s[|s| - 1])
  {
    var ns := s[LeadingDigits(s) + 1..];
    NumberIsDigits(ns);
    assert s[|s| - 1] == ns[|ns| - 1];
  }

  /**
   * No partition is ever counted beside its device: the name that the kernel
   * gives to any partition of an accepted device is rejected.
   */
  lemma PartitionsAreRejected(name: string, number: string)
    requires IsWholeDevice(name) && IsNumber(number)
    ensures !IsWholeDevice(PartitionName(name, number))
  {
    hide IsNumber, IsNamespace;
    var partition := PartitionName(name, number);
    PrefixOfPartition("nvme", name, number);
    if "nvme" <= name {
      NamespaceEndsInDigit(name[4..]);
      assert name[|name| - 1] == name[4..][|name| - 5];
      assert partition[4..] == name[4..] + "p" + number;
      SuffixedIsNoNamespace(name[4..], number);
    } else {
      PartitionAmong(name, number, NUMBERED_PREFIXES);
    }
  }

  // ----- what the rates add up to -------------------------------------------

  /** What a sampler that is shown these readings in turn has seen at the k-th. */
  function Seen(samples: seq<Reading>, k: nat): Reading
    requires k < |samples|
  {
    Reading(samples[k].takenAt, WholeDevices(samples[k].devices))
  }

  function Interval(samples: seq<Reading>, k: nat): real
    requires k < |samples|
  {
    if k == 0 || samples[k].takenAt <= samples[k - 1].takenAt then 0.0
    else samples[k].takenAt - samples[k - 1].takenAt
  }

  function RateAt(samples: seq<Reading>, k: nat, d: Direction): nat
    requires k < |samples|
  {
    Rate(if k == 0 then None else Some(Seen(samples, k - 1)), Seen(samples, k), d)
  }

  /** The bytes that a rate stands for. */
  function Bytes(rate: nat, elapsed: real): real {
    rate as real * elapsed
  }

  /** The bytes that the rates of the first `n` readings stand for. */
  function Reported(samples: seq<Reading>, n: nat, d: Direction): real
    requires n <= |samples|
  {
    if n == 0 then 0.0
    else Reported(samples, n - 1, d) + Bytes(RateAt(samples, n - 1, d), Interval(samples, n - 1))
  }

  /** The bytes that whole devices moved over the intervals that took time. */
  function Transferred(samples: seq<Reading>, n: nat, d: Direction): real
    requires n <= |samples|
  {
    if n == 0 then 0.0
    else
      Transferred(samples, n - 1, d)
      + if Interval(samples, n - 1) == 0.0 then 0.0
        else (AllMoved(Seen(samples, n - 2).devices, Seen(samples, n - 1).devices, d) * SECTOR_BYTES) as real
  }

  function TotalElapsed(samples: seq<Reading>, n: nat): real
    requires n <= |samples|
  {
    if n == 0 then 0.0 else TotalElapsed(samples, n - 1) + Interval(samples, n - 1)
  }

  predicate Near(x: real, y: real, slack: real) {
    x - y <= slack && y - x <= slack
  }

  lemma ScaledNear(x: real, r: real, elapsed: real)
    requires Near(r, x, 0.5) && elapsed > 0.0
    ensures Near(r * elapsed, x * elapsed, elapsed / 2.0)
  {
    assert (r - x) * elapsed <= 0.5 * elapsed && (x - r) * elapsed <= 0.5 * elapsed;
    assert (r - x) * elapsed == r * elapsed - x * elapsed;
  }

  lemma QuotientScalesBack(bytes: real, elapsed: real)
    requires elapsed > 0.0
    ensures bytes / elapsed * elapsed == bytes
  {
  }

  lemma RateAccounts(sectors: nat, elapsed: real)
    requires elapsed > 0.0
    ensures Near(Bytes(BytesPerSecond(sectors, elapsed), elapsed), (sectors * SECTOR_BYTES) as real, elapsed / 2.0)
  {
    hide Rounded, Bytes;
    var bytes := (sectors * SECTOR_BYTES) as real;
    QuotientScalesBack(bytes, elapsed);
    RoundedScales(bytes / elapsed, elapsed, bytes);
  }

  lemma RoundedScales(x: real, elapsed: real, bytes: real)
    requires x >= 0.0 && elapsed > 0.0 && x * elapsed == bytes
    ensures Near(Bytes(Rounded(x), elapsed), bytes, elapsed / 2.0)
  {
    ScaledNear(x, Rounded(x) as real, elapsed);
  }

  lemma NoTimeNoBytes(rate: nat, elapsed: real)
    requires elapsed == 0.0
    ensures Bytes(rate, elapsed) == 0.0
  {
  }

  /** Over any run, devices and clocks behaving as they may, the rates account
      for the bytes moved to within half a byte per second. */
  lemma {:induction false} RatesAccount(samples: seq<Reading>, n: nat, d: Direction)
    requires n <= |samples|
    ensures Near(Reported(samples, n, d), Transferred(samples, n, d), TotalElapsed(samples, n) / 2.0)
  {
    hide BytesPerSecond, AllMoved, Bytes;
    if n > 0 {
      RatesAccount(samples, n - 1, d);
      var elapsed := Interval(samples, n - 1);
      if elapsed > 0.0 {
        var sectors := AllMoved(Seen(samples, n - 2).devices, Seen(samples, n - 1).devices, d);
        RateAccounts(sectors, elapsed);
        assert RateAt(samples, n - 1, d) == BytesPerSecond(sectors, elapsed);
      } else {
        NoTimeNoBytes(RateAt(samples, n - 1, d), elapsed);
      }
    }
  }

  // ----- a fixed set of devices ---------------------------------------------

  function AllSectors(devices: seq<DeviceCounters>, d: Direction): nat {
    if devices == [] then 0
    else AllSectors(devices[..|devices| - 1], d) + devices[|devices| - 1].Sectors(d)
  }

  ghost predicate DistinctNames(devices: seq<DeviceCounters>) {
    forall i, j :: 0 <= i < j < |devices| ==> devices[i].name != devices[j].name
  }

  /** `after` lists the same devices as `before`, in any order, and no counter went back. */
  ghost predicate Advances(before: seq<DeviceCounters>, after: seq<DeviceCounters>) {
    && DistinctNames(before) && DistinctNames(after) && |before| == |after|
    && forall a :: a in after ==> exists b :: b in before && Precedes(b, a)
  }

  predicate Precedes(b: DeviceCounters, a: DeviceCounters) {
    b.name == a.name && b.sectorsRead <= a.sectorsRead && b.sectorsWritten <= a.sectorsWritten
  }

  lemma {:induction false} NamedIs(devices: seq<DeviceCounters>, i: nat)
    requires i < |devices| && DistinctNames(devices)
    ensures Named(devices, devices[i].name) == Some(devices[i])
  {
    if i > 0 {
      NamedIs(devices[1..], i - 1);
    }
  }

  lemma {:induction false} NamedWithout(devices: seq<DeviceCounters>, i: nat, name: string)
    requires i < |devices| && devices[i].name != name
    ensures Named(devices, name) == Named(Without(devices, i), name)
  {
    if i == 0 {
      assert Without(devices, 0) == devices[1..];
    } else {
      assert Without(devices, i)[1..] == Without(devices[1..], i - 1);
      NamedWithout(devices[1..], i - 1, name);
    }
  }

  lemma {:induction false} MovedWithout(before: seq<DeviceCounters>, i: nat, devices: seq<DeviceCounters>, d: Direction)
    requires i < |before|
    requires forall a :: a in devices ==> a.name != before[i].name
    ensures AllMoved(before, devices, d) == AllMoved(Without(before, i), devices, d)
  {
    hide Named, Without;
    if devices != [] {
      var last := devices[|devices| - 1];
      assert last in devices;
      NamedWithout(before, i, last.name);
      MovedWithout(before, i, devices[..|devices| - 1], d);
    }
  }

  lemma {:induction false} SectorsWithout(devices: seq<DeviceCounters>, i: nat, d: Direction)
    requires i < |devices|
    ensures AllSectors(devices, d) == AllSectors(Without(devices, i), d) + devices[i].Sectors(d)
  {
    var n := |devices| - 1;
    if i == n {
      assert Without(devices, i) == devices[..n];
    } else {
      assert Without(devices, i)[..n - 1] == Without(devices[..n], i);
      SectorsWithout(devices[..n], i, d);
    }
  }

  lemma AdvancesWithout(before: seq<DeviceCounters>, i: nat, after: seq<DeviceCounters>)
    requires Advances(before, after) && after != []
    requires i < |before| && before[i].name == after[|after| - 1].name
    ensures Advances(Without(before, i), after[..|after| - 1])
  {
    var rest, front := Without(before, i), after[..|after| - 1];
    forall a | a in front
      ensures exists b :: b in rest && Precedes(b, a)
    {
      var j :| 0 <= j < |front| && front[j] == a;
      assert after[j] == a && a in after;
      var b :| b in before && Precedes(b, a);
      assert b != before[i];
      assert before == before[..i] + [before[i]] + before[i + 1..];
      assert b in rest;
    }
  }

  /** Among the same devices, what moved is the difference of the totals. */
  lemma {:induction false} MovedIsDifference(before: seq<DeviceCounters>, after: seq<DeviceCounters>, d: Direction)
    requires Advances(before, after)
    ensures AllMoved(before, after, d) == AllSectors(after, d) - AllSectors(before, d)
    decreases |after|
  {
    hide Named, Without;
    if after != [] {
      var n := |after| - 1;
      var a := after[n];
      assert a in after;
      var b :| b in before && Precedes(b, a);
      var i :| 0 <= i < |before| && before[i] == b;
      NamedIs(before, i);
      AdvancesWithout(before, i, after);
      MovedIsDifference(Without(before, i), after[..n], d);
      MovedWithout(before, i, after[..n], d);
      SectorsWithout(before, i, d);
    }
  }

  ghost predicate SteadyReadings(samples: seq<Reading>) {
    forall k :: 0 < k < |samples| ==>
      && samples[k - 1].takenAt < samples[k].takenAt
      && Advances(Seen(samples, k - 1).devices, Seen(samples, k).devices)
  }

  lemma {:induction false} TransfersTelescope(samples: seq<Reading>, n: nat, d: Direction)
    requires SteadyReadings(samples) && 0 < n <= |samples|
    ensures var moved := AllSectors(Seen(samples, n - 1).devices, d) - AllSectors(Seen(samples, 0).devices, d);
            Transferred(samples, n, d) == (SECTOR_BYTES * moved) as real
    ensures TotalElapsed(samples, n) == samples[n - 1].takenAt - samples[0].takenAt
  {
    hide Advances, AllMoved, AllSectors, WholeDevices;
    if n > 1 {
      TransfersTelescope(samples, n - 1, d);
      MovedIsDifference(Seen(samples, n - 2).devices, Seen(samples, n - 1).devices, d);
    } else {
      assert Transferred(samples, 0, d) == 0.0 && TotalElapsed(samples, 0) == 0.0;
    }
  }

  /**
   * While the clock advances, the whole devices stay the same and no counter
   * goes back, the rates account for 512 bytes a sector between the first and
   * the last reading, to within half a byte for each second between them.
   */
  lemma SteadyRatesAccount(samples: seq<Reading>, d: Direction)
    requires SteadyReadings(samples) && samples != []
    ensures var n := |samples|;
            var moved := AllSectors(Seen(samples, n - 1).devices, d) - AllSectors(Seen(samples, 0).devices, d);
            Near(Reported(samples, n, d), (512 * moved) as real,
                 (samples[n - 1].takenAt - samples[0].takenAt) / 2.0)
  {
    TransfersTelescope(samples, |samples|, d);
    RatesAccount(samples, |samples|, d);
  }

  // ---- What counts ----

  /** Exactly the whole devices are kept, in their order. */
  lemma {:induction false} WholeDevicesExactly(devices: seq<DeviceCounters>)
    ensures forall d :: d in WholeDevices(devices) <==> d in devices && IsWholeDevice(d.name)
  {
    if devices != [] {
      WholeDevicesExactly(devices[1..]);
      assert devices == [devices[0]] + devices[1..];
    }
  }

  lemma {:induction false} WholeDevicesAppend(a: seq<DeviceCounters>, b: seq<DeviceCounters>)
    ensures WholeDevices(a + b) == WholeDevices(a) + WholeDevices(b)
  {
    if a == [] {
      assert a + b == b;
    } else {
      assert (a + b)[1..] == a[1..] + b;
      WholeDevicesAppend(a[1..], b);
    }
  }

  /** Of a name in the family of `prefix`, the rest is a number. */
  ghost predicate FitsFamily(name: string, prefix: string) {
    prefix <= name ==> IsNumber(name[|prefix|..])
  }

  ghost predicate InFamily(name: string, prefixes: seq<string>) {
    exists p :: p in prefixes && p <= name
  }

  lemma {:induction false} AmongExactly(name: string, prefixes: seq<string>)
    requires name != ""
    requires forall i, j :: 0 <= i < j < |prefixes| ==> !(prefixes[i] <= name && prefixes[j] <= name)
    ensures IsWholeAmong(name, prefixes) <==>
      (forall p :: p in prefixes ==> FitsFamily(name, p)) && (InFamily(name, prefixes) || !IsDigit(name[|name| - 1]))
  {
    hide IsNumber;
    if prefixes != [] {
      assert forall p :: p in prefixes <==> p == prefixes[0] || p in prefixes[1..];
      AmongExactly(name, prefixes[1..]);
      if prefixes[0] <= name {
        forall p | p in prefixes[1..] ensures !(p <= name) {
          var j :| 0 <= j < |prefixes[1..]| && prefixes[1..][j] == p;
          assert prefixes[j + 1] == p;
        }
        assert prefixes[0] in prefixes && InFamily(name, prefixes);
        assert FitsFamily(name, prefixes[0]) <==> IsNumber(name[|prefixes[0]|..]);
      } else {
        assert InFamily(name, prefixes) <==> InFamily(name, prefixes[1..]);
      }
    }
  }

  lemma OneFamily(name: string)
    ensures !("mmcblk" <= name && "md" <= name) && !("nbd" <= name && "rbd" <= name)
    ensures "mmcblk" <= name || "md" <= name ==> !("nbd" <= name) && !("rbd" <= name) && !("dm-" <= name)
    ensures "nbd" <= name || "rbd" <= name ==> !("dm-" <= name)
  {
    assert "mmcblk" <= name ==> name[0] == 'm' && name[1] == 'm';
    assert "md" <= name ==> name[0] == 'm' && name[1] == 'd';
    assert "nbd" <= name ==> name[0] == 'n';
    assert "rbd" <= name ==> name[0] == 'r';
    assert "dm-" <= name ==> name[0] == 'd';
  }

  lemma NumberedExactly(name: string)
    requires name != ""
    ensures var families := ["mmcblk", "md", "nbd", "rbd", "dm-"];
      IsWholeAmong(name, NUMBERED_PREFIXES) <==>
        (forall p :: p in families ==> FitsFamily(name, p)) && (InFamily(name, families) || !IsDigit(name[|name| - 1]))
  {
    hide IsWholeAmong, FitsFamily, InFamily;
    OneFamily(name);
    AmongExactly(name, NUMBERED_PREFIXES);
  }

  /** The names that are accepted: not a loop or RAM device, and an NVMe
      namespace, a numbered family with its number alone, or no number at the end. */
  lemma WholeDeviceExactly(name: string)
    ensures var families := ["mmcblk", "md", "nbd", "rbd", "dm-"];
      IsWholeDevice(name) <==> (
        && name != "" && !("loop" <= name) && !("ram" <= name) && !("zram" <= name)
        && if "nvme" <= name then exists ctrl, ns :: SpellsNamespace(name[4..], ctrl, ns)
           else (forall p :: p in families ==> FitsFamily(name, p)) && (InFamily(name, families) || !IsDigit(name[|name| - 1])))
  {
    hide IsNumber, IsNamespace, IsWholeAmong, FitsFamily, InFamily, SpellsNamespace;
    assert "loop" in EXCLUDED_PREFIXES && "ram" in EXCLUDED_PREFIXES && "zram" in EXCLUDED_PREFIXES;
    assert forall p :: p in EXCLUDED_PREFIXES ==> p == "loop" || p == "ram" || p == "zram";
    if name != "" {
      NumberedExactly(name);
    }
    if "nvme" <= name {
      NamespaceExactly(name[4..]);
    }
  }

  /** What one device adds: the growth of its counter, nothing where the counter
      went back and nothing where the device was not there before. */
  lemma MovedExactly(before: seq<DeviceCounters>, device: DeviceCounters)
    requires DistinctNames(before)
    ensures (forall b :: b in before ==> b.name != device.name) ==>
      Moved(before, device, Read) == 0 && Moved(before, device, Written) == 0
    ensures forall b :: b in before && b.name == device.name ==>
      && Moved(before, device, Read) == (if device.sectorsRead < b.sectorsRead then 0 else device.sectorsRead - b.sectorsRead)
      && Moved(before, device, Written)
         == if device.sectorsWritten < b.sectorsWritten then 0 else device.sectorsWritten - b.sectorsWritten
  {
    hide Named;
    if forall b :: b in before ==> b.name != device.name {
      NoneNamed(before, device.name);
    }
    forall b | b in before && b.name == device.name ensures Named(before, device.name) == Some(b) {
      var i :| 0 <= i < |before| && before[i] == b;
      NamedIs(before, i);
    }
  }

  lemma {:induction false} NoneNamed(devices: seq<DeviceCounters>, name: string)
    requires forall d :: d in devices ==> d.name != name
    ensures Named(devices, name) == None
  {
    if devices != [] {
      assert devices[0] in devices;
      NoneNamed(devices[1..], name);
    }
  }

  /** A device that appears does not make the rates spike. */
  lemma AppearingDeviceAddsNothing(
    before: seq<DeviceCounters>, a: seq<DeviceCounters>, device: DeviceCounters, b: seq<DeviceCounters>, d: Direction)
    requires forall x :: x in before ==> x.name != device.name
    ensures AllMoved(before, a + [device] + b, d) == AllMoved(before, a + b, d)
  {
    hide Named;
    NoneNamed(before, device.name);
    assert a + [device] + b == a + ([device] + b);
    AllMovedAppend(before, a, [device] + b, d);
    AllMovedAppend(before, [device], b, d);
    AllMovedAppend(before, a, b, d);
    assert [device][..0] == [];
  }

  lemma {:induction false} AllMovedAppend(before: seq<DeviceCounters>, a: seq<DeviceCounters>, b: seq<DeviceCounters>, d: Direction)
    ensures AllMoved(before, a + b, d) == AllMoved(before, a, d) + AllMoved(before, b, d)
  {
    hide Moved;
    if b == [] {
      assert a + b == a;
    } else {
      assert (a + b)[..|a + b| - 1] == a + b[..|b| - 1];
      AllMovedAppend(before, a, b[..|b| - 1], d);
    }
  }
}
