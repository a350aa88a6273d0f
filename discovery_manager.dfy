/** `NuimoDiscoveryManager.kt`: the registry of discovered controllers, the lost-controller check
    and the decisions around starting discovery and the location permission. Scanning itself and
    the platform checks are outside the model: their answers arrive as an `Environment`, scan
    results as `OnDeviceFound` calls, and the clock as a `now` argument in milliseconds. */
module Discovery {
  import opened Wrappers
  import opened ListOps

  const PermissionsRequestCode: int := 235
  /** Seven seconds, in milliseconds. */
  const LostControllerTimeout: int := 7000
  const AccessCoarseLocation: string := "android.permission.ACCESS_COARSE_LOCATION"
  /** `PackageManager.PERMISSION_GRANTED` */
  const PermissionGranted: int := 0
  /** `ScanSettings.SCAN_MODE_LOW_POWER`, the mode remembered before any start. */
  const ScanModeLowPower: int := 0

  type ListenerId = nat

  /** A Bluetooth device as a scan reports it; its name may be missing. */
  datatype Device = Device(name: Option<string>, address: string)

  /** `DiscoveredNuimoController`: the controller found at `address`, last seen at the timestamp. */
  datatype DiscoveredController = DiscoveredController(address: string, discoveryTimestamp: int)

  /** A discovery listener callback made, with the address of the controller concerned. */
  datatype Notice = Discovered(listener: ListenerId, address: string) | Lost(listener: ListenerId, address: string)

  /** The answers of the platform checks and adapter queries `startDiscovery` makes. */
  datatype Environment = Environment(
    permissionsGranted: bool,
    bluetoothEnabled: bool,
    bondedDevices: seq<Device>,
    adapterOn: bool,
    locationServiceEnabled: bool)

  /** What `startDiscovery` did: returned a Boolean, or threw `IllegalArgumentException`. */
  datatype StartOutcome = Returned(started: bool) | ThrewIllegalArgument

  datatype DiscoveryState = DiscoveryState(
    listeners: seq<ListenerId>,
    shouldStartDiscoveryWhenPermissionsGranted: bool,
    scanPowerModeWhenPermissionsGranted: int,
    controllers: seq<DiscoveredController>,
    lostCheckScheduled: bool,
    notices: seq<Notice>)

  /** `nuimoDeviceNames`: "Nuimo", and the `other_nuimo_device_name` system property when set. */
  function DeviceNames(otherName: Option<string>): (names: seq<string>)
    ensures "Nuimo" in names
    ensures forall n :: n in names <==> n == "Nuimo" || otherName == Some(n)
  {
    ["Nuimo"] + (if otherName.Some? then [otherName.value] else [])
  }

  /** Whether the device's name is one of `names`; a device without a name never is. */
  predicate Accepted(names: seq<string>, device: Device) {
    device.name.Some? && device.name.value in names
  }

  /** No two entries share an address. */
  predicate UniqueAddresses(cs: seq<DiscoveredController>) {
    forall i, j :: 0 <= i < j < |cs| ==> cs[i].address != cs[j].address
  }

  function Addresses(cs: seq<DiscoveredController>): set<string> {
    set c | c in cs :: c.address
  }

  /** `discoveredControllers.find { it.address == address }`, as a position. */
  function IndexOfAddress(cs: seq<DiscoveredController>, address: string): (r: int)
    ensures r == -1 <==> address !in Addresses(cs)
    ensures r != -1 ==> 0 <= r < |cs| && cs[r].address == address
    ensures r != -1 ==> forall j :: 0 <= j < r ==> cs[j].address != address
    decreases |cs|
  {
    if cs == [] then -1
    else if cs[0].address == address then 0
    else
      var r := IndexOfAddress(cs[1..], address);
      assert Addresses(cs) == {cs[0].address} + Addresses(cs[1..]) by {
        assert cs == [cs[0]] + cs[1..];
      }
      if r == -1 then -1 else r + 1
  }

  /** One `onDiscoverNuimoController` call per listener, in list order. */
  function DiscoverNotices(listeners: seq<ListenerId>, address: string): (r: seq<Notice>)
    ensures |r| == |listeners| && forall k :: 0 <= k < |r| ==> r[k] == Discovered(listeners[k], address)
  {
    seq(|listeners|, k requires 0 <= k < |listeners| => Discovered(listeners[k], address))
  }

  /** One `onLoseNuimoController` call per listener, in list order. */
  function LoseNotices(listeners: seq<ListenerId>, address: string): (r: seq<Notice>)
    ensures |r| == |listeners| && forall k :: 0 <= k < |r| ==> r[k] == Lost(listeners[k], address)
  {
    seq(|listeners|, k requires 0 <= k < |listeners| => Lost(listeners[k], address))
  }

  /** `onDeviceFound(device)` at time `now`. */
  function Found(s: DiscoveryState, names: seq<string>, device: Device, now: int): DiscoveryState {
    if !Accepted(names, device) then s
    else
      var i := IndexOfAddress(s.controllers, device.address);
      if i != -1 then
        s.(controllers := s.controllers[i := s.controllers[i].(discoveryTimestamp := now)])
      else
        s.(controllers := s.controllers + [DiscoveredController(device.address, now)],
           notices := s.notices + DiscoverNotices(s.listeners, device.address))
  }

  /** `onDeviceFound` for each device, in order. */
  function FoundAll(s: DiscoveryState, names: seq<string>, devices: seq<Device>, now: int): DiscoveryState
    decreases |devices|
  {
    if devices == [] then s
    else Found(FoundAll(s, names, devices[..|devices| - 1], now), names, devices[|devices| - 1], now)
  }

  /** Whether an entry has not been seen for the timeout or longer. */
  predicate Expired(c: DiscoveredController, now: int) {
    now - c.discoveryTimestamp >= LostControllerTimeout
  }

  /** `lostControllers`: the expired entries, in order. */
  function LostControllers(cs: seq<DiscoveredController>, now: int): seq<DiscoveredController>
    decreases |cs|
  {
    if cs == [] then []
    else LostControllers(cs[..|cs| - 1], now) + (if Expired(cs[|cs| - 1], now) then [cs[|cs| - 1]] else [])
  }

  /** The entries that are not expired, in order. */
  function Survivors(cs: seq<DiscoveredController>, now: int): seq<DiscoveredController>
    decreases |cs|
  {
    if cs == [] then []
    else Survivors(cs[..|cs| - 1], now) + (if Expired(cs[|cs| - 1], now) then [] else [cs[|cs| - 1]])
  }

  /** `removeAll(lost)`: the entries not in `lost`, in order. */
  function RemoveAll(cs: seq<DiscoveredController>, lost: seq<DiscoveredController>): seq<DiscoveredController>
    decreases |cs|
  {
    if cs == [] then []
    else RemoveAll(cs[..|cs| - 1], lost) + (if cs[|cs| - 1] in lost then [] else [cs[|cs| - 1]])
  }

  /** Every listener told about every lost entry, entry by entry. */
  function LostNotices(lost: seq<DiscoveredController>, listeners: seq<ListenerId>): seq<Notice>
    decreases |lost|
  {
    if lost == [] then []
    else LostNotices(lost[..|lost| - 1], listeners) + LoseNotices(listeners, lost[|lost| - 1].address)
  }

  /** `CheckLostControllersTask.run()` at time `now`. */
  function LostChecked(s: DiscoveryState, now: int): DiscoveryState {
    var lost := LostControllers(s.controllers, now);
    s.(controllers := RemoveAll(s.controllers, lost), notices := s.notices + LostNotices(lost, s.listeners))
  }

  /** `startDiscovery(scanPowerMode)`: remembers the request before any check, then stops at the
      first check that fails; past the checks it empties the registry, registers the bonded Nuimos
      and schedules the lost-controller check. */
  function Started(s: DiscoveryState, names: seq<string>, scanPowerMode: int, env: Environment, now: int): (DiscoveryState, StartOutcome) {
    var s1 := s.(shouldStartDiscoveryWhenPermissionsGranted := true, scanPowerModeWhenPermissionsGranted := scanPowerMode);
    if !env.permissionsGranted then (s1, Returned(false))
    else if scanPowerMode < 0 || scanPowerMode > 2 then (s1, ThrewIllegalArgument)
    else if !env.bluetoothEnabled then (s1, Returned(false))
    else
      var s2 := FoundAll(s1.(controllers := []), names, env.bondedDevices, now);
      if !env.adapterOn then (s2, Returned(false))
      else (s2.(lostCheckScheduled := true), Returned(env.locationServiceEnabled))
  }

  /** `stopDiscovery()`: forgets a pending start and cancels the lost-controller check. */
  function Stopped(s: DiscoveryState): DiscoveryState {
    s.(shouldStartDiscoveryWhenPermissionsGranted := false, lostCheckScheduled := false)
  }

  // ---------------------------------------------------------------------------------------------
  // Properties of the registry

  /** An unnamed or foreign device changes nothing. */
  lemma ForeignDeviceIgnored(s: DiscoveryState, names: seq<string>, device: Device, now: int)
    requires !Accepted(names, device)
    ensures Found(s, names, device, now) == s
  {
  }

  /** A known address only has its timestamp refreshed: no entry is added, no other entry changes
      and no listener is called. */
  lemma KnownAddressRefreshed(s: DiscoveryState, names: seq<string>, device: Device, now: int)
    requires Accepted(names, device) && device.address in Addresses(s.controllers)
    ensures var r := Found(s, names, device, now);
      |r.controllers| == |s.controllers| && r.notices == s.notices &&
      forall k :: 0 <= k < |s.controllers| ==>
        r.controllers[k] == if s.controllers[k].address == device.address && k == IndexOfAddress(s.controllers, device.address)
          then DiscoveredController(device.address, now) else s.controllers[k]
  {
  }

  /** A new Nuimo is appended once, and every listener is told once, in list order. */
  lemma NewNuimoRegistered(s: DiscoveryState, names: seq<string>, device: Device, now: int)
    requires Accepted(names, device) && device.address !in Addresses(s.controllers)
    ensures var r := Found(s, names, device, now);
      r.controllers == s.controllers + [DiscoveredController(device.address, now)] &&
      r.notices == s.notices + DiscoverNotices(s.listeners, device.address)
  {
  }

  /** Replacing an entry by one with the same address keeps the addresses. */
  lemma RefreshKeepsAddresses(cs: seq<DiscoveredController>, i: nat, c: DiscoveredController)
    requires i < |cs| && c.address == cs[i].address
    ensures Addresses(cs[i := c]) == Addresses(cs)
  {
    var r := cs[i := c];
    forall a | a in Addresses(r) ensures a in Addresses(cs) {
      var k :| 0 <= k < |r| && r[k].address == a;
      assert cs[k] in cs;
    }
    forall a | a in Addresses(cs) ensures a in Addresses(r) {
      var k :| 0 <= k < |cs| && cs[k].address == a;
      assert r[k] in r;
    }
  }

  /** Appending an entry adds its address. */
  lemma AppendAddsAddress(cs: seq<DiscoveredController>, c: DiscoveredController)
    ensures Addresses(cs + [c]) == Addresses(cs) + {c.address}
  {
    var r := cs + [c];
    forall a | a in Addresses(r) ensures a in Addresses(cs) + {c.address} {
      var k :| 0 <= k < |r| && r[k].address == a;
      if k < |cs| { assert cs[k] in cs; }
    }
    forall a | a in Addresses(cs) ensures a in Addresses(r) {
      var k :| 0 <= k < |cs| && cs[k].address == a;
      assert r[k] in r;
    }
    assert r[|cs|] in r;
  }

  /** `onDeviceFound` never registers an address twice. */
  lemma FoundKeepsAddressesUnique(s: DiscoveryState, names: seq<string>, device: Device, now: int)
    requires UniqueAddresses(s.controllers)
    ensures UniqueAddresses(Found(s, names, device, now).controllers)
    ensures Addresses(Found(s, names, device, now).controllers)
         == Addresses(s.controllers) + (if Accepted(names, device) then {device.address} else {})
  {
    var cs := s.controllers;
    if Accepted(names, device) {
      var i := IndexOfAddress(cs, device.address);
      if i != -1 {
        RefreshKeepsAddresses(cs, i, DiscoveredController(device.address, now));
      } else {
        AppendAddsAddress(cs, DiscoveredController(device.address, now));
        forall j | 0 <= j < |cs| ensures cs[j].address != device.address {
          assert cs[j] in cs;
        }
      }
    }
  }

  /** Registering any devices keeps addresses unique. */
  lemma {:induction false} FoundAllKeepsAddressesUnique(s: DiscoveryState, names: seq<string>, devices: seq<Device>, now: int)
    requires UniqueAddresses(s.controllers)
    ensures UniqueAddresses(FoundAll(s, names, devices, now).controllers)
    decreases |devices|
  {
    if devices != [] {
      FoundAllKeepsAddressesUnique(s, names, devices[..|devices| - 1], now);
      FoundKeepsAddressesUnique(FoundAll(s, names, devices[..|devices| - 1], now), names, devices[|devices| - 1], now);
    }
  }

  /** Registering devices adds exactly the addresses of the accepted ones among them. */
  lemma {:induction false} FoundAllAddresses(s: DiscoveryState, names: seq<string>, devices: seq<Device>, now: int)
    requires UniqueAddresses(s.controllers)
    ensures Addresses(FoundAll(s, names, devices, now).controllers)
         == Addresses(s.controllers) + (set d | d in devices && Accepted(names, d) :: d.address)
    decreases |devices|
  {
    if devices != [] {
      var init, last := devices[..|devices| - 1], devices[|devices| - 1];
      FoundAllAddresses(s, names, init, now);
      FoundAllKeepsAddressesUnique(s, names, init, now);
      FoundKeepsAddressesUnique(FoundAll(s, names, init, now), names, last, now);
      assert devices == init + [last];
      assert (set d | d in devices && Accepted(names, d) :: d.address)
          == (set d | d in init && Accepted(names, d) :: d.address) + (if Accepted(names, last) then {last.address} else {});
    }
  }

  /** The lost check splits the registry: the lost entries are exactly the expired ones and the
      survivors exactly the others, each in registry order. */
  lemma {:induction false} LostAndSurvivorsPartition(cs: seq<DiscoveredController>, now: int)
    ensures forall c :: c in LostControllers(cs, now) <==> c in cs && Expired(c, now)
    ensures forall c :: c in Survivors(cs, now) <==> c in cs && !Expired(c, now)
    ensures multiset(LostControllers(cs, now)) + multiset(Survivors(cs, now)) == multiset(cs)
  {
    PartitionMultiset(cs, now);
    var lost, kept := LostControllers(cs, now), Survivors(cs, now);
    forall c ensures (c in lost <==> c in cs && Expired(c, now)) && (c in kept <==> c in cs && !Expired(c, now)) {
      assert multiset(cs)[c] == multiset(lost)[c] + multiset(kept)[c];
      assert c in cs <==> multiset(cs)[c] > 0;
      assert c in lost <==> multiset(lost)[c] > 0;
      assert c in kept <==> multiset(kept)[c] > 0;
    }
  }

  /** Lost entries and survivors together are the registry, expired ones on the lost side only. */
  lemma {:induction false} PartitionMultiset(cs: seq<DiscoveredController>, now: int)
    ensures multiset(LostControllers(cs, now)) + multiset(Survivors(cs, now)) == multiset(cs)
    ensures forall c :: c in LostControllers(cs, now) ==> Expired(c, now)
    ensures forall c :: c in Survivors(cs, now) ==> !Expired(c, now)
    decreases |cs|
  {
    if cs != [] {
      var init, last := cs[..|cs| - 1], cs[|cs| - 1];
      PartitionMultiset(init, now);
      assert cs == init + [last];
      assert multiset(cs) == multiset(init) + multiset{last};
    }
  }

  /** Lost entries and survivors together are as many as the registry had. */
  lemma PartitionSizes(cs: seq<DiscoveredController>, now: int)
    ensures |LostControllers(cs, now)| + |Survivors(cs, now)| == |cs|
  {
    LostAndSurvivorsPartition(cs, now);
    assert |multiset(LostControllers(cs, now)) + multiset(Survivors(cs, now))| == |multiset(cs)|;
  }

  /** `removeAll(lostControllers)` leaves exactly the survivors. */
  lemma {:induction false} RemoveAllLeavesSurvivors(cs: seq<DiscoveredController>, lost: seq<DiscoveredController>, now: int)
    requires forall c :: c in cs ==> (c in lost <==> Expired(c, now))
    ensures RemoveAll(cs, lost) == Survivors(cs, now)
    decreases |cs|
  {
    if cs != [] {
      var init := cs[..|cs| - 1];
      assert forall c :: c in init ==> c in cs;
      RemoveAllLeavesSurvivors(init, lost, now);
    }
  }

  /** The survivors keep their addresses unique. */
  lemma {:induction false} SurvivorsKeepAddressesUnique(cs: seq<DiscoveredController>, now: int)
    requires UniqueAddresses(cs)
    ensures UniqueAddresses(Survivors(cs, now))
    ensures Addresses(Survivors(cs, now)) <= Addresses(cs)
    decreases |cs|
  {
    if cs != [] {
      var init, last := cs[..|cs| - 1], cs[|cs| - 1];
      SurvivorsKeepAddressesUnique(init, now);
      var si := Survivors(init, now);
      if !Expired(last, now) {
        forall c | c in init ensures c.address != last.address {
          var k :| 0 <= k < |init| && init[k] == c;
          assert cs[k] == c;
        }
        assert last.address !in Addresses(si);
        forall j | 0 <= j < |si| ensures si[j].address != last.address {
          assert si[j] in si;
        }
      }
      var r := Survivors(cs, now);
      forall a | a in Addresses(r) ensures a in Addresses(cs) {
        var c :| c in r && c.address == a;
        if c in si {
          assert a in Addresses(si);
          var c' :| c' in init && c'.address == a;
          assert c' in cs;
        } else {
          assert c == last && last in cs;
        }
      }
    }
  }

  /** Every listener hears of every lost entry. */
  lemma {:induction false} EveryLossReported(lost: seq<DiscoveredController>, listeners: seq<ListenerId>, c: DiscoveredController, l: ListenerId)
    requires c in lost && l in listeners
    ensures Lost(l, c.address) in LostNotices(lost, listeners)
    decreases |lost|
  {
    var init, last := lost[..|lost| - 1], lost[|lost| - 1];
    assert lost == init + [last];
    if c == last {
      var k :| 0 <= k < |listeners| && listeners[k] == l;
      assert LoseNotices(listeners, last.address)[k] == Lost(l, c.address);
    } else {
      EveryLossReported(init, listeners, c, l);
    }
  }

  /** Only lost entries are reported: every notice names the address of a lost entry. */
  lemma {:induction false} OnlyLossesReported(lost: seq<DiscoveredController>, listeners: seq<ListenerId>)
    ensures forall n :: n in LostNotices(lost, listeners) ==> n.Lost? && n.address in Addresses(lost) && n.listener in listeners
    decreases |lost|
  {
    if lost != [] {
      var init, last := lost[..|lost| - 1], lost[|lost| - 1];
      OnlyLossesReported(init, listeners);
      assert Addresses(init) <= Addresses(lost) by {
        forall a | a in Addresses(init) ensures a in Addresses(lost) {
          var c :| c in init && c.address == a;
          assert c in lost;
        }
      }
      assert last in lost;
      forall n | n in LoseNotices(listeners, last.address) ensures n.Lost? && n.address in Addresses(lost) && n.listener in listeners {
        var k :| 0 <= k < |listeners| && LoseNotices(listeners, last.address)[k] == n;
      }
    }
  }

  /** Two different entries of a registry with unique addresses have different addresses. */
  lemma DistinctEntriesDistinctAddresses(cs: seq<DiscoveredController>, c: DiscoveredController, d: DiscoveredController)
    requires UniqueAddresses(cs) && c in cs && d in cs && c != d
    ensures c.address != d.address
  {
    var i :| 0 <= i < |cs| && cs[i] == c;
    var j :| 0 <= j < |cs| && cs[j] == d;
  }

  /** The lost check keeps exactly the entries that are not expired, and addresses stay unique. */
  lemma LostCheckKeepsSurvivors(s: DiscoveryState, now: int)
    requires UniqueAddresses(s.controllers)
    ensures LostChecked(s, now).controllers == Survivors(s.controllers, now)
    ensures UniqueAddresses(LostChecked(s, now).controllers)
    ensures LostChecked(s, now).listeners == s.listeners
  {
    LostAndSurvivorsPartition(s.controllers, now);
    RemoveAllLeavesSurvivors(s.controllers, LostControllers(s.controllers, now), now);
    SurvivorsKeepAddressesUnique(s.controllers, now);
  }

  /** The lost check tells every listener about every expired entry. */
  lemma LostCheckReportsEveryLoss(s: DiscoveryState, now: int, c: DiscoveredController, l: ListenerId)
    requires c in s.controllers && Expired(c, now) && l in s.listeners
    ensures Lost(l, c.address) in LostChecked(s, now).notices[|s.notices|..]
  {
    var lost := LostControllers(s.controllers, now);
    LostAndSurvivorsPartition(s.controllers, now);
    EveryLossReported(lost, s.listeners, c, l);
    assert LostChecked(s, now).notices[|s.notices|..] == LostNotices(lost, s.listeners);
  }

  /** The lost check reports no entry it keeps: every call it makes is a loss, to a listener,
      about an address no surviving entry has. */
  lemma LostCheckReportsNoSurvivor(s: DiscoveryState, now: int)
    requires UniqueAddresses(s.controllers)
    ensures forall n :: n in LostChecked(s, now).notices[|s.notices|..] ==>
      n.Lost? && n.listener in s.listeners && n.address !in Addresses(LostChecked(s, now).controllers)
  {
    var cs := s.controllers;
    var lost := LostControllers(cs, now);
    LostAndSurvivorsPartition(cs, now);
    LostCheckKeepsSurvivors(s, now);
    OnlyLossesReported(lost, s.listeners);
    var r := LostChecked(s, now);
    assert r.notices[|s.notices|..] == LostNotices(lost, s.listeners);
    forall n | n in r.notices[|s.notices|..] ensures n.address !in Addresses(r.controllers) {
      var d :| d in lost && d.address == n.address;
      forall c | c in r.controllers ensures c.address != n.address {
        assert c in cs && !Expired(c, now);
        DistinctEntriesDistinctAddresses(cs, c, d);
      }
    }
  }

  // ---------------------------------------------------------------------------------------------
  // Starting and stopping, and the permission answer

  /** Whatever the checks answer, `startDiscovery` first remembers that a start is wanted and in
      which mode; `stopDiscovery` forgets it. A start that gets past the Bluetooth check
      registers exactly the bonded Nuimos, each once; one that returns true has also scheduled
      the lost check. */
  lemma StartRemembersRequest(s: DiscoveryState, names: seq<string>, scanPowerMode: int, env: Environment, now: int)
    ensures var (r, outcome) := Started(s, names, scanPowerMode, env, now);
      r.shouldStartDiscoveryWhenPermissionsGranted && r.scanPowerModeWhenPermissionsGranted == scanPowerMode &&
      r.listeners == s.listeners &&
      (outcome == ThrewIllegalArgument <==> env.permissionsGranted && (scanPowerMode < 0 || scanPowerMode > 2)) &&
      (outcome == Returned(true) ==> r.lostCheckScheduled) &&
      (env.permissionsGranted && 0 <= scanPowerMode <= 2 && env.bluetoothEnabled ==>
        UniqueAddresses(r.controllers) &&
        (forall c :: c in r.controllers ==> exists d :: d in env.bondedDevices && d.address == c.address && Accepted(names, d)) &&
        (forall d :: d in env.bondedDevices && Accepted(names, d) ==> d.address in Addresses(r.controllers)))
    ensures !Stopped(s).shouldStartDiscoveryWhenPermissionsGranted && !Stopped(s).lostCheckScheduled
  {
    var s0 := s.(shouldStartDiscoveryWhenPermissionsGranted := true, scanPowerModeWhenPermissionsGranted := scanPowerMode, controllers := []);
    FoundAllKeepsAddressesUnique(s0, names, env.bondedDevices, now);
    FoundAllKeepsSettings(s0, names, env.bondedDevices, now);
    BondedOnly(s0, names, env.bondedDevices, now);
  }

  /** Registering devices changes only the registry and the listener calls. */
  lemma {:induction false} FoundAllKeepsSettings(s: DiscoveryState, names: seq<string>, devices: seq<Device>, now: int)
    ensures var r := FoundAll(s, names, devices, now);
      r.listeners == s.listeners && r.lostCheckScheduled == s.lostCheckScheduled &&
      r.shouldStartDiscoveryWhenPermissionsGranted == s.shouldStartDiscoveryWhenPermissionsGranted &&
      r.scanPowerModeWhenPermissionsGranted == s.scanPowerModeWhenPermissionsGranted
    decreases |devices|
  {
    if devices != [] {
      FoundAllKeepsSettings(s, names, devices[..|devices| - 1], now);
    }
  }

  /** Registering devices from an empty registry registers only accepted ones among them, and
      every accepted one among them. */
  lemma {:induction false} BondedOnly(s: DiscoveryState, names: seq<string>, devices: seq<Device>, now: int)
    requires s.controllers == []
    ensures forall c :: c in FoundAll(s, names, devices, now).controllers ==>
      exists d :: d in devices && d.address == c.address && Accepted(names, d)
    ensures forall d :: d in devices && Accepted(names, d) ==> d.address in Addresses(FoundAll(s, names, devices, now).controllers)
    decreases |devices|
  {
    FoundAllAddresses(s, names, devices, now);
    if devices != [] {
      var init, last := devices[..|devices| - 1], devices[|devices| - 1];
      BondedOnly(s, names, init, now);
      var t := FoundAll(s, names, init, now);
      forall c | c in Found(t, names, last, now).controllers
        ensures exists d :: d in devices && d.address == c.address && Accepted(names, d)
      {
        if c in t.controllers {
          var d :| d in init && d.address == c.address && Accepted(names, d);
          assert d in devices;
        } else {
          var k :| 0 <= k < |Found(t, names, last, now).controllers| && Found(t, names, last, now).controllers[k] == c;
          if k < |t.controllers| {
            var d :| d in init && d.address == t.controllers[k].address && Accepted(names, d);
            assert d in devices;
          } else {
            assert last in devices;
          }
        }
      }
    }
  }

  /** The permission guard as written at line 202: it lets an index equal to the number of
      results through. */
  predicate GuardPassesAsWritten(permissions: seq<string>, grantResults: seq<int>) {
    var permissionIndex := IndexOf(permissions, AccessCoarseLocation);
    !(permissionIndex < 0 || |grantResults| < permissionIndex)
  }

  /** One permission asked, no result given: the guard passes, and the read that follows would be
      out of bounds. */
  lemma GuardAdmitsMissingResult()
    ensures GuardPassesAsWritten([AccessCoarseLocation], [])
    ensures IndexOf([AccessCoarseLocation], AccessCoarseLocation) == 0
  {
    assert [AccessCoarseLocation][0] == AccessCoarseLocation;
  }

  /** The answer `onRequestPermissionsResult` evidently intends: false for another request code,
      for a permission not asked and for a missing result; otherwise whether it was granted. */
  function PermissionResult(requestCode: int, permissions: seq<string>, grantResults: seq<int>): (granted: bool)
    ensures granted <==>
      requestCode == PermissionsRequestCode && AccessCoarseLocation in permissions &&
      IndexOf(permissions, AccessCoarseLocation) < |grantResults| &&
      grantResults[IndexOf(permissions, AccessCoarseLocation)] == PermissionGranted
  {
    var permissionIndex := IndexOf(permissions, AccessCoarseLocation);
    if requestCode != PermissionsRequestCode then false
    else if permissionIndex < 0 || |grantResults| <= permissionIndex then false
    else grantResults[permissionIndex] == PermissionGranted
  }

  /** The guard as written passes for a valid index and for an index equal to the number of
      results. On a valid index the corrected answer is the result read there; at the end, where
      the source would read out of bounds, the corrected answer is false. */
  lemma GuardsAgreeExceptAtEnd(requestCode: int, permissions: seq<string>, grantResults: seq<int>)
    ensures var i := IndexOf(permissions, AccessCoarseLocation);
      GuardPassesAsWritten(permissions, grantResults) <==>
        (0 <= i < |grantResults| || (i >= 0 && i == |grantResults|))
    ensures var i := IndexOf(permissions, AccessCoarseLocation);
      requestCode == PermissionsRequestCode && 0 <= i < |grantResults| ==>
        GuardPassesAsWritten(permissions, grantResults) &&
        PermissionResult(requestCode, permissions, grantResults) == (grantResults[i] == PermissionGranted)
    ensures var i := IndexOf(permissions, AccessCoarseLocation);
      i == |grantResults| ==>
        GuardPassesAsWritten(permissions, grantResults) && !PermissionResult(requestCode, permissions, grantResults)
  {
  }

  // ---------------------------------------------------------------------------------------------
  // The manager object

  class DiscoveryManager {
    const nuimoDeviceNames: seq<string>
    var discoveryListeners: seq<ListenerId>
    var shouldStartDiscoveryWhenPermissionsGranted: bool
    var scanPowerModeWhenPermissionsGranted: int
    var discoveredControllers: seq<DiscoveredController>
    /** Whether the lost-controller timer is scheduled. */
    var lostCheckScheduled: bool
    /** Every discovery listener call made, oldest first. */
    var notices: seq<Notice>

    function State(): DiscoveryState
      reads this
    {
      DiscoveryState(discoveryListeners, shouldStartDiscoveryWhenPermissionsGranted, scanPowerModeWhenPermissionsGranted,
                     discoveredControllers, lostCheckScheduled, notices)
    }

    /** `otherNuimoDeviceName` is the `other_nuimo_device_name` system property, if set. */
    constructor(otherNuimoDeviceName: Option<string>)
      ensures nuimoDeviceNames == DeviceNames(otherNuimoDeviceName)
      ensures State() == DiscoveryState([], false, ScanModeLowPower, [], false, [])
    {
      nuimoDeviceNames := DeviceNames(otherNuimoDeviceName);
      discoveryListeners := [];
      shouldStartDiscoveryWhenPermissionsGranted := false;
      scanPowerModeWhenPermissionsGranted := ScanModeLowPower;
      discoveredControllers := [];
      lostCheckScheduled := false;
      notices := [];
    }

    method AddDiscoveryListener(discoveryListener: ListenerId)
      modifies this
      ensures State() == old(State()).(listeners := old(discoveryListeners) + [discoveryListener])
    {
      discoveryListeners := discoveryListeners + [discoveryListener];
    }

    method RemoveDiscoveryListener(discoveryListener: ListenerId)
      modifies this
      ensures State() == old(State()).(listeners := RemoveFirst(old(discoveryListeners), discoveryListener))
    {
      discoveryListeners := RemoveFirst(discoveryListeners, discoveryListener);
    }

    /** `discoveredControllers.find { ... }`, as a position or -1. */
    method FindController(address: string) returns (index: int)
      ensures index == IndexOfAddress(discoveredControllers, address)
    {
      for k := 0 to |discoveredControllers|
        invariant forall j :: 0 <= j < k ==> discoveredControllers[j].address != address
      {
        if discoveredControllers[k].address == address {
          return k;
        }
      }
      assert forall c :: c in discoveredControllers ==> c.address != address;
      return -1;
    }

    method OnDeviceFound(device: Device, now: int)
      modifies this
      ensures State() == Found(old(State()), nuimoDeviceNames, device, now)
    {
      if !(device.name.Some? && device.name.value in nuimoDeviceNames) {
        return;
      }
      var i := FindController(device.address);
      if i != -1 {
        discoveredControllers := discoveredControllers[i := discoveredControllers[i].(discoveryTimestamp := now)];
        return;
      }
      discoveredControllers := discoveredControllers + [DiscoveredController(device.address, now)];
      var told: seq<Notice> := [];
      for k := 0 to |discoveryListeners|
        invariant told == DiscoverNotices(discoveryListeners[..k], device.address)
      {
        told := told + [Discovered(discoveryListeners[k], device.address)];
      }
      assert discoveryListeners[..|discoveryListeners|] == discoveryListeners;
      notices := notices + told;
    }

    /** `CheckLostControllersTask.run()`, run by the timer at time `now`: the filter and the
        `removeAll` are the specification functions themselves; the calls to the listeners are
        the nested `forEach` loops. */
    method CheckLostControllers(now: int)
      modifies this
      ensures State() == LostChecked(old(State()), now)
    {
      var lostControllers := LostControllers(discoveredControllers, now);
      discoveredControllers := RemoveAll(discoveredControllers, lostControllers);
      var told := LossCalls(lostControllers, discoveryListeners);
      notices := notices + told;
    }

    /** The nested `forEach` of the lost check: each listener told about each lost entry. */
    static method LossCalls(lost: seq<DiscoveredController>, listeners: seq<ListenerId>) returns (told: seq<Notice>)
      ensures told == LostNotices(lost, listeners)
    {
      told := [];
      for k := 0 to |lost|
        invariant told == LostNotices(lost[..k], listeners)
      {
        var address := lost[k].address;
        var calls: seq<Notice> := [];
        for m := 0 to |listeners|
          invariant calls == LoseNotices(listeners[..m], address)
        {
          calls := calls + [Lost(listeners[m], address)];
        }
        assert listeners[..|listeners|] == listeners;
        told := told + calls;
        assert lost[..k + 1][..k] == lost[..k];
      }
      assert lost[..|lost|] == lost;
    }

    method StartDiscovery(scanPowerMode: int, env: Environment, now: int) returns (outcome: StartOutcome)
      modifies this
      ensures (State(), outcome) == Started(old(State()), nuimoDeviceNames, scanPowerMode, env, now)
    {
      shouldStartDiscoveryWhenPermissionsGranted := true;
      scanPowerModeWhenPermissionsGranted := scanPowerMode;
      if !env.permissionsGranted {
        return Returned(false);
      }
      if scanPowerMode < 0 || scanPowerMode > 2 {
        return ThrewIllegalArgument;
      }
      if !env.bluetoothEnabled {
        return Returned(false);
      }
      discoveredControllers := [];
      ghost var cleared := State();
      for k := 0 to |env.bondedDevices|
        invariant State() == FoundAll(cleared, nuimoDeviceNames, env.bondedDevices[..k], now)
      {
        OnDeviceFound(env.bondedDevices[k], now);
        assert env.bondedDevices[..k + 1][..k] == env.bondedDevices[..k];
      }
      assert env.bondedDevices[..|env.bondedDevices|] == env.bondedDevices;
      if !env.adapterOn {
        return Returned(false);
      }
      lostCheckScheduled := true;
      return Returned(env.locationServiceEnabled);
    }

    method StopDiscovery()
      modifies this
      ensures State() == Stopped(old(State()))
    {
      shouldStartDiscoveryWhenPermissionsGranted := false;
      lostCheckScheduled := false;
    }

    /** `onRequestPermissionsResult`, with the corrected guard: an index at or past the number of
        results is answered false (see `GuardPassesAsWritten` for the guard as written). A start
        that was pending is made again, with the environment `env`, when the permission is granted. */
    method OnRequestPermissionsResult(requestCode: int, permissions: seq<string>, grantResults: seq<int>, env: Environment, now: int)
      returns (permissionGranted: bool, restart: Option<StartOutcome>)
      modifies this
      ensures permissionGranted == PermissionResult(requestCode, permissions, grantResults)
      ensures restart.Some? <==> permissionGranted && old(shouldStartDiscoveryWhenPermissionsGranted)
      ensures restart.None? ==> State() == old(State())
      ensures restart.Some? ==>
        (State(), restart.value) == Started(old(State()), nuimoDeviceNames, old(scanPowerModeWhenPermissionsGranted), env, now)
    {
      restart := None;
      if requestCode != PermissionsRequestCode {
        return false, None;
      }
      var permissionIndex := IndexOf(permissions, AccessCoarseLocation);
      if permissionIndex < 0 || |grantResults| <= permissionIndex {
        return false, None;
      }
      permissionGranted := grantResults[permissionIndex] == PermissionGranted;
      if permissionGranted && shouldStartDiscoveryWhenPermissionsGranted {
        var outcome := StartDiscovery(scanPowerModeWhenPermissionsGranted, env, now);
        restart := Some(outcome);
      }
    }
  }
}
