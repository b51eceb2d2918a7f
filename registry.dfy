/**
 * The fixed signal registry of the entropy evaluation (`signal_metadata`):
 * for every known signal name, whether a user can reset it and which
 * privilege level reading it requires.
 */
module SignalRegistry {
  import opened Wrappers

  /** The metadata of one signal; both fields are the registry's literal strings. */
  datatype SignalMetadata = SignalMetadata(userResettable: string, readPrivileges: string)

  /** One `name: {...}` item of the registry's dictionary display. */
  datatype Entry = Entry(name: string, metadata: SignalMetadata)

  /** The metadata given to a name the registry does not know: empty strings. */
  const Unknown := SignalMetadata("", "")

  /** An entry the registry may hold: "Yes"/"No" and "local"/"local root". */
  predicate WellFormed(md: SignalMetadata) {
    && (md.userResettable == "Yes" || md.userResettable == "No")
    && (md.readPrivileges == "local" || md.readPrivileges == "local root")
  }

  /** The names of the known signals. */
  const DeviceModel := "Device Model"
  const DeviceVendor := "Device Vendor"
  const MainBoardProductUuid := "Main Board Product UUID"
  const MainBoardProductSerial := "Main Board Product Serial"
  const StorageDevicesUuids := "Storage Devices UUIDs"
  const ProcessorModelName := "Processor Model Name"
  const TotalMemoryRam := "Total Memory (RAM)"
  const TotalDiskSpace := "Total Disk Space"
  const MachineId := "Machine ID"
  const DeviceHostid := "Device hostid"
  const Hostname := "Hostname"
  const RandomBootUuid := "Random Boot UUID"
  const PrivateIpAddress := "Private IP Address"
  const PublicIpAddress := "Public IP Address"
  const MacAddress := "MAC Address"
  const MainNetworkInterface := "Main Network Interface"
  const OsLocaleSettings := "OS Locale Settings"
  const KernelVersion := "Kernel Version"
  const OsVersion := "OS Version"
  const LastBootTime := "Last Boot Time"

  /** The signals whose reading needs root: the two main-board identifiers. */
  predicate RootToRead(name: string) {
    name == MainBoardProductUuid || name == MainBoardProductSerial
  }

  /** The signals a user can reset. */
  predicate ResettableByUser(name: string) {
    || name == StorageDevicesUuids || name == TotalDiskSpace || name == MachineId
    || name == DeviceHostid || name == Hostname || name == PrivateIpAddress
    || name == PublicIpAddress || name == MacAddress || name == OsLocaleSettings
  }

  /** The registry's items in the order they are written: hardware, software, network and OS signals. */
  const Entries: seq<Entry> := [
    // hardware signals
    Entry(DeviceModel, SignalMetadata("No", "local")),
    Entry(DeviceVendor, SignalMetadata("No", "local")),
    Entry(MainBoardProductUuid, SignalMetadata("No", "local root")),
    Entry(MainBoardProductSerial, SignalMetadata("No", "local root")),
    Entry(StorageDevicesUuids, SignalMetadata("Yes", "local")),
    Entry(ProcessorModelName, SignalMetadata("No", "local")),
    Entry(TotalMemoryRam, SignalMetadata("No", "local")),
    Entry(TotalDiskSpace, SignalMetadata("Yes", "local")),
    // software signals
    Entry(MachineId, SignalMetadata("Yes", "local")),
    Entry(DeviceHostid, SignalMetadata("Yes", "local")),
    Entry(Hostname, SignalMetadata("Yes", "local")),
    Entry(RandomBootUuid, SignalMetadata("No", "local")),
    // network-related signals
    Entry(PrivateIpAddress, SignalMetadata("Yes", "local")),
    Entry(PublicIpAddress, SignalMetadata("Yes", "local")),
    Entry(MacAddress, SignalMetadata("Yes", "local")),
    Entry(MainNetworkInterface, SignalMetadata("No", "local")),
    // OS signals
    Entry(OsLocaleSettings, SignalMetadata("Yes", "local")),
    Entry(KernelVersion, SignalMetadata("No", "local")),
    Entry(OsVersion, SignalMetadata("No", "local")),
    Entry(LastBootTime, SignalMetadata("No", "local"))
  ]

  predicate DistinctNames(es: seq<Entry>) {
    forall i, j :: 0 <= i < j < |es| ==> es[i].name != es[j].name
  }

  /** The twenty items name twenty different signals, so no item of the display is shadowed. */
  lemma EntriesDistinct()
    ensures |Entries| == 20 && DistinctNames(Entries)
  {
  }

  /**
   * Every item's name has at least eight characters. The registry states no
   * such rule; this lemma only serves to show cheaply that a short name such
   * as "Uptime" is not registered.
   */
  lemma EntriesNameLengths()
    ensures forall i :: 0 <= i < |Entries| ==> |Entries[i].name| >= 8
  {
  }

  /** Every item is "Yes"/"No" and "local"/"local root". */
  lemma EntriesWellFormed()
    ensures forall i :: 0 <= i < |Entries| ==> WellFormed(Entries[i].metadata)
  {
  }

  /** An item says "local root" exactly when `RootToRead` holds of its name. */
  lemma EntriesRootToRead()
    ensures forall i :: 0 <= i < |Entries| ==>
              (Entries[i].metadata.readPrivileges == "local root" <==> RootToRead(Entries[i].name))
  {
  }

  /** An item says "Yes" exactly when `ResettableByUser` holds of its name. */
  lemma EntriesResettable()
    ensures forall i :: 0 <= i < |Entries| ==>
              (Entries[i].metadata.userResettable == "Yes" <==> ResettableByUser(Entries[i].name))
  {
  }

  /**
   * The dictionary a Python dictionary display builds from its items: items are
   * inserted left to right, so a later item with the same name replaces an earlier one.
   */
  function FromDisplay(es: seq<Entry>): (m: map<string, SignalMetadata>)
    ensures forall name :: name in m <==> exists i :: 0 <= i < |es| && es[i].name == name
  {
    if es == [] then map[]
    else
      var n := |es| - 1;
      assert forall i :: 0 <= i < n ==> es[..n][i] == es[i];
      FromDisplay(es[..n])[es[n].name := es[n].metadata]
  }

  /** With distinct names, every item's metadata is what the dictionary holds under its name. */
  lemma {:induction false} FromDisplayAt(es: seq<Entry>, i: nat)
    requires DistinctNames(es) && i < |es|
    ensures es[i].name in FromDisplay(es) && FromDisplay(es)[es[i].name] == es[i].metadata
  {
    var n := |es| - 1;
    if i < n {
      FromDisplayAt(es[..n], i);
    }
  }

  /** With distinct names, the dictionary has one key per item. */
  lemma {:induction false} FromDisplaySize(es: seq<Entry>)
    requires DistinctNames(es)
    ensures |FromDisplay(es)| == |es|
  {
    if es != [] {
      var n := |es| - 1;
      FromDisplaySize(es[..n]);
      assert es[n].name !in FromDisplay(es[..n]);
    }
  }

  /** `signal_metadata`: twenty signals, each "Yes"/"No" and "local"/"local root". */
  function Registry(): (m: map<string, SignalMetadata>)
    ensures |m| == 20
    ensures forall name :: name in m ==> WellFormed(m[name])
  {
    EntriesDistinct();
    EntriesWellFormed();
    FromDisplaySize(Entries);
    forall i | 0 <= i < |Entries|
      ensures Entries[i].name in FromDisplay(Entries)
      ensures FromDisplay(Entries)[Entries[i].name] == Entries[i].metadata
    {
      FromDisplayAt(Entries, i);
    }
    FromDisplay(Entries)
  }

  /** The registry holds exactly the display's items, each under its own name. */
  lemma RegistryEntries()
    ensures forall i :: 0 <= i < |Entries| ==>
              Entries[i].name in Registry() && Registry()[Entries[i].name] == Entries[i].metadata
    ensures forall name :: name in Registry() <==> exists i :: 0 <= i < |Entries| && Entries[i].name == name
  {
    EntriesDistinct();
    forall i | 0 <= i < |Entries|
      ensures Entries[i].name in FromDisplay(Entries)
      ensures FromDisplay(Entries)[Entries[i].name] == Entries[i].metadata
    {
      FromDisplayAt(Entries, i);
    }
  }

  /**
   * Every registry name has at least eight characters: a helper that rules
   * out short names such as "Uptime" without comparing against all twenty.
   */
  lemma RegistryNameLengths()
    ensures forall name :: name in Registry() ==> |name| >= 8
  {
    RegistryEntries();
    EntriesNameLengths();
    forall name | name in Registry() ensures |name| >= 8 {
      var i :| 0 <= i < |Entries| && Entries[i].name == name;
    }
  }

  /** An item of the display is an entry of the registry. */
  lemma RegistryHas(e: Entry)
    requires e in Entries
    ensures e.name in Registry() && Registry()[e.name] == e.metadata
  {
    RegistryEntries();
    var i :| 0 <= i < |Entries| && Entries[i] == e;
  }

  /** Exactly the two main-board identifiers need root to read. */
  lemma RegistryRootOnly()
    ensures MainBoardProductUuid in Registry() && MainBoardProductSerial in Registry()
    ensures forall name :: name in Registry() ==>
              (Registry()[name].readPrivileges == "local root" <==> RootToRead(name))
  {
    var m := Registry();
    RegistryEntries();
    EntriesRootToRead();
    forall name | name in m
      ensures m[name].readPrivileges == "local root" <==> RootToRead(name)
    {
      var i :| 0 <= i < |Entries| && Entries[i].name == name;
    }
    RegistryHas(Entry(MainBoardProductUuid, SignalMetadata("No", "local root")));
    RegistryHas(Entry(MainBoardProductSerial, SignalMetadata("No", "local root")));
  }

  /** Exactly the nine signals of `ResettableByUser` can be reset by a user. */
  lemma RegistryResettable()
    ensures forall name :: name in Registry() ==>
              (Registry()[name].userResettable == "Yes" <==> ResettableByUser(name))
  {
    var m := Registry();
    RegistryEntries();
    EntriesResettable();
    forall name | name in m
      ensures m[name].userResettable == "Yes" <==> ResettableByUser(name)
    {
      var i :| 0 <= i < |Entries| && Entries[i].name == name;
    }
  }

  /** Every signal of `ResettableByUser` is in the registry. */
  lemma ResettableKnown()
    ensures StorageDevicesUuids in Registry() && TotalDiskSpace in Registry() && MachineId in Registry()
    ensures DeviceHostid in Registry() && Hostname in Registry() && PrivateIpAddress in Registry()
    ensures PublicIpAddress in Registry() && MacAddress in Registry() && OsLocaleSettings in Registry()
  {
    RegistryHas(Entry(StorageDevicesUuids, SignalMetadata("Yes", "local")));
    RegistryHas(Entry(TotalDiskSpace, SignalMetadata("Yes", "local")));
    RegistryHas(Entry(MachineId, SignalMetadata("Yes", "local")));
    RegistryHas(Entry(DeviceHostid, SignalMetadata("Yes", "local")));
    RegistryHas(Entry(Hostname, SignalMetadata("Yes", "local")));
    RegistryHas(Entry(PrivateIpAddress, SignalMetadata("Yes", "local")));
    RegistryHas(Entry(PublicIpAddress, SignalMetadata("Yes", "local")));
    RegistryHas(Entry(MacAddress, SignalMetadata("Yes", "local")));
    RegistryHas(Entry(OsLocaleSettings, SignalMetadata("Yes", "local")));
  }

  /**
   * `signal_metadata.get(name, {})` then `.get(field, "")`: the registry entry of a
   * known name, and empty metadata for an absent or unknown name; it never fails.
   */
  function Lookup(name: Option<string>): (md: SignalMetadata)
    ensures WellFormed(md) <==> name.Some? && name.value in Registry()
    ensures name.Some? && name.value in Registry() ==> md == Registry()[name.value]
    ensures !WellFormed(md) ==> md == Unknown
  {
    match name
    case Some(n) => if n in Registry() then Registry()[n] else Unknown
    case None => Unknown
  }
}
