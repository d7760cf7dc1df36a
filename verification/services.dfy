/** The service registry and the per-service status report:
    `load_services_config` reads the configured service list or falls back to
    the built-in defaults, `get_service_status` asks systemd for one unit's
    state, and `get_services_status` assembles one status record per
    configured entry. */
module Services {
  import opened Py
  import opened PyText

  /** The three states a service is reported in. */
  datatype RunState = Running | Stopped | Unknown

  /** How `systemctl is-active <unit>` ended: with its standard output, or by
      raising (no systemctl binary, a five-second timeout, a unit name the OS
      refuses). */
  datatype Probe = Ran(stdout: string) | Failed

  /** `get_service_status`: running exactly when the trimmed output is
      "active", unknown exactly when the probe raised, stopped otherwise
      (this includes units systemd does not know, for which systemctl prints
      "inactive"). */
  function ServiceState(probe: Probe): (state: RunState)
    ensures state == Running <==> probe.Ran? && Strip(probe.stdout) == "active"
    ensures state == Unknown <==> probe.Failed?
  {
    match probe
    case Ran(stdout) => if Strip(stdout) == "active" then Running else Stopped
    case Failed => Unknown
  }

  /** Whitespace around the word, such as the newline systemctl prints after
      it, does not change the verdict. */
  lemma ActiveWithSpace(a: string, b: string)
    requires forall i :: 0 <= i < |a| ==> IsSpace(a[i])
    requires forall i :: 0 <= i < |b| ==> IsSpace(b[i])
    ensures ServiceState(Ran(a + "active" + b)) == Running
  {
    StripAround(a, "active", b);
  }

  /** `get_service_status` applied to a configured name: a name that is not
      a string makes subprocess.run raise TypeError, which the bare except
      turns into unknown. `systemctl` stands for running the command. */
  function StatusOf(name: Json, systemctl: string -> Probe): (state: RunState)
    ensures !name.JStr? ==> state == Unknown
    ensures name.JStr? ==> state == ServiceState(systemctl(name.s))
  {
    if name.JStr? then ServiceState(systemctl(name.s)) else Unknown
  }

  // ---------------------------------------------------------------------
  // The registry

  function Descriptor(name: string, displayName: string, description: string): Json {
    JObj([("name", JStr(name)), ("display_name", JStr(displayName)), ("description", JStr(description))])
  }

  /** DEFAULT_SERVICES. */
  const DefaultServices: Json := JArr([
    Descriptor("ssh", "SSH Server", "Secure Shell daemon for remote access"),
    Descriptor("nginx", "Nginx", "Web server and reverse proxy"),
    Descriptor("docker", "Docker", "Container runtime platform"),
    Descriptor("cloudflared", "Cloudflared", "Cloudflare tunnel daemon")
  ])

  /** An object holding exactly the keys "name", "display_name" and
      "description", in that order. */
  predicate IsDescriptor(d: Json) {
    && d.JObj? && |d.fields| == 3
    && d.fields[0].0 == "name" && d.fields[1].0 == "display_name" && d.fields[2].0 == "description"
  }

  /** What opening and decoding config/services.json gave. `NotFound` is
      FileNotFoundError and `Invalid` is json.JSONDecodeError, the two errors
      the loader catches; `Unreadable` is any other error while opening or
      reading (permission denied, a directory, undecodable bytes), which it
      does not catch. */
  datatype ConfigFile = NotFound | Invalid | Unreadable | Decoded(doc: Json)

  /** `load_services_config`. */
  function LoadServicesConfig(file: ConfigFile): (r: Outcome<Json>)
    ensures r.Raised? <==> file.Unreadable? || (file.Decoded? && !file.doc.JObj?)
    ensures file.NotFound? || file.Invalid? ==> r == Returned(DefaultServices)
    ensures file.Decoded? && file.doc.JObj? ==>
              match Lookup(file.doc.fields, "services")
              case None => r == Returned(DefaultServices)
              case Some(v) => r == Returned(if v == JNull then DefaultServices else v)
  {
    match file
    case NotFound => Returned(DefaultServices)
    case Invalid => Returned(DefaultServices)
    case Unreadable => Raised
    case Decoded(doc) =>
      if !doc.JObj? then Raised  // a non-object document has no .get
      else
        var services := Get(doc.fields, "services", JNull);
        if services == JNull then Returned(DefaultServices) else Returned(services)
  }

  /** The fallback list holds four descriptors whose name, display name and
      description are strings, and no two of them share a name. */
  lemma DefaultsShape()
    ensures DefaultServices.JArr? && |DefaultServices.items| == 4
    ensures forall i :: 0 <= i < 4 ==>
              var d := DefaultServices.items[i];
              IsDescriptor(d) && d.fields[0].1.JStr? && d.fields[1].1.JStr? && d.fields[2].1.JStr?
    ensures forall i, j :: 0 <= i < j < 4 ==>
              DefaultServices.items[i].fields[0].1 != DefaultServices.items[j].fields[0].1
  {
  }

  // ---------------------------------------------------------------------
  // Status records

  /** One element of the list `get_services_status` returns. */
  datatype ServiceStatus = ServiceStatus(name: Json, displayName: Json, description: Json, status: RunState)

  /** The record for one configured entry. Subscripting a non-object with
      'name' raises TypeError, and an object without "name" raises KeyError;
      neither is caught. A "display_name" or "description" that is present
      is taken as it is, null included. */
  function StatusRecord(entry: Json, systemctl: string -> Probe): (r: Outcome<ServiceStatus>)
    ensures r.Returned? <==> entry.JObj? && Lookup(entry.fields, "name").Some?
  {
    if !entry.JObj? then Raised
    else match Lookup(entry.fields, "name")
      case None => Raised
      case Some(name) =>
        Returned(ServiceStatus(name,
                               Get(entry.fields, "display_name", name),
                               Get(entry.fields, "description", JStr("")),
                               StatusOf(name, systemctl)))
  }

  /** StatusRecord with the systemd probe fixed, as the loop applies it. */
  function RecordFor(systemctl: string -> Probe): Json -> Outcome<ServiceStatus> {
    entry => StatusRecord(entry, systemctl)
  }

  /** What `get_services_status` returns, or Raised when an exception
      escapes it. */
  function ServicesStatus(file: ConfigFile, systemctl: string -> Probe): Outcome<seq<ServiceStatus>> {
    match LoadServicesConfig(file)
    case Raised => Raised
    case Returned(services) =>
      match Iterate(services)
      case Raised => Raised
      case Returned(entries) => Traverse(entries, RecordFor(systemctl))
  }

  /** `get_services_status`: load the configuration, then append one record
      per entry, in order. */
  method GetServicesStatus(file: ConfigFile, systemctl: string -> Probe)
    returns (r: Outcome<seq<ServiceStatus>>)
    ensures r == ServicesStatus(file, systemctl)
  {
    var config := LoadServicesConfig(file);
    if config.Raised? {
      return Raised;
    }
    var iteration := Iterate(config.value);
    if iteration.Raised? {
      return Raised;
    }
    var entries := iteration.value;
    var serviceStatus: seq<ServiceStatus> := [];
    var i := 0;
    while i < |entries|
      invariant 0 <= i <= |entries|
      invariant Traverse(entries[..i], RecordFor(systemctl)) == Returned(serviceStatus)
    {
      TraverseStep(entries, RecordFor(systemctl), i);
      var record := StatusRecord(entries[i], systemctl);
      if record.Raised? {
        TraverseRaisedPrefix(entries, RecordFor(systemctl), i + 1);
        return Raised;
      }
      serviceStatus := serviceStatus + [record.value];
      i := i + 1;
    }
    assert entries[..|entries|] == entries;
    r := Returned(serviceStatus);
  }

  /** The report holds one record per configured entry, in entry order,
      and is produced exactly when every entry is an object with a "name". */
  lemma ReportOneToOne(file: ConfigFile, systemctl: string -> Probe, entries: seq<Json>)
    requires LoadServicesConfig(file).Returned? && Iterate(LoadServicesConfig(file).value) == Returned(entries)
    ensures ServicesStatus(file, systemctl).Returned? <==>
              forall i :: 0 <= i < |entries| ==> entries[i].JObj? && Lookup(entries[i].fields, "name").Some?
    ensures ServicesStatus(file, systemctl).Returned? ==>
              var rs := ServicesStatus(file, systemctl).value;
              |rs| == |entries| && forall i :: 0 <= i < |entries| ==> StatusRecord(entries[i], systemctl) == Returned(rs[i])
  {
    TraverseOneToOne(entries, RecordFor(systemctl));
  }

  /** A record takes its name from the entry; its display name is the
      entry's "display_name" when the key is present and the name otherwise;
      its description is the entry's "description" when present and the
      empty string otherwise; its state is systemd's answer for the name. */
  lemma RecordDefaults(entry: Json, systemctl: string -> Probe)
    requires StatusRecord(entry, systemctl).Returned?
    ensures var r := StatusRecord(entry, systemctl).value;
            var fs := entry.fields;
            && Lookup(fs, "name") == Some(r.name)
            && r.status == StatusOf(r.name, systemctl)
            && ReadsAs(fs, "display_name", r.name, r.displayName)
            && ReadsAs(fs, "description", JStr(""), r.description)
  {
  }

  /** The records of the default services, in their fixed order: each
      descriptor's name, display name and description, read by position,
      with systemd's answer for the name. */
  function DefaultRecords(systemctl: string -> Probe): (rs: seq<ServiceStatus>)
    ensures |rs| == |DefaultServices.items|
  {
    DefaultsShape();
    var ds := DefaultServices.items;
    seq(|ds|, i requires 0 <= i < |ds| =>
      var fs := ds[i].fields;
      ServiceStatus(fs[0].1, fs[1].1, fs[2].1, StatusOf(fs[0].1, systemctl)))
  }

  /** With a missing or undecodable configuration file, or one without a
      usable "services" list, the report covers the four default services
      in their fixed order, each with its display name and description. */
  lemma DefaultReport(file: ConfigFile, systemctl: string -> Probe)
    requires LoadServicesConfig(file) == Returned(DefaultServices)
    ensures ServicesStatus(file, systemctl) == Returned(DefaultRecords(systemctl))
  {
    var ds := DefaultServices.items;
    assert Iterate(DefaultServices) == Returned(ds);
    assert ServicesStatus(file, systemctl) == Traverse(ds, RecordFor(systemctl));
    DefaultTraverse(systemctl);
  }

  lemma DefaultTraverse(systemctl: string -> Probe)
    ensures Traverse(DefaultServices.items, RecordFor(systemctl)) == Returned(DefaultRecords(systemctl))
  {
    DefaultRecordsEach(systemctl);
    TraverseAll(DefaultServices.items, RecordFor(systemctl), DefaultRecords(systemctl));
  }

  lemma DefaultRecordsEach(systemctl: string -> Probe)
    ensures |DefaultServices.items| == |DefaultRecords(systemctl)|
    ensures forall i :: 0 <= i < |DefaultServices.items| ==>
              RecordFor(systemctl)(DefaultServices.items[i]) == Returned(DefaultRecords(systemctl)[i])
  {
    DefaultsShape();
    forall i | 0 <= i < |DefaultServices.items|
      ensures RecordFor(systemctl)(DefaultServices.items[i]) == Returned(DefaultRecords(systemctl)[i])
    {
      DescriptorRecord(DefaultServices.items[i], systemctl);
    }
  }

  /** A descriptor's record takes its three fields by position. */
  lemma DescriptorRecord(d: Json, systemctl: string -> Probe)
    requires IsDescriptor(d)
    ensures var fs := d.fields;
            StatusRecord(d, systemctl) == Returned(ServiceStatus(fs[0].1, fs[1].1, fs[2].1, StatusOf(fs[0].1, systemctl)))
  {
    var fs := d.fields;
    assert fs[..2][..1] == [fs[0]];
    assert Lookup(fs, "name") == Lookup(fs[..2], "name") == Lookup(fs[..2][..1], "name");
    assert Lookup(fs, "display_name") == Lookup(fs[..2], "display_name");
    assert fs[..2][1] == fs[1];
  }
}
