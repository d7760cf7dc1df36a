/** `process_device` and `get_disk_info`: reshape the block devices that
    `lsblk -J -o NAME,SIZE,TYPE,MOUNTPOINT` reports into the device list the
    dashboard shows, with disk usage for every mounted device and partition. */
module Disk {
  import opened Py

  /** The byte counts `psutil.disk_usage` reports for a mounted filesystem. */
  datatype Usage = Usage(total: nat, used: nat, free: nat)

  /** The `usage` entry of a device or partition: the measured counts, or
      'unavailable'. */
  datatype UsageField = Measured(usage: Usage) | Unavailable

  /** One element of a device's `children`. */
  datatype ChildInfo = ChildInfo(name: Json, size: Json, kind: Json, mountpoint: Json,
                                 usage: Option<UsageField>)

  /** The dictionary `process_device` returns; `usage` is None where the
      dictionary has no such key. */
  datatype DeviceInfo = DeviceInfo(name: Json, size: Json, kind: Json, children: seq<ChildInfo>,
                                   usage: Option<UsageField>, mountpoints: seq<Json>)

  /** The usage entry for a mountpoint. `usageOf(m)` is what
      `psutil.disk_usage(m)` gave, None when it raised; a filesystem of
      total size zero makes the percentage divide by zero. The bare except
      turns both failures into 'unavailable'. */
  function UsageAt(mountpoint: Json, usageOf: Json -> Option<Usage>): (u: UsageField)
    ensures u.Measured? <==> usageOf(mountpoint).Some? && usageOf(mountpoint).value.total > 0
    ensures u.Measured? ==> u.usage == usageOf(mountpoint).value
  {
    match usageOf(mountpoint)
    case None => Unavailable
    case Some(usage) => if usage.total == 0 then Unavailable else Measured(usage)
  }

  /** The usage key of a device or partition: present exactly when its
      mountpoint is truthy, and then holding that mountpoint's usage. */
  function UsageKey(mountpoint: Json, usageOf: Json -> Option<Usage>): (u: Option<UsageField>)
    ensures u.Some? <==> Truthy(mountpoint)
    ensures u.Some? ==> u.value == UsageAt(mountpoint, usageOf)
  {
    if Truthy(mountpoint) then Some(UsageAt(mountpoint, usageOf)) else None
  }

  /** The entry for one child; calling `.get` on a child that is not an
      object raises AttributeError, which `process_device` does not catch. */
  function ChildRecord(child: Json, usageOf: Json -> Option<Usage>): (r: Outcome<ChildInfo>)
    ensures r.Returned? <==> child.JObj?
  {
    if !child.JObj? then Raised
    else
      var fs := child.fields;
      var mountpoint := Get(fs, "mountpoint", JNull);
      Returned(ChildInfo(Get(fs, "name", JStr("unknown")), Get(fs, "size", JStr("unknown")),
                         Get(fs, "type", JStr("unknown")), mountpoint, UsageKey(mountpoint, usageOf)))
  }

  /** `info` is the entry `process_device` builds for `child`: name, size
      and type read with default 'unknown', the mountpoint read with default
      None, and the usage key for that mountpoint. */
  predicate ChildShape(child: Json, usageOf: Json -> Option<Usage>, info: ChildInfo) {
    && child.JObj?
    && ReadsAs(child.fields, "name", JStr("unknown"), info.name)
    && ReadsAs(child.fields, "size", JStr("unknown"), info.size)
    && ReadsAs(child.fields, "type", JStr("unknown"), info.kind)
    && ReadsAs(child.fields, "mountpoint", JNull, info.mountpoint)
    && info.usage == UsageKey(info.mountpoint, usageOf)
  }

  /** The entry of an object child copies the fields that are present,
      defaults the missing ones, and carries the usage of its mountpoint. */
  lemma ChildRecordShape(child: Json, usageOf: Json -> Option<Usage>)
    requires child.JObj?
    ensures ChildShape(child, usageOf, ChildRecord(child, usageOf).value)
  {
  }

  function ChildFor(usageOf: Json -> Option<Usage>): Json -> Outcome<ChildInfo> {
    child => ChildRecord(child, usageOf)
  }

  /** The truthy child mountpoints, in child order. */
  function MountedChildren(infos: seq<ChildInfo>): seq<Json> {
    if infos == [] then []
    else
      var last := infos[|infos| - 1].mountpoint;
      MountedChildren(infos[..|infos| - 1]) + (if Truthy(last) then [last] else [])
  }

  /** The device's own mountpoint when it is truthy, as a list. */
  function OwnMount(fields: seq<(string, Json)>): seq<Json> {
    var own := Get(fields, "mountpoint", JNull);
    if Truthy(own) then [own] else []
  }

  /** The entries for a device's children, or Raised when iterating them or
      reading one of them raises. */
  function ChildrenRecords(fields: seq<(string, Json)>, usageOf: Json -> Option<Usage>): Outcome<seq<ChildInfo>> {
    match Iterate(Get(fields, "children", JArr([])))
    case Raised => Raised
    case Returned(children) => Traverse(children, ChildFor(usageOf))
  }

  /** The dictionary built for a device once its children are processed. */
  function Assemble(fields: seq<(string, Json)>, infos: seq<ChildInfo>, usageOf: Json -> Option<Usage>): DeviceInfo {
    DeviceInfo(Get(fields, "name", JStr("unknown")), Get(fields, "size", JStr("unknown")),
               Get(fields, "type", JStr("unknown")), infos,
               UsageKey(Get(fields, "mountpoint", JNull), usageOf),
               OwnMount(fields) + MountedChildren(infos))
  }

  /** What `process_device(device)` returns, or Raised when an exception
      escapes it. Only an object has a record, and its own truthy
      mountpoint heads the mountpoints list. */
  function DeviceRecord(device: Json, usageOf: Json -> Option<Usage>): (r: Outcome<DeviceInfo>)
    ensures r.Returned? ==> device.JObj?
    ensures r.Returned? ==> OwnMount(device.fields) <= r.value.mountpoints
  {
    if !device.JObj? then Raised
    else match ChildrenRecords(device.fields, usageOf)
      case Raised => Raised
      case Returned(infos) => Returned(Assemble(device.fields, infos, usageOf))
  }

  lemma MountedChildrenAppend(infos: seq<ChildInfo>, c: ChildInfo)
    ensures MountedChildren(infos + [c])
              == MountedChildren(infos) + (if Truthy(c.mountpoint) then [c.mountpoint] else [])
  {
    assert (infos + [c])[..|infos|] == infos;
  }

  lemma ChildStep(children: seq<Json>, entry: Json -> Outcome<ChildInfo>, i: nat, infos: seq<ChildInfo>, info: ChildInfo)
    requires i < |children|
    requires Traverse(children[..i], entry) == Returned(infos)
    requires entry(children[i]) == Returned(info)
    ensures Traverse(children[..i + 1], entry) == Returned(infos + [info])
    ensures MountedChildren(infos + [info])
              == if Truthy(info.mountpoint) then MountedChildren(infos) + [info.mountpoint] else MountedChildren(infos)
  {
    TraverseStep(children, entry, i);
    MountedChildrenAppend(infos, info);
  }

  /** The loop of `process_device` over the children, with `entry` building
      the entry of one child (ChildFor in `process_device`): one entry per
      child, in order, and the truthy child mountpoints appended to
      `mounted`. */
  method ProcessChildren(children: seq<Json>, entry: Json -> Outcome<ChildInfo>, mounted: seq<Json>)
    returns (r: Outcome<seq<ChildInfo>>, mountpoints: seq<Json>)
    ensures r == Traverse(children, entry)
    ensures r.Returned? ==> mountpoints == mounted + MountedChildren(r.value)
  {
    mountpoints := mounted;
    var infos: seq<ChildInfo> := [];
    var i := 0;
    while i < |children|
      invariant 0 <= i <= |children|
      invariant Traverse(children[..i], entry) == Returned(infos)
      invariant mountpoints == mounted + MountedChildren(infos)
    {
      var child := entry(children[i]);
      if child.Raised? {
        TraverseStep(children, entry, i);
        TraverseRaisedPrefix(children, entry, i + 1);
        return Raised, mountpoints;
      }
      var info := child.value;
      ChildStep(children, entry, i, infos, info);
      if Truthy(info.mountpoint) {
        mountpoints := mountpoints + [info.mountpoint];
      }
      infos := infos + [info];
      i := i + 1;
    }
    assert children[..|children|] == children;
    r := Returned(infos);
  }

  /** `process_device`: copy the device's name, size and type, collect the
      device's own mountpoint, process the children, then add the device's
      usage. */
  method ProcessDevice(device: Json, usageOf: Json -> Option<Usage>) returns (r: Outcome<DeviceInfo>)
    ensures r == DeviceRecord(device, usageOf)
  {
    if !device.JObj? {
      return Raised;
    }
    var fs := device.fields;
    var mountpoints: seq<Json> := [];
    var own := Get(fs, "mountpoint", JNull);
    if Truthy(own) {
      mountpoints := mountpoints + [own];
    }
    var iteration := Iterate(Get(fs, "children", JArr([])));
    if iteration.Raised? {
      return Raised;
    }
    assert mountpoints == OwnMount(fs);
    var infos;
    infos, mountpoints := ProcessChildren(iteration.value, ChildFor(usageOf), mountpoints);
    assert infos == ChildrenRecords(fs, usageOf);
    if infos.Raised? {
      return Raised;
    }
    r := Returned(DeviceInfo(Get(fs, "name", JStr("unknown")), Get(fs, "size", JStr("unknown")),
                             Get(fs, "type", JStr("unknown")), infos.value,
                             UsageKey(own, usageOf), mountpoints));
  }

  /** A mountpoint is collected from the children exactly when some child
      has it as a truthy mountpoint. */
  lemma {:induction false} MountedChildrenMembers(infos: seq<ChildInfo>, m: Json)
    ensures m in MountedChildren(infos) <==>
              exists i :: 0 <= i < |infos| && infos[i].mountpoint == m && Truthy(m)
  {
    if infos != [] {
      var n := |infos| - 1;
      MountedChildrenMembers(infos[..n], m);
      assert forall i :: 0 <= i < n ==> infos[..n][i] == infos[i];
    }
  }

  /** One mountpoint is collected per child with a truthy mountpoint, so two
      partitions mounted at the same place are both listed. */
  lemma {:induction false} MountedChildrenCount(infos: seq<ChildInfo>)
    ensures |MountedChildren(infos)| == |set i: nat | i < |infos| && Truthy(infos[i].mountpoint)|
  {
    if infos != [] {
      var n := |infos| - 1;
      var init := infos[..n];
      MountedChildrenCount(init);
      var before := set i: nat | i < |init| && Truthy(init[i].mountpoint);
      var after := set i: nat | i < |infos| && Truthy(infos[i].mountpoint);
      assert n !in before;
      if Truthy(infos[n].mountpoint) {
        assert after == before + {n};
      } else {
        assert after == before;
      }
    }
  }

  /** The collection keeps child order: the mountpoints collected from a
      prefix of the children are a prefix of those collected from all. */
  lemma {:induction false} MountedChildrenPrefix(infos: seq<ChildInfo>, k: nat)
    requires k <= |infos|
    ensures MountedChildren(infos[..k]) <= MountedChildren(infos)
    decreases |infos| - k
  {
    if k < |infos| {
      MountedChildrenAppend(infos[..k], infos[k]);
      assert infos[..k] + [infos[k]] == infos[..k + 1];
      MountedChildrenPrefix(infos, k + 1);
    } else {
      assert infos[..k] == infos;
    }
  }

  /** The children's entries exist exactly when every child is an object,
      and then there is one entry per child, in order, each as ChildShape
      says. */
  lemma ChildrenShape(children: seq<Json>, usageOf: Json -> Option<Usage>)
    ensures Traverse(children, ChildFor(usageOf)).Returned? <==> forall c :: c in children ==> c.JObj?
    ensures Traverse(children, ChildFor(usageOf)).Returned? ==>
              var infos := Traverse(children, ChildFor(usageOf)).value;
              && |infos| == |children|
              && forall i :: 0 <= i < |children| ==>
                   && ChildRecord(children[i], usageOf) == Returned(infos[i])
                   && ChildShape(children[i], usageOf, infos[i])
  {
    TraverseOneToOne(children, ChildFor(usageOf));
    forall c | c in children ensures ChildFor(usageOf)(c).Returned? <==> c.JObj? {
    }
    if Traverse(children, ChildFor(usageOf)).Returned? {
      var infos := Traverse(children, ChildFor(usageOf)).value;
      forall i | 0 <= i < |children|
        ensures ChildShape(children[i], usageOf, infos[i])
      {
        ChildRecordShape(children[i], usageOf);
      }
    }
  }

  /** A device record is produced exactly when the device is an object
      whose children can be iterated and are all objects. It copies the
      device's name, size and type when present and defaults each missing
      one to 'unknown'; it carries the usage of the device's mountpoint; and
      it keeps the children one to one and in order, each entry built from
      its child as ChildShape says. */
  lemma DeviceRecordShape(device: Json, usageOf: Json -> Option<Usage>)
    ensures DeviceRecord(device, usageOf).Returned? <==>
              && device.JObj?
              && Iterate(Get(device.fields, "children", JArr([]))).Returned?
              && forall c :: c in Iterate(Get(device.fields, "children", JArr([]))).value ==> c.JObj?
    ensures DeviceRecord(device, usageOf).Returned? ==>
              var d := DeviceRecord(device, usageOf).value;
              var fs := device.fields;
              var children := Iterate(Get(fs, "children", JArr([]))).value;
              && ReadsAs(fs, "name", JStr("unknown"), d.name)
              && ReadsAs(fs, "size", JStr("unknown"), d.size)
              && ReadsAs(fs, "type", JStr("unknown"), d.kind)
              && d.usage == UsageKey(Get(fs, "mountpoint", JNull), usageOf)
              && d.mountpoints == OwnMount(fs) + MountedChildren(d.children)
              && |d.children| == |children|
              && forall i :: 0 <= i < |children| ==>
                   && ChildRecord(children[i], usageOf) == Returned(d.children[i])
                   && ChildShape(children[i], usageOf, d.children[i])
  {
    if device.JObj? {
      var it := Iterate(Get(device.fields, "children", JArr([])));
      if it.Returned? {
        ChildrenShape(it.value, usageOf);
      }
    }
  }


  /** The `mountpoints` list holds the device's own truthy mountpoint first,
      then every truthy child mountpoint, and nothing else. */
  lemma MountpointsExactly(device: Json, usageOf: Json -> Option<Usage>, m: Json)
    requires DeviceRecord(device, usageOf).Returned?
    ensures var d := DeviceRecord(device, usageOf).value;
            && (Truthy(Get(device.fields, "mountpoint", JNull)) ==>
                  d.mountpoints != [] && d.mountpoints[0] == Get(device.fields, "mountpoint", JNull))
            && (m in d.mountpoints <==>
                  Truthy(m) && (m == Get(device.fields, "mountpoint", JNull)
                                || exists i :: 0 <= i < |d.children| && d.children[i].mountpoint == m))
  {
    var d := DeviceRecord(device, usageOf).value;
    MountedChildrenMembers(d.children, m);
  }

  // ---------------------------------------------------------------------
  // get_disk_info

  /** How `lsblk` ended: its exit code and, for a zero exit code, the
      decoded JSON (None when json.loads raised); or by raising. */
  datatype Lsblk = LsblkRan(returncode: int, data: Option<Json>) | LsblkRaised

  /** The `/api/disk` body: the processed devices, or, after any exception
      in the lsblk path, the root filesystem alone. */
  datatype DiskReport = Devices(devices: seq<DeviceInfo>) | RootOnly(root: Usage)

  function DeviceFor(usageOf: Json -> Option<Usage>): Json -> Outcome<DeviceInfo> {
    device => DeviceRecord(device, usageOf)
  }

  /** The device list the lsblk path produces, or Raised when it raises. A
      non-zero exit code is not an exception: it leaves the list empty. */
  function LsblkDevices(lsblk: Lsblk, usageOf: Json -> Option<Usage>): (r: Outcome<seq<DeviceInfo>>)
    ensures lsblk.LsblkRaised? ==> r.Raised?
    ensures lsblk.LsblkRan? && lsblk.returncode != 0 ==> r == Returned([])
  {
    match lsblk
    case LsblkRaised => Raised
    case LsblkRan(returncode, data) =>
      if returncode != 0 then Returned([])
      else match data
        case None => Raised
        case Some(doc) =>
          if !doc.JObj? then Raised
          else match Iterate(Get(doc.fields, "blockdevices", JArr([])))
            case Raised => Raised
            case Returned(devices) => Traverse(devices, DeviceFor(usageOf))
  }

  /** The fallback: the usage of "/", whose own failures (psutil raising, a
      zero total in the percentage) are not caught. */
  function Fallback(rootUsage: Option<Usage>): (r: Outcome<DiskReport>)
    ensures r.Returned? <==> rootUsage.Some? && rootUsage.value.total > 0
    ensures r.Returned? ==> r.value == RootOnly(rootUsage.value)
  {
    if rootUsage.Some? && rootUsage.value.total > 0 then Returned(RootOnly(rootUsage.value)) else Raised
  }

  /** What `get_disk_info` returns, or Raised when an exception escapes:
      the root filesystem alone is reported only after the lsblk path
      raised, and an exception escapes only from the fallback. */
  function DiskInfo(lsblk: Lsblk, usageOf: Json -> Option<Usage>, rootUsage: Option<Usage>): (r: Outcome<DiskReport>)
    ensures r.Returned? && r.value.RootOnly? ==> LsblkDevices(lsblk, usageOf).Raised?
    ensures r.Raised? ==> LsblkDevices(lsblk, usageOf).Raised? && !(rootUsage.Some? && rootUsage.value.total > 0)
  {
    match LsblkDevices(lsblk, usageOf)
    case Returned(devices) => Returned(Devices(devices))
    case Raised => Fallback(rootUsage)
  }

  /** `get_disk_info`: process every block device in order; any exception
      on the way switches to the root-filesystem fallback. */
  method GetDiskInfo(lsblk: Lsblk, usageOf: Json -> Option<Usage>, rootUsage: Option<Usage>)
    returns (r: Outcome<DiskReport>)
    ensures r == DiskInfo(lsblk, usageOf, rootUsage)
  {
    if lsblk.LsblkRaised? {
      return Fallback(rootUsage);
    }
    if lsblk.returncode != 0 {
      return Returned(Devices([]));
    }
    if lsblk.data.None? || !lsblk.data.value.JObj? {
      return Fallback(rootUsage);
    }
    var iteration := Iterate(Get(lsblk.data.value.fields, "blockdevices", JArr([])));
    if iteration.Raised? {
      return Fallback(rootUsage);
    }
    var devices := ProcessDevices(iteration.value, usageOf);
    if devices.Raised? {
      return Fallback(rootUsage);
    }
    r := Returned(Devices(devices.value));
  }

  /** The loop of `get_disk_info` over the block devices: one record per
      device, in lsblk's order, or Raised as soon as one device raises. */
  method ProcessDevices(blockDevices: seq<Json>, usageOf: Json -> Option<Usage>)
    returns (r: Outcome<seq<DeviceInfo>>)
    ensures r == Traverse(blockDevices, DeviceFor(usageOf))
  {
    var devices: seq<DeviceInfo> := [];
    var i := 0;
    while i < |blockDevices|
      invariant 0 <= i <= |blockDevices|
      invariant Traverse(blockDevices[..i], DeviceFor(usageOf)) == Returned(devices)
    {
      TraverseStep(blockDevices, DeviceFor(usageOf), i);
      var info := ProcessDevice(blockDevices[i], usageOf);
      if info.Raised? {
        TraverseRaisedPrefix(blockDevices, DeviceFor(usageOf), i + 1);
        return Raised;
      }
      devices := devices + [info.value];
      i := i + 1;
    }
    assert blockDevices[..|blockDevices|] == blockDevices;
    r := Returned(devices);
  }

  /** The lsblk path raises exactly when lsblk itself raised, or it exited
      with code 0 and its output is not JSON, the document is not an
      object, its "blockdevices" value cannot be iterated, or some block
      device has no record. Otherwise, with exit code 0, it lists one record
      per block device, in lsblk's order. */
  lemma LsblkCases(lsblk: Lsblk, usageOf: Json -> Option<Usage>)
    ensures lsblk.LsblkRan? && lsblk.returncode == 0 ==>
              && (lsblk.data.None? ==> LsblkDevices(lsblk, usageOf).Raised?)
              && (lsblk.data.Some? && !lsblk.data.value.JObj? ==> LsblkDevices(lsblk, usageOf).Raised?)
    ensures lsblk.LsblkRan? && lsblk.returncode == 0 && lsblk.data.Some? && lsblk.data.value.JObj? ==>
              var blocks := Iterate(Get(lsblk.data.value.fields, "blockdevices", JArr([])));
              && (blocks.Raised? ==> LsblkDevices(lsblk, usageOf).Raised?)
              && (blocks.Returned? ==>
                    && (LsblkDevices(lsblk, usageOf).Raised? <==>
                          exists i :: 0 <= i < |blocks.value| && DeviceRecord(blocks.value[i], usageOf).Raised?)
                    && (LsblkDevices(lsblk, usageOf).Returned? ==>
                          var ds := LsblkDevices(lsblk, usageOf).value;
                          |ds| == |blocks.value|
                          && forall i :: 0 <= i < |ds| ==> DeviceRecord(blocks.value[i], usageOf) == Returned(ds[i])))
  {
    if lsblk.LsblkRan? && lsblk.returncode == 0 && lsblk.data.Some? && lsblk.data.value.JObj? {
      var blocks := Iterate(Get(lsblk.data.value.fields, "blockdevices", JArr([])));
      if blocks.Returned? {
        TraverseOneToOne(blocks.value, DeviceFor(usageOf));
      }
    }
  }

  /** The report is the lsblk path's device list whenever that path does
      not raise (an empty list for a non-zero exit code); when it raises,
      the report is the root filesystem alone, or the call raises if the
      root filesystem cannot be measured. */
  lemma DiskInfoCases(lsblk: Lsblk, usageOf: Json -> Option<Usage>, rootUsage: Option<Usage>)
    ensures lsblk.LsblkRan? && lsblk.returncode != 0 ==>
              DiskInfo(lsblk, usageOf, rootUsage) == Returned(Devices([]))
    ensures LsblkDevices(lsblk, usageOf).Returned? ==>
              DiskInfo(lsblk, usageOf, rootUsage) == Returned(Devices(LsblkDevices(lsblk, usageOf).value))
    ensures LsblkDevices(lsblk, usageOf).Raised? ==>
              DiskInfo(lsblk, usageOf, rootUsage)
                == if rootUsage.Some? && rootUsage.value.total > 0 then Returned(RootOnly(rootUsage.value)) else Raised
  {
  }
}
