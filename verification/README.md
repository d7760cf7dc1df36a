# RPi-dash server core in Dafny

RPi-dash is a Raspberry Pi dashboard whose Flask backend (`be/server.py`)
reads raw operating-system and daemon output and reshapes it into the JSON
its endpoints return. This project models the deterministic rules between
those reads and the JSON:

- the uptime split into days, hours, minutes and seconds and its
  "D days, HH hrs, MM mins, SS secs" rendering (`get_uptime`), and the
  minutes-only variant for a process's age (`get_process_uptime`);
- the `/etc/os-release` parser and the choice of the OS name (`get_os_info`);
- the systemd state mapping (`get_service_status`), the service registry
  with its built-in fallback (`load_services_config`, `DEFAULT_SERVICES`) and
  the per-service status report (`get_services_status`);
- the Docker counts and container summaries (`get_docker_info`);
- the cloudflared status and the tunnel-name parse (`get_cloudflared_status`);
- the block-device reshaping (`process_device`) and the lsblk-or-root-only
  disk report (`get_disk_info`).

Every external read (a file, `systemctl`, `lsblk`, `cloudflared`, the
Docker client, `psutil`) is a parameter: a datatype saying how the read
ended, or a function from the argument to its result. A Python exception
that escapes a function is the `Raised` case of `Py.Outcome`; an exception
the code catches is modelled by its handler. JSON documents are `Py.Json`,
whose objects keep their members in document order, as a Python dict built
by `json.load` does; looking a key up takes its last occurrence.

Modules, one per file: `Py` (py.dfy: optional values, outcomes, JSON values,
`dict.get`, truthiness, iteration, an append-per-element loop), `PyText`
(text.dfy: `str.strip`, `str.split(sep)`, `str.split()`), `Uptime`,
`OsRelease`, `Services`, `Docker`, `Cloudflared` and `Disk`.

Some behaviours of the code that a reader might not expect, all of which the
model keeps:

- `get_docker_info` reports status 'stopped' (not 'unknown') when the
  Docker client fails.
- `get_cloudflared_status` reports 'error' only when an exception escapes
  inside it; in practice that is `cloudflared tunnel list` raising while
  the unit is active, because `get_service_status` catches its own errors.
- A unit systemd does not know is 'stopped' (systemctl prints "inactive"),
  not 'unknown'.
- `get_os_info` returns nothing at all (Python's None), not "Unknown", when
  the file has neither `PRETTY_NAME` nor `NAME`.
- `get_disk_info` returns an empty device list, not the root-only fallback,
  when `lsblk` exits with a non-zero code; only an exception reaches the
  fallback.
- The service registry is not validated: an entry without "name" makes
  the whole report raise, and duplicate names are kept.

## Model

| member | source | states |
|---|---|---|
| Py.Lookup | be/server.py:36 | A key is absent exactly when no member has it; otherwise the value of its last occurrence, as a dict built by `json.load` keeps. |
| Py.Get | be/server.py:36 | `.get(key, default)` gives the default when the key is absent and, when it is present, the value of its last occurrence (as Lookup states). |
| Py.Truthy | be/server.py:282 | Exactly null, false, zero, the empty string, the empty list and the empty object are false. |
| Py.Iterate | be/server.py:345 | A `for` loop visits the items of a list, the characters of a string, one key per member of an object, and raises on anything else. |
| Py.TraverseOneToOne | be/server.py:344-353 | A loop appending one result per element returns exactly when every step returns, and then holds one result per element, in order. |
| Uptime.Split | be/server.py:61-64 | The `//` and `%` split of non-negative whole seconds is exact (`days*86400 + hours*3600 + minutes*60 + seconds` gives back the input) and hours < 24, minutes < 60, seconds < 60. |
| Uptime.SplitSeconds | be/server.py:61-64 | The split is the inverse of counting seconds: a span with parts in range is what its own second count splits into. |
| Uptime.GetUptime | be/server.py:56-67 | "Unknown" exactly when /proc/uptime could not be read; otherwise the text reads back to the exact split of the seconds. |
| Uptime.RenderedRoundTrip | be/server.py:65 | The rendered uptime determines the span: days unpadded, hours, minutes and seconds as two digits, separated by the fixed tags, parse back to the same span. |
| Uptime.RenderedNoSecondsRoundTrip | be/server.py:175-178 | The process-age text determines days, hours and minutes of the span it was rendered from. |
| Uptime.Render | be/server.py:65 | The uptime text starts with the unpadded days, and for a span with parts in range it is exactly 31 characters longer than the days, so hours, minutes and seconds take two characters each. |
| Uptime.RenderNoSeconds | be/server.py:178 | The process-age text starts with the unpadded days, and for a span with parts in range it is exactly 22 characters longer than the days. |
| Uptime.NatToString | be/server.py:65 | `str(n)`: decimal digits with value n, no leading zero, one digit exactly when n < 10. |
| Uptime.Pad2 | be/server.py:65 | `{n:02d}`: digits with value n, exactly two of them when n < 100. |
| Uptime.GetProcessUptime | be/server.py:168-181 | The loop over the process table returns ProcessUptime: the first process whose name contains the word decides; an unreadable table, an unreadable name before the first match, or the matching process's unreadable age gives "Unknown". |
| Uptime.FirstMatchDecides | be/server.py:171-179 | The first entry whose name is unreadable or contains the word decides: an unreadable name or age gives "Unknown", a readable age gives that process's age rendered without seconds. |
| Uptime.NotRunningExactly | be/server.py:171-179 | "Not running" exactly when every name was readable and none contains the word; otherwise "Unknown" because the first unreadable-or-matching entry had no readable name or age, or the rendered age of the first matching process, readable back. |
| PyText.Strip | be/server.py:76 | `str.strip()`: neither end of the result is whitespace. |
| PyText.StripKeeps | be/server.py:76 | Stripping removes only whitespace: a non-whitespace character is in the result exactly when it is in the input. |
| PyText.StripAround | be/server.py:123 | Whitespace around a word does not survive `strip()` and the word comes out unchanged. |
| PyText.StripChar | be/server.py:77 | `str.strip('"')`: neither end of the result is a double quote. |
| PyText.Split | be/server.py:145 | `str.split(sep)`: at least one piece, no piece holds the separator. |
| PyText.JoinSplit | be/server.py:145 | Joining the pieces of `split(sep)` with the separator gives back the input. |
| PyText.SplitJoin | be/server.py:145 | Splitting a join of separator-free pieces gives back the pieces. |
| PyText.Words | be/server.py:147 | `str.split()`: every word is non-empty and free of whitespace. |
| PyText.WordsCover | be/server.py:147 | The words hold every non-whitespace character of the input, in order, and nothing else. |
| PyText.WordsCount | be/server.py:147 | There is one word per maximal run of non-whitespace characters. |
| PyText.WordsMaximal | be/server.py:147 | The words are exactly the maximal runs of non-whitespace: after whitespace, the whole run up to the next whitespace or the end is the next word. |
| OsRelease.Entry | be/server.py:75-77 | A line contributes an entry exactly when it contains '='. |
| OsRelease.EntryShape | be/server.py:76-77 | The stripped line is split at its first '=': the key holds no '=', the value may, and the value has its surrounding double quotes removed. |
| OsRelease.ReadOsRelease | be/server.py:73-77 | The line-by-line loop builds the dictionary that storing each line's entry in file order gives. |
| OsRelease.FillKeys | be/server.py:74-77 | A key is in the dictionary exactly when some line defines it. |
| OsRelease.FillLastWins | be/server.py:77 | The value stored for a key is the one from the last line defining it. |
| OsRelease.GetOsInfo | be/server.py:69-85 | Returns "Unknown" when the file cannot be read, otherwise the name chosen from the parsed dictionary. |
| OsRelease.OsName | be/server.py:79-83 | No name exactly when neither `PRETTY_NAME` nor `NAME` is a key; `PRETTY_NAME` when it is a key, otherwise `NAME`. |
| OsRelease.OsInfoFromLines | be/server.py:80-85 | The last `PRETTY_NAME` line wins; failing one, the last `NAME` line; with neither, no name at all rather than "Unknown". |
| Services.ServiceState | be/server.py:114-125 | 'running' exactly when the trimmed output is "active"; 'unknown' exactly when the probe raised; 'stopped' otherwise. |
| Services.ActiveWithSpace | be/server.py:123 | "active" with surrounding whitespace (such as systemctl's newline) is 'running'. |
| Services.StatusOf | be/server.py:346-347 | A configured string name gets systemd's answer for that unit, as ServiceState reads it; a name that is not a string is 'unknown'. |
| Services.LoadServicesConfig | be/server.py:30-45 | A missing file, invalid JSON, an absent or null "services" key give the default list; otherwise the configured value unchanged; any other read error or a non-object document raises. |
| Services.DefaultsShape | be/server.py:23-28 | DEFAULT_SERVICES is a list of four objects, each holding exactly a string name, display_name and description, and no two share a name. |
| Services.DefaultReport | be/server.py:23-45 | When the loader falls back to DEFAULT_SERVICES, the report built from it (as at be/server.py:342-355) is one record per default service, in order, with its name, display name and description. |
| Services.StatusRecord | be/server.py:345-353 | A record is produced exactly when the entry is an object with a "name". |
| Services.GetServicesStatus | be/server.py:339-355 | The loop appends one record per configured entry and returns ServicesStatus, raising where an entry raises. |
| Services.ReportOneToOne | be/server.py:344-353 | The report is produced exactly when every entry yields a record, and then holds one record per entry, in order. |
| Services.RecordDefaults | be/server.py:349-352 | A record's name is the entry's "name" and its state systemd's answer for it; its display name is the last "display_name" value when present and the name otherwise, and its description the last "description" value when present and the empty string otherwise. |
| Docker.RunningOnes | be/server.py:92 | The running list holds exactly the containers whose status is 'running'. |
| Docker.RunningCount | be/server.py:92-97 | The running count is the number of positions holding a running container. |
| Docker.Summarize | be/server.py:99-103 | A summary keeps name and status; its image is 'unknown' exactly when the container has no tag or its first tag is 'unknown'. |
| Docker.DockerInfoFacts | be/server.py:87-112 | Running never exceeds containers; an error is reported exactly when listing failed, and then status 'stopped' with both counts 0; otherwise status 'running', the counts and one summary per container in order. |
| Docker.GetDockerInfo | be/server.py:87-112 | Never more running containers than containers; an error exactly when the client failed; on success status 'running' and one count per container. |
| Cloudflared.TunnelNameCases | be/server.py:142-147 | 'Unknown' for a non-zero exit code, empty output, fewer than three lines or fewer than two words on the third line; otherwise the third line's second word, non-empty and whitespace-free. |
| Cloudflared.TunnelName | be/server.py:143-147 | The tunnel name is 'Unknown' or a non-empty word without whitespace; a failed command or empty output gives 'Unknown'. |
| Cloudflared.BlankOutputHasNoName | be/server.py:144-147 | Whitespace-only output yields no tunnel name. |
| Cloudflared.StatusCases | be/server.py:127-166 | 'connected' exactly when the unit is active and the listing ran, 'disconnected' (tunnel and uptime "N/A") exactly when it is not active, 'error' exactly when active but the listing raised. |
| Cloudflared.GetCloudflaredStatus | be/server.py:127-166 | The status is connected, disconnected or error; connected exactly when the unit is active and the listing ran; an error message exactly for the error status. |
| Disk.UsageAt | be/server.py:296-306 | A usage value exactly when the query succeeded with a non-zero total, 'unavailable' otherwise. |
| Disk.UsageKey | be/server.py:295-306 | A usage key exactly when the mountpoint is truthy, holding the usage of that mountpoint. |
| Disk.ChildRecord | be/server.py:286-292 | A child yields an entry exactly when it is an object. |
| Disk.ChildRecordShape | be/server.py:286-308 | An object child's entry copies name, size, type and mountpoint when present, defaults them to 'unknown' (None for the mountpoint) when missing, and carries the usage of its mountpoint. |
| Disk.ProcessChildren | be/server.py:285-311 | The loop over the children, for any way of building one child's entry, appends one entry per child in order and every truthy child mountpoint, and raises as soon as one child raises. |
| Disk.ChildrenShape | be/server.py:287-308 | The children have entries exactly when every child is an object; then there is one entry per child, in order, each as ChildRecordShape states. |
| Disk.ProcessDevice | be/server.py:266-327 | Returns DeviceRecord, raising where a device or child is not an object or its children cannot be iterated. |
| Disk.DeviceRecord | be/server.py:266-327 | Only an object device has a record, and its own truthy mountpoint heads the mountpoints list. |
| Disk.DeviceRecordShape | be/server.py:268-324 | A record exactly when the device is an object whose children iterate and are all objects; the device's name, size and type copied when present and 'unknown' when missing; its usage is that of its mountpoint; children kept one to one and in order, each built as ChildRecordShape states. |
| Disk.MountpointsExactly | be/server.py:281-326 | The device's own truthy mountpoint comes first, and a value is listed exactly when it is the device's or some child's truthy mountpoint. |
| Disk.MountedChildrenMembers | be/server.py:310-311 | A mountpoint is collected from the children exactly when some child has it and it is truthy. |
| Disk.MountedChildrenCount | be/server.py:310-311 | One mountpoint is collected per child with a truthy mountpoint. |
| Disk.MountedChildrenPrefix | be/server.py:310-311 | The collection keeps child order: the mountpoints collected from a prefix of the children are a prefix of all collected. |
| Disk.ProcessDevices | be/server.py:236-239 | The loop over the block devices gives one record per device in lsblk's order, or raises as soon as one device raises. |
| Disk.GetDiskInfo | be/server.py:219-264 | Returns DiskInfo: the device list, or the root-filesystem fallback after any exception on the lsblk path. |
| Disk.LsblkDevices | be/server.py:226-239 | A raising lsblk raises; a non-zero exit code gives an empty device list. |
| Disk.LsblkCases | be/server.py:233-239 | With exit code 0 the lsblk path raises exactly when the output is not JSON, is not an object, its "blockdevices" cannot be iterated or some device has no record; otherwise one record per block device, in order. |
| Disk.Fallback | be/server.py:246-264 | The root-only report exactly when the root filesystem was measured with a non-zero total, holding its counts; otherwise the fallback raises. |
| Disk.DiskInfo | be/server.py:219-264 | The root-only report only after the lsblk path raised; an exception escapes only when the fallback cannot measure the root filesystem. |
| Disk.DiskInfoCases | be/server.py:233-264 | The report is the lsblk path's device list whenever that path does not raise (empty for a non-zero exit code); when it raises, the root filesystem alone, or an exception when that cannot be measured. |

## Left out

- Flask routing, `jsonify`, CORS, the `/api/*` wrappers and `app.run`: transport plumbing around the modelled functions.
- `get_all_data`'s exception-to-500 wrapper: error plumbing around the other calls.
- `get_cpu_temperature`, `get_cpu_info` and `get_memory_info`: each reads host values and rounds floating-point numbers, with no rule of its own.
- `get_system_info`: it only gathers the host name, `get_uptime`, the current date, `get_os_info` and the machine architecture into one dictionary; the two modelled functions are `Uptime.GetUptime` and `OsRelease.GetOsInfo`.
- Floating point: the GB conversions, `round(...)` and the usage percentages are not modelled; disk usage is kept as raw byte counts, and the only float behaviour kept is that a zero total makes the percentage divide by zero.
- Uptime.GetUptime: takes the whole seconds already floored from the first field of /proc/uptime; reading and parsing the float is not modelled.
- Uptime.GetProcessUptime: a process's age is given as whole non-negative seconds; the clock read and the subtraction from the creation time, including a negative age, are not modelled.
- OsRelease.GetOsInfo: takes the file as its lines; opening and line iteration are not modelled.
- Services.LoadServicesConfig: the file path and the warnings printed on fallback are not modelled; how the file ended is a parameter.
- Services.StatusOf: `systemctl is-active` is a parameter; a non-string name makes `subprocess.run` raise TypeError, caught as unknown.
- Docker.DockerInfoFacts: the Docker client is a parameter; an exception while reading a container's image tags is not modelled separately from a failed listing.
- Disk.ProcessDevice: `psutil.disk_usage` is a parameter giving counts or failure; `lsblk` is a parameter giving an exit code and the decoded document; the fallback's 'error' message text is not kept.
- Py.Iterate: iterating a dict built from an object with a repeated key visits that key once, but the model visits one key per member; no modelled result depends on it, since the server raises on the first key it iterates and only whether there is any key matters.
- JSON numbers are reals; the number formats `json.load` accepts are not modelled.
- `be/gunicorn.conf.py`: static process-server configuration with no logic.
