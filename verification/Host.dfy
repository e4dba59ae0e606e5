/** The plain data of the emulated host (internal/system): what one State holds,
    with every Go map as a value. */
module Host {

  datatype File = File(path: string, content: string, owner: string, group: string,
                       mode: bv32, selinuxType: string, directory: bool)

  datatype User = User(name: string, uid: int, gid: int, groups: seq<string>, shell: string)

  /** scenario.ConditionSpec, by its `type` field; Unknown is every other type. */
  datatype StartCondition =
    | FileContains(path: string, pattern: string)
    | SelinuxAllows
    | ServiceRunning(name: string)
    | FirewallServiceAllowed(zone: string, service: string)
    | UnknownCondition

  datatype JournalSpec = JournalSpec(priority: string, message: string)

  datatype Service = Service(name: string, enabled: bool, state: string,
                             startConditions: seq<StartCondition>, onFailure: seq<JournalSpec>)

  datatype JournalEntry = JournalEntry(timestamp: int, priority: string, unit: string,
                                       message: string, actor: string)

  datatype Process = Process(pid: int, ppid: int, user: string, state: string,
                             cpuSeconds: int, memoryBytes: int, command: string)

  datatype Zone = Zone(interfaces: seq<string>, services: map<string, bool>, ports: map<string, bool>)

  datatype HTTPResponse = HTTPResponse(status: int, body: string)

  datatype Host = Host(
    hostname: string,
    clock: int,
    files: map<string, File>,
    users: map<string, User>,
    services: map<string, Service>,
    processes: seq<Process>,
    journal: seq<JournalEntry>,
    addresses: seq<string>,
    dns: map<string, string>,
    zones: map<string, Zone>,
    openPorts: map<string, bool>,
    http: map<string, HTTPResponse>,
    selinux: string,
    packages: map<string, string>,
    env: map<string, string>,
    currentUser: string,
    cwd: string)

  datatype Error =
    | PathEmpty | PathEscapes | NotFound | PermissionDenied | FileExists | NotADirectory
    | OmittingDirectory | VirtualRoot | SameFile | IntoItself
    | SnapshotUnavailable | NotRoot | NoSuchUnit | StartConditionFailed | ProtectedProcess | NoSuchZone
    | EmptyName | UserExists

  datatype Outcome = Done | Failed(error: Error)

  // ---- permissions ----

  const OWNER_READ: bv32 := 0x100
  const OWNER_WRITE: bv32 := 0x80
  const GROUP_READ: bv32 := 0x20
  const GROUP_WRITE: bv32 := 0x10
  const OTHER_READ: bv32 := 0x4
  const OTHER_WRITE: bv32 := 0x2

  /** What indexing a Go map of files yields for a missing key. */
  const ZERO_FILE := File("", "", "", "", 0, "", false)

  function Lookup(files: map<string, File>, p: string): File {
    if p in files then files[p] else ZERO_FILE
  }

  /** permissionLocked, in terms of the user table. */
  predicate PermittedIn(users: map<string, User>, file: File, user: string, owner: bv32, group: bv32, other: bv32) {
    if user == "root" then true
    else if user !in users then false
    else if file.owner == user then file.mode & owner != 0
    else if file.group in users[user].groups then file.mode & group != 0
    else file.mode & other != 0
  }

  predicate ReadableIn(users: map<string, User>, file: File, user: string) {
    PermittedIn(users, file, user, OWNER_READ, GROUP_READ, OTHER_READ)
  }

  predicate WritableIn(users: map<string, User>, file: File, user: string) {
    PermittedIn(users, file, user, OWNER_WRITE, GROUP_WRITE, OTHER_WRITE)
  }

  function PrimaryGroupIn(users: map<string, User>, user: string): string {
    if user in users && |users[user].groups| > 0 then users[user].groups[0] else user
  }

  predicate CanRead(h: Host, file: File, user: string) { ReadableIn(h.users, file, user) }

  predicate CanWrite(h: Host, file: File, user: string) { WritableIn(h.users, file, user) }

  function PrimaryGroup(h: Host, user: string): string { PrimaryGroupIn(h.users, user) }

}
