/** From the policy to the sandbox configuration: the checks made when a policy is
    loaded, and the translation with its scaling of limits. */
module Policy {
  import opened Kernel
  import opened Syscalls
  import opened Text

  // ---------- the policy ----------

  datatype RlimitPolicy = RlimitPolicy(enabled: Option<bool>, cpuSeconds: Option<nat>, maxFileSizeMb: Option<nat>)

  datatype CgroupPolicy = CgroupPolicy(enabled: Option<bool>, cpuPercent: Option<nat>)

  datatype ResourcePolicy = ResourcePolicy(
    timeoutSeconds: Option<nat>,
    maxOutputKb: Option<nat>,
    memoryMb: Option<nat>,
    maxProcesses: Option<nat>,
    rlimit: Option<RlimitPolicy>,
    cgroup: Option<CgroupPolicy>)

  datatype UtsPolicy = UtsPolicy(enabled: Option<bool>, hostname: Option<string>)

  datatype MountPolicy = MountPolicy(enabled: Option<bool>, privateTmp: Option<bool>, tmpSizeMb: Option<nat>)

  datatype NamespacePolicy = NamespacePolicy(
    uts: Option<UtsPolicy>,
    ipc: Option<bool>,
    network: Option<bool>,
    pid: Option<bool>,
    mount: Option<MountPolicy>)

  datatype FileSystemPolicy = FileSystemPolicy(
    readAllow: seq<string>,
    writeAllow: seq<string>,
    execAllow: seq<string>,
    deny: seq<string>)

  datatype NetworkPolicy = NetworkPolicy(connectTcp: Option<seq<nat>>, bindTcp: Option<seq<nat>>)

  datatype SecurityPolicy = SecurityPolicy(
    version: nat,
    defaultAction: string,
    filesystem: FileSystemPolicy,
    resources: Option<ResourcePolicy>,
    network: Option<NetworkPolicy>,
    seccomp: Option<SeccompPolicy>,
    namespace: Option<NamespacePolicy>)

  // ---------- validation ----------

  /** The limits that must not be zero. */
  datatype Limit = MaxOutput | Timeout | Memory | MaxProcesses | MaxFileSize | CpuSeconds | CpuPercent

  datatype PolicyError =
    | UnsupportedVersion
    | InvalidDefaultAction
    | EmptyFileSystemPolicy
    | ZeroLimit(limit: Limit)
    | NoRlimitConfigured
    | NoCgroupLimitConfigured
    | ConnectPortZero
    | BindPortZero
    | EmptySyscallName
    | UnknownSyscallName(name: string)
    | NoHostname
    | EmptyHostname
    | HostnameTooLong
    | HostnameWithSpace
    | TmpWithoutMount
    | TmpSizeZero
    | TmpSizeTooLarge

  function GetOr<T>(x: Option<T>, default: T): T {
    match x
    case None => default
    case Some(value) => value
  }

  predicate IsZero(x: Option<nat>) {
    x == Some(0)
  }

  function ValidateRlimit(r: ResourcePolicy): Option<PolicyError> {
    match r.rlimit
    case None => None
    case Some(rlimit) =>
      if IsZero(rlimit.maxFileSizeMb) then Some(ZeroLimit(MaxFileSize))
      else if IsZero(rlimit.cpuSeconds) then Some(ZeroLimit(CpuSeconds))
      else if GetOr(rlimit.enabled, false) && rlimit.cpuSeconds.None? && rlimit.maxFileSizeMb.None?
              && r.memoryMb.None? && r.maxProcesses.None? then Some(NoRlimitConfigured)
      else None
  }

  function ValidateCgroup(r: ResourcePolicy): Option<PolicyError> {
    match r.cgroup
    case None => None
    case Some(cgroup) =>
      if IsZero(cgroup.cpuPercent) then Some(ZeroLimit(CpuPercent))
      else if GetOr(cgroup.enabled, false) && r.memoryMb.None? && r.maxProcesses.None? && cgroup.cpuPercent.None?
      then Some(NoCgroupLimitConfigured)
      else None
  }

  function ValidateResources(r: ResourcePolicy): Option<PolicyError> {
    if IsZero(r.maxOutputKb) then Some(ZeroLimit(MaxOutput))
    else if IsZero(r.timeoutSeconds) then Some(ZeroLimit(Timeout))
    else if IsZero(r.memoryMb) then Some(ZeroLimit(Memory))
    else if IsZero(r.maxProcesses) then Some(ZeroLimit(MaxProcesses))
    else if ValidateRlimit(r).Some? then ValidateRlimit(r)
    else ValidateCgroup(r)
  }

  function ValidateNetwork(n: NetworkPolicy): Option<PolicyError> {
    if n.connectTcp.Some? && 0 in n.connectTcp.value then Some(ConnectPortZero)
    else if n.bindTcp.Some? && 0 in n.bindTcp.value then Some(BindPortZero)
    else None
  }

  /** `validate_policy`. */
  function ValidatePolicy(p: SecurityPolicy): Option<PolicyError> {
    if p.version != 1 then Some(UnsupportedVersion)
    else if p.defaultAction != "allow" && p.defaultAction != "deny" then Some(InvalidDefaultAction)
    else if p.filesystem == FileSystemPolicy([], [], [], []) then Some(EmptyFileSystemPolicy)
    else if p.resources.Some? && ValidateResources(p.resources.value).Some? then ValidateResources(p.resources.value)
    else if p.network.Some? then ValidateNetwork(p.network.value)
    else None
  }

  /** `validate_mount_policy`. */
  function ValidateMountPolicy(p: SecurityPolicy): Option<PolicyError> {
    if p.namespace.None? || p.namespace.value.mount.None? then None
    else
      var mount := p.namespace.value.mount.value;
      if !GetOr(mount.enabled, false) && GetOr(mount.privateTmp, false) then Some(TmpWithoutMount)
      else if IsZero(mount.tmpSizeMb) then Some(TmpSizeZero)
      else if mount.tmpSizeMb.Some? && mount.tmpSizeMb.value > 1024 then Some(TmpSizeTooLarge)
      else None
  }

  function ValidateNames(names: seq<string>, known: set<string>): Option<PolicyError> {
    if names == [] then None
    else if Trim(names[0]) == "" then Some(EmptySyscallName)
    else if names[0] !in known then Some(UnknownSyscallName(names[0]))
    else ValidateNames(names[1..], known)
  }

  /** `validate_seccomp_names`; `known` are the system calls the library has a number for. */
  function ValidateSeccompNames(p: SecurityPolicy, known: set<string>): Option<PolicyError> {
    if p.seccomp.None? || p.seccomp.value.deny.None? then None
    else ValidateNames(p.seccomp.value.deny.value, known)
  }

  const MAX_HOSTNAME: nat := 64

  /** `validate_hostname`: a UTS section needs a hostname even if it is not enabled. */
  function ValidateHostname(p: SecurityPolicy): Option<PolicyError> {
    if p.namespace.None? || p.namespace.value.uts.None? then None
    else
      match p.namespace.value.uts.value.hostname
      case None => Some(NoHostname)
      case Some(hostname) =>
        if Trim(hostname) == "" then Some(EmptyHostname)
        else if Utf8Length(hostname) > MAX_HOSTNAME then Some(HostnameTooLong)
        else if exists i :: 0 <= i < |hostname| && IsWhitespace(hostname[i]) then Some(HostnameWithSpace)
        else None
  }

  /** The checks of `load_policy`, in their order. */
  function Validate(p: SecurityPolicy, known: set<string>): Option<PolicyError> {
    if ValidatePolicy(p).Some? then ValidatePolicy(p)
    else if ValidateSeccompNames(p, known).Some? then ValidateSeccompNames(p, known)
    else if ValidateHostname(p).Some? then ValidateHostname(p)
    else ValidateMountPolicy(p)
  }

  predicate Validated(p: SecurityPolicy, known: set<string>) {
    Validate(p, known).None?
  }

  // ---------- the configuration ----------

  type Path = seq<string>

  datatype RlimitConfig = RlimitConfig(
    enabled: bool,
    memoryBytes: Option<nat>,
    maxProcesses: Option<nat>,
    cpuSeconds: Option<nat>,
    maxFileSizeBytes: Option<nat>)

  datatype CgroupConfig = CgroupConfig(
    enabled: bool,
    memoryBytes: Option<nat>,
    maxProcesses: Option<nat>,
    cpuPercent: Option<nat>)

  datatype ResourceConfig = ResourceConfig(
    timeoutSeconds: Option<nat>,
    maxOutputBytes: Option<nat>,
    rlimit: RlimitConfig,
    cgroup: CgroupConfig)

  datatype NamespaceConfig = NamespaceConfig(
    userNamespaceRequired: bool,
    uts: bool,
    hostname: Option<string>,
    ipc: bool,
    network: bool,
    pid: bool,
    mount: bool,
    privateTmp: bool,
    tmpSizeMb: nat)

  datatype SandboxConfig = SandboxConfig(
    readAllow: seq<Path>,
    writeAllow: seq<Path>,
    execAllow: seq<Path>,
    resources: ResourceConfig,
    namespace: NamespaceConfig)

  datatype PrepareError = InvalidPath(path: string) | OutputTooLarge | MemoryOverflow | FileSizeOverflow

  datatype Prepared<+T> = Ready(value: T) | Refused(error: PrepareError)

  // ---------- checked arithmetic ----------

  function CheckedMul(a: nat, b: nat): Option<nat> {
    if a * b > MAX_U64 then None else Some(a * b)
  }

  /** Megabytes to bytes: two checked multiplications by 1024, if there is a limit. */
  function BytesOfMb(mb: Option<nat>, error: PrepareError): Prepared<Option<nat>> {
    match mb
    case None => Ready(None)
    case Some(n) =>
      match CheckedMul(n, 1024)
      case None => Refused(error)
      case Some(kb) =>
        match CheckedMul(kb, 1024)
        case None => Refused(error)
        case Some(bytes) => Ready(Some(bytes))
  }

  function BytesOfKb(kb: Option<nat>, error: PrepareError): Prepared<Option<nat>> {
    match kb
    case None => Ready(None)
    case Some(n) =>
      match CheckedMul(n, 1024)
      case None => Refused(error)
      case Some(bytes) => Ready(Some(bytes))
  }

  // ---------- translation ----------

  const NO_RLIMIT := RlimitConfig(false, None, None, None, None)
  const NO_CGROUP := CgroupConfig(false, None, None, None)

  function PrepareRlimit(r: ResourcePolicy): Prepared<RlimitConfig> {
    match r.rlimit
    case None => Ready(NO_RLIMIT)
    case Some(rlimit) =>
      match BytesOfMb(r.memoryMb, MemoryOverflow)
      case Refused(error) => Refused(error)
      case Ready(memory) =>
        match BytesOfMb(rlimit.maxFileSizeMb, FileSizeOverflow)
        case Refused(error) => Refused(error)
        case Ready(fileSize) =>
          Ready(RlimitConfig(GetOr(rlimit.enabled, false), memory, r.maxProcesses, rlimit.cpuSeconds, fileSize))
  }

  function PrepareCgroup(r: ResourcePolicy): Prepared<CgroupConfig> {
    match r.cgroup
    case None => Ready(NO_CGROUP)
    case Some(cgroup) =>
      match BytesOfMb(r.memoryMb, MemoryOverflow)
      case Refused(error) => Refused(error)
      case Ready(memory) =>
        Ready(CgroupConfig(GetOr(cgroup.enabled, false), memory, r.maxProcesses, cgroup.cpuPercent))
  }

  function PrepareResources(r: Option<ResourcePolicy>): Prepared<ResourceConfig> {
    match r
    case None => Ready(ResourceConfig(None, None, NO_RLIMIT, NO_CGROUP))
    case Some(policy) =>
      match BytesOfKb(policy.maxOutputKb, OutputTooLarge)
      case Refused(error) => Refused(error)
      case Ready(output) =>
        match PrepareRlimit(policy)
        case Refused(error) => Refused(error)
        case Ready(rlimit) =>
          match PrepareCgroup(policy)
          case Refused(error) => Refused(error)
          case Ready(cgroup) => Ready(ResourceConfig(policy.timeoutSeconds, output, rlimit, cgroup))
  }

  function PrepareNamespaces(p: Option<NamespacePolicy>): NamespaceConfig {
    match p
    case None => NamespaceConfig(false, false, None, false, false, false, false, false, 32)
    case Some(policy) =>
      var uts := policy.uts.Some? && GetOr(policy.uts.value.enabled, false);
      var hostname := if policy.uts.Some? then policy.uts.value.hostname else None;
      var ipc, network, pid := GetOr(policy.ipc, false), GetOr(policy.network, false), GetOr(policy.pid, false);
      var mount := (policy.mount.Some? && GetOr(policy.mount.value.enabled, false)) || pid;
      var privateTmp := policy.mount.Some? && GetOr(policy.mount.value.privateTmp, false);
      var tmpSize := if policy.mount.Some? then GetOr(policy.mount.value.tmpSizeMb, 32) else 32;
      NamespaceConfig(uts || ipc || network || mount || pid, uts, hostname, ipc, network, pid, mount,
                      privateTmp, tmpSize)
  }

  function CanonicalPaths(paths: seq<string>, canonical: map<string, Path>): Prepared<seq<Path>> {
    if paths == [] then Ready([])
    else
      var last := paths[|paths| - 1];
      match CanonicalPaths(paths[..|paths| - 1], canonical)
      case Refused(error) => Refused(error)
      case Ready(front) => if last in canonical then Ready(front + [canonical[last]]) else Refused(InvalidPath(last))
  }

  /** `canonicalize_path_list`, over a file system given by its canonical paths. */
  method CanonicalizePathList(paths: seq<string>, canonical: map<string, Path>) returns (r: Prepared<seq<Path>>)
    ensures r == CanonicalPaths(paths, canonical)
  {
    var canonicalPaths: seq<Path> := [];
    for i := 0 to |paths|
      invariant CanonicalPaths(paths[..i], canonical) == Ready(canonicalPaths)
    {
      assert paths[..i + 1][..i] == paths[..i];
      if paths[i] !in canonical {
        FirstInvalidPath(paths, canonical, i);
        return Refused(InvalidPath(paths[i]));
      }
      canonicalPaths := canonicalPaths + [canonical[paths[i]]];
    }
    assert paths[..|paths|] == paths;
    r := Ready(canonicalPaths);
  }

  lemma {:induction false} FirstInvalidPath(paths: seq<string>, canonical: map<string, Path>, i: nat)
    requires i < |paths| && CanonicalPaths(paths[..i], canonical).Ready? && paths[i] !in canonical
    ensures CanonicalPaths(paths, canonical) == Refused(InvalidPath(paths[i]))
    decreases |paths|
  {
    var front := paths[..|paths| - 1];
    if i < |front| {
      assert front[..i] == paths[..i];
      FirstInvalidPath(front, canonical, i);
    } else {
      assert front == paths[..i];
    }
  }

  /** `prepare_sandbox`. */
  function Prepare(p: SecurityPolicy, canonical: map<string, Path>): Prepared<SandboxConfig> {
    match CanonicalPaths(p.filesystem.readAllow, canonical)
    case Refused(error) => Refused(error)
    case Ready(readAllow) =>
      match CanonicalPaths(p.filesystem.writeAllow, canonical)
      case Refused(error) => Refused(error)
      case Ready(writeAllow) =>
        match CanonicalPaths(p.filesystem.execAllow, canonical)
        case Refused(error) => Refused(error)
        case Ready(execAllow) =>
          match PrepareResources(p.resources)
          case Refused(error) => Refused(error)
          case Ready(resources) =>
            Ready(SandboxConfig(readAllow, writeAllow, execAllow, resources, PrepareNamespaces(p.namespace)))
  }

  // ---------- exactness ----------

  ghost predicate AllCanonical(paths: seq<string>, canonical: map<string, Path>) {
    forall i | 0 <= i < |paths| :: paths[i] in canonical
  }

  lemma {:induction false} CanonicalPathsExactly(paths: seq<string>, canonical: map<string, Path>)
    ensures var r := CanonicalPaths(paths, canonical);
      && (r.Ready? <==> AllCanonical(paths, canonical))
      && (r.Ready? ==> |r.value| == |paths| && forall i | 0 <= i < |paths| :: r.value[i] == canonical[paths[i]])
      && (r.Refused? ==> r.error.InvalidPath? && r.error.path in paths && r.error.path !in canonical)
  {
    if paths == [] {
    } else {
      CanonicalPathsExactly(paths[..|paths| - 1], canonical);
    }
  }

  /** `configured` are the canonical forms of `paths`, one by one and in order. */
  ghost predicate CanonicalOf(configured: seq<Path>, paths: seq<string>, canonical: map<string, Path>) {
    && |configured| == |paths|
    && forall i | 0 <= i < |paths| :: paths[i] in canonical && configured[i] == canonical[paths[i]]
  }

  /** The translation succeeds exactly if all paths exist and no limit it scales
      overflows, and then each list of the configuration is that of the same kind in the
      policy, and the other parts are those of the sections. */
  lemma PreparedExactly(p: SecurityPolicy, canonical: map<string, Path>)
    ensures Prepare(p, canonical).Ready? <==>
              && AllCanonical(p.filesystem.readAllow, canonical)
              && AllCanonical(p.filesystem.writeAllow, canonical)
              && AllCanonical(p.filesystem.execAllow, canonical)
              && (p.resources.Some? ==> !SomeScaledLimitOverflows(p.resources.value))
    ensures Prepare(p, canonical).Ready? ==>
              var c := Prepare(p, canonical).value;
              && CanonicalOf(c.readAllow, p.filesystem.readAllow, canonical)
              && CanonicalOf(c.writeAllow, p.filesystem.writeAllow, canonical)
              && CanonicalOf(c.execAllow, p.filesystem.execAllow, canonical)
              && PrepareResources(p.resources) == Ready(c.resources)
              && c.namespace == PrepareNamespaces(p.namespace)
  {
    CanonicalPathsExactly(p.filesystem.readAllow, canonical);
    CanonicalPathsExactly(p.filesystem.writeAllow, canonical);
    CanonicalPathsExactly(p.filesystem.execAllow, canonical);
    if p.resources.Some? {
      ResourcesExactly(p.resources.value);
    }
  }

  /** When the translation fails, the error names a cause: the first path that does not
      exist, reading before writing before executing, or, if all exist, a limit that
      overflows, the output limit before the memory limit before the file size. */
  lemma RefusedExactly(p: SecurityPolicy, canonical: map<string, Path>) returns (i: nat)
    ensures var all := p.filesystem.readAllow + p.filesystem.writeAllow + p.filesystem.execAllow;
      && i <= |all| && (forall j | 0 <= j < i :: all[j] in canonical) && (i < |all| ==> all[i] !in canonical)
      && (i < |all| ==> Prepare(p, canonical) == Refused(InvalidPath(all[i])))
      && (i == |all| && p.resources.Some? && SomeScaledLimitOverflows(p.resources.value) ==>
            var r := p.resources.value;
            Prepare(p, canonical) == Refused(
              if Overflows(r.maxOutputKb, 1024) then OutputTooLarge
              else if (r.rlimit.Some? || r.cgroup.Some?) && Overflows(r.memoryMb, 1024 * 1024) then MemoryOverflow
              else FileSizeOverflow))
  {
    var read, write, exec := p.filesystem.readAllow, p.filesystem.writeAllow, p.filesystem.execAllow;
    i := FirstMissing(read, canonical);
    if i == |read| {
      var j := FirstMissing(write, canonical);
      i := i + j;
      if j == |write| {
        var k := FirstMissing(exec, canonical);
        i := i + k;
      }
    }
    if p.resources.Some? {
      var r := p.resources.value;
      MegabytesExactly(r.memoryMb, MemoryOverflow);
      if r.rlimit.Some? {
        MegabytesExactly(r.rlimit.value.maxFileSizeMb, FileSizeOverflow);
      }
    }
  }

  lemma {:induction false} FirstMissing(paths: seq<string>, canonical: map<string, Path>) returns (i: nat)
    ensures i <= |paths| && forall j | 0 <= j < i :: paths[j] in canonical
    ensures i < |paths| ==> paths[i] !in canonical && CanonicalPaths(paths, canonical) == Refused(InvalidPath(paths[i]))
    ensures i == |paths| ==> CanonicalPaths(paths, canonical).Ready?
  {
    if paths == [] {
      return 0;
    }
    var n := |paths| - 1;
    i := FirstMissing(paths[..n], canonical);
    if i == n && paths[n] in canonical {
      i := n + 1;
    }
  }

  predicate Overflows(x: Option<nat>, factor: nat) {
    x.Some? && x.value * factor >= 0x1_0000_0000_0000_0000
  }

  /** A limit that is scaled does not fit into 64 bits.  The memory limit is scaled
      only for an rlimit or a cgroup section, the file size only for an rlimit one. */
  predicate SomeScaledLimitOverflows(r: ResourcePolicy) {
    || Overflows(r.maxOutputKb, 1024)
    || ((r.rlimit.Some? || r.cgroup.Some?) && Overflows(r.memoryMb, 1024 * 1024))
    || (r.rlimit.Some? && Overflows(r.rlimit.value.maxFileSizeMb, 1024 * 1024))
  }

  /** `bytes` is the unbounded-integer scaling of `x`, present exactly if `x` is. */
  predicate Scaled(bytes: Option<nat>, x: Option<nat>, factor: nat) {
    bytes == match x case None => None case Some(n) => Some(n * factor)
  }

  predicate Positive(x: Option<nat>) {
    x != Some(0)
  }

  lemma MegabytesExactly(mb: Option<nat>, error: PrepareError)
    ensures BytesOfMb(mb, error) ==
            if Overflows(mb, 1024 * 1024) then Refused(error)
            else Ready(match mb case None => None case Some(n) => Some(n * (1024 * 1024)))
  {
  }

  /** For every policy whose paths exist, the translation fails exactly when a limit
      it scales overflows. */
  lemma FailsExactlyOnOverflow(p: SecurityPolicy, canonical: map<string, Path>)
    requires AllCanonical(p.filesystem.readAllow, canonical)
    requires AllCanonical(p.filesystem.writeAllow, canonical)
    requires AllCanonical(p.filesystem.execAllow, canonical)
    ensures Prepare(p, canonical).Refused? <==> p.resources.Some? && SomeScaledLimitOverflows(p.resources.value)
  {
    CanonicalPathsExactly(p.filesystem.readAllow, canonical);
    CanonicalPathsExactly(p.filesystem.writeAllow, canonical);
    CanonicalPathsExactly(p.filesystem.execAllow, canonical);
    if p.resources.Some? {
      ResourcesExactly(p.resources.value);
    }
  }

  lemma {:induction false} ResourcesExactly(r: ResourcePolicy)
    ensures var c := PrepareResources(Some(r));
      && (c.Refused? <==> SomeScaledLimitOverflows(r))
      && (c.Ready? ==>
            && c.value.timeoutSeconds == r.timeoutSeconds
            && Scaled(c.value.maxOutputBytes, r.maxOutputKb, 1024)
            && RlimitExactly(c.value.rlimit, r) && CgroupExactly(c.value.cgroup, r))
  {
    MegabytesExactly(r.memoryMb, MemoryOverflow);
    if r.rlimit.Some? {
      MegabytesExactly(r.rlimit.value.maxFileSizeMb, FileSizeOverflow);
    }
  }

  /** Without a resource section nothing is limited. */
  lemma NoResourcesNoLimits()
    ensures var c := PrepareResources(None);
      && c.Ready? && c.value.timeoutSeconds.None? && c.value.maxOutputBytes.None?
      && NothingLimited(c.value.rlimit) && NothingGrouped(c.value.cgroup)
  {
  }

  predicate NothingLimited(c: RlimitConfig) {
    && !c.enabled && c.memoryBytes.None? && c.maxProcesses.None? && c.cpuSeconds.None?
    && c.maxFileSizeBytes.None?
  }

  predicate NothingGrouped(c: CgroupConfig) {
    !c.enabled && c.memoryBytes.None? && c.maxProcesses.None? && c.cpuPercent.None?
  }

  /** An rlimit section takes over the shared limits and adds its own; without the
      section nothing is limited. */
  predicate RlimitExactly(c: RlimitConfig, r: ResourcePolicy) {
    match r.rlimit
    case None => NothingLimited(c)
    case Some(section) =>
      && (c.enabled <==> section.enabled == Some(true))
      && Scaled(c.memoryBytes, r.memoryMb, 1024 * 1024) && c.maxProcesses == r.maxProcesses
      && c.cpuSeconds == section.cpuSeconds && Scaled(c.maxFileSizeBytes, section.maxFileSizeMb, 1024 * 1024)
  }

  predicate CgroupExactly(c: CgroupConfig, r: ResourcePolicy) {
    match r.cgroup
    case None => NothingGrouped(c)
    case Some(section) =>
      && (c.enabled <==> section.enabled == Some(true))
      && Scaled(c.memoryBytes, r.memoryMb, 1024 * 1024) && c.maxProcesses == r.maxProcesses
      && c.cpuPercent == section.cpuPercent
  }

  // ---------- what validation accepts ----------

  predicate LimitsPositive(r: ResourcePolicy) {
    && Positive(r.timeoutSeconds) && Positive(r.maxOutputKb) && Positive(r.memoryMb) && Positive(r.maxProcesses)
    && (r.rlimit.Some? ==> Positive(r.rlimit.value.cpuSeconds) && Positive(r.rlimit.value.maxFileSizeMb))
    && (r.cgroup.Some? ==> Positive(r.cgroup.value.cpuPercent))
  }

  /** An enabled mechanism has something to limit. */
  predicate EnabledHasLimit(r: ResourcePolicy) {
    var shared := r.memoryMb.Some? || r.maxProcesses.Some?;
    && (r.rlimit.Some? && r.rlimit.value.enabled == Some(true) ==>
          shared || r.rlimit.value.cpuSeconds.Some? || r.rlimit.value.maxFileSizeMb.Some?)
    && (r.cgroup.Some? && r.cgroup.value.enabled == Some(true) ==> shared || r.cgroup.value.cpuPercent.Some?)
  }

  predicate PortsValid(ports: Option<seq<nat>>) {
    ports.Some? ==> 0 !in ports.value
  }

  predicate MountValid(m: MountPolicy) {
    && (m.privateTmp == Some(true) ==> m.enabled == Some(true))
    && (m.tmpSizeMb.Some? ==> 1 <= m.tmpSizeMb.value <= 1024)
  }

  predicate NamesValid(names: seq<string>, known: set<string>) {
    forall i | 0 <= i < |names| :: names[i] in known && exists j :: 0 <= j < |names[i]| && !IsWhitespace(names[i][j])
  }

  predicate HostnameValid(hostname: Option<string>) {
    && hostname.Some? && hostname.value != "" && Utf8Length(hostname.value) <= 64
    && forall i | 0 <= i < |hostname.value| :: !IsWhitespace(hostname.value[i])
  }

  /** Exactly the policies with these properties pass validation. */
  lemma {:induction false} AcceptedExactly(p: SecurityPolicy, known: set<string>)
    ensures Validated(p, known) <==>
              && p.version == 1 && p.defaultAction in {"allow", "deny"}
              && |p.filesystem.readAllow| + |p.filesystem.writeAllow|
                 + |p.filesystem.execAllow| + |p.filesystem.deny| > 0
              && (p.resources.Some? ==> LimitsPositive(p.resources.value) && EnabledHasLimit(p.resources.value))
              && (p.network.Some? ==> PortsValid(p.network.value.connectTcp) && PortsValid(p.network.value.bindTcp))
              && (p.seccomp.Some? && p.seccomp.value.deny.Some? ==> NamesValid(p.seccomp.value.deny.value, known))
              && (p.namespace.Some? && p.namespace.value.uts.Some? ==>
                    HostnameValid(p.namespace.value.uts.value.hostname))
              && (p.namespace.Some? && p.namespace.value.mount.Some? ==> MountValid(p.namespace.value.mount.value))
  {
    if p.resources.Some? {
      ResourcesAcceptedExactly(p.resources.value);
    }
    if p.seccomp.Some? && p.seccomp.value.deny.Some? {
      NamesAcceptedExactly(p.seccomp.value.deny.value, known);
    }
    HostnameAcceptedExactly(p);
    MountAcceptedExactly(p);
  }

  lemma {:induction false} NamesAcceptedExactly(names: seq<string>, known: set<string>)
    ensures ValidateNames(names, known).None? <==> NamesValid(names, known)
  {
    if names == [] {
    } else {
      TrimIsEmptyExactly(names[0]);
      NamesAcceptedExactly(names[1..], known);
      assert forall i | 1 <= i < |names| :: names[i] == names[1..][i - 1];
      assert forall i | 0 <= i < |names| - 1 :: names[1..][i] == names[i + 1];
    }
  }

  lemma HostnameAcceptedExactly(p: SecurityPolicy)
    ensures ValidateHostname(p).None? <==>
              (p.namespace.Some? && p.namespace.value.uts.Some? ==> HostnameValid(p.namespace.value.uts.value.hostname))
  {
    if p.namespace.Some? && p.namespace.value.uts.Some? && p.namespace.value.uts.value.hostname.Some? {
      TrimIsEmptyExactly(p.namespace.value.uts.value.hostname.value);
    }
  }

  lemma ResourcesAcceptedExactly(r: ResourcePolicy)
    ensures ValidateResources(r).None? <==> LimitsPositive(r) && EnabledHasLimit(r)
  {
  }

  lemma MountAcceptedExactly(p: SecurityPolicy)
    ensures ValidateMountPolicy(p).None? <==>
              (p.namespace.Some? && p.namespace.value.mount.Some? ==> MountValid(p.namespace.value.mount.value))
  {
  }

  // ---------- which error is reported ----------

  /** Where a check stands in the order in which a policy is checked. */
  function Rank(e: PolicyError): nat {
    match e
    case UnsupportedVersion => 0
    case InvalidDefaultAction => 1
    case EmptyFileSystemPolicy => 2
    case ZeroLimit(limit) => (match limit
                              case MaxOutput => 3
                              case Timeout => 4
                              case Memory => 5
                              case MaxProcesses => 6
                              case MaxFileSize => 7
                              case CpuSeconds => 8
                              case CpuPercent => 10)
    case NoRlimitConfigured => 9
    case NoCgroupLimitConfigured => 11
    case ConnectPortZero => 12
    case BindPortZero => 13
    case EmptySyscallName => 14
    case UnknownSyscallName(_) => 14
    case NoHostname => 15
    case EmptyHostname => 16
    case HostnameTooLong => 17
    case HostnameWithSpace => 18
    case TmpWithoutMount => 19
    case TmpSizeZero => 20
    case TmpSizeTooLarge => 21
  }

  predicate IsLimitZero(r: ResourcePolicy, limit: Limit) {
    match limit
    case MaxOutput => r.maxOutputKb == Some(0)
    case Timeout => r.timeoutSeconds == Some(0)
    case Memory => r.memoryMb == Some(0)
    case MaxProcesses => r.maxProcesses == Some(0)
    case MaxFileSize => r.rlimit.Some? && r.rlimit.value.maxFileSizeMb == Some(0)
    case CpuSeconds => r.rlimit.Some? && r.rlimit.value.cpuSeconds == Some(0)
    case CpuPercent => r.cgroup.Some? && r.cgroup.value.cpuPercent == Some(0)
  }

  predicate Blank(s: string) {
    forall i | 0 <= i < |s| :: IsWhitespace(s[i])
  }

  /** Name `i` is the first that is blank or unknown. */
  ghost predicate FirstBadName(names: seq<string>, known: set<string>, i: nat) {
    && i < |names| && (Blank(names[i]) || names[i] !in known)
    && forall j | 0 <= j < i :: !Blank(names[j]) && names[j] in known
  }

  function DeniedNames(p: SecurityPolicy): seq<string> {
    if p.seccomp.Some? && p.seccomp.value.deny.Some? then p.seccomp.value.deny.value else []
  }

  /** The policy breaks the rule that the error stands for. */
  ghost predicate Violates(p: SecurityPolicy, known: set<string>, e: PolicyError) {
    match e
    case UnsupportedVersion => p.version != 1
    case InvalidDefaultAction => p.defaultAction !in {"allow", "deny"}
    case EmptyFileSystemPolicy =>
      |p.filesystem.readAllow| + |p.filesystem.writeAllow| + |p.filesystem.execAllow| + |p.filesystem.deny| == 0
    case ZeroLimit(limit) => p.resources.Some? && IsLimitZero(p.resources.value, limit)
    case NoRlimitConfigured =>
      && p.resources.Some? && p.resources.value.rlimit.Some? && p.resources.value.rlimit.value.enabled == Some(true)
      && p.resources.value.memoryMb.None? && p.resources.value.maxProcesses.None?
      && p.resources.value.rlimit.value.cpuSeconds.None? && p.resources.value.rlimit.value.maxFileSizeMb.None?
    case NoCgroupLimitConfigured =>
      && p.resources.Some? && p.resources.value.cgroup.Some? && p.resources.value.cgroup.value.enabled == Some(true)
      && p.resources.value.memoryMb.None? && p.resources.value.maxProcesses.None?
      && p.resources.value.cgroup.value.cpuPercent.None?
    case ConnectPortZero => p.network.Some? && !PortsValid(p.network.value.connectTcp)
    case BindPortZero => p.network.Some? && !PortsValid(p.network.value.bindTcp)
    case EmptySyscallName =>
      exists i: nat :: FirstBadName(DeniedNames(p), known, i) && Blank(DeniedNames(p)[i])
    case UnknownSyscallName(name) =>
      exists i: nat :: FirstBadName(DeniedNames(p), known, i) && !Blank(name) && name == DeniedNames(p)[i]
    case NoHostname => HasUts(p) && Hostname(p).None?
    case EmptyHostname => HasUts(p) && Hostname(p).Some? && Blank(Hostname(p).value)
    case HostnameTooLong => HasUts(p) && Hostname(p).Some? && Utf8Length(Hostname(p).value) > 64
    case HostnameWithSpace =>
      HasUts(p) && Hostname(p).Some? && exists i :: 0 <= i < |Hostname(p).value| && IsWhitespace(Hostname(p).value[i])
    case TmpWithoutMount => HasMount(p) && Mounts(p).privateTmp == Some(true) && Mounts(p).enabled != Some(true)
    case TmpSizeZero => HasMount(p) && Mounts(p).tmpSizeMb == Some(0)
    case TmpSizeTooLarge => HasMount(p) && Mounts(p).tmpSizeMb.Some? && Mounts(p).tmpSizeMb.value > 1024
  }

  predicate HasUts(p: SecurityPolicy) {
    p.namespace.Some? && p.namespace.value.uts.Some?
  }

  function Hostname(p: SecurityPolicy): Option<string>
    requires HasUts(p)
  {
    p.namespace.value.uts.value.hostname
  }

  predicate HasMount(p: SecurityPolicy) {
    p.namespace.Some? && p.namespace.value.mount.Some?
  }

  function Mounts(p: SecurityPolicy): MountPolicy
    requires HasMount(p)
  {
    p.namespace.value.mount.value
  }

  /** The outcome of a part of the checks, those with ranks from `low` to `high`. */
  ghost predicate ReportsFirst(p: SecurityPolicy, known: set<string>, r: Option<PolicyError>, low: nat, high: nat) {
    && (r.Some? ==> Violates(p, known, r.value) && low <= Rank(r.value) <= high)
    && (forall e: PolicyError | Violates(p, known, e) && low <= Rank(e) <= high :: r.Some? && Rank(r.value) <= Rank(e))
  }

  lemma ResourcesReportFirst(p: SecurityPolicy, known: set<string>)
    requires p.resources.Some?
    ensures ReportsFirst(p, known, ValidateResources(p.resources.value), 3, 11)
  {
  }

  lemma PolicyReportsFirst(p: SecurityPolicy, known: set<string>)
    ensures ReportsFirst(p, known, ValidatePolicy(p), 0, 13)
  {
    if p.resources.Some? {
      ResourcesReportFirst(p, known);
    }
  }

  lemma {:induction false} NamesReportFirst(names: seq<string>, known: set<string>) returns (i: nat)
    ensures i <= |names| && forall j | 0 <= j < i :: !Blank(names[j]) && names[j] in known
    ensures i < |names| ==> FirstBadName(names, known, i)
    ensures ValidateNames(names, known) ==
            if i == |names| then None
            else if Blank(names[i]) then Some(EmptySyscallName) else Some(UnknownSyscallName(names[i]))
  {
    if names == [] {
      return 0;
    }
    TrimIsEmptyExactly(names[0]);
    if Blank(names[0]) || names[0] !in known {
      return 0;
    }
    i := NamesReportFirst(names[1..], known);
    i := i + 1;
  }

  lemma SeccompReportsFirst(p: SecurityPolicy, known: set<string>)
    ensures ReportsFirst(p, known, ValidateSeccompNames(p, known), 14, 14)
  {
    var i := NamesReportFirst(DeniedNames(p), known);
    assert forall j: nat :: FirstBadName(DeniedNames(p), known, j) ==> j == i;
  }

  lemma HostnameReportsFirst(p: SecurityPolicy, known: set<string>)
    ensures ReportsFirst(p, known, ValidateHostname(p), 15, 18)
  {
    if HasUts(p) && Hostname(p).Some? {
      TrimIsEmptyExactly(Hostname(p).value);
    }
  }

  lemma MountReportsFirst(p: SecurityPolicy, known: set<string>)
    ensures ReportsFirst(p, known, ValidateMountPolicy(p), 19, 21)
  {
  }

  /** A policy is refused with the error of the first rule it breaks, in the order of the
      checks; and it is accepted if it breaks none. */
  lemma ErrorIsFirstViolation(p: SecurityPolicy, known: set<string>)
    ensures var r := Validate(p, known);
      && (r.None? <==> forall e: PolicyError :: !Violates(p, known, e))
      && (r.Some? ==> Violates(p, known, r.value))
      && (r.Some? ==> forall e: PolicyError | Violates(p, known, e) :: Rank(r.value) <= Rank(e))
  {
    PolicyReportsFirst(p, known);
    SeccompReportsFirst(p, known);
    HostnameReportsFirst(p, known);
    MountReportsFirst(p, known);
    assert forall e: PolicyError :: 0 <= Rank(e) <= 21;
  }

  // ---------- what the configuration guarantees ----------

  /** What a configuration compiled from a validated policy always is: every limit
      that is present is positive, an enabled mechanism has at least one limit, a PID
      namespace brings a mount namespace, a user namespace is required exactly when
      some namespace is on, a UTS namespace has a valid hostname, and a private /tmp has
      a mount namespace and a size. */
  lemma {:induction false} ConfigurationIsSound(p: SecurityPolicy, known: set<string>, canonical: map<string, Path>)
    requires Validated(p, known) && Prepare(p, canonical).Ready?
    ensures var c := Prepare(p, canonical).value;
            var r, g, n := c.resources.rlimit, c.resources.cgroup, c.namespace;
      && Positive(c.resources.timeoutSeconds) && Positive(c.resources.maxOutputBytes)
      && Positive(r.memoryBytes) && Positive(r.maxProcesses) && Positive(r.cpuSeconds) && Positive(r.maxFileSizeBytes)
      && Positive(g.memoryBytes) && Positive(g.maxProcesses) && Positive(g.cpuPercent)
      && (r.enabled ==> r.memoryBytes.Some? || r.maxProcesses.Some? || r.cpuSeconds.Some? || r.maxFileSizeBytes.Some?)
      && (g.enabled ==> g.memoryBytes.Some? || g.maxProcesses.Some? || g.cpuPercent.Some?)
      && (n.pid ==> n.mount)
      && (n.userNamespaceRequired <==> n.uts || n.ipc || n.network || n.pid || n.mount)
      && (n.uts ==> HostnameValid(n.hostname))
      && (n.privateTmp ==> n.mount) && 0 < n.tmpSizeMb <= 1024
  {
    AcceptedExactly(p, known);
    if p.resources.Some? {
      ResourcesExactly(p.resources.value);
    }
  }

  /** The settings that go with the namespaces are the policy's own, if it has them. */
  lemma SettingsAreTakenOver(p: Option<NamespacePolicy>)
    ensures var c := PrepareNamespaces(p);
      && c.hostname == (if p.Some? && p.value.uts.Some? then p.value.uts.value.hostname else None)
      && (c.privateTmp <==> p.Some? && p.value.mount.Some? && p.value.mount.value.privateTmp == Some(true))
      && c.tmpSizeMb == (if p.Some? && p.value.mount.Some? && p.value.mount.value.tmpSizeMb.Some?
                         then p.value.mount.value.tmpSizeMb.value else 32)
  {
  }

  datatype Namespace = User | Uts | Ipc | Network | Pid | Mount

  /** The namespaces that the policy asks for, each by its own switch. */
  function Requested(p: Option<NamespacePolicy>): set<Namespace> {
    match p
    case None => {}
    case Some(policy) =>
      (if policy.uts.Some? && policy.uts.value.enabled == Some(true) then {Uts} else {})
      + (if policy.ipc == Some(true) then {Ipc} else {})
      + (if policy.network == Some(true) then {Network} else {})
      + (if policy.pid == Some(true) then {Pid} else {})
      + (if policy.mount.Some? && policy.mount.value.enabled == Some(true) then {Mount} else {})
  }

  function Created(c: NamespaceConfig): set<Namespace> {
    (if c.userNamespaceRequired then {User} else {})
    + (if c.uts then {Uts} else {}) + (if c.ipc then {Ipc} else {}) + (if c.network then {Network} else {})
    + (if c.pid then {Pid} else {}) + (if c.mount then {Mount} else {})
  }

  /** Namespaces that can be created together without privileges: a PID namespace
      needs a mount namespace for its own /proc, and any of them needs a user namespace. */
  predicate SelfSufficient(s: set<Namespace>) {
    (Pid in s ==> Mount in s) && (s != {} ==> User in s)
  }

  /** The configuration creates the least self-sufficient set of namespaces that
      contains the requested ones: none is forgotten, none is added without need. */
  lemma {:induction false} NamespacesAreLeast(p: Option<NamespacePolicy>)
    ensures var created := Created(PrepareNamespaces(p));
      && Requested(p) <= created && SelfSufficient(created)
      && forall s :: SelfSufficient(s) && Requested(p) <= s ==> created <= s
  {
    var created := Created(PrepareNamespaces(p));
    assert forall x | x in created :: x in Requested(p) || (x == Mount && Pid in Requested(p))
                                      || (x == User && Requested(p) != {});
  }
}
