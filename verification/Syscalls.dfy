/** The list of denied system calls, compiled from a profile and a custom list through
    an unordered set, and the filter built from it. */
module Syscalls {
  import opened Kernel

  datatype Profile = NoProfile | Baseline | Strict

  datatype SeccompPolicy = SeccompPolicy(profile: Option<Profile>, deny: Option<seq<string>>)

  const BASELINE_DENIED: seq<string> := [
    "ptrace", "mount", "umount2", "pivot_root", "reboot", "kexec_load", "kexec_file_load",
    "init_module", "finit_module", "delete_module", "swapon", "swapoff"]

  const STRICT_EXTRA: seq<string> := [
    "bpf", "perf_event_open", "userfaultfd", "keyctl", "add_key", "request_key", "setns", "unshare",
    "clone3", "process_vm_readv", "process_vm_writev", "open_by_handle_at", "name_to_handle_at"]

  function ProfileList(profile: Profile): seq<string> {
    match profile
    case NoProfile => []
    case Baseline => BASELINE_DENIED
    case Strict => BASELINE_DENIED + STRICT_EXTRA
  }

  /** What the policy denies, regardless of order and repetition. */
  predicate Denies(policy: SeccompPolicy, name: string) {
    || (policy.profile.Some? && name in ProfileList(policy.profile.value))
    || (policy.deny.Some? && name in policy.deny.value)
  }

  /** What each profile denies, name by name. */
  function DeniedBy(profile: Option<Profile>): set<string> {
    match profile
    case None => {}
    case Some(NoProfile) => {}
    case Some(Baseline) =>
      {"delete_module", "finit_module", "init_module", "kexec_file_load", "kexec_load", "mount", "pivot_root",
       "ptrace", "reboot", "swapoff", "swapon", "umount2"}
    case Some(Strict) =>
      {"delete_module", "finit_module", "init_module", "kexec_file_load", "kexec_load", "mount", "pivot_root",
       "ptrace", "reboot", "swapoff", "swapon", "umount2",
       "add_key", "bpf", "clone3", "keyctl", "name_to_handle_at", "open_by_handle_at", "perf_event_open",
       "process_vm_readv", "process_vm_writev", "request_key", "setns", "unshare", "userfaultfd"}
  }

  /** A policy denies exactly what its profile denies and what its own list names. */
  lemma {:induction false} DeniesExactly(policy: SeccompPolicy, name: string)
    ensures Denies(policy, name) <==>
              name in DeniedBy(policy.profile) || (policy.deny.Some? && name in policy.deny.value)
  {
    if policy.profile.Some? {
      BaselineExactly(name);
      StrictExactly(name);
    }
  }

  lemma BaselineExactly(name: string)
    ensures name in BASELINE_DENIED <==> name in DeniedBy(Some(Baseline))
  {
  }

  lemma StrictExactly(name: string)
    ensures name in BASELINE_DENIED + STRICT_EXTRA <==> name in DeniedBy(Some(Strict))
  {
  }

  // ---------- the order of names ----------

  /** The lexicographic order of strings. */
  predicate Less(a: string, b: string) {
    if b == "" then false
    else if a == "" then true
    else a[0] < b[0] || (a[0] == b[0] && Less(a[1..], b[1..]))
  }

  lemma {:induction false} LessIsTransitive(a: string, b: string, c: string)
    requires Less(a, b) && Less(b, c)
    ensures Less(a, c)
  {
    if a != "" && a[0] == b[0] == c[0] {
      LessIsTransitive(a[1..], b[1..], c[1..]);
    }
  }

  lemma {:induction false} LessIsTotal(a: string, b: string)
    ensures a == b || Less(a, b) || Less(b, a)
    ensures !(Less(a, b) && Less(b, a)) && !Less(a, a)
  {
    if a != "" && b != "" && a[0] == b[0] {
      LessIsTotal(a[1..], b[1..]);
      assert a == [a[0]] + a[1..] && b == [b[0]] + b[1..];
    }
    if a != "" {
      LessIsTotal(a[1..], a[1..]);
    }
  }

  ghost predicate StrictlySorted(s: seq<string>) {
    forall i, j | 0 <= i < j < |s| :: Less(s[i], s[j])
  }

  // ---------- compilation ----------

  method InsertAll(denied: set<string>, names: seq<string>) returns (r: set<string>)
    ensures forall x :: x in r <==> x in denied || x in names
  {
    r := denied;
    for i := 0 to |names|
      invariant forall x :: x in r <==> x in denied || x in names[..i]
    {
      r := r + {names[i]};
    }
  }

  /** The elements of a hash set, in whatever order it yields them. */
  method Collect(names: set<string>) returns (r: seq<string>)
    ensures forall x :: x in r <==> x in names
    ensures forall i, j | 0 <= i < j < |r| :: r[i] != r[j]
  {
    r := [];
    var rest := names;
    while rest != {}
      invariant rest <= names
      invariant forall x :: x in r <==> x in names && x !in rest
      invariant forall i, j | 0 <= i < j < |r| :: r[i] != r[j]
      decreases rest
    {
      var x :| x in rest;
      r := r + [x];
      rest := rest - {x};
    }
  }

  /** Puts `x` in its place in a sorted list. */
  method Insert(s: seq<string>, x: string) returns (r: seq<string>)
    requires StrictlySorted(s) && x !in s
    ensures StrictlySorted(r)
    ensures forall y :: y in r <==> y in s || y == x
  {
    var i := |s|;
    while i > 0 && Less(x, s[i - 1])
      invariant 0 <= i <= |s|
      invariant forall k | i <= k < |s| :: Less(x, s[k])
    {
      i := i - 1;
    }
    forall k | 0 <= k < i
      ensures Less(s[k], x)
    {
      LessIsTotal(s[i - 1], x);
      if k < i - 1 {
        LessIsTransitive(s[k], s[i - 1], x);
      }
    }
    r := s[..i] + [x] + s[i..];
    assert forall y :: y in s <==> y in s[..i] || y in s[i..];
  }

  method Sort(names: seq<string>) returns (r: seq<string>)
    requires forall i, j | 0 <= i < j < |names| :: names[i] != names[j]
    ensures StrictlySorted(r)
    ensures forall x :: x in r <==> x in names
  {
    r := [];
    for i := 0 to |names|
      invariant StrictlySorted(r)
      invariant forall x :: x in r <==> x in names[..i]
    {
      assert names[i] !in names[..i];
      r := Insert(r, names[i]);
    }
  }

  /** `build_denied_syscall`. */
  method BuildDeniedSyscall(policy: SeccompPolicy) returns (r: seq<string>)
    ensures StrictlySorted(r)
    ensures forall x :: x in r <==> Denies(policy, x)
    ensures forall x :: x in r <==> x in DeniedBy(policy.profile) || (policy.deny.Some? && x in policy.deny.value)
  {
    var denied: set<string> := {};
    if policy.profile.Some? {
      denied := InsertAll(denied, ProfileList(policy.profile.value));
    }
    if policy.deny.Some? {
      denied := InsertAll(denied, policy.deny.value);
    }
    var list := Collect(denied);
    r := Sort(list);
    forall x
      ensures Denies(policy, x) <==>
                x in DeniedBy(policy.profile) || (policy.deny.Some? && x in policy.deny.value)
    {
      DeniesExactly(policy, x);
    }
  }

  /** Two strictly sorted lists with the same elements are equal, so the compiled list
      is determined by what the policy denies: neither the order in which the set
      yields its elements nor repetitions in the policy matter. */
  lemma {:induction false} SortedListIsUnique(s: seq<string>, t: seq<string>)
    requires StrictlySorted(s) && StrictlySorted(t)
    requires forall x :: x in s <==> x in t
    ensures s == t
  {
    if t != [] {
      assert t[0] in s;
    }
    if s == [] {
    } else {
      assert s[0] in t;
      LeastIsFirst(s, t);
      LeastIsFirst(t, s);
      LessIsTotal(s[0], t[0]);
      forall x
        ensures x in s[1..] <==> x in t[1..]
      {
        RestOf(s, x);
        RestOf(t, x);
      }
      SortedListIsUnique(s[1..], t[1..]);
      assert s == [s[0]] + s[1..] && t == [t[0]] + t[1..];
    }
  }

  lemma LeastIsFirst(s: seq<string>, t: seq<string>)
    requires s != [] && t != [] && StrictlySorted(s) && forall x :: x in t ==> x in s
    ensures s[0] == t[0] || Less(s[0], t[0])
  {
    assert t[0] in s;
  }

  lemma RestOf(s: seq<string>, x: string)
    requires s != [] && StrictlySorted(s)
    ensures x in s[1..] <==> x in s && x != s[0]
  {
    LessIsTotal(s[0], s[0]);
    assert forall i | 0 < i < |s| :: s[i] != s[0];
  }

  lemma CompiledListIsDetermined(policy: SeccompPolicy, other: SeccompPolicy, r: seq<string>, q: seq<string>)
    requires StrictlySorted(r) && forall x :: x in r <==> Denies(policy, x)
    requires StrictlySorted(q) && forall x :: x in q <==> Denies(other, x)
    ensures r == q <==> forall x :: Denies(policy, x) <==> Denies(other, x)
  {
    if forall x :: Denies(policy, x) <==> Denies(other, x) {
      SortedListIsUnique(r, q);
    }
  }

  /** A stricter profile denies more. */
  lemma ProfilesAreMonotone(deny: Option<seq<string>>, name: string)
    ensures Denies(SeccompPolicy(None, deny), name) <==> Denies(SeccompPolicy(Some(NoProfile), deny), name)
    ensures Denies(SeccompPolicy(Some(NoProfile), deny), name) ==> Denies(SeccompPolicy(Some(Baseline), deny), name)
    ensures Denies(SeccompPolicy(Some(Baseline), deny), name) ==> Denies(SeccompPolicy(Some(Strict), deny), name)
    ensures !Denies(SeccompPolicy(Some(Baseline), None), "bpf") && Denies(SeccompPolicy(Some(Strict), None), "bpf")
  {
  }

  // ---------- the filter ----------

  datatype FilterResult =
    | NoFilter
    | NotCreated
    | UnknownSyscall(name: string)
    | RuleRejected(name: string)
    | NotLoaded
    | Loaded(denied: set<int>)

  /** What the library answers: whether it creates a filter context, the numbers it
      knows of system calls, the names whose rule it refuses, and whether it loads. */
  datatype Library = Library(creates: bool, numbers: map<string, int>, rejected: set<string>, loads: bool)
  {
    predicate Takes(name: string) {
      name in numbers && name !in rejected
    }

    /** `denied` are exactly the numbers of `names`. */
    ghost predicate NumbersOf(denied: set<int>, names: iset<string>) {
      forall n :: n in denied <==> exists x :: x in names && x in numbers && numbers[x] == n
    }
  }

  /** `apply_seccomp_filter`: everything is allowed by default, and one rule is added
      for each name, up to the first the library does not take. */
  method ApplySeccompFilter(enable: bool, names: seq<string>, library: Library) returns (r: FilterResult)
    ensures r.NoFilter? <==> !enable
    ensures r.NotCreated? <==> enable && !library.creates
    ensures r.UnknownSyscall? || r.RuleRejected? <==>
              enable && library.creates && exists x :: x in names && !library.Takes(x)
    ensures r.UnknownSyscall? ==> r.name in names && r.name !in library.numbers
    ensures r.RuleRejected? ==> r.name in names && r.name in library.numbers && r.name in library.rejected
    ensures r.Loaded? <==> enable && library.creates && library.loads && forall x :: x in names ==> library.Takes(x)
    ensures r.Loaded? ==> library.NumbersOf(r.denied, iset x | x in names)
  {
    if !enable {
      return NoFilter;
    }
    if !library.creates {
      return NotCreated;
    }
    var denied: set<int> := {};
    for i := 0 to |names|
      invariant forall k | 0 <= k < i :: library.Takes(names[k])
      invariant library.NumbersOf(denied, iset x | x in names[..i])
    {
      assert names[i] in names;
      if names[i] !in library.numbers {
        return UnknownSyscall(names[i]);
      }
      if names[i] in library.rejected {
        return RuleRejected(names[i]);
      }
      denied := denied + {library.numbers[names[i]]};
      assert names[..i + 1] == names[..i] + [names[i]];
    }
    assert names[..|names|] == names;
    if !library.loads {
      return NotLoaded;
    }
    r := Loaded(denied);
  }

  /** Compiling a policy and loading the result yields a filter that denies exactly
      the system calls the policy denies, or an error and no filter. */
  method CompileAndApply(policy: SeccompPolicy, library: Library) returns (r: FilterResult)
    ensures r.Loaded? <==> library.creates && library.loads && forall x :: Denies(policy, x) ==> library.Takes(x)
    ensures r.Loaded? ==> library.NumbersOf(r.denied, iset x | Denies(policy, x))
    ensures r.UnknownSyscall? ==> Denies(policy, r.name) && r.name !in library.numbers
  {
    var names := BuildDeniedSyscall(policy);
    r := ApplySeccompFilter(true, names, library);
    assert (iset x | x in names) == (iset x | Denies(policy, x));
  }
}
