/** The decision on one file access: deny beats allow, and a rule for a directory
    covers everything below it. */
module PathDecision {
  import opened Policy

  /** The file system as `canonicalize` sees it: the canonical form of every path
      that exists, and the textual parent of a path. */
  datatype FileSystem = FileSystem(canonical: map<string, Path>, parents: map<string, string>)

  datatype Decision = Allow | Deny

  datatype Error = NotCanonical(path: string) | NoParent | Missing | UnsupportedAction | InvalidDefault

  datatype Outcome<+T> = Ok(value: T) | Err(error: Error)

  predicate StartsWith(candidate: Path, prefix: Path) {
    prefix <= candidate
  }

  function Canonicalize(fs: FileSystem, path: string): Outcome<Path> {
    if path in fs.canonical then Ok(fs.canonical[path]) else Err(NotCanonical(path))
  }

  /** `canonicalize_target_for_action`: a file to be written may not exist yet, and
      then its directory stands for it. */
  function CanonicalTarget(fs: FileSystem, action: string, target: string): Outcome<Path> {
    if action == "read" then Canonicalize(fs, target)
    else if action == "write" then
      if target in fs.canonical then Canonicalize(fs, target)
      else if target in fs.parents then Canonicalize(fs, fs.parents[target])
      else Err(NoParent)
    else if action == "execute" then
      if target in fs.canonical then Canonicalize(fs, target) else Err(Missing)
    else Err(UnsupportedAction)
  }

  /** `path_is_inside_any`: stops at the first match or at the first path that does
      not exist. */
  function InsideAny(fs: FileSystem, candidate: Path, paths: seq<string>): Outcome<bool> {
    if paths == [] then Ok(false)
    else match Canonicalize(fs, paths[0])
      case Err(error) => Err(error)
      case Ok(path) => if StartsWith(candidate, path) then Ok(true) else InsideAny(fs, candidate, paths[1..])
  }

  function AllowList(policy: SecurityPolicy, action: string): seq<string> {
    if action == "read" then policy.filesystem.readAllow
    else if action == "write" then policy.filesystem.writeAllow
    else policy.filesystem.execAllow
  }

  function DefaultDecision(policy: SecurityPolicy): Outcome<Decision> {
    if policy.defaultAction == "allow" then Ok(Allow)
    else if policy.defaultAction == "deny" then Ok(Deny)
    else Err(InvalidDefault)
  }

  /** `decide_file_access`. */
  function Decide(fs: FileSystem, action: string, target: string, policy: SecurityPolicy): Outcome<Decision> {
    match CanonicalTarget(fs, action, target)
    case Err(error) => Err(error)
    case Ok(path) => DecidePath(fs, action, path, policy)
  }

  function DecidePath(fs: FileSystem, action: string, path: Path, policy: SecurityPolicy): Outcome<Decision> {
    match InsideAny(fs, path, policy.filesystem.deny)
    case Err(error) => Err(error)
    case Ok(denied) =>
      if denied then Ok(Deny)
      else match InsideAny(fs, path, AllowList(policy, action))
        case Err(error) => Err(error)
        case Ok(allowed) => if allowed then Ok(Allow) else DefaultDecision(policy)
  }

  // ---------- the laws ----------

  /** The candidate is the directory itself or below it, component by component. */
  predicate Within(candidate: Path, directory: Path) {
    |directory| <= |candidate| && forall i | 0 <= i < |directory| :: candidate[i] == directory[i]
  }

  /** Some path of the list is the candidate or an ancestor of it. */
  ghost predicate Covered(fs: FileSystem, candidate: Path, paths: seq<string>) {
    exists p :: p in paths && p in fs.canonical && Within(candidate, fs.canonical[p])
  }

  ghost predicate AllExist(fs: FileSystem, paths: seq<string>) {
    forall p | p in paths :: p in fs.canonical
  }

  ghost predicate PolicyPathsExist(fs: FileSystem, policy: SecurityPolicy) {
    && AllExist(fs, policy.filesystem.deny) && AllExist(fs, policy.filesystem.readAllow)
    && AllExist(fs, policy.filesystem.writeAllow) && AllExist(fs, policy.filesystem.execAllow)
  }

  /** The search answers exactly whether the candidate is covered, whatever the order
      of the list, as long as its paths exist. */
  lemma {:induction false} InsideAnyExactly(fs: FileSystem, candidate: Path, paths: seq<string>)
    requires AllExist(fs, paths)
    ensures InsideAny(fs, candidate, paths) == Ok(Covered(fs, candidate, paths))
  {
    if paths == [] {
    } else {
      assert paths[0] in paths;
      assert forall p | p in paths[1..] :: p in paths;
      assert forall p | p in paths :: p == paths[0] || p in paths[1..];
      InsideAnyExactly(fs, candidate, paths[1..]);
    }
  }

  /** Without that hypothesis: the answer is yes exactly when a covering path comes
      before the first one that does not exist, and an error exactly when the first
      that does not exist comes before any covering one. */
  lemma {:induction false} InsideAnyInOrder(fs: FileSystem, candidate: Path, paths: seq<string>)
    returns (i: nat)
    ensures i <= |paths|
    ensures forall j | 0 <= j < i :: paths[j] in fs.canonical && !Within(candidate, fs.canonical[paths[j]])
    ensures InsideAny(fs, candidate, paths) ==
            if i == |paths| then Ok(false)
            else if paths[i] in fs.canonical then Ok(true)
            else Err(NotCanonical(paths[i]))
    ensures i < |paths| && paths[i] in fs.canonical ==> Within(candidate, fs.canonical[paths[i]])
  {
    if paths == [] || paths[0] !in fs.canonical || StartsWith(candidate, fs.canonical[paths[0]]) {
      return 0;
    }
    var k := InsideAnyInOrder(fs, candidate, paths[1..]);
    return k + 1;
  }

  ghost predicate SameElements(s: seq<string>, t: seq<string>) {
    forall p :: p in s <==> p in t
  }

  /** A covering deny rule beats everything, then comes a covering allow rule, and what
      no rule covers is decided by the default, which must be "allow" or "deny". */
  ghost function Ruling(fs: FileSystem, path: Path, policy: SecurityPolicy, allow: seq<string>): Outcome<Decision> {
    if Covered(fs, path, policy.filesystem.deny) then Ok(Deny)
    else if Covered(fs, path, allow) then Ok(Allow)
    else if policy.defaultAction == "allow" then Ok(Allow)
    else if policy.defaultAction == "deny" then Ok(Deny)
    else Err(InvalidDefault)
  }

  lemma PathDecisionIs(fs: FileSystem, action: string, path: Path, policy: SecurityPolicy)
    requires PolicyPathsExist(fs, policy) && action in {"read", "write", "execute"}
    ensures action == "read" ==>
              DecidePath(fs, action, path, policy) == Ruling(fs, path, policy, policy.filesystem.readAllow)
    ensures action == "write" ==>
              DecidePath(fs, action, path, policy) == Ruling(fs, path, policy, policy.filesystem.writeAllow)
    ensures action == "execute" ==>
              DecidePath(fs, action, path, policy) == Ruling(fs, path, policy, policy.filesystem.execAllow)
  {
    InsideAnyExactly(fs, path, policy.filesystem.deny);
    InsideAnyExactly(fs, path, policy.filesystem.readAllow);
    InsideAnyExactly(fs, path, policy.filesystem.writeAllow);
    InsideAnyExactly(fs, path, policy.filesystem.execAllow);
  }

  /** The whole decision, action by action.  What exists is ruled by its canonical form
      and the list of the action; a new file is ruled by its directory, for writing
      only; everything else is an error. */
  lemma DecisionIs(fs: FileSystem, target: string, policy: SecurityPolicy)
    requires PolicyPathsExist(fs, policy)
    ensures target in fs.canonical ==>
              var path := fs.canonical[target];
              && Decide(fs, "read", target, policy) == Ruling(fs, path, policy, policy.filesystem.readAllow)
              && Decide(fs, "write", target, policy) == Ruling(fs, path, policy, policy.filesystem.writeAllow)
              && Decide(fs, "execute", target, policy) == Ruling(fs, path, policy, policy.filesystem.execAllow)
    ensures target !in fs.canonical ==>
              && Decide(fs, "read", target, policy) == Err(NotCanonical(target))
              && Decide(fs, "write", target, policy) ==
                 (if target !in fs.parents then Err(NoParent)
                  else if fs.parents[target] !in fs.canonical then Err(NotCanonical(fs.parents[target]))
                  else Ruling(fs, fs.canonical[fs.parents[target]], policy, policy.filesystem.writeAllow))
              && Decide(fs, "execute", target, policy) == Err(Missing)
    ensures forall action :: action !in {"read", "write", "execute"} ==>
              Decide(fs, action, target, policy) == Err(UnsupportedAction)
  {
    if target in fs.canonical {
      PathDecisionIs(fs, "read", fs.canonical[target], policy);
      PathDecisionIs(fs, "write", fs.canonical[target], policy);
      PathDecisionIs(fs, "execute", fs.canonical[target], policy);
    } else if target in fs.parents && fs.parents[target] in fs.canonical {
      PathDecisionIs(fs, "write", fs.canonical[fs.parents[target]], policy);
    }
  }

  /** The order and repetition of rules make no difference. */
  lemma OrderDoesNotMatter(
      fs: FileSystem, action: string, target: string, policy: SecurityPolicy, other: SecurityPolicy)
    requires PolicyPathsExist(fs, policy) && PolicyPathsExist(fs, other)
    requires policy.defaultAction == other.defaultAction
    requires SameElements(policy.filesystem.deny, other.filesystem.deny)
    requires action == "read" ==> SameElements(policy.filesystem.readAllow, other.filesystem.readAllow)
    requires action == "write" ==> SameElements(policy.filesystem.writeAllow, other.filesystem.writeAllow)
    requires action == "execute" ==> SameElements(policy.filesystem.execAllow, other.filesystem.execAllow)
    ensures Decide(fs, action, target, policy) == Decide(fs, action, target, other)
  {
    DecisionIs(fs, target, policy);
    DecisionIs(fs, target, other);
  }

  /** A denial extends to every descendant, for every action. */
  lemma DenialIsInherited(fs: FileSystem, path: Path, below: Path, action: string, policy: SecurityPolicy)
    requires PolicyPathsExist(fs, policy) && Within(below, path)
    requires Covered(fs, path, policy.filesystem.deny)
    ensures DecidePath(fs, action, below, policy) == Ok(Deny)
  {
    InsideAnyExactly(fs, below, policy.filesystem.deny);
    var p :| p in policy.filesystem.deny && p in fs.canonical && Within(path, fs.canonical[p]);
    assert Within(below, fs.canonical[p]);
  }

  function WithDeny(policy: SecurityPolicy, more: seq<string>): SecurityPolicy {
    policy.(filesystem := policy.filesystem.(deny := policy.filesystem.deny + more))
  }

  function WithAllow(policy: SecurityPolicy, read: seq<string>, write: seq<string>, exec: seq<string>): SecurityPolicy {
    policy.(filesystem := policy.filesystem.(
      readAllow := policy.filesystem.readAllow + read,
      writeAllow := policy.filesystem.writeAllow + write,
      execAllow := policy.filesystem.execAllow + exec))
  }

  lemma CoverageGrows(fs: FileSystem, candidate: Path, paths: seq<string>, more: seq<string>)
    ensures Covered(fs, candidate, paths) ==> Covered(fs, candidate, paths + more)
  {
    if Covered(fs, candidate, paths) {
      var p :| p in paths && p in fs.canonical && Within(candidate, fs.canonical[p]);
      assert p in paths + more;
    }
  }

  /** More deny rules never turn a denial into a permission, and more allow rules
      never turn a permission into a denial. */
  lemma RulesAreMonotone(
      fs: FileSystem, action: string, target: string, policy: SecurityPolicy,
      deny: seq<string>, read: seq<string>, write: seq<string>, exec: seq<string>)
    requires PolicyPathsExist(fs, policy)
    requires AllExist(fs, deny) && AllExist(fs, read) && AllExist(fs, write) && AllExist(fs, exec)
    ensures Decide(fs, action, target, policy) == Ok(Deny) ==>
              Decide(fs, action, target, WithDeny(policy, deny)) == Ok(Deny)
    ensures Decide(fs, action, target, policy) == Ok(Allow) ==>
              Decide(fs, action, target, WithAllow(policy, read, write, exec)) == Ok(Allow)
  {
    DecisionIs(fs, target, policy);
    DecisionIs(fs, target, WithDeny(policy, deny));
    DecisionIs(fs, target, WithAllow(policy, read, write, exec));
    if CanonicalTarget(fs, action, target).Ok? {
      var path := CanonicalTarget(fs, action, target).value;
      CoverageGrows(fs, path, policy.filesystem.deny, deny);
      CoverageGrows(fs, path, policy.filesystem.readAllow, read);
      CoverageGrows(fs, path, policy.filesystem.writeAllow, write);
      CoverageGrows(fs, path, policy.filesystem.execAllow, exec);
    }
  }

  /** Under a policy that passed validation every access to an existing target is
      decided: the default action is never invalid. */
  lemma ValidatedPolicyDecides(fs: FileSystem, action: string, target: string, policy: SecurityPolicy,
                              known: set<string>)
    requires Validated(policy, known) && PolicyPathsExist(fs, policy)
    ensures Decide(fs, action, target, policy).Ok? <==> CanonicalTarget(fs, action, target).Ok?
  {
    DecisionIs(fs, target, policy);
  }

  /** A denied location is denied to everyone: an existing target covered by a deny
      rule is denied for reading, writing and executing alike, and so is the creation
      of a new file in a directory that is covered, while reading or executing what
      does not exist is an error. */
  lemma {:induction false} DeniedLocation(fs: FileSystem, target: string, policy: SecurityPolicy)
    requires PolicyPathsExist(fs, policy)
    ensures target in fs.canonical && Covered(fs, fs.canonical[target], policy.filesystem.deny) ==>
              && Decide(fs, "read", target, policy) == Ok(Deny)
              && Decide(fs, "write", target, policy) == Ok(Deny)
              && Decide(fs, "execute", target, policy) == Ok(Deny)
    ensures target !in fs.canonical ==>
              && Decide(fs, "read", target, policy) == Err(NotCanonical(target))
              && Decide(fs, "execute", target, policy) == Err(Missing)
    ensures target !in fs.canonical && target in fs.parents && fs.parents[target] in fs.canonical
            && Covered(fs, fs.canonical[fs.parents[target]], policy.filesystem.deny) ==>
              Decide(fs, "write", target, policy) == Ok(Deny)
  {
    if target in fs.canonical {
      InsideAnyExactly(fs, fs.canonical[target], policy.filesystem.deny);
    } else if target in fs.parents && fs.parents[target] in fs.canonical {
      InsideAnyExactly(fs, fs.canonical[fs.parents[target]], policy.filesystem.deny);
    }
  }
}
