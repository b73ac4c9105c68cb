/** Files by path, and the rule of a conflict-free three-way merge. */
module Merging {
  import Policy
  import opened Wrappers

  type Files = map<string, string>

  function At(f: Files, p: string): Option<string> { if p in f then Some(f[p]) else None }

  /** What a clean merge decides at one path: an unchanged side yields to the other, equal sides agree. */
  predicate MergesAt<T(==)>(base: T, local: T, remote: T, merged: T)
  {
    && (local == base ==> merged == remote)
    && (remote == base ==> merged == local)
    && (local == remote ==> merged == local)
  }

  ghost predicate CleanMerge(base: Files, local: Files, remote: Files, merged: Files)
  {
    forall p :: MergesAt(At(base, p), At(local, p), At(remote, p), At(merged, p))
  }

  /** What one commit or encryption root works with, fixed before its first attempt. */
  datatype Input = Input(base: Files, local: Files, host: Policy.Host, policy: Policy.PathPolicy)
  {
    ghost predicate Protects(p: string) { Policy.Protected(host, policy, p) }

    /** The policy check passed: no protected path differs from the baseline. */
    ghost predicate Passed() { forall p :: Protects(p) ==> At(local, p) == At(base, p) }
  }
}
