/** The loops of internal/notebook/checkpoint.go over a manifest's descriptors. */
module ManifestLoops {
  import opened Manifest

  /** Compares the selected prefix increment by increment. */
  method PrefixPresent(plan: Plan, m: Manifest) returns (present: bool)
    requires plan.Ok()
    ensures present <==> plan.PrefixPresent(m)
  {
    if |m.increments| < plan.count {
      return false;
    }
    for i := 0 to plan.count
      invariant m.increments[..i] == plan.manifest.increments[..i]
    {
      if m.increments[i] != plan.manifest.increments[i] {
        assert m.increments[..plan.count][i] != plan.manifest.increments[..plan.count][i];
        return false;
      }
    }
    return true;
  }

  method ChainRoots(cp: Checkpoint, incs: seq<Increment>, before: set<Key>) returns (roots: set<Key>)
    ensures forall k :: k in roots <==> k in before || k in ChainKeys(cp, incs)
  {
    roots := before + {cp.key};
    ghost var keys := KeysOf(incs);
    for i := 0 to |incs|
      invariant forall k :: k in roots <==> k in before || k == cp.key || k in keys[..i]
    {
      assert keys[..i + 1] == keys[..i] + [incs[i].key];
      roots := roots + {incs[i].key};
    }
    assert keys[..|incs|] == keys;
  }

  /** Collects every pack key the active and the retained descriptors reference. */
  method ManifestRoots(m: Manifest) returns (roots: set<Key>)
    ensures forall k :: k in roots <==> k in Roots(m)
  {
    roots := ChainRoots(m.checkpoint, m.increments, {});
    for i := 0 to |m.retained|
      invariant forall k :: k in roots <==>
                k in ChainKeys(m.checkpoint, m.increments) || k in RetainedKeys(m.retained[..i])
    {
      RetainedPrefix(m.retained, i);
      roots := ChainRoots(m.retained[i].checkpoint, m.retained[i].increments, roots);
    }
    assert m.retained[..|m.retained|] == m.retained;
  }

  lemma {:induction false} RetainedSnoc(rs: seq<Retained>, r: Retained)
    ensures RetainedKeys(rs + [r]) == RetainedKeys(rs) + ChainKeys(r.checkpoint, r.increments)
  {
    if rs == [] {
      assert rs + [r] == [r];
      assert RetainedKeys([r]) == ChainKeys(r.checkpoint, r.increments) + RetainedKeys([r][1..]);
    } else {
      assert (rs + [r])[1..] == rs[1..] + [r];
      RetainedSnoc(rs[1..], r);
    }
  }

  lemma RetainedPrefix(rs: seq<Retained>, i: nat)
    requires i < |rs|
    ensures forall k :: k in RetainedKeys(rs[..i + 1]) <==>
            k in RetainedKeys(rs[..i]) || k in ChainKeys(rs[i].checkpoint, rs[i].increments)
  {
    RetainedSnoc(rs[..i], rs[i]);
    assert rs[..i + 1] == rs[..i] + [rs[i]];
  }

  /** One delete batch: the candidates that the reread manifest does not reference. */
  method DoomedBatch(batch: seq<Key>, active: set<Key>) returns (doomed: seq<Key>)
    ensures forall k :: k in doomed <==> k in batch && k !in active
    ensures |doomed| <= |batch|
  {
    doomed := [];
    for i := 0 to |batch|
      invariant forall k :: k in doomed <==> k in batch[..i] && k !in active
      invariant |doomed| <= i
    {
      if batch[i] !in active {
        doomed := doomed + [batch[i]];
      }
    }
    assert batch[..|batch|] == batch;
  }
}
