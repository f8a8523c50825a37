/** Cluster chains in the FAT: who owns each allocated cluster, and what
    allocating, linking and freeing do. */
module FatChains {
  import opened FatTypes
  import opened Counting

  type Fat = seq<nat>                    // the 28-bit values, by cluster
  datatype Owner = Owner(head: nat, pos: nat)
  type Chains = map<nat, seq<nat>>       // by first cluster
  type Owners = map<nat, Owner>          // by cluster

  // The facts below are stated one cluster at a time and by name, so that a
  // proof says which of them it uses.

  predicate HeadFirst(chains: Chains, h: nat) { h in chains && chains[h] != [] && chains[h][0] == h }

  predicate Owned(fat: Fat, chains: Chains, owner: Owners, h: nat, i: nat) {
    && h in chains && i < |chains[h]|
    && var c := chains[h][i];
    2 <= c < |fat| && c in owner && owner[c] == Owner(h, i)
  }

  predicate NextOk(fat: Fat, chains: Chains, h: nat, i: nat) {
    && h in chains && i < |chains[h]| && chains[h][i] < |fat|
    && (if i + 1 < |chains[h]| then fat[chains[h][i]] == chains[h][i + 1] else IsEnd(fat[chains[h][i]]))
  }

  predicate OwnerListed(chains: Chains, owner: Owners, c: nat) {
    && c in owner && owner[c].head in chains
    && owner[c].pos < |chains[owner[c].head]| && chains[owner[c].head][owner[c].pos] == c
  }

  predicate Marked(fat: Fat, owner: Owners, c: nat) {
    c < |fat| && (c in owner <==> fat[c] != 0 && fat[c] != BAD)
  }

  /** The chains are acyclic, pairwise disjoint, and together exactly the
      clusters that are neither free nor bad. */
  ghost predicate ChainsOk(fat: Fat, chains: Chains, owner: Owners) {
    && 3 <= |fat| <= MAX_CLUSTER + 1
    && (forall h {:trigger HeadFirst(chains, h)} | h in chains :: HeadFirst(chains, h))
    && (forall h, i: nat {:trigger Owned(fat, chains, owner, h, i)} | h in chains && i < |chains[h]| ::
          Owned(fat, chains, owner, h, i))
    && (forall h, i: nat {:trigger NextOk(fat, chains, h, i)} | h in chains && i < |chains[h]| ::
           NextOk(fat, chains, h, i))
    && (forall c {:trigger OwnerListed(chains, owner, c)} | c in owner :: OwnerListed(chains, owner, c))
    && (forall c: nat {:trigger Marked(fat, owner, c)} | 2 <= c < |fat| :: Marked(fat, owner, c))
  }

  lemma ChainDistinct(fat: Fat, chains: Chains, owner: Owners, h: nat)
    requires ChainsOk(fat, chains, owner) && h in chains
    ensures Distinct(chains[h]) && |chains[h]| <= |fat| - 2
  {
    var ch := chains[h];
    forall j: nat, k: nat | j < k < |ch| ensures Apart(ch, j, k) {
      assert Owned(fat, chains, owner, h, j) && Owned(fat, chains, owner, h, k);
    }
    forall k | 0 <= k < |ch| ensures 2 <= ch[k] < |fat| { assert Owned(fat, chains, owner, h, k); }
    DistinctBounded(ch, 2, |fat|);
  }

  /** A cluster is in a chain exactly when the chain's head owns it. */
  lemma InChain(fat: Fat, chains: Chains, owner: Owners, h: nat, c: nat)
    requires ChainsOk(fat, chains, owner) && h in chains
    ensures c in chains[h] <==> c in owner && owner[c].head == h
  {
    if c in owner { assert OwnerListed(chains, owner, c); }
    if c in chains[h] {
      var i :| 0 <= i < |chains[h]| && chains[h][i] == c;
      assert Owned(fat, chains, owner, h, i);
    }
  }

  // ---- Allocation: a free cluster becomes a chain of its own ----

  lemma AllocChains(fat: Fat, chains: Chains, owner: Owners, c: nat)
    requires ChainsOk(fat, chains, owner) && 2 <= c < |fat| && fat[c] == 0
    ensures c !in owner && c !in chains
    ensures ChainsOk(fat[c := EOC], chains[c := [c]], owner[c := Owner(c, 0)])
  {
    assert Marked(fat, owner, c);
    assert c in chains ==> HeadFirst(chains, c) && Owned(fat, chains, owner, c, 0);
    var fat', chains', owner' := fat[c := EOC], chains[c := [c]], owner[c := Owner(c, 0)];
    forall h | h in chains' ensures HeadFirst(chains', h) { assert h != c ==> HeadFirst(chains, h); }
    forall h, i: nat | h in chains' && i < |chains'[h]|
      ensures Owned(fat', chains', owner', h, i) && NextOk(fat', chains', h, i)
    {
      if h != c { assert Owned(fat, chains, owner, h, i) && NextOk(fat, chains, h, i); }
    }
    forall x | x in owner' ensures OwnerListed(chains', owner', x) { assert x != c ==> OwnerListed(chains, owner, x); }
    forall x: nat | 2 <= x < |fat'| ensures Marked(fat', owner', x) { assert Marked(fat, owner, x); }
  }

  // ---- Linking: a one-cluster chain is appended to another ----

  ghost function LinkedChains(chains: Chains, h: nat, c: nat): Chains
    requires h in chains && h != c
  {
    (chains - {c})[h := chains[h] + [c]]
  }

  lemma LinkChains(fat: Fat, chains: Chains, owner: Owners, h: nat, c: nat)
    requires ChainsOk(fat, chains, owner) && h in chains && c in chains && h != c && chains[c] == [c]
    ensures HeadFirst(chains, h) && var last := chains[h][|chains[h]| - 1];
      last < |fat| && ChainsOk(fat[last := c], LinkedChains(chains, h, c), owner[c := Owner(h, |chains[h]|)])
  {
    assert HeadFirst(chains, h);
    var n := |chains[h]|;
    var last := chains[h][n - 1];
    assert Owned(fat, chains, owner, h, n - 1) && Owned(fat, chains, owner, c, 0) && NextOk(fat, chains, c, 0);
    var fat', chains', owner' := fat[last := c], LinkedChains(chains, h, c), owner[c := Owner(h, n)];
    forall g | g in chains' ensures HeadFirst(chains', g) { assert HeadFirst(chains, g); }
    forall g, i: nat | g in chains' && i < |chains'[g]|
      ensures Owned(fat', chains', owner', g, i) && NextOk(fat', chains', g, i)
    {
      if g != h || i < n { assert Owned(fat, chains, owner, g, i) && NextOk(fat, chains, g, i); }
    }
    forall x | x in owner' ensures OwnerListed(chains', owner', x) { assert x != c ==> OwnerListed(chains, owner, x); }
    forall x: nat | 2 <= x < |fat'| ensures Marked(fat', owner', x) { assert Marked(fat, owner, x); }
  }

  // ---- Freeing: every cluster of a chain becomes free ----

  predicate ZeroedAt(fat: Fat, fat': Fat, ch: seq<nat>, c: nat) {
    c < |fat| == |fat'| && fat'[c] == if c in ch then 0 else fat[c]
  }

  ghost predicate Zeroed(fat: Fat, fat': Fat, ch: seq<nat>) {
    |fat'| == |fat| && forall c: nat {:trigger ZeroedAt(fat, fat', ch, c)} | c < |fat| :: ZeroedAt(fat, fat', ch, c)
  }

  ghost function FreedOwners(owner: Owners, h: nat): Owners { map c | c in owner && owner[c].head != h :: owner[c] }

  lemma FreeChains(fat: Fat, fat': Fat, chains: Chains, owner: Owners, h: nat)
    requires ChainsOk(fat, chains, owner) && h in chains && Zeroed(fat, fat', chains[h])
    ensures ChainsOk(fat', chains - {h}, FreedOwners(owner, h))
  {
    var chains', owner' := chains - {h}, FreedOwners(owner, h);
    forall g | g in chains' ensures HeadFirst(chains', g) { assert HeadFirst(chains, g); }
    forall g, i: nat | g in chains' && i < |chains'[g]|
      ensures Owned(fat', chains', owner', g, i) && NextOk(fat', chains', g, i)
    {
      assert Owned(fat, chains, owner, g, i) && NextOk(fat, chains, g, i);
      InChain(fat, chains, owner, h, chains[g][i]);
      assert ZeroedAt(fat, fat', chains[h], chains[g][i]);
    }
    forall x | x in owner' ensures OwnerListed(chains', owner', x) { assert OwnerListed(chains, owner, x); }
    forall x: nat | 2 <= x < |fat'| ensures Marked(fat', owner', x) {
      assert Marked(fat, owner, x) && ZeroedAt(fat, fat', chains[h], x);
      InChain(fat, chains, owner, h, x);
    }
  }
}
