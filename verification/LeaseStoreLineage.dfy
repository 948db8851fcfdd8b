/** How records move on: a generation names one record, however the store changes. */
module LeaseStoreLineage {
  import opened Wrappers
  import opened LeaseStoreSpec
  import opened LeaseStoreInvariant

  /** Two sightings of one record: only its lease, times and pending mark may have moved on. */
  ghost predicate SameLine(a: Record, b: Record) {
    && b.displayId == a.displayId && b.connector == a.connector && b.retain == a.retain
    && b.identityId == a.identityId && b.generation == a.generation && (a.pending ==> b.pending)
  }

  /** Every later record is an earlier one further on, or carries a generation not issued before. */
  ghost predicate Evolves(s: State, s': State) {
    && s.nextGeneration <= s'.nextGeneration
    && forall d | d in s'.displays ::
         || (d in s.displays && SameLine(s.displays[d], s'.displays[d]))
         || s'.displays[d].generation >= s.nextGeneration
  }

  lemma EvolvesTransitive(s: State, s1: State, s2: State)
    requires Evolves(s, s1) && Evolves(s1, s2)
    ensures Evolves(s, s2)
  {
  }

  /** `r` was a stored record once, and whatever now carries its generation is that record. */
  ghost predicate Lineage(s: State, r: Record) {
    && r.displayId != 0 && r.leaseId >= MIN_LEASE_ID && 1 <= r.generation < s.nextGeneration
    && forall d | d in s.displays && s.displays[d].generation == r.generation :: SameLine(r, s.displays[d])
  }

  lemma StoredLineage(s: State, d: nat)
    requires Placed(s) && d in s.displays
    ensures Lineage(s, s.displays[d])
  {
  }

  lemma LineageEvolves(s: State, s': State, r: Record)
    requires Lineage(s, r) && Evolves(s, s')
    ensures Lineage(s', r)
  {
  }

  lemma CreateEvolves(s: State, r: CreateRequest, owner: Option<Capability>, now: int)
    requires Inv(s)
    ensures Evolves(s, Create(s, r, owner, now).state)
  {
    if Create(s, r, owner, now).error == NoError {
      CreateAdds(s, r, owner, now);
    } else {
      RefusedCreateInv(s, r, owner, now);
    }
  }

  lemma ApplyEvolves(s: State, op: StoreOp)
    requires Inv(s)
    ensures Evolves(s, Apply(s, op))
  {
    hide Inv, Evolves, Apply;
    if op.OpCreate? {
      CreateEvolves(s, op.create, op.createOwner, op.createNow);
      assert Apply(s, op) == Create(s, op.create, op.createOwner, op.createNow).state by {
        AppliedCreate(s, op);
      }
    } else {
      OthersEvolve(s, op);
    }
  }

  lemma AppliedCreate(s: State, op: StoreOp)
    requires op.OpCreate?
    ensures Apply(s, op) == Create(s, op.create, op.createOwner, op.createNow).state
  {
  }

  lemma OthersEvolve(s: State, op: StoreOp)
    requires !op.OpCreate?
    ensures Evolves(s, Apply(s, op))
  {
    hide Create;
  }

  lemma EvolvesReflexive(s: State)
    ensures Evolves(s, s)
  {
  }
}
