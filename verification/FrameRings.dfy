/** The ring table and the registration server as objects that change in place. */
module FrameRings {
  import opened Wrappers
  import opened FrameRingSpec
  import opened FrameRingProtocol
  import L = LeaseStoreSpec

  /** Retiring in two goes is retiring once. */
  lemma RetireTwice(l: Lifetime, a: set<nat>, b: set<nat>)
    ensures Retire(Retire(l, a), b) == Retire(l, a + b)
  {
  }

  lemma RetireNone(l: Lifetime)
    ensures Retire(l, {}) == l
  {
  }

  lemma RetireAbsent(l: Lifetime, id: nat)
    requires id !in l.rings
    ensures Retire(l, {id}) == l
  {
  }

  class FrameRingLifetime {
    var rings: map<nat, Ring>
    var publications: seq<Publication>
    var nextRingGeneration: nat

    ghost function Contents(): Lifetime
      reads this
    {
      Lifetime(rings, publications, nextRingGeneration)
    }

    ghost predicate Valid()
      reads this
    {
      Issued(Contents()) && EnabledOnTable(Contents())
    }

    constructor ()
      ensures Valid() && Contents() == FRESH_SERVER.rings
    {
      rings, publications, nextRingGeneration := map[], [], 1;
    }

    /** Disables the publication of a ring on the table and erases the ring. */
    method Erase(id: nat)
      requires Valid() && id in rings
      modifies this
      ensures Contents() == Retire(old(Contents()), {id}) && Valid()
    {
      RetireInv(Contents(), {id});
      var p := rings[id].publication;
      publications := publications[p := publications[p].(enabled := false)];
      rings := rings - {id};
      assert publications == Disabled(old(publications), {p});
    }

    method RegisterRing(s: L.State, o: Owner, resources: bool, now: int)
      returns (status: RegistrationStatus, generation: nat)
      requires Valid()
      modifies this
      ensures status == RegistrationStatusOf(old(Contents()), s, o, resources, now)
      ensures generation == if status == Registered then old(nextRingGeneration) else 0
      ensures Contents() == Register(old(Contents()), s, o, resources, now) && Valid()
    {
      hide Issued, EnabledOnTable, Retire, Authorized, Unavailable;
      if !Authorized(s, o, now) { return OwnerUnavailable, 0; }
      if !resources { return InvalidResources, 0; }
      if nextRingGeneration == 0 { return GenerationExhausted, 0; }
      ghost var l := Contents();
      RegisterIssues(l, s, o, now);
      var _ := RetireUnavailable(s, now);
      RetireTwice(l, Unavailable(l, s, now), {o.displayId});
      RetireKeepsRings(l, Unavailable(l, s, now));
      if o.displayId in rings {
        Erase(o.displayId);
      } else {
        RetireAbsent(Contents(), o.displayId);
      }
      RetireKeepsRings(l, Unavailable(l, s, now) + {o.displayId});
      RetireAges(l, Unavailable(l, s, now) + {o.displayId});
      status, generation := Registered, nextRingGeneration;
      rings := rings[o.displayId := Ring(o, generation, |publications|)];
      publications := publications + [Publication(o.displayId, generation, true)];
      nextRingGeneration := NextRingGeneration(generation);
    }

    method SnapshotRing(s: L.State, id: nat, displayGeneration: nat, now: int)
      returns (ring: Option<Ring>, canPublish: bool)
      requires Valid()
      modifies this
      ensures ring == Snapshot(old(Contents()), s, id, displayGeneration, now)
      ensures canPublish == (ring.Some? && old(Contents()).CanPublish(id))
      ensures Contents() == SnapshotTable(old(Contents()), s, id, displayGeneration, now) && Valid()
    {
      if id !in rings || rings[id].owner.generation != displayGeneration { return None, false; }
      if !Authorized(s, rings[id].owner, now) {
        Erase(id);
        return None, false;
      }
      return Some(rings[id]), publications[rings[id].publication].enabled;
    }

    method RetireExact(id: nat, displayGeneration: nat, ringGeneration: nat) returns (retired: bool)
      requires Valid()
      modifies this
      ensures retired == old(Contents()).Matches(id, displayGeneration, ringGeneration)
      ensures Contents() == RetireRing(old(Contents()), id, displayGeneration, ringGeneration) && Valid()
    {
      if id !in rings || rings[id].owner.generation != displayGeneration || rings[id].ringGeneration != ringGeneration {
        return false;
      }
      Erase(id);
      return true;
    }

    /** Walks the table, erasing every ring whose owner is gone. */
    method RetireUnavailable(s: L.State, now: int) returns (count: nat)
      requires Valid()
      modifies this
      ensures count == |Unavailable(old(Contents()), s, now)|
      ensures Contents() == Retire(old(Contents()), Unavailable(old(Contents()), s, now)) && Valid()
    {
      hide Issued, EnabledOnTable, Retire, Authorized;
      ghost var l := Contents();
      ghost var gone: set<nat> := {};
      var todo := rings.Keys;
      count := 0;
      RetireNone(l);
      while todo != {}
        invariant Contents() == Retire(l, gone) && Valid()
        invariant todo <= l.rings.Keys && gone !! todo && count == |gone|
        invariant gone == set id | id in Unavailable(l, s, now) && id !in todo
        decreases todo
      {
        var id :| id in todo;
        todo := todo - {id};
        RetireKeepsRings(l, gone);
        if !Authorized(s, rings[id].owner, now) {
          Erase(id);
          RetireTwice(l, gone, {id});
          gone, count := gone + {id}, count + 1;
        }
      }
      assert gone == Unavailable(l, s, now);
    }

    method Reset()
      requires Valid()
      modifies this
      ensures Contents() == Retire(old(Contents()), old(rings.Keys)) && Valid() && rings == map[]
    {
      hide Issued, EnabledOnTable, Retire;
      ghost var l := Contents();
      var todo := rings.Keys;
      RetireNone(l);
      RetireKeepsRings(l, l.rings.Keys);
      assert l.rings.Keys - todo == {};
      while todo != {}
        invariant todo <= l.rings.Keys && Contents() == Retire(l, l.rings.Keys - todo) && Valid()
        decreases todo
      {
        var id :| id in todo;
        RetireTwice(l, l.rings.Keys - todo, {id});
        RetireKeepsRings(l, l.rings.Keys - todo);
        assert l.rings.Keys - todo + {id} == l.rings.Keys - (todo - {id});
        todo := todo - {id};
        Erase(id);
      }
      assert l.rings.Keys - {} == l.rings.Keys;
    }
  }

  // ---------------------------------------------------------------- the reap loop

  /** A reap that has visited the entries in `done` and no others. */
  ghost predicate Reaped(v: Server, s: L.State, now: int, done: set<nat>, v': Server) {
    && v'.rings == Retire(v.rings, set id | id in done && ReapRetires(v, s, now, id))
    && v'.entries.Keys == (set id | id in v.entries && (id !in done || Owned(s, v.entries[id].request.owner, now)))
    && forall id | id in v'.entries ::
         v'.entries[id] == if id in done then ReapedEntry(v, s, now, id) else v.entries[id]
  }

  lemma ReapedAll(v: Server, s: L.State, now: int, v': Server)
    requires Reaped(v, s, now, v.entries.Keys, v')
    ensures v' == Reap(v, s, now)
  {
  }

  lemma ReapedNone(v: Server, s: L.State, now: int)
    ensures Reaped(v, s, now, {}, v)
  {
  }

  /** Reaping other displays does not change what a reap sees of this one. */
  lemma ReapLocal(l: Lifetime, gone: set<nat>, id: nat)
    requires Issued(l) && id !in gone
    ensures var l' := Retire(l, gone);
            && (id in l'.rings <==> id in l.rings) && (id in l.rings ==> l'.rings[id] == l.rings[id])
            && (l'.CanPublish(id) <==> l.CanPublish(id))
  {
  }

  lemma ReapedStep(v: Server, s: L.State, now: int, done: set<nat>, v': Server, id: nat, v'': Server)
    requires Reaped(v, s, now, done, v') && id in v.entries && id !in done
    requires v''.rings == if ReapRetires(v, s, now, id) then Retire(v'.rings, {id}) else v'.rings
    requires v''.entries == if Owned(s, v.entries[id].request.owner, now)
                            then v'.entries[id := ReapedEntry(v, s, now, id)] else v'.entries - {id}
    ensures Reaped(v, s, now, done + {id}, v'')
  {
    hide Retire, Owned, ReapedEntry, ReapRetires;
    var gone := set d | d in done && ReapRetires(v, s, now, d);
    var gone' := set d | d in done + {id} && ReapRetires(v, s, now, d);
    RetireTwice(v.rings, gone, {id});
    assert gone' == if ReapRetires(v, s, now, id) then gone + {id} else gone;
  }

  class FrameRingServer {
    const rings: FrameRingLifetime
    var entries: map<nat, Entry>

    ghost function Contents(): Server
      reads this, rings
    {
      Server(entries, rings.Contents())
    }

    ghost predicate Valid()
      reads this, rings
    {
      RingInv(Contents())
    }

    constructor (rings: FrameRingLifetime)
      requires rings.Contents() == FRESH_SERVER.rings
      ensures Valid() && this.rings == rings && Contents() == FRESH_SERVER
    {
      this.rings := rings;
      entries := map[];
      FreshInv();
    }

    /** The check and clean-up of one entry. */
    method ReapEntry(s: L.State, now: int, id: nat) returns (erased: bool)
      requires rings.Valid() && id in entries
      modifies this, rings
      ensures erased == !Owned(s, old(entries[id]).request.owner, now)
      ensures rings.Valid()
      ensures rings.Contents() == if ReapRetires(old(Contents()), s, now, id) then Retire(old(rings.Contents()), {id})
                                  else old(rings.Contents())
      ensures entries == if erased then old(entries) - {id}
                         else old(entries)[id := ReapedEntry(old(Contents()), s, now, id)]
    {
      hide Issued, EnabledOnTable, Retire, Owned;
      var e := entries[id];
      if !Owned(s, e.request.owner, now) {
        var _ := rings.RetireExact(id, e.request.owner.generation, e.reply.ringGeneration);
        entries := entries - {id};
        return true;
      }
      if e.reply.ringGeneration != 0 {
        var ring, canPublish := rings.SnapshotRing(s, id, e.request.owner.generation, now);
        if !canPublish || ring.value.ringGeneration != e.reply.ringGeneration {
          entries := entries[id := e.(reply := NO_REPLY)];
        }
      }
      assert entries[id] == ReapedEntry(old(Contents()), s, now, id);
      return false;
    }

    method ReapAll(s: L.State, now: int) returns (count: nat)
      requires Valid()
      modifies this, rings
      ensures Contents() == Reap(old(Contents()), s, now) && Valid() && Synchronized(Contents())
      ensures count == |old(entries)| - |entries|
    {
      hide RingInv, Retire, Owned, ReapedEntry, ReapRetires, Reaped, Synchronized, Reap;
      ghost var v := Contents();
      TableInv(v);
      var todo := entries.Keys;
      ghost var done: set<nat> := {};
      count := 0;
      ReapInv(v, s, now);
      ReapedNone(v, s, now);
      while todo != {}
        invariant rings.Valid() && todo !! done && todo + done == v.entries.Keys && todo <= entries.Keys
        invariant Reaped(v, s, now, done, Contents())
        invariant count == |v.entries| - |entries|
        decreases todo
      {
        var id :| id in todo;
        ghost var before := Contents();
        StepUnseen(v, s, now, done, before, id);
        var erased := ReapEntry(s, now, id);
        ReapedStep(v, s, now, done, before, id, Contents());
        done, todo := done + {id}, todo - {id};
        if erased {
          KeysDropped(before.entries, id);
          count := count + 1;
        } else {
          assert entries.Keys == before.entries.Keys;
          SameSize(before.entries, entries);
        }
      }
      assert done == v.entries.Keys;
      ReapedAll(v, s, now, Contents());
    }

    /** `imported` is whether the importer returns the client's resources. */
    method RegisterRing(s: L.State, peer: Peer, r: RegisterRequest, imported: bool, now: int)
      returns (status: WireStatus, reply: Reply)
      requires Valid()
      modifies this, rings
      ensures Outcome(Contents(), status, reply) == FrameRingSpec.RegisterRing(old(Contents()), s, peer, r, imported,
                                                                               now)
      ensures Valid()
    {
      hide RingInv, Reap, Owned, Register, RegistrationStatusOf, RetireRing, Synchronized;
      RegisterRingInv(Contents(), s, peer, r, imported, now);
      if !peer.Valid() || !r.Valid() { return InvalidInput, NO_REPLY; }
      if !Owned(s, r.owner, now) { return Unauthorized, NO_REPLY; }
      var _ := ReapAll(s, now);
      TableInv(Contents());
      var id := r.owner.displayId;
      if id in entries {
        if entries[id].peer != peer { return Unauthorized, NO_REPLY; }
        if r.cookie <= entries[id].request.cookie {
          if r.cookie == entries[id].request.cookie && entries[id].reply.ringGeneration != 0 &&
            entries[id].request == r {
            return Success, entries[id].reply;
          }
          return StaleGeneration, NO_REPLY;
        }
      }
      var previous := if id in entries then entries[id] else Entry(peer, r, NO_REPLY);
      entries := entries[id := Entry(peer, r, NO_REPLY)];
      if !imported {
        var _ := rings.RetireExact(id, previous.request.owner.generation, previous.reply.ringGeneration);
        return ImportFailed, NO_REPLY;
      }
      ghost var untouched := rings.Contents();
      var registered, generation := rings.RegisterRing(s, r.owner, true, now);
      if registered != Registered {
        assert rings.Contents() == untouched by { RefusedUntouched(untouched, s, r.owner, now); }
        var _ := rings.RetireExact(id, previous.request.owner.generation, previous.reply.ringGeneration);
        return Unauthorized, NO_REPLY;
      }
      reply := Reply(r.cookie, r.owner.generation, generation);
      entries := entries[id := Entry(peer, r, reply)];
      return Success, reply;
    }

    method ClearRing(s: L.State, peer: Peer, r: ClearRequest, now: int) returns (status: WireStatus)
      requires Valid()
      modifies this, rings
      ensures Outcome(Contents(), status, NO_REPLY) == FrameRingSpec.ClearRing(old(Contents()), s, peer, r, now)
      ensures Valid()
    {
      hide RingInv, Reap, Owned, RetireRing, Synchronized;
      ClearRingInv(Contents(), s, peer, r, now);
      if !peer.Valid() || !r.Valid() { return InvalidInput; }
      if !Owned(s, r.Claimant(), now) { return Unauthorized; }
      var _ := ReapAll(s, now);
      TableInv(Contents());
      if r.displayId !in entries {
        if r.flags != 1 { return StaleGeneration; }
        entries := entries[r.displayId := Entry(peer, Tombstone(r), NO_REPLY)];
        return Success;
      }
      var e := entries[r.displayId];
      if e.peer != peer || e.request.owner.capability != r.capability || e.request.owner.leaseId != r.leaseId {
        return Unauthorized;
      }
      if r.identity.cookie < e.request.cookie || r.identity.displayGeneration != e.request.owner.generation {
        return StaleGeneration;
      }
      if r.flags == 0 && (r.identity.cookie != e.request.cookie ||
                          r.identity.ringGeneration != e.reply.ringGeneration) {
        return StaleGeneration;
      }
      if e.reply.ringGeneration != 0 {
        var _ := rings.RetireExact(r.displayId, e.request.owner.generation, e.reply.ringGeneration);
      }
      entries := entries[r.displayId := e.(request := e.request.(cookie := r.identity.cookie), reply := NO_REPLY)];
      return Success;
    }

    /** Retires what the entries name, then forgets the replies; the marks stay. */
    method Reset()
      requires Valid()
      modifies this, rings
      ensures Contents() == ResetServer(old(Contents())) && Valid()
    {
      hide RingInv, Retire, Issued, EnabledOnTable, Synchronized;
      ghost var v := Contents();
      TableInv(v);
      ResetInv(v);
      ghost var named := set id | id in v.entries && Named(v, id);
      ghost var gone: set<nat> := {};
      RetireNone(v.rings);
      var todo := entries.Keys;
      while todo != {}
        invariant rings.Valid() && todo <= v.entries.Keys && entries == v.entries
        invariant gone == (set id | id in named && id !in todo) && rings.Contents() == Retire(v.rings, gone)
        decreases todo
      {
        var id :| id in todo;
        RetireKeepsRings(v.rings, gone);
        var retired := rings.RetireExact(id, entries[id].request.owner.generation, entries[id].reply.ringGeneration);
        RetireTwice(v.rings, gone, {id});
        todo := todo - {id};
        if retired {
          gone := gone + {id};
        }
      }
      assert gone == named;
      assert named == set id | id in v.entries &&
        v.rings.Matches(id, v.entries[id].request.owner.generation, v.entries[id].reply.ringGeneration);
      entries := map id | id in entries :: entries[id].(reply := NO_REPLY);
    }
  }

  ghost predicate Named(v: Server, id: nat) {
    id in v.entries && v.rings.Matches(id, v.entries[id].request.owner.generation, v.entries[id].reply.ringGeneration)
  }

  lemma RefusedUntouched(l: Lifetime, s: L.State, o: Owner, now: int)
    requires RegistrationStatusOf(l, s, o, true, now) != Registered
    ensures Register(l, s, o, true, now) == l
  {
  }

  lemma KeysDropped(m: map<nat, Entry>, id: nat)
    requires id in m
    ensures |m - {id}| == |m| - 1
  {
  }

  lemma SameSize(m: map<nat, Entry>, m': map<nat, Entry>)
    requires m.Keys == m'.Keys
    ensures |m| == |m'|
  {
  }

  lemma TableInv(v: Server)
    requires RingInv(v)
    ensures Issued(v.rings) && EnabledOnTable(v.rings)
  {
  }

  /** An entry not visited yet is seen as it was at the start. */
  lemma StepUnseen(v: Server, s: L.State, now: int, done: set<nat>, v': Server, id: nat)
    requires RingInv(v) && Reaped(v, s, now, done, v') && id in v.entries && id !in done
    ensures id in v'.entries && v'.entries[id] == v.entries[id]
    ensures ReapRetires(v', s, now, id) <==> ReapRetires(v, s, now, id)
    ensures ReapedEntry(v', s, now, id) == ReapedEntry(v, s, now, id)
  {
    hide RingInv, Retire, Owned, Authorized;
    TableInv(v);
    ReapLocal(v.rings, (set d | d in done && ReapRetires(v, s, now, d)), id);
  }
}
