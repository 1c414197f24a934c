/** The in-memory state store: sessions, trees, handles, leases and file locks. */
module StateStore {
  import opened Core
  import opened ByteRanges
  import opened LeaseStates
  import opened Leases
  import opened StateTypes
  import Locks = LockTables
  import Protocol = LeaseProtocol

  class MemoryStateStore {
    var sessions: map<nat, SessionState>
    var trees: map<TreeKey, TreeState>
    var handles: map<nat, HandleState>
    var leases: LeaseTable
    var fileLocks: map<nat, DistributedLock>
    var fileLockCounter: nat

    ghost function LockTable(): Locks.FlatTable
      reads this
    {
      Locks.FlatTable(fileLocks, fileLockCounter)
    }

    ghost function State(): Bulk
      reads this
    {
      Bulk(sessions, trees, handles, leases)
    }

    constructor ()
      ensures State() == Bulk(map[], map[], map[], map[]) && LockTable() == Locks.EMPTY_FLAT
    {
      sessions, trees, handles, leases := map[], map[], map[], map[];
      fileLocks, fileLockCounter := map[], 1;
    }

    /** create_session and update_session. */
    method PutSession(s: SessionState)
      modifies this`sessions
      ensures sessions == old(sessions)[s.sessionId := s]
    {
      sessions := sessions[s.sessionId := s];
    }

    method GetSession(id: nat) returns (r: Option<SessionState>)
      ensures r == Find(sessions, id)
    {
      r := if id in sessions then Some(sessions[id]) else None;
    }

    method DeleteSession(id: nat)
      modifies this`sessions
      ensures sessions == old(sessions) - {id}
    {
      sessions := sessions - {id};
    }

    method RefreshSession(id: nat, ttl: nat, now: nat)
      modifies this`sessions
      ensures sessions == Refreshed(old(sessions), id, ttl, now)
    {
      if id in sessions {
        var s := sessions[id];
        sessions := sessions[id := s.(lastAccess := now, expiresAt := now + ttl)];
      }
    }

    method PutTree(t: TreeState)
      modifies this`trees
      ensures trees == old(trees)[(t.sessionId, t.treeId) := t]
    {
      trees := trees[(t.sessionId, t.treeId) := t];
    }

    method GetTree(sessionId: nat, treeId: nat) returns (r: Option<TreeState>)
      ensures r == Find(trees, (sessionId, treeId))
    {
      r := if (sessionId, treeId) in trees then Some(trees[(sessionId, treeId)]) else None;
    }

    method DeleteTree(sessionId: nat, treeId: nat)
      modifies this`trees
      ensures trees == old(trees) - {(sessionId, treeId)}
    {
      trees := trees - {(sessionId, treeId)};
    }

    method PutHandle(h: HandleState)
      modifies this`handles
      ensures handles == old(handles)[h.persistentId := h]
    {
      handles := handles[h.persistentId := h];
    }

    method GetHandle(id: nat) returns (r: Option<HandleState>)
      ensures r == Find(handles, id)
    {
      r := if id in handles then Some(handles[id]) else None;
    }

    method DeleteHandle(id: nat)
      modifies this`handles
      ensures handles == old(handles) - {id}
    {
      handles := handles - {id};
    }

    /** The handles of a session, in some order, each once. */
    method HandlesBySession(sessionId: nat) returns (list: seq<HandleState>)
      requires HandleKeysMatch(handles)
      ensures forall h :: h in list <==>
                h.persistentId in handles && handles[h.persistentId] == h && h.sessionId == sessionId
      ensures forall i, j :: 0 <= i < j < |list| ==> list[i].persistentId != list[j].persistentId
    {
      list := [];
      var todo := handles.Keys;
      while todo != {}
        invariant todo <= handles.Keys
        invariant forall h :: h in list <==>
                    h.persistentId in handles && h.persistentId !in todo &&
                    handles[h.persistentId] == h && h.sessionId == sessionId
        invariant forall i, j :: 0 <= i < j < |list| ==> list[i].persistentId != list[j].persistentId
        decreases todo
      {
        var k :| k in todo;
        if handles[k].sessionId == sessionId {
          assert forall i :: 0 <= i < |list| ==> list[i] in list;
          list := list + [handles[k]];
        }
        todo := todo - {k};
      }
    }

    /** The trees of a session, in some order. */
    method TreesBySession(sessionId: nat) returns (list: seq<TreeState>)
      requires TreeKeysMatch(trees)
      ensures forall t :: t in list <==>
                (t.sessionId, t.treeId) in trees && trees[(t.sessionId, t.treeId)] == t &&
                t.sessionId == sessionId
    {
      list := [];
      var todo := trees.Keys;
      while todo != {}
        invariant todo <= trees.Keys
        invariant forall t :: t in list <==>
                    (t.sessionId, t.treeId) in trees && (t.sessionId, t.treeId) !in todo &&
                    trees[(t.sessionId, t.treeId)] == t && t.sessionId == sessionId
        decreases todo
      {
        var k :| k in todo;
        if k.0 == sessionId {
          list := list + [trees[k]];
        }
        todo := todo - {k};
      }
    }

    // ---------- leases ----------

    method CreateLease(lease: LeaseEntry) returns (ok: bool)
      modifies this`leases
      ensures ok == CreateUnchecked(old(leases), lease).Some?
      ensures leases == if ok then CreateUnchecked(old(leases), lease).value else old(leases)
    {
      if lease.leaseKey in leases {
        return false;
      }
      leases := leases[lease.leaseKey := lease];
      ok := true;
    }

    method UpdateLease(lease: LeaseEntry)
      modifies this`leases
      ensures leases == LeaseStep(old(leases), Update(lease))
    {
      leases := leases[lease.leaseKey := lease];
    }

    method DeleteLease(leaseKey: string)
      modifies this`leases
      ensures leases == LeaseStep(old(leases), Delete(leaseKey))
    {
      leases := leases - {leaseKey};
    }

    method DeleteLeasesForServer(serverId: string)
      modifies this`leases
      ensures leases == LeaseStep(old(leases), DeleteForServer(serverId))
    {
      leases := map k | k in leases && leases[k].serverId != serverId :: leases[k];
    }

    method CheckAndCreateLease(file: string, lease: LeaseEntry, requested: LeaseState)
      returns (r: ConflictResult, ghost existing: seq<LeaseEntry>)
      modifies this`leases
      ensures Enumerates(existing, old(leases), file, Some(lease.leaseKey))
      ensures (leases, r) == CreateChecked(old(leases), existing, lease, requested)
    {
      var list := LeasesForFile(leases, file, Some(lease.leaseKey));
      existing := list;
      r := CheckExisting(list, requested);
      leases := leases[lease.leaseKey := lease.(leaseState := r.grantedState)];
    }

    /** The acknowledging side reads the lease and stores the acknowledged state. */
    method StoreAcknowledged(leaseKey: string, acked: LeaseState)
      modifies this`leases
      ensures leases == if leaseKey in old(leases)
                        then LeaseStep(old(leases), Update(Protocol.Broken(old(leases)[leaseKey], acked)))
                        else old(leases)
    {
      if leaseKey in leases {
        var lease := leases[leaseKey];
        UpdateLease(lease.(leaseState := acked, epoch := (lease.epoch + 1) % 0x1_0000));
      }
    }

    // ---------- file locks ----------

    method NextFileLockId() returns (id: nat)
      modifies this`fileLockCounter
      ensures id == old(fileLockCounter) && LockTable() == Locks.StoreStep(old(LockTable()), Locks.TakeId)
    {
      id := fileLockCounter;
      fileLockCounter := fileLockCounter + 1;
    }

    method AcquireFileLock(l: DistributedLock) returns (granted: bool)
      modifies this`fileLocks
      ensures (LockTable(), granted) == Locks.FlatAcquire(old(LockTable()), l)
    {
      var ids := fileLocks.Keys;
      while ids != {}
        invariant ids <= fileLocks.Keys && fileLocks == old(fileLocks)
        invariant forall id :: id in fileLocks && id !in ids ==> !l.ConflictsWith(fileLocks[id])
        decreases ids
      {
        var id :| id in ids;
        if l.ConflictsWith(fileLocks[id]) {
          return false;
        }
        ids := ids - {id};
      }
      fileLocks := fileLocks[l.lockId := l];
      granted := true;
    }

    method ReleaseFileLock(id: nat)
      modifies this`fileLocks
      ensures LockTable() == Locks.StoreStep(old(LockTable()), Locks.Release(Locks.ReleaseLock(id)))
    {
      fileLocks := fileLocks - {id};
    }

    /** release_file_locks_for_session, _for_handle and _for_server. */
    method ReleaseFileLocks(r: Locks.Request)
      requires r.ReleaseLocksForSession? || r.ReleaseLocksForHandle? || r.ReleaseLocksForServer?
      modifies this`fileLocks
      ensures LockTable() == Locks.StoreStep(old(LockTable()), Locks.Release(r))
    {
      fileLocks := map id | id in fileLocks && Locks.Keeps(r, fileLocks[id]) :: fileLocks[id];
    }

    /** A lock request as the lock handler makes it: an acquire takes the next id first. */
    method ApplyLockRequest(r: Locks.Request) returns (answer: Locks.Response)
      modifies this`fileLocks, this`fileLockCounter
      ensures (LockTable(), answer) == Locks.FlatApply(old(LockTable()), r)
    {
      match r {
        case AcquireLock(lock) =>
          var id := NextFileLockId();
          var granted := AcquireFileLock(lock.(lockId := id));
          answer := Locks.LockGranted(granted);
        case ReleaseLock(id) =>
          ReleaseFileLock(id);
          answer := Locks.Released;
        case _ =>
          ReleaseFileLocks(r);
          answer := Locks.Released;
      }
    }
  }
}
