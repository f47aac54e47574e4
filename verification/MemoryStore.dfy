/** pkg/storage/memory.go: the in-memory snapshot store. */
module MemoryStore {

  datatype Snapshot = Snapshot(workload: string, generatedAt: int, stepSeconds: int, desiredReplicas: seq<int>)

  datatype PutOutcome = Stored | EmptyWorkload | PutCancelled

  datatype GetOutcome = Hit(snapshot: Snapshot) | Miss | GetCancelled

  /** What a cleanup at time `now` leaves: everything without a TTL, else the entries no older than it. */
  function Fresh(m: map<string, Snapshot>, ttl: int, now: int): map<string, Snapshot> {
    map k | k in m && (ttl == 0 || now - m[k].generatedAt <= ttl) :: m[k]
  }

  /** Cleanups only ever remove what a later cleanup would remove anyway. */
  lemma CleanupsCompose(m: map<string, Snapshot>, ttl: int, now: int, later: int)
    requires now <= later
    ensures Fresh(Fresh(m, ttl, now), ttl, later) == Fresh(m, ttl, later)
    ensures Fresh(m, ttl, later).Keys <= Fresh(m, ttl, now).Keys
  {
    var once, twice := Fresh(m, ttl, later), Fresh(Fresh(m, ttl, now), ttl, later);
    assert forall k :: k in once <==> k in twice;
    assert forall k | k in once :: once[k] == twice[k];
  }

  /** An entry as old as the TTL stays; one any older goes; without a TTL all stay; nothing else changes. */
  lemma FreshBoundary(m: map<string, Snapshot>, ttl: int, now: int, k: string)
    requires k in m
    ensures ttl == 0 || now == m[k].generatedAt + ttl ==> k in Fresh(m, ttl, now)
    ensures ttl > 0 && now > m[k].generatedAt + ttl ==> k !in Fresh(m, ttl, now)
    ensures Fresh(m, ttl, now) == map j | j in Fresh(m, ttl, now).Keys * m.Keys :: m[j]
  {
  }

  class Store {
    const ttl: int
    var snapshots: map<string, Snapshot>

    /** Every entry sits under its own workload's name, and no name is empty. */
    ghost predicate Valid()
      reads this
    {
      ttl >= 0 && forall k | k in snapshots :: k != "" && snapshots[k].workload == k
    }

    constructor ()
      ensures Valid() && ttl == 0 && snapshots == map[]
    {
      ttl := 0;
      snapshots := map[];
    }

    constructor WithTTL(ttl: int)
      requires ttl > 0
      ensures Valid() && this.ttl == ttl && snapshots == map[]
    {
      this.ttl := ttl;
      snapshots := map[];
    }

    method Put(cancelled: bool, s: Snapshot) returns (r: PutOutcome)
      requires Valid()
      modifies this`snapshots
      ensures Valid()
      ensures r == if s.workload == "" then EmptyWorkload else if cancelled then PutCancelled else Stored
      ensures snapshots == if r.Stored? then old(snapshots)[s.workload := s] else old(snapshots)
    {
      if s.workload == "" {
        return EmptyWorkload;
      }
      if cancelled {
        return PutCancelled;
      }
      snapshots := snapshots[s.workload := s];
      r := Stored;
    }

    method GetLatest(cancelled: bool, workload: string) returns (r: GetOutcome)
      requires Valid()
      ensures r.GetCancelled? <==> cancelled
      ensures r.Hit? <==> !cancelled && workload in snapshots
      ensures r.Hit? ==> r.snapshot == snapshots[workload] && r.snapshot.workload == workload
    {
      if cancelled {
        return GetCancelled;
      }
      r := if workload in snapshots then Hit(snapshots[workload]) else Miss;
    }

    method Delete(workload: string) returns (existed: bool)
      requires Valid()
      modifies this`snapshots
      ensures Valid()
      ensures existed == (workload in old(snapshots))
      ensures snapshots == old(snapshots) - {workload}
    {
      existed := workload in snapshots;
      snapshots := snapshots - {workload};
    }

    /** Removes stale entries one by one, in whatever order the map yields them. */
    method Cleanup(now: int)
      requires Valid()
      modifies this`snapshots
      ensures Valid()
      ensures snapshots == Fresh(old(snapshots), ttl, now)
    {
      if ttl == 0 {
        return;
      }
      var pending := snapshots.Keys;
      while pending != {}
        invariant Valid()
        invariant pending <= old(snapshots).Keys
        invariant snapshots.Keys <= old(snapshots).Keys
        invariant forall k | k in old(snapshots) ::
          k in snapshots <==> k in pending || now - old(snapshots)[k].generatedAt <= ttl
        invariant forall k | k in snapshots :: snapshots[k] == old(snapshots)[k]
      {
        var workload :| workload in pending;
        if now - snapshots[workload].generatedAt > ttl {
          snapshots := snapshots - {workload};
        }
        pending := pending - {workload};
      }
    }
  }
}
