/** The lease table: two indices over the same mutable leases. */
module Sessions {
  import opened Hosts
  import opened Leases

  /** `lease_t`.  The name, the address and the kind are fixed at creation; migration rewrites the rest. */
  class Lease {
    const username: string
    const ip: Host
    const fixed: bool
    var uniqueId: u32
    var acquired: int
    ghost var freed: bool

    /** `lease_create`. */
    constructor (username: string, uniqueId: u32, ip: Host, fixed: bool, now: int)
      ensures this.username == username && this.ip == ip && this.fixed == fixed
      ensures this.uniqueId == uniqueId && this.acquired == now && !freed
    {
      this.username := username;
      this.ip := ip;
      this.fixed := fixed;
      this.uniqueId := uniqueId;
      this.acquired := now;
      this.freed := false;
    }

    /** `lease_destroy`: may be called once only. */
    method Destroy()
      requires !freed
      modifies this
      ensures freed && uniqueId == old(uniqueId) && acquired == old(acquired)
    {
      freed := true;
    }

    ghost function Rec(): LeaseRec
      reads this
    {
      LeaseRec(uniqueId, ip, fixed, acquired)
    }
  }

  class SessionManager {
    var byUid: map<u32, Lease>
    var byUser: map<string, Lease>

    /** What every operation keeps without any help from its callers: each lease sits under its own
        key, is alive, and everything in the uid index is in the user index. */
    ghost predicate Valid()
      reads this, byUid.Values, byUser.Values
    {
      && (forall u | u in byUser :: byUser[u].username == u && !byUser[u].freed)
      && (forall k | k in byUid :: byUid[k].uniqueId == k && Indexed(byUid[k]))
    }

    ghost predicate Indexed(l: Lease)
      reads this
    {
      l.username in byUser && byUser[l.username] == l
    }

    /** The two indices hold the same leases. */
    ghost predicate Coherent()
      reads this, byUser.Values
    {
      forall u | u in byUser :: byUser[u].uniqueId in byUid && byUid[byUser[u].uniqueId] == byUser[u]
    }

    ghost function Table(): map<string, LeaseRec>
      reads this, byUser.Values
    {
      map u | u in byUser :: byUser[u].Rec()
    }

    /** The uid is free, or held under this very name. */
    ghost predicate NoClash(username: string, uid: u32)
      reads this
    {
      uid in byUid ==> byUid[uid].username == username
    }

    lemma TableIs()
      ensures Table().Keys == byUser.Keys
      ensures forall u | u in byUser :: Table()[u] == byUser[u].Rec()
    {
    }

    /** Taking names out of the user index takes them out of the table. */
    twostate lemma TableWithout(gone: set<string>)
      requires byUser == old(byUser) - gone && forall u | u in byUser :: unchanged(byUser[u])
      ensures Table() == old(Table()) - gone
    {
    }

    /** For a user without a lease a uid clashes exactly when it is taken. */
    lemma ClashIsTaken(username: string, uid: u32)
      requires Valid() && username !in byUser
      ensures NoClash(username, uid) <==> uid !in byUid
    {
    }

    lemma EachUnderItsName()
      requires Valid()
      ensures forall u | u in byUser :: byUser[u].username == u && !byUser[u].freed
    {
    }

    /** With coherent indices the table knows exactly the uids of the uid index. */
    lemma UidsOfTable(uid: u32)
      requires Valid() && Coherent()
      ensures HasUid(Table(), uid) <==> uid in byUid
      ensures uid in byUid ==> byUid[uid].username in Table() && Table()[byUid[uid].username] == byUid[uid].Rec()
    {
      if uid in byUid {
        assert Table()[byUid[uid].username].uid == uid;
      }
    }

    constructor ()
      ensures Valid() && Coherent() && byUser == map[] && byUid == map[]
    {
      byUid := map[];
      byUser := map[];
    }

    /** What is found is alive, under its own name, and says what the table says. */
    method LookupByUser(username: string) returns (lease: Lease?)
      requires Valid()
      ensures lease == null <==> username !in Table()
      ensures lease != null ==>
                Indexed(lease) && lease.username == username && !lease.freed && lease.Rec() == Table()[username]
    {
      lease := if username in byUser then byUser[username] else null;
    }

    /** The overwrite branch of `bind_lease`: the newcomer wins, the older lease is destroyed. */
    method Evict(username: string)
      requires Valid() && username in byUser
      modifies this, byUser.Values
      ensures Valid() && byUser == old(byUser) - {username}
      ensures byUid == old(byUid - {byUser[username].uniqueId})
      ensures old(byUser[username]).freed
      ensures forall u | u in byUser :: unchanged(byUser[u])
      ensures old(Coherent()) ==> Coherent()
    {
      var existing := byUser[username];
      byUid := byUid - {existing.uniqueId};
      byUser := byUser - {existing.username};
      existing.Destroy();
    }

    /** The rest of `bind_lease`: creates the lease and puts it in both indices. */
    method Insert(username: string, uid: u32, ip: Host, fixed: bool, now: int) returns (lease: Lease)
      requires Valid() && username !in byUser
      modifies this
      ensures Valid() && fresh(lease)
      ensures lease.username == username && lease.Rec() == LeaseRec(uid, ip, fixed, now)
      ensures byUser == old(byUser)[username := lease] && byUid == old(byUid)[uid := lease]
      ensures old(Coherent()) ==> (Coherent() <==> uid !in old(byUid))
    {
      ghost var displaced := if uid in byUid then Some(byUid[uid]) else None;
      lease := new Lease(username, uid, ip, fixed, now);
      byUid := byUid[uid := lease];
      byUser := byUser[username := lease];
      if displaced.Some? {
        assert byUser[displaced.value.username] == displaced.value;
      }
    }

    /** Puts a new lease in both indices.  An older lease of the same user is taken out and destroyed.
        The indices stay coherent exactly when the uid is not in use under another name. */
    method BindLease(username: string, uid: u32, ip: Host, fixed: bool, now: int) returns (lease: Lease)
      requires Valid()
      modifies this, byUser.Values
      ensures Valid() && fresh(lease)
      ensures lease.username == username && lease.Rec() == LeaseRec(uid, ip, fixed, now)
      ensures byUser == old(byUser)[username := lease]
      ensures byUid == old(if username in byUser then byUid - {byUser[username].uniqueId} else byUid)[uid := lease]
      ensures forall u | u in old(byUser) :: u == username || unchanged(old(byUser)[u])
      ensures username in old(byUser) ==> old(byUser)[username].freed
      ensures old(Coherent()) ==> (Coherent() <==> old(NoClash(username, uid)))
      ensures Table() == old(Table())[username := LeaseRec(uid, ip, fixed, now)]
    {
      if username in byUser {
        Evict(username);
        assert forall u | u in old(byUser) && u != username :: u in byUser && unchanged(old(byUser)[u]);
      }
      lease := Insert(username, uid, ip, fixed, now);
      assert byUser == old(byUser)[username := lease];
    }

    /** Moves the user's lease to a new uid and restarts its clock. */
    method Migrate(username: string, uid: u32, now: int) returns (lease: Lease?)
      requires Valid()
      modifies this`byUid, byUser.Values
      ensures Valid()
      ensures lease == if username in byUser then byUser[username] else null
      ensures lease == null ==> byUid == old(byUid)
      ensures lease != null ==> byUid == old(byUid - {byUser[username].uniqueId})[uid := lease]
      ensures old(Coherent() && username in byUser && byUser[username].uniqueId == uid) ==> byUid == old(byUid)
      ensures lease != null ==> lease.uniqueId == uid && lease.acquired == now && !lease.freed
      ensures forall u | u in byUser :: u == username || unchanged(byUser[u])
      ensures old(Coherent()) ==> (Coherent() <==> username !in byUser || old(NoClash(username, uid)))
      ensures Table() == if lease == null then old(Table())
                         else old(Table())[username := old(Table()[username]).(uid := uid, acquired := now)]
    {
      lease := if username in byUser then byUser[username] else null;
      if lease != null {
        byUid := byUid - {lease.uniqueId};
        lease.uniqueId := uid;
        lease.acquired := now;
        byUid := byUid[uid := lease];
      }
    }

    /** Takes the lease of a uid out of both indices and hands it over.  A second call finds nothing. */
    method Unbind(uid: u32) returns (lease: Lease?)
      requires Valid()
      modifies this
      ensures Valid()
      ensures lease == if uid in old(byUid) then old(byUid)[uid] else null
      ensures lease == null ==> unchanged(this)
      ensures lease != null ==> !lease.freed && lease !in byUid.Values && lease !in byUser.Values
      ensures lease != null ==> old(Indexed(lease)) && byUser == old(byUser) - {lease.username}
      ensures byUid == old(byUid) - {uid}
      ensures lease != null ==> lease.username in old(Table()) && old(Table())[lease.username] == lease.Rec()
      ensures Table() == if lease == null then old(Table()) else old(Table()) - {lease.username}
      ensures old(Coherent()) ==> Coherent() && Table() == WithoutUid(old(Table()), uid)
      ensures old(Coherent()) ==> (lease != null <==> HasUid(old(Table()), uid))
    {
      lease := if uid in byUid then byUid[uid] else null;
      assert uid !in byUid ==> byUid - {uid} == byUid;
      byUid := byUid - {uid};
      if lease != null {
        assert forall k | k in byUid :: byUid[k].uniqueId != uid;
        byUser := byUser - {lease.username};
        assert lease.username in old(Table());
      }
    }

    /** The first half of `foreach_expiring`: the overdue leases, each once, in the order in which the
        table happens to be enumerated. */
    method Overdues(now: int, timeout: nat) returns (snapshot: seq<Lease>)
      requires Valid()
      ensures forall i | 0 <= i < |snapshot| ::
                Indexed(snapshot[i]) && !snapshot[i].freed && now - snapshot[i].acquired > timeout
      ensures forall k | k in byUid && now - byUid[k].acquired > timeout :: byUid[k] in snapshot
      ensures Coherent() ==>
                forall u | u in byUser && now - byUser[u].acquired > timeout :: byUser[u] in snapshot
      ensures forall i, j | 0 <= i < j < |snapshot| :: snapshot[i] != snapshot[j]
    {
      snapshot := [];
      var todo := byUid.Keys;
      while todo != {}
        invariant todo <= byUid.Keys
        invariant forall i | 0 <= i < |snapshot| ::
            && snapshot[i].uniqueId in byUid && byUid[snapshot[i].uniqueId] == snapshot[i]
            && snapshot[i].uniqueId !in todo && now - snapshot[i].acquired > timeout
        invariant forall k | k in byUid && k !in todo && now - byUid[k].acquired > timeout ::
            byUid[k] in snapshot
        invariant forall i, j | 0 <= i < j < |snapshot| :: snapshot[i] != snapshot[j]
        decreases |todo|
      {
        var k :| k in todo;
        todo := todo - {k};
        if now - byUid[k].acquired > timeout {
          snapshot := snapshot + [byUid[k]];
        }
      }
    }

    /** Counts by enumerating the uid index. */
    method Count() returns (c: nat)
      requires Valid()
      ensures c == |byUid|
      ensures Coherent() ==> c == |byUser|
    {
      c := 0;
      var todo := byUid.Keys;
      while todo != {}
        invariant c + |todo| == |byUid|
        decreases |todo|
      {
        var k :| k in todo;
        todo := todo - {k};
        c := c + 1;
      }
      if Coherent() {
        SameSize();
      }
    }

    lemma SameSize()
      requires Valid() && Coherent()
      ensures |byUid| == |byUser|
    {
      var uids := set u | u in byUser :: byUser[u].uniqueId;
      assert uids == byUid.Keys by {
        forall k | k in byUid ensures k in uids {
          assert byUid[k].username in byUser;
        }
      }
      ImageSize(byUser.Keys, uids, byUid);
    }

    /** The names map one-to-one onto the uids they hold. */
    lemma {:induction false} ImageSize(names: set<string>, uids: set<u32>, index: map<u32, Lease>)
      requires names <= byUser.Keys
      requires forall u | u in byUser :: byUser[u].username == u
      requires forall u | u in names :: byUser[u].uniqueId in index && index[byUser[u].uniqueId] == byUser[u]
      requires uids == set u | u in names :: byUser[u].uniqueId
      ensures |uids| == |names|
    {
      if names != {} {
        var u :| u in names;
        var rest := names - {u};
        var fewer := set v | v in rest :: byUser[v].uniqueId;
        ImageSize(rest, fewer, index);
        assert uids == fewer + {byUser[u].uniqueId};
        assert byUser[u].uniqueId !in fewer;
      }
    }

    /** `session_manager_destroy` enumerates the uid index only.  Every lease in it is destroyed exactly
        once; no lease of the user index is left over exactly when the indices are coherent. */
    method Shutdown()
      requires Valid()
      modifies byUid.Values
      ensures forall k | k in byUid :: byUid[k].freed
      ensures (forall u | u in byUser :: byUser[u].freed) <==> old(Coherent())
    {
      var todo := byUid.Keys;
      while todo != {}
        invariant todo <= byUid.Keys
        invariant forall k | k in byUid :: byUid[k].uniqueId == k && Indexed(byUid[k])
        invariant forall k | k in byUid :: byUid[k].freed <==> k !in todo
        invariant forall u | u in byUser :: byUser[u].username == u && (byUser[u].freed ==> byUser[u] in byUid.Values)
        invariant forall u | u in byUser :: byUser[u].uniqueId == old(byUser[u].uniqueId)
        decreases |todo|
      {
        var k :| k in todo;
        byUid[k].Destroy();
        todo := todo - {k};
      }
      assert Coherent() <==> old(Coherent());
    }
  }
}
