/** The membership view: join order, liveness marks, and the base of quorums. */
module Membership {
  import opened Wrappers
  import opened Nodes

  datatype MemberInfo = MemberInfo(priority: nat, isAlive: bool)

  class MembershipView {
    var members: map<PeerID, MemberInfo>
    var version: int

    constructor ()
      ensures members == map[] && version == 0 && Valid()
    {
      members, version := map[], 0;
    }

    /** Priorities are the join order: no two members share one. */
    ghost predicate Valid()
      reads this
    {
      && (forall p | p in members :: members[p].priority < |members|)
      && (forall p, q | p in members && q in members && members[p].priority == members[q].priority :: p == q)
    }

    method AddMember(peer: PeerID)
      requires Valid()
      modifies this
      ensures Valid()
      ensures peer in old(members) ==> members == old(members) && version == old(version)
      ensures peer !in old(members) ==>
                && members == old(members)[peer := MemberInfo(|old(members)|, true)]
                && version == old(version) + 1
    {
      if peer !in members {
        members := members[peer := MemberInfo(|members|, true)];
        version := version + 1;
      }
    }

    /** Liveness marks leave the quorum base and the join order alone. */
    method Mark(peer: PeerID, alive: bool)
      requires Valid()
      modifies this
      ensures Valid() && members.Keys == old(members).Keys && |members| == |old(members)|
      ensures peer !in old(members) ==> members == old(members) && version == old(version)
      ensures peer in old(members) ==>
                && members == old(members)[peer := old(members)[peer].(isAlive := alive)]
                && version == old(version) + 1
    {
      if peer in members {
        SameSize(members, peer, members[peer].(isAlive := alive));
        members := members[peer := members[peer].(isAlive := alive)];
        version := version + 1;
      }
    }

    method GetTotalCount() returns (n: nat)
      ensures n == |members|
    {
      n := |members|;
    }

    /** The live member that joined first, in whatever order the map is walked. */
    method GetHighestPriorityAliveNode() returns (r: Option<PeerID>)
      requires Valid()
      ensures r.None? <==> forall p | p in members :: !members[p].isAlive
      ensures r.Some? ==>
                && r.value in members && members[r.value].isAlive
                && forall p | p in members && members[p].isAlive && p != r.value ::
                     members[r.value].priority < members[p].priority
    {
      r := None;
      var todo := members.Keys;
      while todo != {}
        invariant todo <= members.Keys
        invariant r.None? ==> forall p | p in members && p !in todo :: !members[p].isAlive
        invariant r.Some? ==>
                    && r.value in members && r.value !in todo && members[r.value].isAlive
                    && forall p | p in members && p !in todo && members[p].isAlive && p != r.value ::
                         members[r.value].priority < members[p].priority
        decreases |todo|
      {
        var p :| p in todo;
        todo := todo - {p};
        if members[p].isAlive && (r.None? || members[p].priority < members[r.value].priority) {
          r := Some(p);
        }
      }
    }
  }

  lemma SameSize<K, V>(m: map<K, V>, k: K, v: V)
    requires k in m
    ensures |m[k := v]| == |m| && m[k := v].Keys == m.Keys
  {
    assert m[k := v].Keys == m.Keys;
    assert |m[k := v]| == |m[k := v].Keys| && |m| == |m.Keys|;
  }
}
