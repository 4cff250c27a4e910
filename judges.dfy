/** The judge pool: an append-only map from key to "accredited", written only by
    the admin, and a counter of successful additions. */
module JudgePool {
  import opened Common
  import AdminRegistry


  class Judges {
    /** The admin module this one asks whether the sender is the admin. */
    const admin: AdminRegistry.Admin
    var judges: map<Key, bool>
    /** Counts accreditation events, not distinct judges. */
    var judgeCount: nat

    /** The keys currently accredited: present and mapped to true. */
    ghost function Accredited(): set<Key>
      reads this
    {
      set k | k in judges && judges[k]
    }

    /** The counter never falls behind the number of accredited keys. */
    ghost predicate Valid()
      reads this
    {
      |Accredited()| <= judgeCount
    }

    /** An absent entry counts as "not a judge". */
    predicate IsJudge(k: Key)
      reads this
    {
      k in judges && judges[k]
    }

    constructor (admin: AdminRegistry.Admin)
      ensures this.admin == admin
      ensures judges == map[] && judgeCount == 0
      ensures Valid()
    {
      this.admin := admin;
      judges := map[];
      judgeCount := 0;
      new;
      assert Accredited() == {};
    }

    /** Only the admin may accredit a judge. Re-adding a judge is not rejected and
        still increments the counter. */
    method AddJudge(sender: Key, judge: Key) returns (s: Status)
      requires Valid()
      modifies this
      ensures Valid()
      ensures s.Ok? <==> admin.admin == Some(sender)
      ensures s.Err? ==> s == Err(NotAdmin)
      ensures s.Err? ==> judges == old(judges) && judgeCount == old(judgeCount)
      ensures s.Ok? ==> judges == old(judges)[judge := true] && judgeCount == old(judgeCount) + 1
      ensures s.Ok? ==> Accredited() == old(Accredited()) + {judge} && IsJudge(judge)
      ensures old(Accredited()) <= Accredited()
    {
      s := admin.AssertSenderIsAdmin(sender);
      if s.Err? {
        return;
      }
      var count := judgeCount;
      judges := judges[judge := true];
      judgeCount := count + 1;
      assert Accredited() == old(Accredited()) + {judge};
    }

    /** Succeeds exactly when the sender's entry is present and true. */
    method AssertSenderIsJudge(sender: Key) returns (s: Status)
      ensures s.Ok? <==> sender in judges && judges[sender]
      ensures s.Err? ==> s == Err(NotJudge)
    {
      var senderIsJudge := if sender in judges then judges[sender] else false;
      s := if senderIsJudge then Ok else Err(NotJudge);
    }
  }
}
