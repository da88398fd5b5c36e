/** The connection permits and the soft memory cap. */
module Pressure {
  import opened Prelude

  datatype PressurePolicy = PressurePolicy(maxRssMb: int, maxConnections: int) {
    function MaxRssBytes(): (n: int)
      ensures n == if maxRssMb > 0 then maxRssMb * 1048576 else 0
    {
      Max(0, maxRssMb) * 1024 * 1024
    }

    predicate OverLimit(rssBytes: int) {
      MaxRssBytes() > 0 && rssBytes >= MaxRssBytes()
    }

    /** Whether a client is admitted beside this many others. */
    predicate Admits(active: nat, rssBytes: int) {
      maxConnections > 0 && active < maxConnections && !OverLimit(rssBytes)
    }
  }

  /** The counter after a release; at zero it stays. */
  function Released(active: nat): nat {
    if active > 0 then active - 1 else active
  }

  class PressureGuard {
    const policy: PressurePolicy
    var active: nat

    constructor (policy: PressurePolicy)
      ensures this.policy == policy && active == 0
    {
      this.policy := policy;
      active := 0;
    }

    method OverLimit(rssBytes: int) returns (over: bool)
      ensures over == policy.OverLimit(rssBytes)
      ensures over <==> policy.maxRssMb > 0 && rssBytes >= policy.maxRssMb * 1048576
    {
      var cap := policy.MaxRssBytes();
      if cap <= 0 {
        return false;
      }
      return rssBytes >= cap;
    }

    method TryAcquire(rssBytes: int) returns (acquired: bool)
      modifies this
      ensures acquired == policy.Admits(old(active), rssBytes)
      ensures acquired <==>
                old(active) < policy.maxConnections && !(policy.maxRssMb > 0 && rssBytes >= policy.maxRssMb * 1048576)
      ensures active == old(active) + (if acquired then 1 else 0)
      ensures old(active) <= Max(0, policy.maxConnections) ==> active <= Max(0, policy.maxConnections)
    {
      if policy.maxConnections <= 0 {
        return false;
      }
      if active >= policy.maxConnections {
        return false;
      }
      var over := OverLimit(rssBytes);
      if over {
        return false;
      }
      active := active + 1;
      return true;
    }

    method Release()
      modifies this
      ensures active == Released(old(active))
      ensures old(active) > 0 ==> active == old(active) - 1
      ensures old(active) == 0 ==> active == 0
    {
      if active > 0 {
        active := active - 1;
      }
    }
  }
}
