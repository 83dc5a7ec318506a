/** One instance's attempt in internal/leadership/election.go as code, tied to the steps of LeaderElection. */
module ElectionClient {
  import opened Seqs
  import opened LeaderElection

  /** The election key on the server; a `Reply` argument says how the network treats the command. */
  class Redis {
    var now: int
    var key: Option<Key>

    constructor (now: int)
      ensures this.now == now && key == None
    {
      this.now, key := now, None;
    }

    method SetNX(id: InstanceId, lease: int, r: Reply) returns (err: bool, stored: bool)
      modifies this`key
      ensures key == if r == NotSent then old(key) else SetNXKey(now, old(key), id, lease)
      ensures err <==> r != Answered
      ensures !err ==> (stored <==> Live(now, old(key)) == None)
    {
      stored := Live(now, key) == None;
      if r != NotSent && stored {
        key := Some(Key(id, now + lease));
      }
      err := r != Answered;
    }

    method Get(r: Reply) returns (err: bool, owner: Option<InstanceId>)
      ensures err <==> r != Answered
      ensures !err ==> owner == Live(now, key)
    {
      err, owner := r != Answered, Live(now, key);
    }

    method Expire(lease: int, r: Reply) returns (err: bool)
      modifies this`key
      ensures key == if r == NotSent then old(key) else ExpireKey(now, old(key), lease)
      ensures err <==> r != Answered
    {
      if r != NotSent && Live(now, key) != None {
        key := Some(key.value.(expiry := now + lease));
      }
      err := r != Answered;
    }

    /** The release script: compare and delete in one command. */
    method Release(id: InstanceId, r: Reply) returns (err: bool)
      modifies this`key
      ensures r != NotSent && Live(now, old(key)) == Some(id) ==> key == None
      ensures r == NotSent || Live(now, old(key)) != Some(id) ==> key == old(key)
      ensures err <==> r != Answered
    {
      if r != NotSent && Live(now, key) == Some(id) {
        key := None;
      }
      err := r != Answered;
    }
  }

  class Election {
    const redis: Redis
    const id: InstanceId
    const lease: int
    var isLeader: bool

    constructor (redis: Redis, id: InstanceId, lease: int)
      ensures this.redis == redis && this.id == id && this.lease == lease && !isLeader
    {
      this.redis, this.id, this.lease, isLeader := redis, id, lease, false;
    }

    method AcquireLock(r1: Reply, r2: Reply, r3: Reply) returns (acquired: bool, err: bool)
      modifies redis`key
      ensures (redis.key, acquired && !err) == Attempted(redis.now, old(redis.key), id, lease, r1, r2, r3)
    {
      var err1, result := redis.SetNX(id, lease, r1);
      if err1 {
        return false, true;
      }
      if result {
        return true, false;
      }
      var err2, currentLeader := redis.Get(r2);
      if err2 {
        return false, true;
      }
      if currentLeader == Some(id) {
        var err3 := redis.Expire(lease, r3);
        if err3 {
          return false, true;
        }
        return true, false;
      }
      return false, false;
    }

    /** An attempt that nobody interrupts is the four steps of the protocol, whatever replies get lost. */
    method AttemptLeadership(ghost s: State, r1: Reply, r2: Reply, r3: Reply)
      requires s.now == redis.now && s.key == redis.key && Running(s, id)
      requires s.instances[id].lease == lease && s.instances[id].isLeader == isLeader && s.instances[id].attempt == Idle
      modifies this`isLeader, redis`key
      ensures var t := AttemptSteps(s, id, r1, r2, r3);
              && redis.key == t.key && redis.now == t.now
              && isLeader == t.instances[id].isLeader && t.instances[id].attempt == Idle
    {
      var acquired, err := AcquireLock(r1, r2, r3);
      if err {
        isLeader := false;
      } else if acquired {
        if !isLeader {
          isLeader := true;
        }
      } else {
        if isLeader {
          isLeader := false;
        }
      }
      AttemptOutcome(s, id, r1, r2, r3);
    }

    /** Stopping is the protocol's stop step: a leader releases the key, a failing release is only logged, and the flag stays. */
    method Stop(ghost s: State, r: Reply)
      requires s.now == redis.now && s.key == redis.key && Running(s, id) && s.instances[id].isLeader == isLeader
      modifies redis`key
      ensures var t := Step(s, Action.Stop(id, r));
              redis.key == t.key && redis.now == t.now && isLeader == t.instances[id].isLeader && !Running(t, id)
    {
      if isLeader {
        var err := redis.Release(id, r);
      }
      StopReleasesIff(s, id, r);
    }
  }

  /** Key and outcome of one uninterrupted acquireLock. */
  function Attempted(now: int, key: Option<Key>, id: InstanceId, lease: int, r1: Reply, r2: Reply, r3: Reply): (r: (Option<Key>, bool))
  {
    if r1 == NotSent then (key, false)
    else
      var key1 := SetNXKey(now, key, id, lease);
      if r1 == ReplyLost then (key1, false)
      else if Live(now, key) == None then (key1, true)
      else if r2 != Answered || Live(now, key) != Some(id) || r3 == NotSent then (key1, false)
      else (ExpireKey(now, key1, lease), r3 == Answered)
  }

  /** Steps that the attempt does not reach are disabled and change nothing. */
  function AttemptSteps(s: State, id: InstanceId, r1: Reply, r2: Reply, r3: Reply): (t: State)
    requires Running(s, id)
  {
    Step(Step(Step(Step(s, SetNX(id, r1)), Get(id, r2)), Expire(id, r3)), Conclude(id))
  }

  lemma AttemptOutcome(s: State, id: InstanceId, r1: Reply, r2: Reply, r3: Reply)
    requires Running(s, id) && s.instances[id].attempt == Idle
    ensures var t := AttemptSteps(s, id, r1, r2, r3);
            && t.now == s.now && Running(t, id) && t.instances[id].attempt == Idle
            && (t.key, t.instances[id].isLeader) == Attempted(s.now, s.key, id, s.instances[id].lease, r1, r2, r3)
  {
    var s1 := Step(s, SetNX(id, r1));
    assert Running(s1, id) && s1.now == s.now;
    var s2 := Step(s1, Get(id, r2));
    assert Running(s2, id) && s2.now == s.now && s2.key == s1.key;
    var s3 := Step(s2, Expire(id, r3));
    assert Running(s3, id) && s3.instances[id].attempt.Concluding?;
  }

  /** An uninterrupted attempt whose commands are answered ends leading exactly if it owns the live key. */
  lemma AnsweredAttemptIsRight(now: int, key: Option<Key>, id: InstanceId, lease: int)
    requires 0 < lease
    ensures var (key', leads) := Attempted(now, key, id, lease, Answered, Answered, Answered);
            && (leads <==> Live(now, key') == Some(id))
            && (leads ==> key'.value.expiry == now + lease)
            && (leads <==> Live(now, key) == None || Live(now, key) == Some(id))
  {
  }
}
