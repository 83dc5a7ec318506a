/** Leader election over one expiring key, as in internal/leadership/election.go.

    SETNX, GET and EXPIRE are separate commands: other instances, the clock and lost replies interleave. */
module LeaderElection {
  import opened Seqs

  type InstanceId = nat

  datatype Key = Key(owner: InstanceId, expiry: int)

  /** A command that ran and answered, ran but whose reply was lost, or never ran. */
  datatype Reply = Answered | ReplyLost | NotSent

  /** Where an instance stands in acquireLock and attemptLeadership. */
  datatype Attempt = Idle | BeforeGet | BeforeExpire | Concluding(acquired: bool)

  /** `until` is history: the end of the lease the instance last obtained by SETNX or by EXPIRE on its own key. */
  datatype Instance = Instance(lease: int, isLeader: bool, stopped: bool, attempt: Attempt, until: Option<int>)

  datatype State = State(now: int, key: Option<Key>, instances: map<InstanceId, Instance>)

  datatype Action =
    | Advance(dt: int)
    | SetNX(i: InstanceId, r: Reply) | Get(i: InstanceId, r: Reply) | Expire(i: InstanceId, r: Reply)
    | Conclude(i: InstanceId) | Stop(i: InstanceId, r: Reply)

  function Live(now: int, key: Option<Key>): Option<InstanceId>
  {
    if key.Some? && now < key.value.expiry then Some(key.value.owner) else None
  }

  function Owner(s: State): Option<InstanceId> { Live(s.now, s.key) }

  function SetNXKey(now: int, key: Option<Key>, i: InstanceId, lease: int): Option<Key>
  {
    if Live(now, key) == None then Some(Key(i, now + lease)) else key
  }

  /** EXPIRE prolongs whatever key is there, without looking at its owner. */
  function ExpireKey(now: int, key: Option<Key>, lease: int): Option<Key>
  {
    if Live(now, key) == None then key else Some(key.value.(expiry := now + lease))
  }

  /** The release script deletes the key only for its owner. */
  function ReleaseKey(now: int, key: Option<Key>, i: InstanceId): Option<Key>
  {
    if Live(now, key) == Some(i) then None else key
  }

  predicate Running(s: State, i: InstanceId) { i in s.instances && !s.instances[i].stopped }

  predicate Enabled(s: State, a: Action)
  {
    match a
    case Advance(dt) => dt >= 0
    case SetNX(i, _) => Running(s, i) && s.instances[i].attempt == Idle
    case Get(i, _) => Running(s, i) && s.instances[i].attempt == BeforeGet
    case Expire(i, _) => Running(s, i) && s.instances[i].attempt == BeforeExpire
    case Conclude(i) => Running(s, i) && s.instances[i].attempt.Concluding?
    case Stop(i, _) => Running(s, i)
  }

  function Put(s: State, i: InstanceId, x: Instance): State { s.(instances := s.instances[i := x]) }

  function Next(s: State, a: Action): State
    requires Enabled(s, a)
  {
    match a
    case Advance(dt) => s.(now := s.now + dt)
    case SetNX(i, r) =>
      var x, won := s.instances[i], Owner(s) == None;
      if r == NotSent then Put(s, i, x.(attempt := Concluding(false)))
      else
        Put(s, i, x.(
          attempt := if r == ReplyLost then Concluding(false) else if won then Concluding(true) else BeforeGet,
          until := if won then Some(s.now + x.lease) else x.until))
        .(key := SetNXKey(s.now, s.key, i, x.lease))
    case Get(i, r) =>
      Put(s, i, s.instances[i].(attempt := if r == Answered && Owner(s) == Some(i) then BeforeExpire else Concluding(false)))
    case Expire(i, r) =>
      var x := s.instances[i];
      if r == NotSent then Put(s, i, x.(attempt := Concluding(false)))
      else
        Put(s, i, x.(
          attempt := Concluding(r == Answered),
          until := if Owner(s) == Some(i) then Some(s.now + x.lease) else x.until))
        .(key := ExpireKey(s.now, s.key, x.lease))
    case Conclude(i) =>
      var x := s.instances[i];
      Put(s, i, x.(isLeader := x.attempt.acquired, attempt := Idle))
    case Stop(i, r) =>
      var x := s.instances[i];
      if x.isLeader && r != NotSent then Put(s, i, x.(stopped := true, until := None)).(key := ReleaseKey(s.now, s.key, i))
      else Put(s, i, x.(stopped := true))
  }

  function Step(s: State, a: Action): State
  {
    if Enabled(s, a) then Next(s, a) else s
  }

  function Exec(s: State, acts: seq<Action>): State
    decreases |acts|
  {
    if acts == [] then s else Step(Exec(s, acts[..|acts| - 1]), acts[|acts| - 1])
  }

  predicate Starting(s: State)
  {
    && s.key == None
    && forall i <- s.instances :: s.instances[i] == Instance(s.instances[i].lease, false, false, Idle, None) && s.instances[i].lease > 0
  }

  predicate InLease(s: State, i: InstanceId)
    requires i in s.instances
  {
    s.instances[i].until.Some? && s.now < s.instances[i].until.value
  }

  // ---------------------------------------------------------------- EXPIRE in time: the key is the lease

  /** The EXPIRE, if it runs at all, lands within the lease its instance last obtained. */
  predicate ExpireInTime(s: State, a: Action)
  {
    a.Expire? && a.r != NotSent && Enabled(s, a) ==> InLease(s, a.i)
  }

  predicate ExpiresInTime(s: State, acts: seq<Action>)
    decreases |acts|
  {
    acts == [] || (ExpiresInTime(s, acts[..|acts| - 1]) && ExpireInTime(Exec(s, acts[..|acts| - 1]), acts[|acts| - 1]))
  }

  /** Owning the unexpired key and being within one's own lease are the same thing. */
  predicate KeyIsLease(s: State)
  {
    && (forall i <- s.instances :: s.instances[i].lease > 0)
    && (forall i <- s.instances :: InLease(s, i) <==> Owner(s) == Some(i))
    && (Owner(s).Some? ==> Owner(s).value in s.instances && s.key.value.expiry == s.instances[Owner(s).value].until.value)
  }

  lemma KeyIsLeaseSetNX(s: State, i: InstanceId, r: Reply)
    requires KeyIsLease(s)
    ensures KeyIsLease(Step(s, SetNX(i, r)))
  {
  }

  lemma KeyIsLeaseExpire(s: State, i: InstanceId, r: Reply)
    requires KeyIsLease(s) && ExpireInTime(s, Expire(i, r))
    ensures KeyIsLease(Step(s, Expire(i, r)))
  {
  }

  lemma KeyIsLeaseStop(s: State, i: InstanceId, r: Reply)
    requires KeyIsLease(s)
    ensures KeyIsLease(Step(s, Stop(i, r)))
  {
  }

  lemma KeyIsLeaseOther(s: State, a: Action)
    requires KeyIsLease(s) && !a.SetNX? && !a.Expire? && !a.Stop?
    ensures KeyIsLease(Step(s, a))
  {
  }

  lemma KeyIsLeaseStep(s: State, a: Action)
    requires KeyIsLease(s) && ExpireInTime(s, a)
    ensures KeyIsLease(Step(s, a))
  {
    hide KeyIsLease, ExpireInTime, Step;
    match a {
      case SetNX(i, r) => KeyIsLeaseSetNX(s, i, r);
      case Expire(i, r) => KeyIsLeaseExpire(s, i, r);
      case Stop(i, r) => KeyIsLeaseStop(s, i, r);
      case _ => KeyIsLeaseOther(s, a);
    }
  }

  lemma {:induction false} KeyIsLeaseRun(s: State, acts: seq<Action>)
    requires Starting(s) && ExpiresInTime(s, acts)
    ensures KeyIsLease(Exec(s, acts))
    decreases |acts|
  {
    if acts != [] {
      hide KeyIsLease;
      KeyIsLeaseRun(s, acts[..|acts| - 1]);
      KeyIsLeaseStep(Exec(s, acts[..|acts| - 1]), acts[|acts| - 1]);
    }
  }

  /** In every run whose EXPIREs land in time, a leader owns the key exactly while its lease lasts. */
  lemma LeaderOwnsKeyIffInLease(s: State, acts: seq<Action>, i: InstanceId)
    requires Starting(s) && ExpiresInTime(s, acts) && i in Exec(s, acts).instances
    ensures Owner(Exec(s, acts)) == Some(i) <==> InLease(Exec(s, acts), i)
  {
    hide ExpiresInTime;
    KeyIsLeaseRun(s, acts);
  }

  // ---------------------------------------------------------------- claimants own the key, and exactly when

  predicate Leads(s: State, i: InstanceId) { Running(s, i) && s.instances[i].isLeader }

  /** Leading, or about to be told so. */
  predicate Claims(s: State, i: InstanceId) { Leads(s, i) || (Running(s, i) && s.instances[i].attempt == Concluding(true)) }

  /** Every claimant owns the unexpired key, so there is at most one. */
  predicate ClaimsOwned(s: State)
  {
    forall i <- s.instances :: Claims(s, i) ==> Owner(s) == Some(i)
  }

  predicate ClaimsOwnedThroughout(s: State, acts: seq<Action>)
    decreases |acts|
  {
    ClaimsOwned(Exec(s, acts)) && (acts == [] || ClaimsOwnedThroughout(s, acts[..|acts| - 1]))
  }

  /** An answered EXPIRE finds its sender's own live key, and time does not pass the expiry of the key while someone claims. */
  predicate Respects(s: State, a: Action)
  {
    && (a.Expire? && a.r == Answered && Enabled(s, a) ==> Owner(s) == Some(a.i))
    && (a.Advance? && Enabled(s, a) ==>
          forall i <- s.instances :: Claims(s, i) ==> s.key.Some? && s.now + a.dt < s.key.value.expiry)
  }

  predicate RespectsThroughout(s: State, acts: seq<Action>)
    decreases |acts|
  {
    acts == [] || (RespectsThroughout(s, acts[..|acts| - 1]) && Respects(Exec(s, acts[..|acts| - 1]), acts[|acts| - 1]))
  }

  predicate LeasesPositive(s: State)
  {
    forall i <- s.instances :: s.instances[i].lease > 0
  }

  lemma {:induction false} LeasesStayPositive(s: State, acts: seq<Action>)
    requires Starting(s)
    ensures LeasesPositive(Exec(s, acts))
    decreases |acts|
  {
    if acts != [] {
      LeasesStayPositive(s, acts[..|acts| - 1]);
    }
  }

  lemma RespectSetNX(s: State, i: InstanceId, r: Reply)
    requires ClaimsOwned(s) && LeasesPositive(s)
    ensures ClaimsOwned(Step(s, SetNX(i, r)))
  {
  }

  lemma RespectExpire(s: State, i: InstanceId, r: Reply)
    requires ClaimsOwned(s) && LeasesPositive(s)
    ensures ClaimsOwned(Step(s, Expire(i, r))) <==> Respects(s, Expire(i, r))
  {
    var t := Step(s, Expire(i, r));
    if Enabled(s, Expire(i, r)) && r == Answered {
      assert i in t.instances && Claims(t, i);
    }
  }

  lemma RespectAdvance(s: State, dt: int)
    requires ClaimsOwned(s)
    ensures ClaimsOwned(Step(s, Advance(dt))) <==> Respects(s, Advance(dt))
  {
    var t := Step(s, Advance(dt));
    assert forall i <- s.instances :: Claims(t, i) <==> Claims(s, i);
  }

  lemma RespectOther(s: State, a: Action)
    requires ClaimsOwned(s) && !a.SetNX? && !a.Expire? && !a.Advance?
    ensures ClaimsOwned(Step(s, a))
  {
  }

  /** One action keeps the key with its claimant exactly if it respects it. */
  lemma RespectStep(s: State, a: Action)
    requires ClaimsOwned(s) && LeasesPositive(s)
    ensures ClaimsOwned(Step(s, a)) <==> Respects(s, a)
  {
    hide ClaimsOwned, Step, LeasesPositive, Claims, Enabled;
    match a {
      case Advance(dt) => RespectAdvance(s, dt);
      case SetNX(i, r) => RespectSetNX(s, i, r);
      case Expire(i, r) => RespectExpire(s, i, r);
      case _ => RespectOther(s, a);
    }
  }

  /** In every run, whatever its timing: at every moment each claimant owns the unexpired key, if and only if every
      answered EXPIRE finds its sender's own live key and time never passes the expiry of a claimant's key. */
  lemma {:induction false} ClaimantsOwnIff(s: State, acts: seq<Action>)
    requires Starting(s)
    ensures ClaimsOwnedThroughout(s, acts) <==> RespectsThroughout(s, acts)
    decreases |acts|
  {
    hide Starting, Step, ClaimsOwned, Respects;
    if acts == [] {
      NobodyClaims(s);
    } else {
      var before := acts[..|acts| - 1];
      ClaimantsOwnIff(s, before);
      LeasesStayPositive(s, before);
      if ClaimsOwnedThroughout(s, before) {
        RespectStep(Exec(s, before), acts[|acts| - 1]);
      }
    }
  }

  lemma NobodyClaims(s: State)
    requires Starting(s)
    ensures ClaimsOwned(s)
  {
  }

  /** While claimants own the key, no two running instances lead, and the leader owns the unexpired key. */
  lemma OwnedLeaderIsUnique(s: State, acts: seq<Action>, i: InstanceId, j: InstanceId)
    requires ClaimsOwnedThroughout(s, acts) && Leads(Exec(s, acts), i)
    ensures Owner(Exec(s, acts)) == Some(i)
    ensures Leads(Exec(s, acts), j) ==> i == j
  {
    var t := Exec(s, acts);
    assert ClaimsOwned(t) && Claims(t, i);
    if Leads(t, j) {
      assert Claims(t, j);
    }
  }

  // ---------------------------------------------------------------- leaders own the key, and exactly when

  predicate LeadersOwn(s: State)
  {
    forall i <- s.instances :: Leads(s, i) ==> Owner(s) == Some(i)
  }

  predicate LeadersOwnThroughout(s: State, acts: seq<Action>)
    decreases |acts|
  {
    LeadersOwn(Exec(s, acts)) && (acts == [] || LeadersOwnThroughout(s, acts[..|acts| - 1]))
  }

  /** An attempt that concludes with success is still in possession, and time does not pass the expiry under a leader. */
  predicate RespectsLeader(s: State, a: Action)
  {
    && (a.Conclude? && Enabled(s, a) && s.instances[a.i].attempt.acquired ==> Owner(s) == Some(a.i))
    && (a.Advance? && Enabled(s, a) ==>
          forall i <- s.instances :: Leads(s, i) ==> s.key.Some? && s.now + a.dt < s.key.value.expiry)
  }

  predicate RespectsLeaderThroughout(s: State, acts: seq<Action>)
    decreases |acts|
  {
    acts == [] ||
    (RespectsLeaderThroughout(s, acts[..|acts| - 1]) && RespectsLeader(Exec(s, acts[..|acts| - 1]), acts[|acts| - 1]))
  }

  lemma LeaderConclude(s: State, i: InstanceId)
    requires LeadersOwn(s)
    ensures LeadersOwn(Step(s, Conclude(i))) <==> RespectsLeader(s, Conclude(i))
  {
    if Enabled(s, Conclude(i)) {
      var t := Step(s, Conclude(i));
      assert i in t.instances && (Leads(t, i) <==> s.instances[i].attempt.acquired);
    }
  }

  lemma LeaderAdvance(s: State, dt: int)
    requires LeadersOwn(s)
    ensures LeadersOwn(Step(s, Advance(dt))) <==> RespectsLeader(s, Advance(dt))
  {
    var t := Step(s, Advance(dt));
    assert forall i <- s.instances :: Leads(t, i) <==> Leads(s, i);
  }

  lemma LeaderSetNX(s: State, i: InstanceId, r: Reply)
    requires LeadersOwn(s) && LeasesPositive(s)
    ensures LeadersOwn(Step(s, SetNX(i, r)))
  {
  }

  lemma LeaderExpire(s: State, i: InstanceId, r: Reply)
    requires LeadersOwn(s) && LeasesPositive(s)
    ensures LeadersOwn(Step(s, Expire(i, r)))
  {
  }

  lemma LeaderOther(s: State, a: Action)
    requires LeadersOwn(s) && (a.Get? || a.Stop?)
    ensures LeadersOwn(Step(s, a))
  {
  }

  lemma LeaderStep(s: State, a: Action)
    requires LeadersOwn(s) && LeasesPositive(s)
    ensures LeadersOwn(Step(s, a)) <==> RespectsLeader(s, a)
  {
    hide LeadersOwn, Step, LeasesPositive, Leads, Enabled;
    match a {
      case Advance(dt) => LeaderAdvance(s, dt);
      case SetNX(i, r) => LeaderSetNX(s, i, r);
      case Expire(i, r) => LeaderExpire(s, i, r);
      case Conclude(i) => LeaderConclude(s, i);
      case _ => LeaderOther(s, a);
    }
  }

  /** In every run: at every moment whoever leads owns the unexpired key, if and only if each attempt that concludes with
      success still owns it then and time never passes the expiry of a leader's key. */
  lemma {:induction false} LeadersOwnIff(s: State, acts: seq<Action>)
    requires Starting(s)
    ensures LeadersOwnThroughout(s, acts) <==> RespectsLeaderThroughout(s, acts)
    decreases |acts|
  {
    hide Starting, Step, LeadersOwn, RespectsLeader;
    if acts == [] {
      NobodyLeads(s);
    } else {
      var before := acts[..|acts| - 1];
      LeadersOwnIff(s, before);
      LeasesStayPositive(s, before);
      if LeadersOwnThroughout(s, before) {
        LeaderStep(Exec(s, before), acts[|acts| - 1]);
      }
    }
  }

  lemma NobodyLeads(s: State)
    requires Starting(s)
    ensures LeadersOwn(s)
  {
  }

  // ---------------------------------------------------------------- in terms of leases

  /** Time does not run past the lease of a claimant: its attempt concludes before that. */
  predicate ConcludesInTime(s: State, a: Action)
  {
    a.Advance? ==> forall i <- s.instances :: Claims(s, i) && InLease(s, i) ==> InLease(Step(s, a), i)
  }

  predicate ConcludeInTime(s: State, acts: seq<Action>)
    decreases |acts|
  {
    acts == [] ||
    (ConcludeInTime(s, acts[..|acts| - 1]) && ConcludesInTime(Exec(s, acts[..|acts| - 1]), acts[|acts| - 1]))
  }

  predicate Timely(s: State, acts: seq<Action>) { ExpiresInTime(s, acts) && ConcludeInTime(s, acts) }

  /** With EXPIRE in time, respecting a claimant's key and concluding within the lease are the same thing. */
  lemma TimelyStep(s: State, a: Action)
    requires KeyIsLease(s) && ClaimsOwned(s) && ExpireInTime(s, a)
    ensures Respects(s, a) <==> ConcludesInTime(s, a)
  {
  }

  /** If every EXPIRE lands within its instance's lease: claimants own the key at every moment if and only if time never
      runs past a claimant's lease. */
  lemma {:induction false} TimelyIff(s: State, acts: seq<Action>)
    requires Starting(s) && ExpiresInTime(s, acts)
    ensures ClaimsOwnedThroughout(s, acts) <==> ConcludeInTime(s, acts)
    decreases |acts|
  {
    hide Starting, Step, ClaimsOwned, Respects, ConcludesInTime, ExpireInTime, KeyIsLease;
    if acts == [] {
      NobodyClaims(s);
    } else {
      var before := acts[..|acts| - 1];
      TimelyIff(s, before);
      KeyIsLeaseRun(s, before);
      LeasesStayPositive(s, before);
      if ClaimsOwnedThroughout(s, before) {
        RespectStep(Exec(s, before), acts[|acts| - 1]);
        TimelyStep(Exec(s, before), acts[|acts| - 1]);
      }
    }
  }

  /** In every timely run, whoever leads owns the unexpired key, so no two running instances lead. */
  lemma MutualExclusion(s: State, acts: seq<Action>, i: InstanceId, j: InstanceId)
    requires Starting(s) && Timely(s, acts) && Leads(Exec(s, acts), i)
    ensures Owner(Exec(s, acts)) == Some(i)
    ensures Leads(Exec(s, acts), j) ==> i == j
  {
    hide Starting, Exec, ExpiresInTime, ConcludeInTime, ClaimsOwnedThroughout, Leads;
    TimelyIff(s, acts);
    OwnedLeaderIsUnique(s, acts, i, j);
  }

  // ---------------------------------------------------------------- what each timing assumption is for

  /** One more action at the end of a schedule. */
  lemma Then(s: State, acts: seq<Action>, t: State, a: Action) returns (more: seq<Action>)
    requires Exec(s, acts) == t
    ensures more == acts + [a] && Exec(s, more) == Step(t, a)
    ensures ExpiresInTime(s, more) <==> ExpiresInTime(s, acts) && ExpireInTime(t, a)
    ensures ConcludeInTime(s, more) <==> ConcludeInTime(s, acts) && ConcludesInTime(t, a)
  {
    more := acts + [a];
    assert more[..|acts|] == acts;
  }

  function Pair(now: int, key: Option<Key>, a: Instance, b: Instance): State
  {
    State(now, key, map[0 := a, 1 := b])
  }

  const FRESH := Instance(15, false, false, Idle, None)

  /** An instance takes the free key and leads. */
  lemma TakesLead(s: State, i: InstanceId) returns (t: State)
    requires Running(s, i) && s.instances[i].attempt == Idle && Owner(s) == None
    ensures t == Step(Step(s, SetNX(i, Answered)), Conclude(i))
    ensures t == Put(s, i, s.instances[i].(isLeader := true, until := Some(s.now + s.instances[i].lease)))
                 .(key := Some(Key(i, s.now + s.instances[i].lease)))
  {
    var x := s.instances[i];
    var mid := Put(s, i, x.(attempt := Concluding(true), until := Some(s.now + x.lease))).(key := Some(Key(i, s.now + x.lease)));
    assert Step(s, SetNX(i, Answered)) == mid;
    t := Step(mid, Conclude(i));
    assert t.instances == s.instances[i := x.(isLeader := true, until := Some(s.now + x.lease))];
  }

  /** A leader that makes no attempt for longer than its lease keeps believing it leads: two instances lead
      although no EXPIRE is ever late. */
  lemma StalledLeader()
    ensures var s := Pair(0, None, FRESH, FRESH);
            Starting(s) && exists acts :: ExpiresInTime(s, acts) && Leads(Exec(s, acts), 0) && Leads(Exec(s, acts), 1)
  {
    var s := Pair(0, None, FRESH, FRESH);
    var acts: seq<Action> := [];
    var t := TakesLead(s, 0);
    acts := Then(s, acts, s, SetNX(0, Answered));
    acts := Then(s, acts, Step(s, SetNX(0, Answered)), Conclude(0));
    acts := Then(s, acts, t, Advance(20));
    var u := t.(now := 20);
    assert Step(t, Advance(20)) == u;
    var v := TakesLead(u, 1);
    acts := Then(s, acts, u, SetNX(1, Answered));
    acts := Then(s, acts, Step(u, SetNX(1, Answered)), Conclude(1));
    hide Exec;
    hide ExpiresInTime;
    hide Step;
    assert Leads(v, 0) && Leads(v, 1);
  }

  /** An instance that owns the key without knowing it (its SETNX reply was lost) starts to renew. */
  lemma StartsRenewal(s: State, i: InstanceId) returns (t: State)
    requires Running(s, i) && s.instances[i].attempt == Idle && Owner(s) == Some(i)
    ensures t == Step(Step(s, SetNX(i, Answered)), Get(i, Answered))
    ensures t == Put(s, i, s.instances[i].(attempt := BeforeExpire))
  {
    var mid := Put(s, i, s.instances[i].(attempt := BeforeGet));
    assert Step(s, SetNX(i, Answered)) == mid;
    t := Step(mid, Get(i, Answered));
    assert t.instances == s.instances[i := s.instances[i].(attempt := BeforeExpire)];
  }

  lemma LosesReply(s: State, i: InstanceId) returns (t: State)
    requires Running(s, i) && s.instances[i].attempt == Idle && Owner(s) == None
    ensures t == Step(Step(s, SetNX(i, ReplyLost)), Conclude(i))
    ensures t == Put(s, i, s.instances[i].(isLeader := false, until := Some(s.now + s.instances[i].lease)))
                 .(key := Some(Key(i, s.now + s.instances[i].lease)))
  {
    var x := s.instances[i];
    var mid := Put(s, i, x.(attempt := Concluding(false), until := Some(s.now + x.lease))).(key := Some(Key(i, s.now + x.lease)));
    assert Step(s, SetNX(i, ReplyLost)) == mid;
    t := Step(mid, Conclude(i));
    assert t.instances == s.instances[i := x.(isLeader := false, until := Some(s.now + x.lease))];
  }

  /** EXPIRE succeeds on someone else's key and its sender then leads. */
  lemma RenewsForeignKey(s: State, i: InstanceId, j: InstanceId) returns (t: State)
    requires i != j && Running(s, i) && s.instances[i].attempt == BeforeExpire && Leads(s, j) && Owner(s) == Some(j)
    ensures t == Step(Step(s, Expire(i, Answered)), Conclude(i))
    ensures Leads(t, i) && Leads(t, j)
  {
    var mid := Step(s, Expire(i, Answered));
    assert mid.instances == s.instances[i := s.instances[i].(attempt := Concluding(true))];
    t := Step(mid, Conclude(i));
  }

  /** An EXPIRE that lands after its instance's lease makes two leaders although every claimant's attempt
      concludes in time. */
  lemma LateExpire()
    ensures var s := Pair(0, None, FRESH, FRESH);
            Starting(s) && exists acts :: ConcludeInTime(s, acts) && Leads(Exec(s, acts), 0) && Leads(Exec(s, acts), 1)
  {
    var s := Pair(0, None, FRESH, FRESH);
    var acts: seq<Action> := [];
    var t := LosesReply(s, 0);
    acts := Then(s, acts, s, SetNX(0, ReplyLost));
    acts := Then(s, acts, Step(s, SetNX(0, ReplyLost)), Conclude(0));
    acts := Then(s, acts, t, Advance(14));
    var u := t.(now := 14);
    assert Step(t, Advance(14)) == u && ConcludesInTime(t, Advance(14));
    var v := StartsRenewal(u, 0);
    acts := Then(s, acts, u, SetNX(0, Answered));
    acts := Then(s, acts, Step(u, SetNX(0, Answered)), Get(0, Answered));
    acts := Then(s, acts, v, Advance(2));
    LateExpireEnds(s, acts, v.(now := 16));
  }

  lemma LateExpireEnds(s: State, acts: seq<Action>, v: State)
    requires Exec(s, acts) == v && ConcludeInTime(s, acts)
    requires Running(v, 0) && v.instances[0].attempt == BeforeExpire && Running(v, 1) && v.instances[1].attempt == Idle
    requires Owner(v) == None && v.instances[1].lease > 0
    ensures exists more :: ConcludeInTime(s, more) && Leads(Exec(s, more), 0) && Leads(Exec(s, more), 1)
  {
    var w := TakesLead(v, 1);
    var more := Then(s, acts, v, SetNX(1, Answered));
    more := Then(s, more, Step(v, SetNX(1, Answered)), Conclude(1));
    var x := RenewsForeignKey(w, 0, 1);
    more := Then(s, more, w, Expire(0, Answered));
    more := Then(s, more, Step(w, Expire(0, Answered)), Conclude(0));
  }

  // ---------------------------------------------------------------- what stopping releases

  /** Stop frees the key exactly if the stopping instance leads, owns the live key and its release runs. Any other key,
      another instance's in particular, is left as it is. */
  lemma StopReleasesIff(s: State, i: InstanceId, r: Reply)
    requires Running(s, i)
    ensures var t := Step(s, Stop(i, r));
            if Leads(s, i) && Owner(s) == Some(i) && r != NotSent then Owner(t) == None
            else t.key == s.key && Owner(t) == Owner(s)
    ensures Step(s, Stop(i, r)).now == s.now && !Running(Step(s, Stop(i, r)), i)
    ensures forall j <- s.instances :: j != i ==> Step(s, Stop(i, r)).instances[j] == s.instances[j]
  {
  }

  /** Right after a leader that owns the key stops, another instance's SETNX wins the key if and only if the release ran. */
  lemma SuccessorWinsIff(s: State, i: InstanceId, r: Reply, j: InstanceId)
    requires Leads(s, i) && Owner(s) == Some(i) && LeasesPositive(s)
    requires i != j && Running(s, j) && s.instances[j].attempt == Idle && !Leads(s, j)
    ensures var t := Step(Step(s, Stop(i, r)), SetNX(j, Answered));
            && t.now == s.now
            && (Claims(t, j) <==> r != NotSent)
            && Owner(t) == Some(if r != NotSent then j else i)
  {
    StopReleasesIff(s, i, r);
    var u := Step(s, Stop(i, r));
    assert Enabled(u, SetNX(j, Answered));
  }

  lemma ExecPush(s: State, acts: seq<Action>, a: Action)
    ensures Exec(s, acts + [a]) == Step(Exec(s, acts), a)
  {
    assert (acts + [a])[..|acts|] == acts;
  }

  /** In every timely run: when the leader stops and its release runs, the next instance to attempt leads at once. No time
      passes, so nobody waits for the old lease to run out. */
  lemma HandOver(s: State, acts: seq<Action>, i: InstanceId, r: Reply, j: InstanceId)
    requires Starting(s) && Timely(s, acts) && Leads(Exec(s, acts), i) && r != NotSent
    requires i != j && Running(Exec(s, acts), j) && Exec(s, acts).instances[j].attempt == Idle
    ensures var t := Exec(s, acts + [Stop(i, r)] + [SetNX(j, Answered)] + [Conclude(j)]);
            Leads(t, j) && Owner(t) == Some(j) && t.now == Exec(s, acts).now
  {
    var was := Exec(s, acts);
    MutualExclusion(s, acts, i, j);
    LeasesStayPositive(s, acts);
    SuccessorWinsIff(was, i, r, j);
    ExecPush(s, acts, Stop(i, r));
    ExecPush(s, acts + [Stop(i, r)], SetNX(j, Answered));
    ExecPush(s, acts + [Stop(i, r)] + [SetNX(j, Answered)], Conclude(j));
    hide Exec, Starting, Timely, LeasesPositive;
    var u := Step(Step(was, Stop(i, r)), SetNX(j, Answered));
    StopReleasesIff(was, i, r);
    assert u.instances[j].attempt == Concluding(true);
  }

  // ---------------------------------------------------------------- what stopped instances report

  /** What IsLeader answers, of a stopped instance too. */
  predicate Reports(s: State, i: InstanceId) { i in s.instances && s.instances[i].isLeader }

  /** Somewhere in the run the instance stopped while it led. */
  predicate StoppedLeading(s: State, acts: seq<Action>, i: InstanceId)
    decreases |acts|
  {
    acts != [] &&
    var before, a := acts[..|acts| - 1], acts[|acts| - 1];
    StoppedLeading(s, before, i) || (a.Stop? && a.i == i && Leads(Exec(s, before), i))
  }

  /** A stopped instance is out of reach, and Stop itself leaves the flag as it is. */
  lemma StoppedStep(s: State, a: Action, i: InstanceId)
    requires i in s.instances
    ensures i in Step(s, a).instances
    ensures s.instances[i].stopped ==> Step(s, a).instances[i] == s.instances[i]
    ensures !s.instances[i].stopped ==>
              && (Step(s, a).instances[i].stopped <==> a.Stop? && a.i == i)
              && (a.Stop? ==> Step(s, a).instances[i].isLeader == s.instances[i].isLeader)
  {
  }

  /** Stop never clears the flag: whatever happens afterwards, a leader that stopped goes on reporting that it leads. */
  lemma {:induction false} StopKeepsFlag(s: State, i: InstanceId, r: Reply, acts: seq<Action>)
    requires Leads(s, i)
    ensures var t := Exec(Step(s, Stop(i, r)), acts); Reports(t, i) && !Leads(t, i)
    ensures Owner(Step(s, Stop(i, r))) == if Owner(s) == Some(i) && r != NotSent then None else Owner(s)
    decreases |acts|
  {
    hide Step;
    StopReleasesIff(s, i, r);
    StoppedStep(s, Stop(i, r), i);
    if acts != [] {
      var before := acts[..|acts| - 1];
      StopKeepsFlag(s, i, r, before);
      StoppedStep(Exec(Step(s, Stop(i, r)), before), acts[|acts| - 1], i);
    }
  }

  /** Who reports leadership: the running leader, and everyone who stopped while leading. */
  lemma {:induction false} ReportsIff(s: State, acts: seq<Action>, i: InstanceId)
    requires Starting(s) && i in s.instances
    ensures var t := Exec(s, acts);
            && i in t.instances
            && (StoppedLeading(s, acts, i) <==> t.instances[i].stopped && t.instances[i].isLeader)
    decreases |acts|
  {
    hide Step;
    if acts != [] {
      ReportsIff(s, acts[..|acts| - 1], i);
      StoppedStep(Exec(s, acts[..|acts| - 1]), acts[|acts| - 1], i);
    }
  }

  lemma {:induction false} SameInstances(s: State, acts: seq<Action>)
    ensures Exec(s, acts).instances.Keys == s.instances.Keys
    decreases |acts|
  {
    if acts != [] {
      SameInstances(s, acts[..|acts| - 1]);
    }
  }

  predicate OneReporter(s: State)
  {
    forall i <- s.instances, j <- s.instances :: Reports(s, i) && Reports(s, j) ==> i == j
  }

  /** No instance that stopped while leading has a successor: another that leads now, or that stopped while leading. */
  predicate NoSuccessor(s: State, acts: seq<Action>)
  {
    forall i <- s.instances, j <- s.instances :: StoppedLeading(s, acts, i) && HasLed(s, acts, j) ==> i == j
  }

  predicate HasLed(s: State, acts: seq<Action>, j: InstanceId)
  {
    Leads(Exec(s, acts), j) || StoppedLeading(s, acts, j)
  }

  /** After a run in which claimants own the key, at most one instance reports leadership, stopped ones included, if and
      only if no instance that stopped while leading has a successor. */
  lemma OneReporterIff(s: State, acts: seq<Action>)
    requires Starting(s) && ClaimsOwnedThroughout(s, acts)
    ensures OneReporter(Exec(s, acts)) <==> NoSuccessor(s, acts)
  {
    hide ClaimsOwnedThroughout, Starting, Exec, StoppedLeading, Reports, Leads;
    var t := Exec(s, acts);
    SameInstances(s, acts);
    forall i <- s.instances ensures Reports(t, i) <==> HasLed(s, acts, i) {
      WhoReports(s, acts, i);
    }
    forall i, j | Leads(t, i) && Leads(t, j) ensures i == j {
      OwnedLeaderIsUnique(s, acts, i, j);
    }
  }

  lemma WhoReports(s: State, acts: seq<Action>, i: InstanceId)
    requires Starting(s)
    ensures Reports(Exec(s, acts), i) <==> Leads(Exec(s, acts), i) || StoppedLeading(s, acts, i)
  {
    hide Starting, Exec, StoppedLeading;
    SameInstances(s, acts);
    if i in s.instances {
      ReportsIff(s, acts, i);
    } else {
      OnlyInstancesStop(s, acts, i);
    }
  }

  lemma {:induction false} OnlyInstancesStop(s: State, acts: seq<Action>, i: InstanceId)
    requires i !in s.instances
    ensures !StoppedLeading(s, acts, i)
    decreases |acts|
  {
    if acts != [] {
      OnlyInstancesStop(s, acts[..|acts| - 1], i);
      SameInstances(s, acts[..|acts| - 1]);
    }
  }

  /** A timely run with two reporters: one leads, stops and releases the key, and another takes it. */
  lemma TwoReport()
    ensures var s := Pair(0, None, FRESH, FRESH);
            Starting(s) && exists acts :: Timely(s, acts) && Reports(Exec(s, acts), 0) && Reports(Exec(s, acts), 1)
  {
    var s := Pair(0, None, FRESH, FRESH);
    var acts: seq<Action> := [];
    var t := TakesLead(s, 0);
    acts := Then(s, acts, s, SetNX(0, Answered));
    acts := Then(s, acts, Step(s, SetNX(0, Answered)), Conclude(0));
    acts := Then(s, acts, t, Stop(0, Answered));
    var u := Step(t, Stop(0, Answered));
    assert Running(u, 1) && u.instances[1] == FRESH && Owner(u) == None;
    var v := TakesLead(u, 1);
    acts := Then(s, acts, u, SetNX(1, Answered));
    acts := Then(s, acts, Step(u, SetNX(1, Answered)), Conclude(1));
    hide Exec;
    hide ExpiresInTime;
    hide ConcludeInTime;
    hide Step;
    assert Reports(v, 0) && Reports(v, 1);
  }
}
