/** The bounded worker pool of the Fivetran client's `AddUserToTeam` and
    `RemoveUserFromTeam`, as a system of interleaved steps: the calling goroutine
    and one goroutine per user share a semaphore channel, a WaitGroup and a
    buffered error channel. */
module WorkerPool {
  import opened Common
  import Backends
  import Sync

  const MAX_CONCURRENT_USERS := 10

  datatype Operation = Add | Remove

  /** How the API answers one call: done, refused, or done with the answer lost. */
  datatype Call = Accepted | Rejected | LostReply

  /** One invocation: `calls[i]` is how the API answers the call for `ids[i]`, except that a
      strict API refuses every call that would change nothing. */
  datatype Job = Job(op: Operation, ids: seq<string>, calls: seq<Call>, team: set<string>, strict: bool)

  predicate ValidJob(j: Job) {
    |j.calls| == |j.ids|
  }

  /** A worker: before its call, before its send on `errch`, before its deferred
      receive from `sem`, before its deferred `wg.Done`, finished. */
  datatype Worker = Calling | Sending | Releasing | Signalling | Gone

  /** The caller: before `wg.Add` or `wg.Wait`, before the send on `sem`, before
      the `go` statement, reading the closed error channel, finished. */
  datatype Caller = Register | Acquire | Launch | Draining | Returned

  datatype State = State(
    pc: Caller,
    workers: seq<Worker>,  // one per started goroutine
    wg: int,               // WaitGroup counter
    sem: int,              // tokens in the semaphore channel
    errch: seq<nat>,       // buffered errors, by worker index
    closed: bool,          // errch is closed
    errors: seq<nat>,      // allErrors
    fates: seq<Call>,      // how the calls made so far were answered, by worker index
    team: set<string>)

  datatype Action = Main | Work(i: nat)

  function Start(j: Job): State {
    State(Register, [], 0, 0, [], false, [], [], j.team)
  }

  /** The Go runtime can take this step: it neither blocks nor panics. */
  predicate Enabled(j: Job, s: State, a: Action) {
    match a
    case Main =>
      (match s.pc
       case Register => |s.workers| < |j.ids| || s.wg == 0
       case Acquire => s.sem < MAX_CONCURRENT_USERS
       case Launch => true
       case Draining => true
       case Returned => false)
    case Work(i) =>
      i < |s.workers| &&
      (match s.workers[i]
       case Calling => i < |j.ids| && i < |j.calls| && i < |s.fates|
       case Sending => !s.closed && |s.errch| < |j.ids|
       case Releasing => s.sem > 0
       case Signalling => s.wg > 0
       case Gone => false)
  }

  function ApplyCall(op: Operation, team: set<string>, id: string): set<string> {
    match op
    case Add => team + {id}
    case Remove => team - {id}
  }

  /** The call changes the team. */
  predicate HasEffect(op: Operation, team: set<string>, id: string) {
    match op
    case Add => id !in team
    case Remove => id in team
  }

  /** The answer to the call for `ids[i]` when the team is as it is. */
  function Fate(j: Job, team: set<string>, i: nat): Call
    requires i < |j.ids| && i < |j.calls|
  {
    if j.strict && !HasEffect(j.op, team, j.ids[i]) then Rejected else j.calls[i]
  }

  function Step(j: Job, s: State, a: Action): State
    requires Enabled(j, s, a)
  {
    match a
    case Main =>
      (match s.pc
       case Register =>
         if |s.workers| < |j.ids| then s.(wg := s.wg + 1, pc := Acquire)
         else s.(closed := true, pc := Draining)
       case Acquire => s.(sem := s.sem + 1, pc := Launch)
       case Launch => s.(workers := s.workers + [Calling], fates := s.fates + [Rejected], pc := Register)
       case Draining =>
         if s.errch != [] then s.(errors := s.errors + [s.errch[0]], errch := s.errch[1..])
         else s.(pc := Returned))
    case Work(i) =>
      (match s.workers[i]
       case Calling =>
         var fate := Fate(j, s.team, i);
         s.(team := if fate.Rejected? then s.team else ApplyCall(j.op, s.team, j.ids[i]),
            fates := s.fates[i := fate],
            workers := s.workers[i := if fate.Accepted? then Releasing else Sending])
       case Sending => s.(errch := s.errch + [i], workers := s.workers[i := Releasing])
       case Releasing => s.(sem := s.sem - 1, workers := s.workers[i := Signalling])
       case Signalling => s.(wg := s.wg - 1, workers := s.workers[i := Gone]))
  }

  predicate Legal(j: Job, s: State, run: seq<Action>)
    decreases run
  {
    run == [] || (Enabled(j, s, run[0]) && Legal(j, Step(j, s, run[0]), run[1..]))
  }

  function Exec(j: Job, s: State, run: seq<Action>): State
    requires Legal(j, s, run)
    decreases run
  {
    if run == [] then s else Exec(j, Step(j, s, run[0]), run[1..])
  }

  // ---------------------------------------------------------------- specification

  /** Workers that hold a semaphore token. */
  function InFlight(ws: seq<Worker>): set<nat> {
    set i | 0 <= i < |ws| && (ws[i].Calling? || ws[i].Sending? || ws[i].Releasing?)
  }

  /** Workers that have not signalled the WaitGroup. */
  function Unfinished(ws: seq<Worker>): set<nat> {
    set i | 0 <= i < |ws| && !ws[i].Gone?
  }

  /** Workers whose call failed and whose error has been sent. */
  function Reported(fates: seq<Call>, ws: seq<Worker>): set<nat>
    requires |fates| == |ws|
  {
    set i | 0 <= i < |ws| && !ws[i].Calling? && !ws[i].Sending? && !fates[i].Accepted?
  }

  /** The calls that were not accepted. */
  function Failed(fates: seq<Call>): set<nat> {
    set i | 0 <= i < |fates| && !fates[i].Accepted?
  }

  /** The call of worker `i` has been made and took effect. */
  predicate TookEffect(fates: seq<Call>, ws: seq<Worker>, i: int)
    requires |fates| == |ws|
  {
    0 <= i < |ws| && !ws[i].Calling? && !fates[i].Rejected?
  }

  /** The users whose calls have taken effect. */
  function Affected(ids: seq<string>, fates: seq<Call>, ws: seq<Worker>): set<string>
    requires |fates| == |ws| <= |ids|
  {
    set i | 0 <= i < |ws| && TookEffect(fates, ws, i) :: ids[i]
  }

  function TeamAfter(op: Operation, team: set<string>, users: set<string>): set<string> {
    match op
    case Add => team + users
    case Remove => team - users
  }

  /** The users whose calls were to take effect. */
  function Planned(j: Job): set<string>
    requires ValidJob(j)
  {
    set i | 0 <= i < |j.calls| && !j.calls[i].Rejected? :: j.ids[i]
  }

  /** The membership the job has to end with, whatever the schedule. */
  function FinalTeam(j: Job): set<string>
    requires ValidJob(j)
  {
    TeamAfter(j.op, j.team, Planned(j))
  }

  /** Each answer given is the planned one, or the refusal of a call without effect. */
  ghost predicate FatesExplained(j: Job, s: State)
    requires |s.fates| == |s.workers| <= |j.ids| == |j.calls|
  {
    forall i :: 0 <= i < |s.workers| && !s.workers[i].Calling? ==>
      s.fates[i] == j.calls[i] || (j.strict && s.fates[i].Rejected? && !HasEffect(j.op, s.team, j.ids[i]))
  }

  /** With a strict API each user is affected once, and only if there was something to do. */
  ghost predicate EffectsOnce(j: Job, s: State)
    requires |s.fates| == |s.workers| <= |j.ids|
  {
    forall i :: TookEffect(s.fates, s.workers, i) ==>
      && HasEffect(j.op, j.team, j.ids[i])
      && forall k :: TookEffect(s.fates, s.workers, k) && k != i ==> j.ids[k] != j.ids[i]
  }

  ghost predicate Inv(j: Job, s: State) {
    && ValidJob(j)
    && |s.workers| <= |j.ids|
    && |s.fates| == |s.workers|
    && (s.pc.Acquire? || s.pc.Launch? ==> |s.workers| < |j.ids|)
    && s.sem == |InFlight(s.workers)| + (if s.pc.Launch? then 1 else 0)
    && s.sem <= MAX_CONCURRENT_USERS
    && s.wg == |Unfinished(s.workers)| + (if s.pc.Acquire? || s.pc.Launch? then 1 else 0)
    && (s.closed <==> s.pc.Draining? || s.pc.Returned?)
    && (s.closed ==> |s.workers| == |j.ids| && s.wg == 0)
    && (!s.closed ==> s.errors == [])
    && (s.pc.Returned? ==> s.errch == [])
    && (forall i :: 0 <= i < |s.workers| && s.workers[i].Sending? ==> !s.fates[i].Accepted?)
    && Distinct(s.errors + s.errch)
    && Elems(s.errors + s.errch) == Reported(s.fates, s.workers)
    && Effects(j, s)
  }

  /** The part of the invariant about the team. */
  ghost predicate Effects(j: Job, s: State)
    requires |s.fates| == |s.workers| <= |j.ids| == |j.calls|
  {
    && s.team == TeamAfter(j.op, j.team, Affected(j.ids, s.fates, s.workers))
    && FatesExplained(j, s)
    && (j.strict ==> EffectsOnce(j, s))
  }

  /** Distinct numbers below `n` are at most `n`. */
  lemma {:induction false} Pigeonhole(s: seq<nat>, n: nat)
    requires Distinct(s) && forall i :: 0 <= i < |s| ==> s[i] < n
    ensures |s| <= n
    decreases n
  {
    if s == [] {
    } else if n - 1 in s {
      var k :| 0 <= k < |s| && s[k] == n - 1;
      var rest := s[..k] + s[k + 1..];
      assert forall i :: 0 <= i < |rest| ==> rest[i] == s[if i < k then i else i + 1];
      Pigeonhole(rest, n - 1);
    } else {
      assert s[0] < n;
      Pigeonhole(s, n - 1);
    }
  }

  lemma ErrorsInRange(j: Job, s: State)
    requires Inv(j, s)
    ensures forall k :: 0 <= k < |s.errors + s.errch| ==> (s.errors + s.errch)[k] < |j.ids|
  {
    var all := s.errors + s.errch;
    forall k | 0 <= k < |all|
      ensures all[k] < |j.ids|
    {
      assert all[k] in Elems(all);
      assert all[k] in Reported(s.fates, s.workers);
    }
  }

  lemma SendHasRoom(j: Job, s: State, i: nat)
    requires Inv(j, s) && i < |s.workers| && s.workers[i].Sending?
    ensures !s.closed && |s.errch| < |j.ids|
  {
    assert i in Unfinished(s.workers);
    var all := s.errors + s.errch;
    assert i !in Elems(all);
    ErrorsInRange(j, s);
    Pigeonhole(all + [i], |j.ids|);
  }

  lemma InvInit(j: Job)
    requires ValidJob(j)
    ensures Inv(j, Start(j))
  {
  }

  lemma InvLaunch(j: Job, s: State)
    requires Inv(j, s) && s.pc.Launch?
    ensures Inv(j, Step(j, s, Main))
  {
    var t := Step(j, s, Main);
    assert InFlight(t.workers) == InFlight(s.workers) + {|s.workers|};
    assert Unfinished(t.workers) == Unfinished(s.workers) + {|s.workers|};
    assert Reported(t.fates, t.workers) == Reported(s.fates, s.workers);
    LaunchEffects(j, s, t);
  }

  /** A new worker has not called yet. */
  lemma LaunchEffects(j: Job, s: State, t: State)
    requires |s.fates| == |s.workers| < |j.ids| == |j.calls| && Effects(j, s) && t.team == s.team
    requires t.fates == s.fates + [Rejected] && t.workers == s.workers + [Calling]
    ensures Effects(j, t)
  {
    assert forall i :: TookEffect(t.fates, t.workers, i) <==> TookEffect(s.fates, s.workers, i);
    assert Affected(j.ids, t.fates, t.workers) == Affected(j.ids, s.fates, s.workers);
  }

  lemma InvMain(j: Job, s: State)
    requires Inv(j, s) && Enabled(j, s, Main)
    ensures Inv(j, Step(j, s, Main))
  {
    var t := Step(j, s, Main);
    if s.pc.Launch? {
      InvLaunch(j, s);
    } else if s.pc.Draining? {
      if s.errch != [] {
        assert t.errors + t.errch == s.errors + s.errch;
      }
    }
  }

  /** The call itself: the team changes, or the call is refused. */
  lemma CallingEffects(j: Job, s: State, i: nat)
    requires |s.fates| == |s.workers| <= |j.ids| == |j.calls| && Effects(j, s)
    requires i < |s.workers| && s.workers[i].Calling?
    ensures Effects(j, Step(j, s, Work(i)))
  {
    var t := Step(j, s, Work(i));
    var fate := t.fates[i];
    assert forall k :: k != i ==> (TookEffect(t.fates, t.workers, k) <==> TookEffect(s.fates, s.workers, k));
    AffectedGrows(j, s, i);
    forall k | 0 <= k < |t.workers| && !t.workers[k].Calling? && k != i
      ensures t.fates[k] == j.calls[k] || (j.strict && t.fates[k].Rejected? && !HasEffect(j.op, t.team, j.ids[k]))
    {
      assert !s.workers[k].Calling? && t.fates[k] == s.fates[k];
    }
    if j.strict && !fate.Rejected? {
      assert HasEffect(j.op, s.team, j.ids[i]);
      forall k | TookEffect(s.fates, s.workers, k)
        ensures j.ids[k] != j.ids[i]
      {
        assert j.ids[k] in Affected(j.ids, s.fates, s.workers);
      }
    }
  }

  lemma AffectedGrows(j: Job, s: State, i: nat)
    requires |s.fates| == |s.workers| <= |j.ids| == |j.calls| && i < |s.workers| && s.workers[i].Calling?
    ensures
      var t := Step(j, s, Work(i));
      Affected(j.ids, t.fates, t.workers)
        == Affected(j.ids, s.fates, s.workers) + (if t.fates[i].Rejected? then {} else {j.ids[i]})
  {
    var t := Step(j, s, Work(i));
    assert forall k :: k != i ==> (TookEffect(t.fates, t.workers, k) <==> TookEffect(s.fates, s.workers, k));
    assert !TookEffect(s.fates, s.workers, i) && (TookEffect(t.fates, t.workers, i) <==> !t.fates[i].Rejected?);
    var was, now := Affected(j.ids, s.fates, s.workers), Affected(j.ids, t.fates, t.workers);
    forall x | x in was
      ensures x in now
    {
      var k :| 0 <= k < |s.workers| && TookEffect(s.fates, s.workers, k) && x == j.ids[k];
      assert TookEffect(t.fates, t.workers, k);
    }
    forall x | x in now
      ensures x in was || (x == j.ids[i] && !t.fates[i].Rejected?)
    {
      var k :| 0 <= k < |t.workers| && TookEffect(t.fates, t.workers, k) && x == j.ids[k];
      assert k != i ==> TookEffect(s.fates, s.workers, k);
    }
  }

  lemma InvCalling(j: Job, s: State, i: nat)
    requires Inv(j, s) && Enabled(j, s, Work(i)) && s.workers[i].Calling?
    ensures Inv(j, Step(j, s, Work(i)))
  {
    var t := Step(j, s, Work(i));
    assert i in Unfinished(s.workers);
    assert InFlight(t.workers) == InFlight(s.workers);
    assert Unfinished(t.workers) == Unfinished(s.workers);
    assert Reported(t.fates, t.workers) == Reported(s.fates, s.workers);
    CallingEffects(j, s, i);
  }

  /** A worker past its call takes its next step: the team is not involved. */
  lemma EffectsSame(j: Job, s: State, i: nat, t: State)
    requires |s.fates| == |s.workers| <= |j.ids| == |j.calls| && Effects(j, s)
    requires i < |s.workers| && !s.workers[i].Calling? && t.team == s.team && t.fates == s.fates
    requires |t.workers| == |s.workers| && !t.workers[i].Calling?
    requires forall k :: 0 <= k < |s.workers| && k != i ==> t.workers[k] == s.workers[k]
    ensures Effects(j, t)
  {
    assert forall k :: TookEffect(t.fates, t.workers, k) <==> TookEffect(s.fates, s.workers, k);
    assert Affected(j.ids, t.fates, t.workers) == Affected(j.ids, s.fates, s.workers);
  }

  lemma InvSending(j: Job, s: State, i: nat)
    requires Inv(j, s) && Enabled(j, s, Work(i)) && s.workers[i].Sending?
    ensures Inv(j, Step(j, s, Work(i)))
  {
    var t := Step(j, s, Work(i));
    assert i in Unfinished(s.workers);
    assert InFlight(t.workers) == InFlight(s.workers);
    assert Unfinished(t.workers) == Unfinished(s.workers);
    assert Reported(t.fates, t.workers) == Reported(s.fates, s.workers) + {i};
    assert i !in Elems(s.errors + s.errch);
    assert t.errors + t.errch == (s.errors + s.errch) + [i];
    ElemsConcat(s.errors + s.errch, [i]);
    EffectsSame(j, s, i, t);
  }

  lemma InvReleasing(j: Job, s: State, i: nat)
    requires Inv(j, s) && Enabled(j, s, Work(i)) && s.workers[i].Releasing?
    ensures Inv(j, Step(j, s, Work(i)))
  {
    var t := Step(j, s, Work(i));
    assert InFlight(t.workers) == InFlight(s.workers) - {i};
    assert Unfinished(t.workers) == Unfinished(s.workers);
    assert Reported(t.fates, t.workers) == Reported(s.fates, s.workers);
    EffectsSame(j, s, i, t);
  }

  lemma InvSignalling(j: Job, s: State, i: nat)
    requires Inv(j, s) && Enabled(j, s, Work(i)) && s.workers[i].Signalling?
    ensures Inv(j, Step(j, s, Work(i)))
  {
    var t := Step(j, s, Work(i));
    assert i in Unfinished(s.workers);
    assert InFlight(t.workers) == InFlight(s.workers);
    assert Unfinished(t.workers) == Unfinished(s.workers) - {i};
    assert Reported(t.fates, t.workers) == Reported(s.fates, s.workers);
    EffectsSame(j, s, i, t);
  }

  lemma InvStep(j: Job, s: State, a: Action)
    requires Inv(j, s) && Enabled(j, s, a)
    ensures Inv(j, Step(j, s, a))
  {
    match a
    case Main => InvMain(j, s);
    case Work(i) =>
      match s.workers[i] {
        case Calling => InvCalling(j, s, i);
        case Sending => InvSending(j, s, i);
        case Releasing => InvReleasing(j, s, i);
        case Signalling => InvSignalling(j, s, i);
      }
  }

  // ---------------------------------------------------------------- progress and termination

  /** No worker ever blocks or panics. */
  lemma WorkerCanMove(j: Job, s: State, i: nat)
    requires Inv(j, s) && i < |s.workers| && !s.workers[i].Gone?
    ensures Enabled(j, s, Work(i))
  {
    assert i in Unfinished(s.workers);
    if s.workers[i].Sending? { SendHasRoom(j, s, i); }
    if s.workers[i].Releasing? { assert i in InFlight(s.workers); }
  }

  /** A step that can be taken in any state that has not returned. */
  lemma Progress(j: Job, s: State) returns (a: Action)
    requires Inv(j, s) && !s.pc.Returned?
    ensures Enabled(j, s, a)
  {
    if Enabled(j, s, Main) {
      return Main;
    }
    // The caller waits for the semaphore or for the WaitGroup: some worker can move.
    if s.pc.Acquire? {
      assert |InFlight(s.workers)| == MAX_CONCURRENT_USERS;
      var i :| i in InFlight(s.workers);
      WorkerCanMove(j, s, i);
      return Work(i);
    } else {
      assert |Unfinished(s.workers)| > 0;
      var i :| i in Unfinished(s.workers);
      WorkerCanMove(j, s, i);
      return Work(i);
    }
  }

  function Rank(w: Worker): nat {
    match w
    case Calling => 4
    case Sending => 3
    case Releasing => 2
    case Signalling => 1
    case Gone => 0
  }

  function RankSum(ws: seq<Worker>): nat {
    if ws == [] then 0 else Rank(ws[0]) + RankSum(ws[1..])
  }

  lemma {:induction false} RankUpdate(ws: seq<Worker>, i: nat, w: Worker)
    requires i < |ws|
    ensures RankSum(ws[i := w]) + Rank(ws[i]) == RankSum(ws) + Rank(w)
  {
    if i == 0 {
      assert ws[0 := w][1..] == ws[1..];
    } else {
      assert ws[i := w][1..] == ws[1..][i - 1 := w];
      RankUpdate(ws[1..], i - 1, w);
    }
  }

  lemma {:induction false} RankAppend(ws: seq<Worker>, w: Worker)
    ensures RankSum(ws + [w]) == RankSum(ws) + Rank(w)
  {
    if ws == [] {
      assert RankSum([] + [w]) == Rank(w) + RankSum([w][1..]);
    } else {
      assert (ws + [w])[1..] == ws[1..] + [w];
      RankAppend(ws[1..], w);
    }
  }

  /** An upper bound on the number of steps still to be taken. */
  function StepsLeft(j: Job, s: State): int {
    RankSum(s.workers) +
    match s.pc
    case Register => 7 * (|j.ids| - |s.workers|) + |j.ids| + 2
    case Acquire => 7 * (|j.ids| - |s.workers|) + |j.ids| + 1
    case Launch => 7 * (|j.ids| - |s.workers|) + |j.ids|
    case Draining => |j.ids| - |s.errors| + 1
    case Returned => 0
  }

  lemma ErrorsFit(j: Job, s: State)
    requires Inv(j, s)
    ensures |s.errors| + |s.errch| <= |j.ids|
  {
    ErrorsInRange(j, s);
    Pigeonhole(s.errors + s.errch, |j.ids|);
  }

  lemma StepsLeftBounded(j: Job, s: State)
    requires Inv(j, s)
    ensures 0 <= StepsLeft(j, s)
  {
    ErrorsFit(j, s);
  }

  lemma StepsLeftDecreases(j: Job, s: State, a: Action)
    requires Inv(j, s) && Enabled(j, s, a)
    ensures 0 <= StepsLeft(j, Step(j, s, a)) < StepsLeft(j, s)
  {
    var t := Step(j, s, a);
    assert 0 <= StepsLeft(j, t) by {
      InvStep(j, s, a);
      StepsLeftBounded(j, t);
    }
    ErrorsFit(j, s);
    match a
    case Main =>
      if s.pc.Launch? { RankAppend(s.workers, Calling); }
    case Work(i) =>
      RankUpdate(s.workers, i, t.workers[i]);
  }

  // ---------------------------------------------------------------- whole runs

  lemma {:induction false} RunKeepsInv(j: Job, s: State, run: seq<Action>)
    requires Inv(j, s) && StepsLeft(j, s) >= 0 && Legal(j, s, run)
    ensures Inv(j, Exec(j, s, run))
    ensures |run| + StepsLeft(j, Exec(j, s, run)) <= StepsLeft(j, s)
    ensures StepsLeft(j, Exec(j, s, run)) >= 0
    decreases run
  {
    if run != [] {
      InvStep(j, s, run[0]);
      StepsLeftDecreases(j, s, run[0]);
      RunKeepsInv(j, Step(j, s, run[0]), run[1..]);
    }
  }

  lemma AllGone(j: Job, s: State)
    requires Inv(j, s) && s.closed
    ensures forall i :: 0 <= i < |s.workers| ==> s.workers[i].Gone?
  {
    assert Unfinished(s.workers) == {};
    forall i | 0 <= i < |s.workers|
      ensures s.workers[i].Gone?
    {
      assert i !in Unfinished(s.workers);
    }
  }

  /** Every state of every run: at most ten calls in flight; no worker is ever about
      to send on a full or closed channel, to release a token that is not there or to
      drive the WaitGroup negative; and if the caller has not returned, some step can
      be taken. No run is longer than 8n + 2 steps. */
  lemma PoolIsSafe(j: Job, run: seq<Action>)
    requires ValidJob(j) && Legal(j, Start(j), run)
    ensures |run| <= 8 * |j.ids| + 2
    ensures
      var s := Exec(j, Start(j), run);
      && |InFlight(s.workers)| <= 10
      && (forall i :: 0 <= i < |s.workers| && !s.workers[i].Gone? ==> Enabled(j, s, Work(i)))
      && (s.pc.Returned? <==> forall a :: !Enabled(j, s, a))
  {
    InvInit(j);
    RunKeepsInv(j, Start(j), run);
    var s := Exec(j, Start(j), run);
    forall i | 0 <= i < |s.workers| && !s.workers[i].Gone?
      ensures Enabled(j, s, Work(i))
    {
      WorkerCanMove(j, s, i);
    }
    OnlyReturnedIsStuck(j, s);
  }

  lemma OnlyReturnedIsStuck(j: Job, s: State)
    requires Inv(j, s)
    ensures s.pc.Returned? <==> forall a :: !Enabled(j, s, a)
  {
    if s.pc.Returned? {
      AllGone(j, s);
    } else {
      var a := Progress(j, s);
    }
  }

  /** When the caller returns, the errors it reports are those of exactly the calls that were
      not accepted, once each, and the team's membership is the same for every schedule, also
      if users are listed twice. Unless the API is strict, the answers are the planned ones. */
  lemma PoolResult(j: Job, run: seq<Action>)
    requires ValidJob(j) && Legal(j, Start(j), run) && Exec(j, Start(j), run).pc.Returned?
    ensures
      var s := Exec(j, Start(j), run);
      && |s.fates| == |j.ids|
      && Distinct(s.errors)
      && Elems(s.errors) == Failed(s.fates)
      && (s.errors == [] <==> forall i :: 0 <= i < |s.fates| ==> s.fates[i].Accepted?)
      && (!j.strict ==> s.fates == j.calls)
      && s.team == FinalTeam(j)
  {
    InvInit(j);
    RunKeepsInv(j, Start(j), run);
    var s := Exec(j, Start(j), run);
    assert s.errors + s.errch == s.errors;
    AllGone(j, s);
    assert Reported(s.fates, s.workers) == Failed(s.fates);
    FinalMembership(j, s);
    if s.errors == [] {
      forall i | 0 <= i < |s.fates|
        ensures s.fates[i].Accepted?
      {
        assert i !in Failed(s.fates);
      }
    } else {
      assert s.errors[0] in Failed(s.fates);
    }
  }

  /** A refused call would have changed nothing: the plan decides the membership. */
  lemma FinalMembership(j: Job, s: State)
    requires ValidJob(j) && |s.fates| == |s.workers| == |j.ids| && Effects(j, s)
    requires forall i :: 0 <= i < |s.workers| ==> s.workers[i].Gone?
    ensures s.team == FinalTeam(j)
  {
    var actual := Affected(j.ids, s.fates, s.workers);
    var planned := Planned(j);
    forall x | x in actual
      ensures x in planned
    {
      var i :| 0 <= i < |s.workers| && TookEffect(s.fates, s.workers, i) && x == j.ids[i];
      assert s.fates[i] == j.calls[i];
    }
    forall x | x in planned && x !in actual
      ensures !HasEffect(j.op, s.team, x)
    {
      var i :| 0 <= i < |j.calls| && !j.calls[i].Rejected? && x == j.ids[i];
      assert !TookEffect(s.fates, s.workers, i);
    }
  }

  /** No user is listed twice. */
  ghost predicate NoRepeats(ids: seq<string>) {
    forall i, k :: 0 <= i < k < |ids| ==> ids[i] != ids[k]
  }

  /** A strict API that refused a user listed once had nothing to do for it. */
  lemma RefusedHadNoEffect(j: Job, s: State, i: nat)
    requires ValidJob(j) && j.strict && |s.fates| == |s.workers| == |j.ids| && Effects(j, s) && NoRepeats(j.ids)
    requires forall k :: 0 <= k < |s.workers| ==> s.workers[k].Gone?
    requires i < |j.ids| && j.calls[i].Accepted? && !s.fates[i].Accepted?
    ensures !HasEffect(j.op, j.team, j.ids[i])
  {
    assert s.fates[i].Rejected? && !HasEffect(j.op, s.team, j.ids[i]);
    forall k | TookEffect(s.fates, s.workers, k)
      ensures j.ids[k] != j.ids[i]
    {
      assert k != i;
    }
    assert j.ids[i] !in Affected(j.ids, s.fates, s.workers);
  }

  /** If a strict API accepted every call, no user was listed twice or needed no change. */
  lemma AcceptedHadEffect(j: Job, s: State)
    requires ValidJob(j) && j.strict && |s.fates| == |s.workers| == |j.ids| && Effects(j, s)
    requires forall k :: 0 <= k < |s.workers| ==> s.workers[k].Gone? && s.fates[k].Accepted?
    ensures NoRepeats(j.ids)
    ensures forall i :: 0 <= i < |j.ids| ==> j.calls[i].Accepted? && HasEffect(j.op, j.team, j.ids[i])
  {
    forall i | 0 <= i < |j.ids|
      ensures j.calls[i].Accepted? && TookEffect(s.fates, s.workers, i)
    {
      assert s.fates[i] == j.calls[i];
    }
  }

  /** With a strict API, nil is returned exactly when every call was to be accepted, no user is
      listed twice and every user has something to be changed: in particular a list with a
      repeated user fails in every schedule. */
  lemma StrictPoolResult(j: Job, run: seq<Action>)
    requires ValidJob(j) && j.strict && Legal(j, Start(j), run) && Exec(j, Start(j), run).pc.Returned?
    ensures Exec(j, Start(j), run).errors == [] <==>
      && NoRepeats(j.ids)
      && forall i :: 0 <= i < |j.ids| ==> j.calls[i].Accepted? && HasEffect(j.op, j.team, j.ids[i])
  {
    PoolResult(j, run);
    InvInit(j);
    RunKeepsInv(j, Start(j), run);
    var s := Exec(j, Start(j), run);
    AllGone(j, s);
    if s.errors == [] {
      AcceptedHadEffect(j, s);
    } else if NoRepeats(j.ids) && forall i :: 0 <= i < |j.ids| ==> j.calls[i].Accepted? {
      var i: nat :| i < |s.fates| && !s.fates[i].Accepted?;
      RefusedHadNoEffect(j, s, i);
    }
  }

  lemma CountedTwice(ids: seq<string>, i: nat, k: nat)
    requires i < k < |ids| && ids[i] == ids[k]
    ensures multiset(ids)[ids[i]] >= 2
  {
    assert ids == ids[..k] + ids[k..];
    assert ids[..k][i] in multiset(ids[..k]) && ids[k..][0] in multiset(ids[k..]);
  }

  lemma {:induction false} CountedOnce(ids: seq<string>, x: string)
    requires NoRepeats(ids)
    ensures multiset(ids)[x] <= 1
  {
    if ids != [] {
      assert ids == [ids[0]] + ids[1..];
      CountedOnce(ids[1..], x);
    }
  }

  /** The removals of `processUsers` sent through the pool to a strict API that is otherwise in
      order: they succeed exactly when every present member without LDAP data is a synced ID.
      Any other such member is deleted twice, and one of the two calls fails in every schedule. */
  lemma StrictRemovals(
    j: Job, run: seq<Action>, cache: Cache, users: seq<string>, b: Backend, ldap: map<string, string>)
    requires ValidJob(j) && j.strict && Legal(j, Start(j), run) && Exec(j, Start(j), run).pc.Returned?
    requires forall i :: 0 <= i < |j.calls| ==> j.calls[i].Accepted?
    requires Sync.AllCached(cache, users, b, ldap) && NoRepeats(users)
    requires var r := Sync.ProcessUsers(cache, users, j.team, b, ldap);
             j.op.Remove? && r.Ok? && multiset(j.ids) == multiset(r.value.names) + multiset(r.value.stale)
    ensures Exec(j, Start(j), run).errors == [] <==>
      Sync.Unlisted(users, ldap) * j.team <= Sync.SyncedIds(cache, users, b, ldap)
    ensures Exec(j, Start(j), run).team == j.team - Elems(j.ids)
  {
    StrictPoolResult(j, run);
    PoolResult(j, run);
    assert Planned(j) == Elems(j.ids);
    Sync.DiffExact(cache, users, j.team, b, ldap);
    var synced, unlisted := Sync.SyncedIds(cache, users, b, ldap), Sync.Unlisted(users, ldap);
    forall i | 0 <= i < |j.ids|
      ensures HasEffect(j.op, j.team, j.ids[i])
    {
      assert j.ids[i] in multiset(j.ids);
      Sync.RemovalsRepeat(cache, users, j.team, b, ldap, j.ids[i]);
    }
    if NoRepeats(j.ids) {
      forall x | x in unlisted * j.team
        ensures x in synced
      {
        Sync.RemovalsRepeat(cache, users, j.team, b, ldap, x);
        CountedOnce(j.ids, x);
      }
    } else {
      var i, k :| 0 <= i < k < |j.ids| && j.ids[i] == j.ids[k];
      CountedTwice(j.ids, i, k);
      Sync.RemovalsRepeat(cache, users, j.team, b, ldap, j.ids[i]);
      assert j.ids[i] in unlisted * j.team;
    }
  }

  /** The additions of `processUsers` sent through the pool to a strict API that is otherwise in
      order: they succeed exactly when no two users with LDAP data share an ID that the team
      lacks. Otherwise the ID is added twice, and one of the two calls fails in every schedule. */
  lemma StrictAdds(
    j: Job, run: seq<Action>, cache: Cache, users: seq<string>, b: Backend, ldap: map<string, string>)
    requires ValidJob(j) && j.strict && Legal(j, Start(j), run) && Exec(j, Start(j), run).pc.Returned?
    requires forall i :: 0 <= i < |j.calls| ==> j.calls[i].Accepted?
    requires Sync.AllCached(cache, users, b, ldap) && NoRepeats(users)
    requires var r := Sync.ProcessUsers(cache, users, j.team, b, ldap);
             j.op.Add? && r.Ok? && j.ids == r.value.adds
    ensures Exec(j, Start(j), run).errors == [] <==>
      forall x :: x !in j.team ==> |Sync.Bearers(cache, users, b, ldap, x)| <= 1
    ensures Exec(j, Start(j), run).team == j.team + Elems(j.ids)
  {
    StrictPoolResult(j, run);
    PoolResult(j, run);
    assert Planned(j) == Elems(j.ids);
    forall x
      ensures multiset(j.ids)[x] == if x in j.team then 0 else |Sync.Bearers(cache, users, b, ldap, x)|
    {
      Sync.AddsRepeat(cache, users, j.team, b, ldap, x);
    }
    forall i | 0 <= i < |j.ids|
      ensures HasEffect(j.op, j.team, j.ids[i])
    {
      assert j.ids[i] in multiset(j.ids);
    }
    if NoRepeats(j.ids) {
      forall x | x !in j.team
        ensures |Sync.Bearers(cache, users, b, ldap, x)| <= 1
      {
        CountedOnce(j.ids, x);
      }
    } else {
      var i, k :| 0 <= i < k < |j.ids| && j.ids[i] == j.ids[k];
      CountedTwice(j.ids, i, k);
      assert j.ids[i] !in j.team && |Sync.Bearers(cache, users, b, ldap, j.ids[i])| > 1;
    }
  }

  // ---------------------------------------------------------------- the pool as a client call

  /** Every run of the pool to its end is one `AddMembers` or `RemoveMembers` call of the
      abstract client: same membership afterwards, and an error in the same cases. */
  lemma PoolIsClientCall(j: Job, run: seq<Action>, p: Backends.Platform, ref: Backends.TeamRef, env: Backends.Env)
    requires ValidJob(j) && Legal(j, Start(j), run) && Exec(j, Start(j), run).pc.Returned?
    requires ref in p.teams && p.teams[ref].members == j.team
    requires if Exec(j, Start(j), run).errors == [] then env.reply(p.tick).Done?
             else env.reply(p.tick) == Backends.Fault(Planned(j))
    ensures
      var s := Exec(j, Start(j), run);
      var call := if j.op.Add? then Backends.AddMembers(p, ref, Elems(j.ids), env)
                  else Backends.RemoveMembers(p, ref, Elems(j.ids), env);
      && call.p.teams[ref].members == s.team
      && (call.r.Ok? <==> s.errors == [])
  {
    PoolResult(j, run);
    var s := Exec(j, Start(j), run);
    assert Elems(j.ids) * Planned(j) == Planned(j);
    if s.errors == [] {
      InvInit(j);
      RunKeepsInv(j, Start(j), run);
      AllGone(j, s);
      forall id | id in j.ids
        ensures id in Planned(j)
      {
        var i :| 0 <= i < |j.ids| && j.ids[i] == id;
        assert s.fates[i].Accepted? && s.fates[i] == j.calls[i];
      }
      assert Planned(j) == Elems(j.ids);
    }
  }
}
