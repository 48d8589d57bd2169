/** The queue of callbacks that wait for a node's fetch status, under re-entrant calls. */
module NodeModels {
  import opened Paths
  import opened FetchTypes

  /** A callback and the status it waits for; the number tells callbacks apart. */
  datatype Waiting = Waiting(want: FetchStatus, id: nat)

  /** What code outside may do when it is called; `Locked` holds a scoped lock around its calls. */
  datatype Call =
    | StartFetch(want: FetchStatus, callback: bool)
    | SetFetchStatus(status: FetchStatus)
    | Locked(calls: seq<Call>)

  function Ids(queue: seq<Waiting>): seq<nat> {
    seq(|queue|, i requires 0 <= i < |queue| => queue[i].id)
  }

  function UpTo(n: nat): seq<nat> {
    seq(n, i => i)
  }

  function Covered(status: FetchStatus, queue: seq<Waiting>): seq<Waiting> {
    if queue == [] then []
    else
      var last := queue[|queue| - 1];
      Covered(status, queue[..|queue| - 1]) + if status.Includes(last.want) then [last] else []
  }

  function Uncovered(status: FetchStatus, queue: seq<Waiting>): seq<Waiting> {
    if queue == [] then []
    else
      var last := queue[|queue| - 1];
      Uncovered(status, queue[..|queue| - 1]) + if status.Includes(last.want) then [] else [last]
  }

  lemma {:induction false} PartedMember(status: FetchStatus, queue: seq<Waiting>, w: Waiting)
    ensures w in Covered(status, queue) <==> w in queue && status.Includes(w.want)
    ensures w in Uncovered(status, queue) <==> w in queue && !status.Includes(w.want)
  {
    hide FetchStatus.Includes;
    if queue != [] {
      var init, last := queue[..|queue| - 1], queue[|queue| - 1];
      PartedMember(status, init, w);
      assert queue == init + [last];
    }
  }

  lemma {:induction false} PartedLengths(status: FetchStatus, queue: seq<Waiting>)
    ensures |queue| == |Covered(status, queue)| + |Uncovered(status, queue)|
    ensures Covered(status, queue) == [] ==> Uncovered(status, queue) == queue
  {
    hide FetchStatus.Includes;
    if queue != [] {
      PartedLengths(status, queue[..|queue| - 1]);
    }
  }

  lemma PartedMembers(status: FetchStatus, queue: seq<Waiting>)
    ensures forall w :: w in Covered(status, queue) <==> w in queue && status.Includes(w.want)
    ensures forall w :: w in Uncovered(status, queue) <==> w in queue && !status.Includes(w.want)
    ensures |queue| == |Covered(status, queue)| + |Uncovered(status, queue)|
    ensures Covered(status, queue) == [] ==> Uncovered(status, queue) == queue
  {
    hide Covered, Uncovered, FetchStatus.Includes;
    PartedLengths(status, queue);
    forall w ensures
      && (w in Covered(status, queue) <==> w in queue && status.Includes(w.want))
      && (w in Uncovered(status, queue) <==> w in queue && !status.Includes(w.want))
    {
      PartedMember(status, queue, w);
    }
  }

  lemma {:induction false} PartedIds(status: FetchStatus, queue: seq<Waiting>)
    ensures multiset(Ids(queue)) == multiset(Ids(Covered(status, queue))) + multiset(Ids(Uncovered(status, queue)))
  {
    hide FetchStatus.Includes, Ids;
    if queue == [] {
      NoIds();
    } else {
      var init, last := queue[..|queue| - 1], queue[|queue| - 1];
      PartedIds(status, init);
      assert queue == init + [last];
      IdsJoin(init, [last]);
      if status.Includes(last.want) {
        IdsJoin(Covered(status, init), [last]);
        assert Uncovered(status, init) + [] == Uncovered(status, init);
      } else {
        IdsJoin(Uncovered(status, init), [last]);
        assert Covered(status, init) + [] == Covered(status, init);
      }
    }
  }

  lemma NoIds()
    ensures Ids([]) == []
  {
  }

  lemma IdsJoin(a: seq<Waiting>, b: seq<Waiting>)
    ensures Ids(a + b) == Ids(a) + Ids(b)
    ensures multiset(Ids(a + b)) == multiset(Ids(a)) + multiset(Ids(b))
  {
    assert Ids(a + b) == Ids(a) + Ids(b);
  }

  class BaseNodeModel {
    var fetchStatus: FetchStatus
    var fetchingStatus: FetchStatus
    var callbackLockCount: nat
    var notifyingCallbacks: bool
    var fetchCallbacks: seq<Waiting>
    /** What the code called from here will do, call after call. */
    var script: seq<seq<Call>>
    /** What each callback wanted; its place here is the callback's number. */
    var wants: seq<FetchStatus>
    /** Those taken out to be called, and those called. */
    ghost var taken: seq<nat>
    ghost var called: seq<nat>
    /** The fetch status when a callback was taken out. */
    ghost var seenAt: map<nat, FetchStatus>
    /** How many callbacks of this model are on the stack. */
    ghost var frames: nat
    /** What the hooks of the derived class were told: the statuses to fetch, and that the status changed. */
    ghost var requests: seq<FetchStatus>
    ghost var changes: seq<FetchStatus>

    // -------------------------------------------------------------- what holds throughout

    /** Each callback waits, is about to be called or was called; none is lost or doubled. */
    ghost predicate Accounted()
      reads this`wants, this`fetchCallbacks, this`taken, this`called
    {
      multiset(Ids(fetchCallbacks)) + multiset(taken) + multiset(called) == multiset(UpTo(|wants|))
    }

    ghost predicate QueueOk()
      reads this`wants, this`fetchCallbacks, this`fetchingStatus, this`fetchStatus
    {
      && fetchingStatus.Includes(fetchStatus)
      && forall w :: w in fetchCallbacks ==> w.id < |wants| && wants[w.id] == w.want && fetchingStatus.Includes(w.want)
    }

    /** Whoever was taken out had the status it wanted. */
    ghost predicate SeenOk()
      reads this`wants, this`taken, this`called, this`seenAt
    {
      Seen(wants, taken, seenAt) && Seen(wants, called, seenAt)
    }

    ghost predicate Sound()
      reads this
    {
      && Accounted() && QueueOk() && SeenOk()
      && frames <= (if notifyingCallbacks then 1 else 0)
      && (!notifyingCallbacks ==> taken == [])
    }

    /** Outside a notification and unlocked, nobody waits for a status that is there. */
    ghost predicate Drained()
      reads this`fetchCallbacks, this`fetchStatus, this`notifyingCallbacks, this`callbackLockCount
    {
      !notifyingCallbacks && callbackLockCount == 0 ==>
        forall w :: w in fetchCallbacks ==> !fetchStatus.Includes(w.want)
    }

    ghost predicate Valid()
      reads this
    {
      Sound() && Drained()
    }

    /** What is recorded of the calls only grows. */
    twostate predicate Grows()
      reads this
    {
      && |script| <= |old(script)| && old(called) <= called && old(wants) <= wants
      && old(requests) <= requests && old(changes) <= changes
    }

    /** What any call leaves alone, and that calls made stay made. */
    twostate predicate Keeps()
      reads this
    {
      && notifyingCallbacks == old(notifyingCallbacks) && frames == old(frames) && taken == old(taken)
      && Grows()
    }

    /** Code outside was called, if any was still to come. */
    twostate predicate CallsOut()
      reads this
    {
      old(script) != [] ==> |script| < |old(script)|
    }

    /** No code outside was called, and no hook either. */
    twostate predicate Quiet()
      reads this
    {
      |script| == |old(script)| ==> requests == old(requests) && changes == old(changes)
    }

    twostate predicate Continues()
      reads this
    {
      Keeps() && callbackLockCount == old(callbackLockCount)
    }

    /** The state of a model, as far as it can be told when nothing calls back. */
    twostate predicate Becomes(status: FetchStatus, fetching: FetchStatus, queue: seq<Waiting>, done: seq<nat>)
      reads this
    {
      && fetchStatus == status && fetchingStatus == fetching && fetchCallbacks == queue
      && called == old(called) + done && script == []
    }

    lemma CalledOnce()
      requires Sound()
      ensures Distinct(called) && forall id :: id in called ==> id !in Ids(fetchCallbacks) && id !in taken
    {
      OnceEach(called, multiset(Ids(fetchCallbacks)) + multiset(taken), |wants|);
    }

    // -------------------------------------------------------------- calls from outside

    /** Code outside is called: a callback, or a hook of a derived class. */
    method Invoke()
      requires Valid()
      modifies this
      ensures Valid() && Continues()
      ensures CallsOut() && Quiet()
      ensures |script| == |old(script)| ==> fetchCallbacks == old(fetchCallbacks)
      ensures old(script) == [] ==> unchanged(this)
      decreases |script|, 1
    {
      if script == [] {
        return;
      }
      var calls := script[0];
      script := script[1..];
      RunCalls(calls);
    }

    method RunCalls(calls: seq<Call>)
      requires Valid()
      modifies this
      ensures Valid() && Continues()
      decreases |script|, 7, calls
    {
      for i := 0 to |calls|
        invariant Valid() && Continues()
      {
        RunCall(calls[i]);
      }
    }

    method RunCall(call: Call)
      requires Valid()
      modifies this
      ensures Valid() && Continues()
      decreases |script|, 7, call
    {
      match call
      case StartFetch(want, callback) => StartFetch(want, callback);
      case SetFetchStatus(status) => SetFetchStatus(status);
      case Locked(calls) =>
        callbackLockCount := callbackLockCount + 1;
        RunCalls(calls);
        Unlock();
    }

    /** The end of a `ScopedCallbackLock`. */
    method Unlock()
      requires Sound() && callbackLockCount > 0
      modifies this
      ensures Valid() && Keeps() && callbackLockCount == old(callbackLockCount) - 1
      ensures Quiet()
      decreases |script|, 5
    {
      callbackLockCount := callbackLockCount - 1;
      if callbackLockCount == 0 {
        NotifyCallbacks();
      }
    }

    /** Waits for the status, or is called back at once where it is there and nothing is in the way. */
    method StartFetch(want: FetchStatus, callback: bool)
      requires Valid()
      modifies this
      ensures Valid() && Continues()
      ensures callback ==> |old(wants)| < |wants| && wants[|old(wants)|] == want
      ensures old(fetchStatus).Includes(want) ==> Quiet() && (!callback ==> unchanged(this))
      ensures !old(fetchStatus).Includes(want) ==>
        CallsOut() && old(requests) + [old(fetchingStatus).Union(want)] <= requests
      ensures callback && old(fetchStatus).Includes(want) && !notifyingCallbacks && callbackLockCount == 0 ==>
        |old(wants)| in called
      ensures var queue := old(fetchCallbacks) + if callback then [Waiting(want, |old(wants)|)] else [];
        && (old(script) == [] && !old(fetchStatus).Includes(want) ==>
             Becomes(old(fetchStatus), old(fetchingStatus).Union(want), queue, []))
        && (old(script) == [] && old(fetchStatus).Includes(want) && !callback ==>
             Becomes(old(fetchStatus), old(fetchingStatus), queue, []))
        && (old(script) == [] && old(fetchStatus).Includes(want) && callback ==>
             if notifyingCallbacks || callbackLockCount != 0
             then Becomes(old(fetchStatus), old(fetchingStatus), queue, [])
             else Becomes(old(fetchStatus), old(fetchingStatus), Uncovered(old(fetchStatus), queue),
                          Ids(Covered(old(fetchStatus), queue))))
      decreases |script|, 6
    {
      hide Accounted, SeenOk;
      if fetchStatus.Includes(want) {
        if !callback {
          return;
        }
        Enqueue(want);
        NotifyCallbacks();
      } else {
        fetchingStatus := fetchingStatus.Union(want);
        if callback {
          Enqueue(want);
        }
        OnFetchRequested(fetchingStatus);
      }
    }

    method Enqueue(want: FetchStatus)
      requires Sound() && fetchingStatus.Includes(want)
      modifies this`fetchCallbacks, this`wants
      ensures Sound() && wants == old(wants) + [want]
      ensures fetchCallbacks == old(fetchCallbacks) + [Waiting(want, |old(wants)|)]
    {
      hide Ids, FetchStatus.Includes;
      EnqueuedIds(fetchCallbacks, Waiting(want, |wants|), taken, called, |wants|);
      fetchCallbacks := fetchCallbacks + [Waiting(want, |wants|)];
      wants := wants + [want];
    }

    /** A derived class fetches what it is asked for; that covers all who wait. */
    method OnFetchRequested(requested: FetchStatus)
      requires Valid() && forall w :: w in fetchCallbacks ==> requested.Includes(w.want)
      modifies this
      ensures Valid() && Continues()
      ensures CallsOut() && old(requests) + [requested] <= requests
      ensures old(script) == [] ==>
        requests == old(requests) + [requested] && changes == old(changes)
        && Becomes(old(fetchStatus), old(fetchingStatus), old(fetchCallbacks), [])
      decreases |script|, 2
    {
      requests := requests + [requested];
      Invoke();
    }

    method SetFetchStatus(status: FetchStatus)
      requires Valid()
      modifies this
      ensures Valid() && Continues()
      ensures old(script) == [] && old(fetchStatus) != status ==>
        if notifyingCallbacks || callbackLockCount != 0
        then Becomes(status, old(fetchingStatus).Union(status), old(fetchCallbacks), [])
        else Becomes(status, old(fetchingStatus).Union(status), Uncovered(status, old(fetchCallbacks)),
                     Ids(Covered(status, old(fetchCallbacks))))
      ensures old(fetchStatus) == status ==> unchanged(this)
      ensures old(fetchStatus) != status ==> CallsOut() && |old(changes)| < |changes|
      ensures old(fetchStatus) != status && old(script) == [] ==>
        changes == old(changes) + [status] && requests == old(requests)
      decreases |script|, 6
    {
      hide Accounted, SeenOk;
      if fetchStatus == status {
        return;
      }
      fetchStatus := status;
      fetchingStatus := fetchingStatus.Union(status);
      NotifyCallbacks();
      OnFetchStatusChanged();
    }

    method OnFetchStatusChanged()
      requires Valid()
      modifies this
      ensures Valid() && Continues()
      ensures CallsOut() && old(changes) + [old(fetchStatus)] <= changes
      ensures old(script) == [] ==>
        changes == old(changes) + [old(fetchStatus)] && requests == old(requests)
        && Becomes(old(fetchStatus), old(fetchingStatus), old(fetchCallbacks), [])
      decreases |script|, 2
    {
      changes := changes + [fetchStatus];
      Invoke();
    }

    // -------------------------------------------------------------- the notification

    /** Takes out whoever has the status it wants. */
    method Collect() returns (callbacks: seq<nat>)
      requires Sound() && notifyingCallbacks && taken == []
      modifies this`fetchCallbacks, this`taken, this`seenAt
      ensures Sound() && taken == callbacks == Ids(Covered(fetchStatus, old(fetchCallbacks)))
      ensures fetchCallbacks == Uncovered(fetchStatus, old(fetchCallbacks))
    {
      hide Ids, Covered, Uncovered, FetchStatus.Includes, Seen, Marked, UpTo;
      var left: seq<Waiting>, out: seq<Waiting> := [], [];
      var queue := fetchCallbacks;
      NothingParted(fetchStatus);
      for i := 0 to |queue|
        invariant left == Uncovered(fetchStatus, queue[..i]) && out == Covered(fetchStatus, queue[..i])
        modifies {}
      {
        PartedStep(fetchStatus, queue, i);
        if fetchStatus.Includes(queue[i].want) {
          out := out + [queue[i]];
        } else {
          left := left + [queue[i]];
        }
      }
      assert queue[..|queue|] == queue;
      PartedMembers(fetchStatus, queue);
      PartedIds(fetchStatus, queue);
      callbacks := Ids(out);
      SeenWhenTaken(fetchStatus, queue, wants, callbacks);
      SeenMarked(wants, called, seenAt, callbacks, fetchStatus);
      seenAt := Marked(seenAt, callbacks, fetchStatus);
      TakenAccounts(queue, left, callbacks, called, |wants|);
      taken := callbacks;
      fetchCallbacks := left;
    }

    /** Calls the next callback; no other callback of this model is on the stack. */
    method Fire()
      requires Sound() && notifyingCallbacks && frames == 0 && taken != []
      modifies this
      ensures Sound() && notifyingCallbacks && frames == 0 && callbackLockCount == old(callbackLockCount)
      ensures taken == old(taken)[1..] && Grows() && CallsOut() && Quiet()
      ensures old(called) + [old(taken)[0]] <= called
      ensures |script| == |old(script)| ==> fetchCallbacks == old(fetchCallbacks)
      ensures old(script) == [] ==> Becomes(old(fetchStatus), old(fetchingStatus), old(fetchCallbacks), [old(taken)[0]])
      decreases |script|, 2
    {
      hide Accounted, QueueOk, SeenOk;
      EnterCallback();
      Invoke();
      frames := 0;
    }

    /** The books at the moment of a call. */
    ghost method EnterCallback()
      requires Sound() && notifyingCallbacks && frames == 0 && taken != []
      modifies this`called, this`taken, this`frames
      ensures Sound() && frames == 1
      ensures called == old(called) + [old(taken)[0]] && taken == old(taken)[1..]
    {
      hide QueueOk, Ids, Seen, UpTo;
      OneTaken(fetchCallbacks, taken, called, |wants|);
      OneSeen(wants, taken, called, seenAt);
      called, taken, frames := called + [taken[0]], taken[1..], 1;
      assert Accounted() && SeenOk();
    }

    method FireAll(callbacks: seq<nat>)
      requires Sound() && notifyingCallbacks && frames == 0 && taken == callbacks
      modifies this
      ensures Sound() && notifyingCallbacks && frames == 0 && callbackLockCount == old(callbackLockCount)
      ensures taken == [] && Grows() && Quiet()
      ensures forall k :: 0 <= k < |callbacks| ==> callbacks[k] in called
      ensures |script| == |old(script)| ==> fetchCallbacks == old(fetchCallbacks)
      ensures old(script) == [] ==> Becomes(old(fetchStatus), old(fetchingStatus), old(fetchCallbacks), callbacks)
      decreases |script|, 3
    {
      hide Accounted, QueueOk, SeenOk;
      for i := 0 to |callbacks|
        invariant Sound() && notifyingCallbacks && frames == 0 && callbackLockCount == old(callbackLockCount)
        invariant taken == callbacks[i..] && Grows() && Quiet()
        invariant forall k :: 0 <= k < i ==> callbacks[k] in called
        invariant |script| == |old(script)| ==> fetchCallbacks == old(fetchCallbacks)
        invariant old(script) == [] ==>
          Becomes(old(fetchStatus), old(fetchingStatus), old(fetchCallbacks), callbacks[..i])
      {
        ghost var before := called;
        Fire();
        CalledMore(before, callbacks[i], called);
      }
    }

    /** Only the outermost call notifies, and goes on until nobody waits for a status that is there. */
    method NotifyCallbacks()
      requires Sound()
      modifies this
      ensures Valid() && Continues() && Quiet()
      ensures !notifyingCallbacks && callbackLockCount == 0 ==>
        Served(old(fetchStatus), old(fetchCallbacks), called)
      ensures notifyingCallbacks || callbackLockCount != 0 ==> unchanged(this)
      ensures !notifyingCallbacks && callbackLockCount == 0 && old(script) == [] ==>
        Becomes(old(fetchStatus), old(fetchingStatus), Uncovered(old(fetchStatus), old(fetchCallbacks)),
                Ids(Covered(old(fetchStatus), old(fetchCallbacks))))
      decreases |script|, 4
    {
      hide Accounted, QueueOk, SeenOk, Ids, Covered, Uncovered, FetchStatus.Includes, Served;
      if callbackLockCount != 0 || notifyingCallbacks {
        return;
      }
      notifyingCallbacks := true;
      ghost var first := true;
      while true
        invariant Sound() && notifyingCallbacks && frames == 0 && taken == [] && callbackLockCount == 0
        invariant Grows() && Quiet()
        invariant first ==> fetchCallbacks == old(fetchCallbacks) && fetchStatus == old(fetchStatus)
        invariant !first ==> Served(old(fetchStatus), old(fetchCallbacks), called)
        invariant old(script) == [] ==>
          if first then Becomes(old(fetchStatus), old(fetchingStatus), old(fetchCallbacks), [])
          else Becomes(old(fetchStatus), old(fetchingStatus), Uncovered(old(fetchStatus), old(fetchCallbacks)),
                       Ids(Covered(old(fetchStatus), old(fetchCallbacks))))
        decreases |script|, |fetchCallbacks|
      {
        ghost var status, waiting := fetchStatus, fetchCallbacks;
        UncoveredAgain(old(fetchStatus), old(fetchCallbacks));
        var callbacks := Collect();
        TakenOut(status, waiting, callbacks);
        if callbacks == [] {
          ServedAlready(status, waiting, called);
          break;
        }
        ghost var before := called;
        FireAll(callbacks);
        ServedNow(status, waiting, callbacks, called);
        if !first {
          ServedLater(old(fetchStatus), old(fetchCallbacks), before, called);
        }
        first := false;
      }
      notifyingCallbacks := false;
    }

    constructor (script: seq<seq<Call>>)
      ensures Valid() && fetchCallbacks == [] && called == [] && this.script == script
      ensures requests == [] && changes == []
    {
      fetchStatus, fetchingStatus, callbackLockCount, notifyingCallbacks := NOTHING, NOTHING, 0, false;
      fetchCallbacks, wants, taken, called, seenAt, frames := [], [], [], [], map[], 0;
      requests, changes := [], [];
      this.script := script;
    }
  }

  lemma {:induction false} OnceEach(s: seq<nat>, rest: multiset<nat>, n: nat)
    requires rest + multiset(s) == multiset(UpTo(n))
    ensures Distinct(s) && forall x :: x in s ==> x !in rest
  {
    forall x ensures multiset(UpTo(n))[x] <= 1 {
      CountUpTo(n, x);
    }
    forall i, j | 0 <= i < j < |s| ensures s[i] != s[j] {
      if s[i] == s[j] {
        TwiceCounts(s, i, j, rest);
      }
    }
    forall x | x in s ensures x !in rest {
      assert (rest + multiset(s))[x] == rest[x] + multiset(s)[x];
    }
  }

  lemma TwiceCounts(s: seq<nat>, i: nat, j: nat, rest: multiset<nat>)
    requires i < j < |s| && s[i] == s[j]
    ensures (rest + multiset(s))[s[i]] >= 2
  {
    assert s == s[..i] + [s[i]] + s[i + 1..j] + [s[j]] + s[j + 1..];
  }

  lemma {:induction false} CountUpTo(n: nat, x: nat)
    ensures multiset(UpTo(n))[x] == if x < n then 1 else 0
  {
    if n > 0 {
      CountUpTo(n - 1, x);
      assert UpTo(n) == UpTo(n - 1) + [n - 1];
    } else {
      assert UpTo(n) == [];
    }
  }

  lemma EnqueuedIds(queue: seq<Waiting>, w: Waiting, taken: seq<nat>, called: seq<nat>, n: nat)
    requires multiset(Ids(queue)) + multiset(taken) + multiset(called) == multiset(UpTo(n)) && w.id == n
    ensures multiset(Ids(queue + [w])) + multiset(taken) + multiset(called) == multiset(UpTo(n + 1))
  {
    assert UpTo(n + 1) == UpTo(n) + [n];
    IdsJoin(queue, [w]);
    assert Ids([w]) == [n];
  }

  /** Who waited for a status that was there has been called. */
  ghost predicate Served(status: FetchStatus, queue: seq<Waiting>, called: seq<nat>) {
    forall w :: w in queue && status.Includes(w.want) ==> w.id in called
  }

  lemma TakenOut(status: FetchStatus, queue: seq<Waiting>, callbacks: seq<nat>)
    requires callbacks == Ids(Covered(status, queue))
    ensures callbacks == [] ==> Uncovered(status, queue) == queue
    ensures callbacks == [] ==> forall w :: w in queue ==> !status.Includes(w.want)
    ensures callbacks != [] ==> |Uncovered(status, queue)| < |queue|
  {
    hide Ids, Covered, Uncovered, FetchStatus.Includes;
    PartedMembers(status, queue);
    IdsOf(Covered(status, queue));
  }

  ghost function Marked(seen: map<nat, FetchStatus>, ids: seq<nat>, status: FetchStatus): (r: map<nat, FetchStatus>)
    ensures forall id :: id in ids ==> id in r && r[id] == status
    ensures forall id :: id in seen && id !in ids ==> id in r && r[id] == seen[id]
  {
    map id | id in seen.Keys + Elements(ids) :: if id in ids then status else seen[id]
  }

  ghost predicate Seen(wants: seq<FetchStatus>, ids: seq<nat>, seen: map<nat, FetchStatus>) {
    forall id :: id in ids ==> id < |wants| && id in seen && seen[id].Includes(wants[id])
  }

  lemma SeenMarked(wants: seq<FetchStatus>, called: seq<nat>, seen: map<nat, FetchStatus>, ids: seq<nat>,
                   status: FetchStatus)
    requires Seen(wants, called, seen)
    requires forall id :: id in ids ==> id < |wants| && status.Includes(wants[id])
    ensures Seen(wants, called, Marked(seen, ids, status)) && Seen(wants, ids, Marked(seen, ids, status))
  {
    hide Marked, FetchStatus.Includes;
  }

  lemma UncoveredAgain(status: FetchStatus, queue: seq<Waiting>)
    ensures Ids(Covered(status, Uncovered(status, queue))) == []
    ensures Uncovered(status, Uncovered(status, queue)) == Uncovered(status, queue)
  {
    hide Ids, Covered, Uncovered, FetchStatus.Includes;
    var left := Uncovered(status, queue);
    PartedMembers(status, queue);
    PartedMembers(status, left);
    if Covered(status, left) != [] {
      FirstIsMember(Covered(status, left));
    }
    NoIds();
  }

  lemma FirstIsMember(queue: seq<Waiting>)
    requires queue != []
    ensures queue[0] in queue
  {
  }

  lemma SeenWhenTaken(status: FetchStatus, queue: seq<Waiting>, wants: seq<FetchStatus>, callbacks: seq<nat>)
    requires forall w :: w in queue ==> w.id < |wants| && wants[w.id] == w.want
    requires callbacks == Ids(Covered(status, queue))
    ensures forall id :: id in callbacks ==> id < |wants| && status.Includes(wants[id])
  {
    hide Ids, Covered, FetchStatus.Includes;
    PartedMembers(status, queue);
    IdsOf(Covered(status, queue));
  }

  lemma ServedAlready(status: FetchStatus, queue: seq<Waiting>, called: seq<nat>)
    requires forall w :: w in queue ==> !status.Includes(w.want)
    ensures Served(status, queue, called)
  {
  }

  lemma ServedNow(status: FetchStatus, queue: seq<Waiting>, callbacks: seq<nat>, called: seq<nat>)
    requires callbacks == Ids(Covered(status, queue))
    requires forall k :: 0 <= k < |callbacks| ==> callbacks[k] in called
    ensures Served(status, queue, called)
  {
    hide Ids, Covered, Uncovered, FetchStatus.Includes;
    PartedMembers(status, queue);
    IdsOf(Covered(status, queue));
  }

  lemma ServedLater(status: FetchStatus, queue: seq<Waiting>, before: seq<nat>, called: seq<nat>)
    requires Served(status, queue, before) && before <= called
    ensures Served(status, queue, called)
  {
    assert forall id :: id in before ==> id in called;
  }

  lemma CalledMore(before: seq<nat>, id: nat, called: seq<nat>)
    requires before + [id] <= called
    ensures id in called && forall x :: x in before ==> x in called
  {
    assert called[|before|] == id;
    assert called[..|before|] == before;
  }

  lemma PartedStep(status: FetchStatus, queue: seq<Waiting>, i: nat)
    requires i < |queue|
    ensures Covered(status, queue[..i + 1])
      == Covered(status, queue[..i]) + (if status.Includes(queue[i].want) then [queue[i]] else [])
    ensures Uncovered(status, queue[..i + 1])
      == Uncovered(status, queue[..i]) + (if status.Includes(queue[i].want) then [] else [queue[i]])
  {
    assert queue[..i + 1][..i] == queue[..i];
  }

  lemma NothingParted(status: FetchStatus)
    ensures Covered(status, []) == Uncovered(status, []) == []
  {
  }

  lemma IdsOf(queue: seq<Waiting>)
    ensures forall id :: id in Ids(queue) ==> exists w :: w in queue && w.id == id
    ensures forall w :: w in queue ==> w.id in Ids(queue)
    ensures |Ids(queue)| == |queue|
  {
    forall w | w in queue ensures w.id in Ids(queue) {
      var i :| 0 <= i < |queue| && queue[i] == w;
      assert Ids(queue)[i] == w.id;
    }
  }

  lemma OneSeen(wants: seq<FetchStatus>, taken: seq<nat>, called: seq<nat>, seen: map<nat, FetchStatus>)
    requires Seen(wants, taken, seen) && Seen(wants, called, seen) && taken != []
    ensures Seen(wants, taken[1..], seen) && Seen(wants, called + [taken[0]], seen)
  {
    hide FetchStatus.Includes;
    assert taken[0] in taken;
  }

  lemma TakenAccounts(queue: seq<Waiting>, left: seq<Waiting>, callbacks: seq<nat>, called: seq<nat>, n: nat)
    requires multiset(Ids(queue)) + multiset([]) + multiset(called) == multiset(UpTo(n))
    requires multiset(Ids(queue)) == multiset(callbacks) + multiset(Ids(left))
    ensures multiset(Ids(left)) + multiset(callbacks) + multiset(called) == multiset(UpTo(n))
  {
    hide Ids, UpTo;
  }

  lemma OneTaken(queue: seq<Waiting>, taken: seq<nat>, called: seq<nat>, n: nat)
    requires multiset(Ids(queue)) + multiset(taken) + multiset(called) == multiset(UpTo(n)) && taken != []
    ensures multiset(Ids(queue)) + multiset(taken[1..]) + multiset(called + [taken[0]]) == multiset(UpTo(n))
  {
    assert taken == [taken[0]] + taken[1..];
  }
}
