/**
 * The kernel task's deferred-system-call machinery and its IRQ dispatch.
 *
 * A system call whose handler reports `Deferred` (or `Deferred_PermitActions`)
 * is parked: a descriptor naming the caller's process and thread moves from
 * the free queue to the pending queue. The deferred-syscalls thread later
 * drains the pending queue: it re-runs the call's finishing logic and, unless
 * that logic reports `Deferred` again, writes the result registers and wakes
 * the caller. Every descriptor goes back to the free queue, zeroed.
 *
 * The collaborators the kernel task calls (the pipe manager, thread creation,
 * the request record in the caller's memory, the inner system-call handler
 * and each process's IRQ handler) are given as the answers they return.
 */
module KernelTask {
  import opened Words

  datatype SystemCallResults = Unhandled | OK | Fail | Deferred | Deferred_PermitActions

  /** The call numbers the kernel task serves; every other number is `OtherNumber`. */
  datatype SystemCallNumbers =
    | RegisterSyscallHandler
    | DeregisterSyscallHandler
    | StartThread
    | SleepThread
    | WakeThread
    | RegisterPipeOutpoint
    | GetNumPipeOutpoints
    | GetPipeOutpoints
    | CreatePipe
    | WaitOnPipeCreate
    | ReadPipe
    | WritePipe
    | OtherNumber(value: uint32)

  /** The pipe manager's verdict on one read or write transfer. */
  datatype RWResults = Complete | Incomplete

  /** A `ReadPipeRequest` / `WritePipeRequest` as found in the caller's memory. */
  datatype PipeRequest = PipeRequest(PipeId: int32, blocking: bool)

  /**
   * What the collaborators answer while one deferred call is finished:
   * the id of the thread `CreateThread` made, the booleans the pipe manager
   * returns, the count it reports, the request record the caller passed and
   * the outcome of the pipe transfer.
   */
  datatype Collaborators = Collaborators(
    newThreadId: uint32,
    outpointRegistered: bool,
    numOutpointsObtained: bool,
    numOutpoints: int32,
    outpointsObtained: bool,
    pipeCreated: bool,
    waitingOnCreate: bool,
    request: PipeRequest,
    transfer: RWResults)

  /** A result code together with the three result registers after it. */
  datatype Completion = Completion(result: SystemCallResults, Return2: uint32, Return3: uint32, Return4: uint32)

  predicate IsDeferred(r: SystemCallResults)
  {
    r == Deferred || r == Deferred_PermitActions
  }

  /** The call numbers `HandleDeferredSystemCall` has a case for. */
  predicate FinishedHere(num: SystemCallNumbers)
  {
    num in {StartThread, RegisterPipeOutpoint, GetNumPipeOutpoints, GetPipeOutpoints,
            CreatePipe, WaitOnPipeCreate, ReadPipe, WritePipe}
  }

  /** The calls that stay parked after being finished: blocking transfers and waits that are still waiting. */
  predicate StaysParked(num: SystemCallNumbers, env: Collaborators)
  {
    || ((num == ReadPipe || num == WritePipe) && env.request.blocking)
    || (num == WaitOnPipeCreate && env.waitingOnCreate)
  }

  /** The pipe-manager query whose boolean answer decides between `OK` and `Fail`. */
  predicate ManagerAgreed(num: SystemCallNumbers, env: Collaborators)
    requires num in {RegisterPipeOutpoint, GetNumPipeOutpoints, GetPipeOutpoints, CreatePipe}
  {
    match num
    case RegisterPipeOutpoint => env.outpointRegistered
    case GetNumPipeOutpoints => env.numOutpointsObtained
    case GetPipeOutpoints => env.outpointsObtained
    case CreatePipe => env.pipeCreated
  }

  /**
   * The finishing logic of a deferred call: the result code and the result
   * registers Return2..Return4 (passed by reference in the source).
   */
  function HandleDeferredSystemCall(num: SystemCallNumbers, Return2: uint32, Return3: uint32, Return4: uint32,
                                    env: Collaborators): (c: Completion)
    // finishing never asks for further actions
    ensures c.result != Deferred_PermitActions
    // only numbers without a case stay unhandled
    ensures c.result == Unhandled <==> !FinishedHere(num)
    // the call stays deferred exactly for blocking transfers and waits still waiting
    ensures c.result == Deferred <==> StaysParked(num, env)
    // a non-blocking transfer succeeds exactly when it completed
    ensures (num == ReadPipe || num == WritePipe) && !env.request.blocking ==>
              (c.result == OK <==> env.transfer == Complete) && c.result != Deferred
    // the manager's boolean decides between OK and Fail
    ensures num in {RegisterPipeOutpoint, GetNumPipeOutpoints, GetPipeOutpoints, CreatePipe} ==>
              c.result == (if ManagerAgreed(num, env) then OK else Fail)
    ensures num == WaitOnPipeCreate && !env.waitingOnCreate ==> c.result == Fail
    ensures num == StartThread ==> c.result == OK
    // Return2 carries the new thread id or the outpoint count on success, and is kept otherwise
    ensures c.Return2 == (if num == StartThread then env.newThreadId
                          else if num == GetNumPipeOutpoints && env.numOutpointsObtained then ToUInt32(env.numOutpoints)
                          else Return2)
    // Return3 and Return4 are never written
    ensures c.Return3 == Return3 && c.Return4 == Return4
  {
    match num
    case StartThread =>
      Completion(OK, env.newThreadId, Return3, Return4)
    case RegisterPipeOutpoint =>
      Completion(if env.outpointRegistered then OK else Fail, Return2, Return3, Return4)
    case GetNumPipeOutpoints =>
      if env.numOutpointsObtained then Completion(OK, ToUInt32(env.numOutpoints), Return3, Return4)
      else Completion(Fail, Return2, Return3, Return4)
    case GetPipeOutpoints =>
      Completion(if env.outpointsObtained then OK else Fail, Return2, Return3, Return4)
    case CreatePipe =>
      Completion(if env.pipeCreated then OK else Fail, Return2, Return3, Return4)
    case WaitOnPipeCreate =>
      Completion(if env.waitingOnCreate then Deferred else Fail, Return2, Return3, Return4)
    case ReadPipe =>
      Completion(TransferResult(env), Return2, Return3, Return4)
    case WritePipe =>
      Completion(TransferResult(env), Return2, Return3, Return4)
    case _ =>
      Completion(Unhandled, Return2, Return3, Return4)
  }

  /** The result shared by ReadPipe and WritePipe. */
  function TransferResult(env: Collaborators): (r: SystemCallResults)
    ensures r == Deferred <==> env.request.blocking
    ensures r == OK <==> !env.request.blocking && env.transfer == Complete
    ensures r == Deferred || r == OK || r == Fail
  {
    if env.request.blocking then Deferred
    else if env.transfer == Complete then OK
    else Fail
  }

  // ---------------------------------------------------------------------
  // Threads and their result registers

  /** The part of a thread the deferred machinery reads and writes. */
  datatype ThreadView = ThreadView(
    SysCallNumber: SystemCallNumbers,
    Return1: SystemCallResults,
    Return2: uint32,
    Return3: uint32,
    Return4: uint32,
    Awake: bool)

  class Thread {
    var SysCallNumber: SystemCallNumbers
    var Return1: SystemCallResults   // `(uint)result` in the source
    var Return2: uint32
    var Return3: uint32
    var Return4: uint32
    var Awake: bool                  // set by `_Wake()`

    ghost function View(): ThreadView
      reads this
    {
      ThreadView(SysCallNumber, Return1, Return2, Return3, Return4, Awake)
    }
  }

  /** Delivering a result: the four result registers are written and the thread is woken. */
  function Delivered(v: ThreadView, c: Completion): (w: ThreadView)
    ensures w.Awake && w.SysCallNumber == v.SysCallNumber
    ensures w.Return1 == c.result && w.Return2 == c.Return2 && w.Return3 == c.Return3 && w.Return4 == c.Return4
  {
    ThreadView(v.SysCallNumber, c.result, c.Return2, c.Return3, c.Return4, true)
  }

  method EndDeferredSystemCall(thread: Thread, result: SystemCallResults, Return2: uint32, Return3: uint32, Return4: uint32)
    modifies thread
    ensures thread.View() == Delivered(old(thread.View()), Completion(result, Return2, Return3, Return4))
  {
    thread.Return1 := result;
    thread.Return2 := Return2;
    thread.Return3 := Return3;
    thread.Return4 := Return4;
    thread.Awake := true;
  }

  /**
   * The body of the drain loop between looking the caller up and recycling
   * the descriptor: finish the call with the thread's saved registers and
   * deliver the result unless the call stays deferred.
   */
  method FinishDeferredCall(thread: Thread, env: Collaborators)
    modifies thread
    ensures thread.View() == Finish(old(thread.View()), env)
  {
    var Return2, Return3, Return4 := thread.Return2, thread.Return3, thread.Return4;
    var c := HandleDeferredSystemCall(thread.SysCallNumber, Return2, Return3, Return4, env);
    if c.result != Deferred {
      EndDeferredSystemCall(thread, c.result, c.Return2, c.Return3, c.Return4);
    }
  }

  /**
   * One drained call, on the caller's thread: its finishing logic runs on the
   * thread's saved call number and result registers; unless it stays
   * deferred, the result is delivered and the thread woken.
   */
  function Finish(v: ThreadView, env: Collaborators): (w: ThreadView)
    ensures w.SysCallNumber == v.SysCallNumber
    ensures StaysParked(v.SysCallNumber, env) ==> w == v
    ensures !StaysParked(v.SysCallNumber, env) ==>
              && w.Awake
              && w.Return1 in {OK, Fail, Unhandled}
              && (w.Return1 == Unhandled ==> w.Return2 == v.Return2 && w.Return3 == v.Return3 && w.Return4 == v.Return4)
  {
    var c := HandleDeferredSystemCall(v.SysCallNumber, v.Return2, v.Return3, v.Return4, env);
    if c.result != Deferred then Delivered(v, c) else v
  }

  // ---------------------------------------------------------------------
  // The descriptor pool

  /** A thread is found by its process id and its thread id. */
  type ThreadKey = (uint32, uint32)

  const DeferredPoolCapacity: nat := 256

  class DeferredSyscallInfo {
    var ProcessId: uint32
    var ThreadId: uint32

    constructor ()
      ensures ProcessId == 0 && ThreadId == 0
    {
      ProcessId, ThreadId := 0, 0;
    }
  }

  ghost function KeyOf(info: DeferredSyscallInfo): ThreadKey
    reads info
  {
    (info.ProcessId, info.ThreadId)
  }

  ghost function KeysOf(q: seq<DeferredSyscallInfo>): (keys: seq<ThreadKey>)
    reads q
    ensures |keys| == |q| && forall i :: 0 <= i < |q| ==> keys[i] == KeyOf(q[i])
  {
    if q == [] then [] else [KeyOf(q[0])] + KeysOf(q[1..])
  }

  ghost function ThreadViews(threads: map<ThreadKey, Thread>): (views: map<ThreadKey, ThreadView>)
    reads threads.Values
    ensures views.Keys == threads.Keys
    ensures forall k :: k in threads ==> views[k] == threads[k].View()
  {
    map k | k in threads :: threads[k].View()
  }

  /** The process manager's lookup never answers two keys with the same thread. */
  ghost predicate DistinctThreads(threads: map<ThreadKey, Thread>)
  {
    forall k1, k2 :: k1 in threads && k2 in threads && k1 != k2 ==> threads[k1] != threads[k2]
  }

  /** Finishing the call of the thread at `key`; every other thread is left alone. */
  function FinishAt(views: map<ThreadKey, ThreadView>, key: ThreadKey, env: Collaborators): (r: map<ThreadKey, ThreadView>)
    requires key in views
    ensures r.Keys == views.Keys
    ensures r[key] == Finish(views[key], env)
    ensures forall k :: k in views && k != key ==> r[k] == views[k]
  {
    views[key := Finish(views[key], env)]
  }

  /** Draining the pending keys in order, the i-th with the i-th collaborator answers. */
  function DrainSpec(views: map<ThreadKey, ThreadView>, keys: seq<ThreadKey>, envs: seq<Collaborators>): (r: map<ThreadKey, ThreadView>)
    requires |envs| == |keys|
    requires forall i :: 0 <= i < |keys| ==> keys[i] in views
    ensures r.Keys == views.Keys
    decreases |keys|
  {
    if keys == [] then views
    else DrainSpec(FinishAt(views, keys[0], envs[0]), keys[1..], envs[1..])
  }

  /** Draining one more key extends the drain of the earlier ones. */
  lemma {:induction false} DrainSpecSnoc(views: map<ThreadKey, ThreadView>, keys: seq<ThreadKey>, envs: seq<Collaborators>,
                                         key: ThreadKey, env: Collaborators)
    requires |envs| == |keys|
    requires forall i :: 0 <= i < |keys| ==> keys[i] in views
    requires key in views
    ensures DrainSpec(views, keys + [key], envs + [env]) == FinishAt(DrainSpec(views, keys, envs), key, env)
    decreases |keys|
  {
    if keys == [] {
      assert keys + [key] == [key];
      assert envs + [env] == [env];
      assert DrainSpec(FinishAt(views, key, env), [], []) == FinishAt(views, key, env);
    } else {
      var views' := FinishAt(views, keys[0], envs[0]);
      assert (keys + [key])[1..] == keys[1..] + [key];
      assert (envs + [env])[1..] == envs[1..] + [env];
      DrainSpecSnoc(views', keys[1..], envs[1..], key, env);
    }
  }

  /** A thread none of whose calls is pending keeps its registers and its state. */
  lemma {:induction false} DrainSpecLeavesOthers(views: map<ThreadKey, ThreadView>, keys: seq<ThreadKey>,
                                                 envs: seq<Collaborators>, k: ThreadKey)
    requires |envs| == |keys|
    requires forall i :: 0 <= i < |keys| ==> keys[i] in views
    requires k in views && k !in keys
    ensures DrainSpec(views, keys, envs)[k] == views[k]
    decreases |keys|
  {
    if keys != [] {
      DrainSpecLeavesOthers(FinishAt(views, keys[0], envs[0]), keys[1..], envs[1..], k);
    }
  }

  /**
   * A thread with exactly one pending call ends as that call's finishing
   * logic leaves it: woken with its result, or untouched if it stays deferred.
   */
  lemma {:induction false} DrainSpecFinishesOnce(views: map<ThreadKey, ThreadView>, keys: seq<ThreadKey>,
                                                 envs: seq<Collaborators>, i: nat)
    requires |envs| == |keys|
    requires forall j :: 0 <= j < |keys| ==> keys[j] in views
    requires i < |keys|
    requires forall j :: 0 <= j < |keys| && j != i ==> keys[j] != keys[i]
    ensures DrainSpec(views, keys, envs)[keys[i]] == Finish(views[keys[i]], envs[i])
    decreases |keys|
  {
    var views' := FinishAt(views, keys[0], envs[0]);
    if i == 0 {
      assert keys[0] !in keys[1..] by {
        forall j | 0 <= j < |keys[1..]| ensures keys[1..][j] != keys[0] {
          assert keys[1..][j] == keys[j + 1];
        }
      }
      DrainSpecLeavesOthers(views', keys[1..], envs[1..], keys[0]);
    } else {
      assert keys[1..][i - 1] == keys[i];
      DrainSpecFinishesOnce(views', keys[1..], envs[1..], i - 1);
      assert views'[keys[i]] == views[keys[i]];
    }
  }

  /** The caller's thread, looked up by its ids, finishes its call; no other thread changes. */
  method FinishOnThread(threads: map<ThreadKey, Thread>, key: ThreadKey, env: Collaborators)
    requires key in threads && DistinctThreads(threads)
    modifies threads[key]
    ensures ThreadViews(threads) == FinishAt(old(ThreadViews(threads)), key, env)
  {
    ghost var views := ThreadViews(threads);
    var thread := threads[key];
    FinishDeferredCall(thread, env);
    forall k | k in threads
      ensures ThreadViews(threads)[k] == FinishAt(views, key, env)[k]
    {
      if k != key {
        assert threads[k] != thread;
      }
    }
  }

  /** Taking one more element of a sequence: the prefix grows by it and the suffix loses it. */
  lemma SliceStep<T>(s: seq<T>, i: nat)
    requires i < |s|
    ensures s[..i + 1] == s[..i] + [s[i]]
    ensures s[i..][1..] == s[i + 1..]
  {
  }

  /** The same step seen through a sequence appended to a fixed front. */
  lemma AppendStep<T>(front: seq<T>, s: seq<T>, i: nat)
    requires i < |s|
    ensures front + s[..i + 1] == (front + s[..i]) + [s[i]]
    ensures s[i..][1..] == s[i + 1..]
  {
    SliceStep(s, i);
  }

  lemma WholePrefix<T>(s: seq<T>)
    ensures s[..|s|] == s
  {
  }

  /** One more drained call extends the fold by one `FinishAt`. */
  lemma DrainStep(views: map<ThreadKey, ThreadView>, keys: seq<ThreadKey>, envs: seq<Collaborators>, i: nat)
    requires |envs| == |keys| && i < |keys|
    requires forall j :: 0 <= j < |keys| ==> keys[j] in views
    ensures DrainSpec(views, keys[..i + 1], envs[..i + 1]) == FinishAt(DrainSpec(views, keys[..i], envs[..i]), keys[i], envs[i])
  {
    SliceStep(keys, i);
    SliceStep(envs, i);
    DrainSpecSnoc(views, keys[..i], envs[..i], keys[i], envs[i]);
  }

  /** Every descriptor of the tail of a zeroed queue is zeroed. */
  lemma ZeroedTail(front: seq<DeferredSyscallInfo>, tail: seq<DeferredSyscallInfo>)
    requires Zeroed(front + tail)
    ensures forall x :: x in tail ==> KeyOf(x) == (0, 0)
  {
    forall x | x in tail ensures KeyOf(x) == (0, 0) {
      var j :| 0 <= j < |tail| && tail[j] == x;
      assert (front + tail)[|front| + j] == x;
    }
  }

  /** Each descriptor of `pool` sits in exactly one of `free` and `pending`, and nothing else does. */
  ghost predicate ExactlyOnce(free: seq<DeferredSyscallInfo>, pending: seq<DeferredSyscallInfo>, pool: set<DeferredSyscallInfo>)
  {
    && (forall i :: 0 <= i < |free| ==> free[i] in pool)
    && (forall i :: 0 <= i < |pending| ==> pending[i] in pool)
    && multiset(free) + multiset(pending) == multiset(pool)
  }

  ghost predicate Zeroed(free: seq<DeferredSyscallInfo>)
    reads free
  {
    forall i :: 0 <= i < |free| ==> free[i].ProcessId == 0 && free[i].ThreadId == 0
  }

  /** Moving the head of one queue to the tail of the other keeps every descriptor in exactly one place. */
  lemma MoveHead(from: seq<DeferredSyscallInfo>, to: seq<DeferredSyscallInfo>, pool: set<DeferredSyscallInfo>)
    requires |from| > 0
    ensures ExactlyOnce(from, to, pool) ==> ExactlyOnce(from[1..], to + [from[0]], pool)
    ensures ExactlyOnce(to, from, pool) ==> ExactlyOnce(to + [from[0]], from[1..], pool)
  {
    assert from == [from[0]] + from[1..];
    assert multiset(from) == multiset{from[0]} + multiset(from[1..]);
    assert multiset(to + [from[0]]) == multiset(to) + multiset{from[0]};
    assert forall i :: 0 <= i < |from[1..]| ==> from[1..][i] == from[i + 1];
  }

  /** A descriptor in the first queue is not in the second. */
  lemma InFirstNotInSecond(first: seq<DeferredSyscallInfo>, second: seq<DeferredSyscallInfo>, pool: set<DeferredSyscallInfo>, i: nat)
    requires ExactlyOnce(second, first, pool) && i < |first|
    ensures forall j :: 0 <= j < |second| ==> second[j] != first[i]
  {
    assert first[i] in multiset(first);
    forall j | 0 <= j < |second| ensures second[j] != first[i] {
      assert second[j] in multiset(second);
      assert multiset(pool)[first[i]] <= 1;
    }
  }

  /**
   * The kernel task's two descriptor queues: `Unqueued` is the free list and
   * `Queued` the pending list, both first-in first-out.
   */
  class DeferredSyscalls {
    const Capacity: nat
    var Unqueued: seq<DeferredSyscallInfo>
    var Queued: seq<DeferredSyscallInfo>
    var WorkerAwake: bool            // `DeferredSyscallsThread._Wake()`
    ghost var Pool: set<DeferredSyscallInfo>

    /**
     * Every descriptor of the pool is in exactly one of the two queues, the
     * two queues together hold Capacity descriptors, and every free
     * descriptor is zeroed.
     */
    ghost predicate Valid()
      reads this, Pool
    {
      && |Pool| == Capacity
      && |Unqueued| + |Queued| == Capacity
      && ExactlyOnce(Unqueued, Queued, Pool)
      && Zeroed(Unqueued)
    }

    /** The pool set-up of the kernel task's `Main`: 256 fresh descriptors, all free. */
    constructor ()
      ensures Valid() && fresh(Pool)
      ensures Capacity == DeferredPoolCapacity
      ensures |Unqueued| == Capacity && Queued == []
      ensures !WorkerAwake
    {
      Capacity := DeferredPoolCapacity;
      Unqueued := [];
      Queued := [];
      WorkerAwake := false;
      Pool := {};
      new;
      var i := 0;
      while i < Capacity
        invariant 0 <= i <= Capacity
        invariant |Unqueued| == i && |Pool| == i && Queued == []
        invariant fresh(Pool) && !WorkerAwake
        invariant ExactlyOnce(Unqueued, Queued, Pool)
        invariant Zeroed(Unqueued)
      {
        var info := new DeferredSyscallInfo();
        assert multiset(Pool + {info}) == multiset(Pool) + multiset{info};
        Unqueued := Unqueued + [info];
        Pool := Pool + {info};
        i := i + 1;
      }
    }

    /**
     * The kernel task's system-call handler. `inner` is what the kernel's own
     * handler produced (result code and result registers); a deferred
     * outcome parks the caller by moving the head of the free queue, stamped
     * with the caller's ids, to the tail of the pending queue, and wakes the
     * deferred-syscalls thread. The pop has no bound check in the source.
     */
    method SyscallHandler(inner: Completion, callerProcessId: uint32, callerThreadId: uint32)
      returns (result: SystemCallResults, Return2: uint32, Return3: uint32, Return4: uint32)
      requires Valid()
      requires IsDeferred(inner.result) ==> |Unqueued| > 0
      modifies this, Pool
      ensures Valid() && Pool == old(Pool)
      ensures result == inner.result
      ensures Return2 == inner.Return2 && Return3 == inner.Return3 && Return4 == inner.Return4
      ensures IsDeferred(inner.result) ==>
                && Unqueued == old(Unqueued)[1..]
                && Queued == old(Queued) + [old(Unqueued)[0]]
                && KeyOf(old(Unqueued)[0]) == (callerProcessId, callerThreadId)
                && WorkerAwake
                && (forall x :: x in Pool && x != old(Unqueued)[0] ==> unchanged(x))
      ensures !IsDeferred(inner.result) ==>
                && Unqueued == old(Unqueued) && Queued == old(Queued)
                && WorkerAwake == old(WorkerAwake)
                && unchanged(Pool)
    {
      result, Return2, Return3, Return4 := inner.result, inner.Return2, inner.Return3, inner.Return4;
      if result == Deferred || result == Deferred_PermitActions {
        MoveHead(Unqueued, Queued, Pool);
        var info := Unqueued[0];
        Unqueued := Unqueued[1..];
        InFirstNotInSecond(Queued + [info], Unqueued, Pool, |Queued|);
        info.ProcessId := callerProcessId;
        info.ThreadId := callerThreadId;
        Queued := Queued + [info];
        WorkerAwake := true;
      }
    }

    /**
     * The state between popping a descriptor off the pending queue and
     * pushing it onto the free queue: `info` is in neither queue but still
     * counted once, so free + pending + in flight is the capacity.
     */
    ghost predicate InFlight(info: DeferredSyscallInfo)
      reads this, Pool
    {
      && |Pool| == Capacity
      && |Unqueued| + |Queued| + 1 == Capacity
      && ExactlyOnce(Unqueued + [info], Queued, Pool)
      && (forall i :: 0 <= i < |Unqueued| ==> Unqueued[i] in Pool)
      && Zeroed(Unqueued)
    }

    /** `Queued.Pop()` in the drain loop. */
    method PopPending() returns (info: DeferredSyscallInfo)
      requires Valid() && |Queued| > 0
      modifies this
      ensures InFlight(info) && Pool == old(Pool) && WorkerAwake == old(WorkerAwake)
      ensures info == old(Queued)[0] && KeyOf(info) == old(KeyOf(Queued[0]))
      ensures Queued == old(Queued)[1..] && Unqueued == old(Unqueued)
      ensures forall j :: 0 <= j < |Queued| ==> Queued[j] != info
    {
      MoveHead(Queued, Unqueued, Pool);
      info := Queued[0];
      Queued := Queued[1..];
      InFirstNotInSecond(Unqueued + [info], Queued, Pool, |Unqueued|);
    }

    /** Zeroing the descriptor and `Unqueued.Push(info)` in the drain loop. */
    method Recycle(info: DeferredSyscallInfo)
      requires InFlight(info)
      requires forall j :: 0 <= j < |Queued| ==> Queued[j] != info
      modifies this, info
      ensures Valid() && Pool == old(Pool) && WorkerAwake == old(WorkerAwake)
      ensures Unqueued == old(Unqueued) + [info] && Queued == old(Queued)
      ensures KeyOf(info) == (0, 0)
      ensures KeysOf(Queued) == old(KeysOf(Queued))
    {
      info.ProcessId := 0;
      info.ThreadId := 0;
      Unqueued := Unqueued + [info];
    }

    /**
     * The first half of a pass of the drain loop: pop the head of the pending
     * queue and finish its call on the thread whose ids it carries.
     */
    method TakeAndFinish(threads: map<ThreadKey, Thread>, env: Collaborators) returns (info: DeferredSyscallInfo)
      requires Valid() && |Queued| > 0
      requires KeyOf(Queued[0]) in threads && DistinctThreads(threads)
      modifies this, threads.Values
      ensures InFlight(info) && Pool == old(Pool) && WorkerAwake == old(WorkerAwake)
      ensures info == old(Queued)[0] && KeyOf(info) == old(KeyOf(Queued[0]))
      ensures Queued == old(Queued)[1..] && Unqueued == old(Unqueued)
      ensures forall j :: 0 <= j < |Queued| ==> Queued[j] != info
      ensures KeysOf(Queued) == old(KeysOf(Queued))[1..]
      ensures ThreadViews(threads) == FinishAt(old(ThreadViews(threads)), KeyOf(info), env)
    {
      ghost var keys := KeysOf(Queued);
      label Popping:
      info := PopPending();
      assert KeysOf(Queued) == keys[1..];
      assert unchanged@Popping(threads.Values);
      var key := (info.ProcessId, info.ThreadId);
      label Finishing:
      FinishOnThread(threads, key, env);
      assert unchanged@Finishing(this, Pool);
    }

    /**
     * One pass of the drain loop of `DeferredSyscallsThread_Main`: pop the head
     * of the pending queue, finish its call on the caller's thread, zero the
     * descriptor and push it onto the free queue -- also when the call stays
     * deferred. Only the popped descriptor and the caller's thread change.
     */
    method DrainOne(threads: map<ThreadKey, Thread>, env: Collaborators)
      requires Valid() && |Queued| > 0
      requires KeyOf(Queued[0]) in threads && DistinctThreads(threads)
      modifies this, Queued[0], threads.Values
      ensures Valid() && Pool == old(Pool) && WorkerAwake == old(WorkerAwake)
      ensures Queued == old(Queued)[1..]
      ensures Unqueued == old(Unqueued) + [old(Queued)[0]]
      ensures KeysOf(Queued) == old(KeysOf(Queued))[1..]
      ensures ThreadViews(threads) == FinishAt(old(ThreadViews(threads)), old(KeyOf(Queued[0])), env)
    {
      var info := TakeAndFinish(threads, env);
      label Recycling:
      Recycle(info);
      assert unchanged@Recycling(threads.Values);
    }

    /**
     * The inner loop of `DeferredSyscallsThread_Main`: drain the pending queue
     * in order, the i-th call finished with the i-th collaborator answers.
     * Every pending descriptor is returned to the free queue, in order, zeroed.
     */
    method DrainQueued(threads: map<ThreadKey, Thread>, envs: seq<Collaborators>)
      requires Valid() && DistinctThreads(threads)
      requires |envs| == |Queued|
      requires forall i :: 0 <= i < |Queued| ==> KeyOf(Queued[i]) in threads
      modifies this, Pool, threads.Values
      ensures Valid() && Pool == old(Pool) && WorkerAwake == old(WorkerAwake)
      ensures Queued == [] && Unqueued == old(Unqueued) + old(Queued)
      ensures forall x :: x in old(Queued) ==> KeyOf(x) == (0, 0)
      ensures ThreadViews(threads) == DrainSpec(old(ThreadViews(threads)), old(KeysOf(Queued)), envs)
    {
      ghost var q0 := Queued;
      ghost var u0 := Unqueued;
      ghost var keys := KeysOf(Queued);
      ghost var views0 := ThreadViews(threads);
      var i := 0;
      while |Queued| > 0
        invariant Valid() && Pool == old(Pool) && WorkerAwake == old(WorkerAwake)
        invariant 0 <= i <= |q0| && |envs| == |q0| == |keys|
        invariant Queued == q0[i..] && Unqueued == u0 + q0[..i]
        invariant KeysOf(Queued) == keys[i..]
        invariant forall j :: 0 <= j < |keys| ==> keys[j] in views0
        invariant ThreadViews(threads) == DrainSpec(views0, keys[..i], envs[..i])
        decreases |Queued|
      {
        assert KeysOf(Queued)[0] == keys[i];
        DrainOne(threads, envs[i]);
        DrainStep(views0, keys, envs, i);
        AppendStep(u0, q0, i);
        SliceStep(keys, i);
        i := i + 1;
      }
      WholePrefix(keys);
      WholePrefix(envs);
      WholePrefix(q0);
      ZeroedTail(u0, q0);
    }
  }

  // ---------------------------------------------------------------------
  // IRQ dispatch

  /** A process as the IRQ dispatch sees it: its id and the IRQ lines it handles. */
  datatype ProcessEntry = ProcessEntry(Id: uint32, IRQsToHandle: set<uint32>)

  /** The thread argument of `SwitchProcess`: `THREAD_DONT_CARE` or a thread id. */
  datatype ThreadChoice = ThreadDontCare | ThreadWithId(tid: uint32)

  /** The calls `HandleIRQ` makes into the process manager and the handlers. */
  datatype IrqEvent =
    | SwitchProcess(processId: uint32, thread: ThreadChoice)
    | CallIRQHandler(processId: uint32, irq: uint32)

  /**
   * The indices, from `i` on, of the processes whose IRQ handler is called:
   * the subscribed ones in list order, up to and including the first whose
   * handler returns 0.
   */
  function Invoked(num: uint32, processes: seq<ProcessEntry>, replies: seq<int>, i: nat): seq<nat>
    requires |replies| == |processes| && i <= |processes|
    decreases |processes| - i
  {
    if i == |processes| then []
    else if num in processes[i].IRQsToHandle then
      [i] + (if replies[i] == 0 then [] else Invoked(num, processes, replies, i + 1))
    else Invoked(num, processes, replies, i + 1)
  }

  /** The calls made for the handlers at the given process indices: switch in, then call. */
  function HandlerCalls(num: uint32, processes: seq<ProcessEntry>, indices: seq<nat>): seq<IrqEvent>
    requires forall j :: 0 <= j < |indices| ==> indices[j] < |processes|
  {
    if indices == [] then []
    else
      var last := indices[|indices| - 1];
      HandlerCalls(num, processes, indices[..|indices| - 1])
        + [SwitchProcess(processes[last].Id, ThreadDontCare), CallIRQHandler(processes[last].Id, num)]
  }

  lemma {:induction false} InvokedInRange(num: uint32, processes: seq<ProcessEntry>, replies: seq<int>, i: nat)
    requires |replies| == |processes| && i <= |processes|
    ensures forall j :: 0 <= j < |Invoked(num, processes, replies, i)| ==>
              i <= Invoked(num, processes, replies, i)[j] < |processes|
    decreases |processes| - i
  {
    if i < |processes| {
      InvokedInRange(num, processes, replies, i + 1);
    }
  }

  /** One step of the walk: process i is skipped, is the last one called, or is called and the walk goes on. */
  lemma InvokedStep(num: uint32, processes: seq<ProcessEntry>, replies: seq<int>, i: nat, done: seq<nat>)
    requires |replies| == |processes| && i < |processes|
    ensures num !in processes[i].IRQsToHandle ==>
              done + Invoked(num, processes, replies, i) == done + Invoked(num, processes, replies, i + 1)
    ensures num in processes[i].IRQsToHandle && replies[i] == 0 ==>
              done + Invoked(num, processes, replies, i) == done + [i]
    ensures num in processes[i].IRQsToHandle && replies[i] != 0 ==>
              done + Invoked(num, processes, replies, i) == (done + [i]) + Invoked(num, processes, replies, i + 1)
  {
  }

  /** Calling one more handler appends its switch and its call. */
  lemma HandlerCallsSnoc(num: uint32, processes: seq<ProcessEntry>, done: seq<nat>, i: nat)
    requires forall j :: 0 <= j < |done| ==> done[j] < |processes|
    requires i < |processes|
    ensures HandlerCalls(num, processes, done + [i])
            == HandlerCalls(num, processes, done) + [SwitchProcess(processes[i].Id, ThreadDontCare), CallIRQHandler(processes[i].Id, num)]
  {
    assert (done + [i])[..|done|] == done;
  }

  /**
   * `HandleIRQ` for line `num`: the process list is walked in order, each
   * subscribed process is switched to and its handler called, and the walk
   * stops at the first handler that returns 0 (`replies[i]` is what process
   * i's handler returns). The original process and thread are switched back
   * to only if some switch was made.
   */
  method HandleIRQ(num: uint32, processes: seq<ProcessEntry>, replies: seq<int>, currProcessId: uint32, currThreadId: uint32)
    returns (events: seq<IrqEvent>)
    requires |replies| == |processes|
    ensures InvokedBounds(num, processes, replies)
    ensures events == HandlerCalls(num, processes, Invoked(num, processes, replies, 0))
                      + (if Invoked(num, processes, replies, 0) == [] then []
                         else [SwitchProcess(currProcessId, ThreadWithId(currThreadId))])
  {
    InvokedInRange(num, processes, replies, 0);
    ghost var all := Invoked(num, processes, replies, 0);
    ghost var done: seq<nat> := [];
    var switched := false;
    var stopped := false;
    events := [];
    var i: nat := 0;
    while i < |processes| && !stopped
      invariant 0 <= i <= |processes|
      invariant forall j :: 0 <= j < |done| ==> done[j] < i
      invariant !stopped ==> all == done + Invoked(num, processes, replies, i)
      invariant stopped ==> all == done
      invariant events == HandlerCalls(num, processes, done)
      invariant switched <==> done != []
    {
      var p := processes[i];
      InvokedStep(num, processes, replies, i, done);
      if num in p.IRQsToHandle {
        HandlerCallsSnoc(num, processes, done, i);
        events := events + [SwitchProcess(p.Id, ThreadDontCare), CallIRQHandler(p.Id, num)];
        switched := true;
        done := done + [i];
        if replies[i] == 0 {
          stopped := true;
        }
      }
      i := i + 1;
    }
    if switched {
      events := events + [SwitchProcess(currProcessId, ThreadWithId(currThreadId))];
    }
  }

  ghost predicate InvokedBounds(num: uint32, processes: seq<ProcessEntry>, replies: seq<int>)
    requires |replies| == |processes|
  {
    forall j :: 0 <= j < |Invoked(num, processes, replies, 0)| ==> Invoked(num, processes, replies, 0)[j] < |processes|
  }

  /** No subscribed process before `j` (from `i` on) has a handler that returns 0. */
  ghost predicate ChainOpenUpTo(num: uint32, processes: seq<ProcessEntry>, replies: seq<int>, i: nat, j: nat)
    requires |replies| == |processes| && j <= |processes|
  {
    forall k :: i <= k < j && num in processes[k].IRQsToHandle ==> replies[k] != 0
  }

  /**
   * Process j's handler is called exactly when j is subscribed to the line and
   * every subscribed process before it returned non-zero.
   */
  lemma {:induction false} InvokedExactly(num: uint32, processes: seq<ProcessEntry>, replies: seq<int>, i: nat, j: nat)
    requires |replies| == |processes| && i <= j < |processes|
    ensures j in Invoked(num, processes, replies, i) <==>
              num in processes[j].IRQsToHandle && ChainOpenUpTo(num, processes, replies, i, j)
    decreases |processes| - i
  {
    InvokedInRange(num, processes, replies, i);
    var rest := Invoked(num, processes, replies, i + 1);
    if i == j {
      if num in processes[i].IRQsToHandle {
        assert Invoked(num, processes, replies, i)[0] == j;
      } else {
        InvokedInRange(num, processes, replies, i + 1);
        assert j !in rest;
      }
    } else {
      InvokedExactly(num, processes, replies, i + 1, j);
      if num in processes[i].IRQsToHandle && replies[i] == 0 {
        assert Invoked(num, processes, replies, i) == [i];
        assert !ChainOpenUpTo(num, processes, replies, i, j);
      }
    }
  }

  /** The handlers are called in process-list order, each at most once. */
  lemma {:induction false} InvokedIncreasing(num: uint32, processes: seq<ProcessEntry>, replies: seq<int>, i: nat)
    requires |replies| == |processes| && i <= |processes|
    ensures forall a, b :: 0 <= a < b < |Invoked(num, processes, replies, i)| ==>
              Invoked(num, processes, replies, i)[a] < Invoked(num, processes, replies, i)[b]
    decreases |processes| - i
  {
    if i < |processes| {
      InvokedIncreasing(num, processes, replies, i + 1);
      InvokedInRange(num, processes, replies, i + 1);
    }
  }

  /** The switch back to the interrupted process happens exactly when some process handles the line. */
  lemma {:induction false} SwitchBackIffSubscriber(num: uint32, processes: seq<ProcessEntry>, replies: seq<int>, i: nat)
    requires |replies| == |processes| && i <= |processes|
    ensures Invoked(num, processes, replies, i) != [] <==>
              exists j :: i <= j < |processes| && num in processes[j].IRQsToHandle
    decreases |processes| - i
  {
    if i < |processes| {
      SwitchBackIffSubscriber(num, processes, replies, i + 1);
      if num in processes[i].IRQsToHandle {
        assert Invoked(num, processes, replies, i)[0] == i;
      }
    }
  }
}
