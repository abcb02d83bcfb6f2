/**
 * The Timer class of Timer.h / Timer.cpp with the operating system taken
 * out. Each foreign call (CreateTimerQueue, timerfd_create, epoll_ctl, ...)
 * is replaced by a parameter carrying its return value, and is recorded in
 * a ghost trace of calls kept by the backend object. On Linux the backend
 * also tracks which descriptors are open and whether the timer descriptor
 * is registered with the epoll set.
 */
module Timer {
  import opened CppInt
  import opened Arming

  /** `Interval` is `std::chrono::milliseconds`: a whole number of milliseconds. */
  type Interval = Int64

  /**
   * A `TimerCallback` (`std::function<void(void)>`): either empty or some
   * target, identified by an opaque token. What the target does is not
   * modelled.
   */
  datatype Callback = Empty | Target(token: nat) {
    /** The callback's conversion to `bool`. */
    predicate NonEmpty() {
      Target?
    }
  }

  /** How a call ends for its caller. */
  datatype Outcome =
    | Returns
    | Throws(what: string)   // an exception propagates to the caller
    | Terminates             // std::terminate is called

  const INIT_FAILED: string := "Failed to initialize timer!"
  const START_FAILED: string := "Failed to start timer!"
  /** What `std::thread::join` throws for a thread that is not joinable. */
  const JOIN_INVALID: string := "std::system_error: invalid_argument"
  /** What the constructor of `std::thread` throws when no thread can be started. */
  const THREAD_FAILED: string := "std::system_error: resource_unavailable_try_again"

  /** A Win32 `HANDLE`, and the value the code compares handles with. */
  type Handle = int
  const INVALID_HANDLE_VALUE: Handle := -1

  /** The Win32 calls the timer makes, with the arguments it passes and the result it checks. */
  datatype Win32Call =
    | CreateTimerQueue(result: Handle)
    | CreateTimerQueueTimer(queue: Handle, request: QueueTimerRequest, success: bool)
    | DeleteTimerQueueTimer(queue: Handle, timer: Handle)
    | DeleteTimerQueueEx(queue: Handle)

  /** The Linux calls the timer makes, with the arguments it passes and the result it checks. */
  datatype LinuxCall =
    | TimerfdCreate(result: int)
    | EpollCreate(result: int)
    | EpollCtlAdd(epfd: int, fd: int, result: int)
    | TimerfdSettime(fd: int, value: ItimerSpec, result: int)
    | Close(fd: int)
    | SpawnPoller
    | JoinPoller

  /** `Timer::TimerImpl` when built for Windows. */
  class Win32Backend {
    var timerQueue: Handle
    var timerQueueTimer: Handle
    ghost var trace: seq<Win32Call>

    /**
     * `new Timer::TimerImpl` default-initialises the struct, so both handles
     * are left indeterminate: the constructor says nothing about them.
     */
    constructor ()
      ensures trace == []
    {
      trace := [];
    }
  }

  /** `Timer::TimerImpl` when built for Linux. */
  class LinuxBackend {
    var timerfd: int
    var epollfd: int
    /** `poller.joinable()` */
    var pollerJoinable: bool
    ghost var timerfdOpen: bool
    ghost var epollfdOpen: bool
    /** The timer descriptor is in the epoll set's interest list. */
    ghost var registered: bool
    ghost var trace: seq<LinuxCall>

    /** Only an open descriptor can be registered with an open epoll set. */
    ghost predicate Valid()
      reads this
    {
      registered ==> timerfdOpen && epollfdOpen
    }

    /** Both descriptors are left indeterminate; the default `std::thread` is not joinable. */
    constructor ()
      ensures Valid()
      ensures !pollerJoinable && !timerfdOpen && !epollfdOpen && !registered && trace == []
    {
      pollerJoinable := false;
      timerfdOpen, epollfdOpen, registered := false, false, false;
      trace := [];
    }

    /** `close(impl->timerfd)`: closing the descriptor also drops it from the epoll set. */
    method CloseTimerfd()
      modifies this
      ensures !timerfdOpen && !registered
      ensures trace == old(trace) + [Close(timerfd)]
      ensures timerfd == old(timerfd) && epollfd == old(epollfd)
      ensures epollfdOpen == old(epollfdOpen) && pollerJoinable == old(pollerJoinable)
    {
      trace := trace + [Close(timerfd)];
      timerfdOpen, registered := false, false;
    }

    /** `close(impl->epollfd)`: closing the epoll set discards its interest list. */
    method CloseEpollfd()
      modifies this
      ensures !epollfdOpen && !registered
      ensures trace == old(trace) + [Close(epollfd)]
      ensures timerfd == old(timerfd) && epollfd == old(epollfd)
      ensures timerfdOpen == old(timerfdOpen) && pollerJoinable == old(pollerJoinable)
    {
      trace := trace + [Close(epollfd)];
      epollfdOpen, registered := false, false;
    }
  }

  datatype Platform = Windows | Linux

  /** The `impl` pointer: exactly one backend, the one of the platform built for. */
  datatype TimerImpl = Win32Impl(win: Win32Backend) | LinuxImpl(linux: LinuxBackend)

  /**
   * The calls the Linux `InitializeImpl` makes on each of its four paths,
   * given what `timerfd_create`, `epoll_create` and `epoll_ctl` return.
   */
  function LinuxInitCalls(tfd: int, efd: int, ctl: int): seq<LinuxCall> {
    if tfd == -1 then [TimerfdCreate(tfd)]
    else if efd == -1 then [TimerfdCreate(tfd), EpollCreate(efd), Close(tfd)]
    else if ctl == -1 then [TimerfdCreate(tfd), EpollCreate(efd), EpollCtlAdd(efd, tfd, ctl), Close(efd), Close(tfd)]
    else [TimerfdCreate(tfd), EpollCreate(efd), EpollCtlAdd(efd, tfd, ctl)]
  }

  /** The descriptors a sequence of calls obtains from the kernel, in order. */
  function OpenedFds(calls: seq<LinuxCall>): seq<int> {
    if calls == [] then [] else
      var here := match calls[0]
        case TimerfdCreate(r) => if r != -1 then [r] else []
        case EpollCreate(r) => if r != -1 then [r] else []
        case _ => [];
      here + OpenedFds(calls[1..])
  }

  /** The descriptors a sequence of calls closes, in order. */
  function ClosedFds(calls: seq<LinuxCall>): seq<int> {
    if calls == [] then [] else
      (if calls[0].Close? then [calls[0].fd] else []) + ClosedFds(calls[1..])
  }

  /**
   * The Linux `InitializeImpl` closes, when it fails, exactly the descriptors
   * it opened, newest first; when it succeeds it holds both and closes none.
   */
  lemma LinuxInitReleasesOnFailure(tfd: int, efd: int, ctl: int)
    ensures tfd != -1 && efd != -1 && ctl != -1 ==>
      OpenedFds(LinuxInitCalls(tfd, efd, ctl)) == [tfd, efd] && ClosedFds(LinuxInitCalls(tfd, efd, ctl)) == []
    ensures !(tfd != -1 && efd != -1 && ctl != -1) ==>
      var got := OpenedFds(LinuxInitCalls(tfd, efd, ctl));
      var shut := ClosedFds(LinuxInitCalls(tfd, efd, ctl));
      |shut| == |got| && forall i :: 0 <= i < |shut| ==> shut[i] == got[|got| - 1 - i]
  {
    LinuxInitOpens(tfd, efd, ctl);
    LinuxInitCloses(tfd, efd, ctl);
  }

  /** The descriptors each path of the Linux `InitializeImpl` obtains. */
  lemma LinuxInitOpens(tfd: int, efd: int, ctl: int)
    ensures OpenedFds(LinuxInitCalls(tfd, efd, ctl)) ==
      if tfd == -1 then [] else if efd == -1 then [tfd] else [tfd, efd]
  {
    var c := LinuxInitCalls(tfd, efd, ctl);
    if tfd == -1 {
      assert c[1..] == [];
    } else if efd == -1 {
      var c1 := c[1..]; var c2 := c1[1..];
      assert c2[1..] == [];
      assert OpenedFds(c2) == [];
      assert OpenedFds(c1) == [];
    } else if ctl == -1 {
      var c1 := c[1..]; var c2 := c1[1..]; var c3 := c2[1..]; var c4 := c3[1..];
      assert c4[1..] == [];
      assert OpenedFds(c4) == [];
      assert OpenedFds(c3) == [];
      assert OpenedFds(c2) == [];
      assert OpenedFds(c1) == [efd];
    } else {
      var c1 := c[1..]; var c2 := c1[1..];
      assert c2[1..] == [];
      assert OpenedFds(c2) == [];
      assert OpenedFds(c1) == [efd];
    }
  }

  /** The descriptors each path of the Linux `InitializeImpl` closes, in order. */
  lemma LinuxInitCloses(tfd: int, efd: int, ctl: int)
    ensures ClosedFds(LinuxInitCalls(tfd, efd, ctl)) ==
      if tfd == -1 then [] else if efd == -1 then [tfd] else if ctl == -1 then [efd, tfd] else []
  {
    var c := LinuxInitCalls(tfd, efd, ctl);
    if tfd == -1 {
      assert c[1..] == [];
    } else if efd == -1 {
      var c1 := c[1..]; var c2 := c1[1..];
      assert c2[1..] == [];
      assert ClosedFds(c2) == [tfd];
      assert ClosedFds(c1) == [tfd];
    } else if ctl == -1 {
      var c1 := c[1..]; var c2 := c1[1..]; var c3 := c2[1..]; var c4 := c3[1..];
      assert c4[1..] == [];
      assert ClosedFds(c4) == [tfd];
      assert ClosedFds(c3) == [efd, tfd];
      assert ClosedFds(c2) == [efd, tfd];
      assert ClosedFds(c1) == [efd, tfd];
    } else {
      var c1 := c[1..]; var c2 := c1[1..];
      assert c2[1..] == [];
      assert ClosedFds(c2) == [];
      assert ClosedFds(c1) == [];
    }
  }

  /**
   * Whether the Win32 thread-pool trampoline `WinTimerCallback`, given the
   * timer as its parameter, calls the user callback: only for a non-null
   * timer whose callback is not empty.
   */
  function TrampolineInvokes(param: Timer?): (invokes: bool)
    reads param
    ensures invokes ==> param != null && param.callback != Empty
    ensures param != null && param.callback.Target? ==> invokes
  {
    param != null && param.callback.NonEmpty()
  }

  class Timer {
    var period: Interval
    var callback: Callback
    var isPeriodic: bool
    /** Never set by the constructor: its value is indeterminate until Start, Stop or destruction. */
    var isRunning: bool
    const impl: TimerImpl

    /**
     * The C++ constructor up to the allocation of `impl`: stores the
     * configuration as given. `isRunning` is left indeterminate.
     */
    constructor (platform: Platform, timerPeriod: Interval, timerCallback: Callback, periodic: bool := false)
      ensures period == timerPeriod && callback == timerCallback && isPeriodic == periodic
      ensures platform == Windows ==> impl.Win32Impl? && fresh(impl.win) && impl.win.trace == []
      ensures platform == Linux ==> impl.LinuxImpl? && fresh(impl.linux) && impl.linux.Valid()
      ensures platform == Linux ==> !impl.linux.timerfdOpen && !impl.linux.epollfdOpen
      ensures platform == Linux ==> !impl.linux.pollerJoinable && impl.linux.trace == []
    {
      period := timerPeriod;
      callback := timerCallback;
      isPeriodic := periodic;
      if platform == Windows {
        var w := new Win32Backend();
        impl := Win32Impl(w);
      } else {
        var l := new LinuxBackend();
        impl := LinuxImpl(l);
      }
    }

    method GetPeriod() returns (p: Interval)
      ensures p == period
    {
      p := period;
    }

    method SetPeriod(newPeriod: Interval)
      modifies this
      ensures period == newPeriod
      ensures callback == old(callback) && isPeriodic == old(isPeriodic) && isRunning == old(isRunning)
    {
      period := newPeriod;
    }

    method GetCallback() returns (cb: Callback)
      ensures cb == callback
    {
      cb := callback;
    }

    method SetCallback(newCallback: Callback)
      modifies this
      ensures callback == newCallback
      ensures period == old(period) && isPeriodic == old(isPeriodic) && isRunning == old(isRunning)
    {
      callback := newCallback;
    }

    method IsPeriodic() returns (b: bool)
      ensures b == isPeriodic
    {
      b := isPeriodic;
    }

    method SetPeriodic(periodic: bool)
      modifies this
      ensures isPeriodic == periodic
      ensures period == old(period) && callback == old(callback) && isRunning == old(isRunning)
    {
      isPeriodic := periodic;
    }

    method IsRunning() returns (b: bool)
      ensures b == isRunning
    {
      b := isRunning;
    }

    /**
     * One pass of the Linux poller loop, without the loop: whether the
     * callback is called, given what `epoll_wait` and `read` return.
     */
    function PollerInvokes(waitResult: int, readResult: int): (invokes: bool)
      reads this
      ensures invokes ==> waitResult != -1 && readResult != -1 && callback != Empty
      ensures waitResult != -1 && readResult != -1 && callback.Target? ==> invokes
    {
      if waitResult == -1 then false else readResult != -1 && callback.NonEmpty()
    }

    // ---------------------------------------------------------------- Windows

    /** The whole C++ constructor on Windows; `queue` is what `CreateTimerQueue` returns. */
    static method CreateWin32(queue: Handle, timerPeriod: Interval, timerCallback: Callback, periodic: bool := false)
      returns (t: Timer, outcome: Outcome)
      ensures fresh(t) && t.impl.Win32Impl? && fresh(t.impl.win)
      ensures t.period == timerPeriod && t.callback == timerCallback && t.isPeriodic == periodic
      ensures t.impl.win.timerQueue == queue && t.impl.win.trace == [CreateTimerQueue(queue)]
      ensures outcome == if queue != INVALID_HANDLE_VALUE then Returns else Throws(INIT_FAILED)
    {
      t := new Timer(Windows, timerPeriod, timerCallback, periodic);
      var ok := t.InitializeImplWin32(queue);
      outcome := if ok then Returns else Throws(INIT_FAILED);
    }

    /** Win32 `InitializeImpl`: stores the new queue and reports whether it is valid. */
    method InitializeImplWin32(queue: Handle) returns (ok: bool)
      requires impl.Win32Impl?
      modifies impl.win
      ensures ok <==> queue != INVALID_HANDLE_VALUE
      ensures impl.win.timerQueue == queue && impl.win.timerQueueTimer == old(impl.win.timerQueueTimer)
      ensures impl.win.trace == old(impl.win.trace) + [CreateTimerQueue(queue)]
    {
      impl.win.timerQueue := queue;
      impl.win.trace := impl.win.trace + [CreateTimerQueue(queue)];
      ok := queue != INVALID_HANDLE_VALUE;
    }

    /**
     * Win32 `CleanupImpl`: deletes the queue timer and then the queue, each
     * only if its handle is not INVALID_HANDLE_VALUE. Neither handle is reset.
     */
    method CleanupImplWin32()
      requires impl.Win32Impl?
      modifies impl.win
      ensures impl.win.timerQueue == old(impl.win.timerQueue)
      ensures impl.win.timerQueueTimer == old(impl.win.timerQueueTimer)
      ensures impl.win.trace == old(impl.win.trace)
        + (if impl.win.timerQueueTimer != INVALID_HANDLE_VALUE
           then [DeleteTimerQueueTimer(impl.win.timerQueue, impl.win.timerQueueTimer)] else [])
        + (if impl.win.timerQueue != INVALID_HANDLE_VALUE
           then [DeleteTimerQueueEx(impl.win.timerQueue)] else [])
    {
      var w := impl.win;
      var deleteTimer := if w.timerQueueTimer != INVALID_HANDLE_VALUE
        then [DeleteTimerQueueTimer(w.timerQueue, w.timerQueueTimer)] else [];
      w.trace := w.trace + deleteTimer;
      var deleteQueue := if w.timerQueue != INVALID_HANDLE_VALUE
        then [DeleteTimerQueueEx(w.timerQueue)] else [];
      w.trace := w.trace + deleteQueue;
    }

    /**
     * Win32 `Start`: asks for a queue timer due at once that repeats with the
     * period when periodic; `success` and `newTimer` are what
     * `CreateTimerQueueTimer` returns and writes. `isRunning` becomes true
     * only on success; on failure it throws and nothing but the trace changes.
     */
    method StartWin32(success: bool, newTimer: Handle) returns (outcome: Outcome)
      requires impl.Win32Impl?
      modifies this, impl.win
      ensures outcome == if success then Returns else Throws(START_FAILED)
      ensures isRunning == (success || old(isRunning))
      ensures impl.win.trace == old(impl.win.trace)
        + [CreateTimerQueueTimer(impl.win.timerQueue, QueueTimerArgs(period, isPeriodic), success)]
      ensures impl.win.timerQueueTimer == if success then newTimer else old(impl.win.timerQueueTimer)
      ensures impl.win.timerQueue == old(impl.win.timerQueue)
      ensures period == old(period) && callback == old(callback) && isPeriodic == old(isPeriodic)
    {
      var p := GetPeriod();
      var request := QueueTimerArgs(p, isPeriodic);
      var w := impl.win;
      w.trace := w.trace + [CreateTimerQueueTimer(w.timerQueue, request, success)];
      if success {
        w.timerQueueTimer := newTimer;
      }
      if !success {
        outcome := Throws(START_FAILED);
        return;
      }
      isRunning := true;
      outcome := Returns;
    }

    /**
     * Win32 `Stop`: clears `isRunning`, deletes the queue timer and the queue,
     * and creates a fresh queue (`queue` is what `CreateTimerQueue` returns;
     * whether it is valid is ignored). The stale timer handle is kept.
     */
    method StopWin32(queue: Handle)
      requires impl.Win32Impl?
      modifies this, impl.win
      ensures !isRunning
      ensures period == old(period) && callback == old(callback) && isPeriodic == old(isPeriodic)
      ensures impl.win.timerQueue == queue
      ensures impl.win.timerQueueTimer == old(impl.win.timerQueueTimer)
      ensures impl.win.trace == old(impl.win.trace)
        + (if old(impl.win.timerQueueTimer) != INVALID_HANDLE_VALUE
           then [DeleteTimerQueueTimer(old(impl.win.timerQueue), old(impl.win.timerQueueTimer))] else [])
        + (if old(impl.win.timerQueue) != INVALID_HANDLE_VALUE
           then [DeleteTimerQueueEx(old(impl.win.timerQueue))] else [])
        + [CreateTimerQueue(queue)]
    {
      isRunning := false;
      CleanupImplWin32();
      var _ := InitializeImplWin32(queue);
    }

    /** The Win32 destructor: clears `isRunning` and deletes the queue timer and the queue. */
    method DestroyWin32()
      requires impl.Win32Impl?
      modifies this, impl.win
      ensures !isRunning
      ensures impl.win.timerQueue == old(impl.win.timerQueue)
      ensures impl.win.timerQueueTimer == old(impl.win.timerQueueTimer)
      ensures impl.win.trace == old(impl.win.trace)
        + (if impl.win.timerQueueTimer != INVALID_HANDLE_VALUE
           then [DeleteTimerQueueTimer(impl.win.timerQueue, impl.win.timerQueueTimer)] else [])
        + (if impl.win.timerQueue != INVALID_HANDLE_VALUE
           then [DeleteTimerQueueEx(impl.win.timerQueue)] else [])
    {
      isRunning := false;
      CleanupImplWin32();
    }

    // ------------------------------------------------------------------ Linux

    /**
     * The whole C++ constructor on Linux; `tfd`, `efd` and `ctl` are what
     * `timerfd_create`, `epoll_create` and `epoll_ctl` return. When it throws,
     * no descriptor is left open.
     */
    static method CreateLinux(tfd: int, efd: int, ctl: int, timerPeriod: Interval, timerCallback: Callback, periodic: bool := false)
      returns (t: Timer, outcome: Outcome)
      ensures fresh(t) && t.impl.LinuxImpl? && fresh(t.impl.linux) && t.impl.linux.Valid()
      ensures t.period == timerPeriod && t.callback == timerCallback && t.isPeriodic == periodic
      ensures outcome == if tfd != -1 && efd != -1 && ctl != -1 then Returns else Throws(INIT_FAILED)
      ensures outcome == Returns ==> t.impl.linux.timerfdOpen && t.impl.linux.epollfdOpen && t.impl.linux.registered
      ensures outcome != Returns ==> !t.impl.linux.timerfdOpen && !t.impl.linux.epollfdOpen
      ensures t.impl.linux.timerfd == tfd && (tfd != -1 ==> t.impl.linux.epollfd == efd)
      ensures !t.impl.linux.pollerJoinable && t.impl.linux.trace == LinuxInitCalls(tfd, efd, ctl)
    {
      t := new Timer(Linux, timerPeriod, timerCallback, periodic);
      var ok := t.InitializeImplLinux(tfd, efd, ctl);
      outcome := if ok then Returns else Throws(INIT_FAILED);
    }

    /**
     * Linux `InitializeImpl`: creates the timer descriptor and the epoll set
     * and registers the one with the other, closing on each failure what the
     * call opened before it. Only the constructor calls it, on a fresh backend.
     */
    method InitializeImplLinux(tfd: int, efd: int, ctl: int) returns (ok: bool)
      requires impl.LinuxImpl?
      requires !impl.linux.timerfdOpen && !impl.linux.epollfdOpen
      modifies impl.linux
      ensures impl.linux.Valid()
      ensures ok <==> tfd != -1 && efd != -1 && ctl != -1
      ensures ok ==> impl.linux.timerfdOpen && impl.linux.epollfdOpen && impl.linux.registered
      ensures impl.linux.timerfd == tfd && (tfd != -1 ==> impl.linux.epollfd == efd)
      ensures !ok ==> !impl.linux.timerfdOpen && !impl.linux.epollfdOpen && !impl.linux.registered
      ensures impl.linux.trace == old(impl.linux.trace) + LinuxInitCalls(tfd, efd, ctl)
      ensures impl.linux.pollerJoinable == old(impl.linux.pollerJoinable)
    {
      var l := impl.linux;
      l.registered := false;
      l.timerfd := tfd;
      l.trace := l.trace + [TimerfdCreate(tfd)];
      if tfd == -1 {
        return false;
      }
      l.timerfdOpen := true;

      l.epollfd := efd;
      l.trace := l.trace + [EpollCreate(efd)];
      if efd == -1 {
        l.CloseTimerfd();
        return false;
      }
      l.epollfdOpen := true;

      l.trace := l.trace + [EpollCtlAdd(efd, tfd, ctl)];
      if ctl == -1 {
        l.CloseEpollfd();
        l.CloseTimerfd();
        return false;
      }
      l.registered := true;
      return true;
    }

    /**
     * Linux `CleanupImpl`: closes both descriptors, then joins the poller
     * unconditionally, which throws when the poller is not joinable.
     */
    method CleanupImplLinux() returns (outcome: Outcome)
      requires impl.LinuxImpl?
      modifies impl.linux
      ensures impl.linux.Valid()
      ensures outcome == if old(impl.linux.pollerJoinable) then Returns else Throws(JOIN_INVALID)
      ensures !impl.linux.timerfdOpen && !impl.linux.epollfdOpen && !impl.linux.pollerJoinable
      ensures impl.linux.trace == old(impl.linux.trace)
        + [Close(impl.linux.timerfd), Close(impl.linux.epollfd)]
        + (if old(impl.linux.pollerJoinable) then [JoinPoller] else [])
      ensures impl.linux.timerfd == old(impl.linux.timerfd) && impl.linux.epollfd == old(impl.linux.epollfd)
    {
      var l := impl.linux;
      l.CloseTimerfd();
      l.CloseEpollfd();
      if !l.pollerJoinable {
        return Throws(JOIN_INVALID);
      }
      l.trace := l.trace + [JoinPoller];
      l.pollerJoinable := false;
      return Returns;
    }

    /**
     * Linux `Start`: arms the timer descriptor with the period and the
     * periodic flag read now (`settimeResult` is what `timerfd_settime`
     * returns; the kernel rejects an `itimerspec` that is not normalised). If
     * arming fails it closes both descriptors and throws, leaving `isRunning`
     * as it was. Otherwise it sets `isRunning` and builds the poller thread
     * (`spawned` says whether the thread could be started): if it cannot be
     * started the constructor of `std::thread` throws with the timer armed,
     * `isRunning` set and the old poller in place; if it starts, assigning it
     * over a poller that is still joinable calls std::terminate.
     */
    method StartLinux(settimeResult: int, spawned: bool) returns (outcome: Outcome)
      requires impl.LinuxImpl? && impl.linux.Valid()
      requires settimeResult != -1 ==> KernelAccepts(ArmingValue(period, isPeriodic))
      modifies this, impl.linux
      ensures impl.linux.Valid()
      ensures outcome == (if settimeResult == -1 then Throws(START_FAILED)
                          else if !spawned then Throws(THREAD_FAILED)
                          else if old(impl.linux.pollerJoinable) then Terminates else Returns)
      ensures isRunning == (settimeResult != -1 || old(isRunning))
      ensures period == old(period) && callback == old(callback) && isPeriodic == old(isPeriodic)
      ensures impl.linux.timerfd == old(impl.linux.timerfd) && impl.linux.epollfd == old(impl.linux.epollfd)
      ensures settimeResult == -1 ==>
        !impl.linux.timerfdOpen && !impl.linux.epollfdOpen &&
        impl.linux.pollerJoinable == old(impl.linux.pollerJoinable) &&
        impl.linux.trace == old(impl.linux.trace)
          + [TimerfdSettime(impl.linux.timerfd, ArmingValue(period, isPeriodic), -1)]
          + [Close(impl.linux.timerfd), Close(impl.linux.epollfd)]
      ensures settimeResult != -1 ==>
        impl.linux.timerfdOpen == old(impl.linux.timerfdOpen) &&
        impl.linux.epollfdOpen == old(impl.linux.epollfdOpen) &&
        impl.linux.registered == old(impl.linux.registered)
      ensures settimeResult != -1 && !spawned ==>
        impl.linux.pollerJoinable == old(impl.linux.pollerJoinable) &&
        impl.linux.trace == old(impl.linux.trace)
          + [TimerfdSettime(impl.linux.timerfd, ArmingValue(period, isPeriodic), settimeResult)]
      ensures outcome == Returns ==>
        impl.linux.pollerJoinable &&
        impl.linux.trace == old(impl.linux.trace)
          + [TimerfdSettime(impl.linux.timerfd, ArmingValue(period, isPeriodic), settimeResult)]
          + [SpawnPoller]
    {
      var l := impl.linux;
      var timeval := GetPeriod();
      var interval := ArmingValue(timeval, isPeriodic);
      l.trace := l.trace + [TimerfdSettime(l.timerfd, interval, settimeResult)];
      if settimeResult == -1 {
        l.CloseTimerfd();
        l.CloseEpollfd();
        return Throws(START_FAILED);
      }
      isRunning := true;
      if !spawned {
        return Throws(THREAD_FAILED);
      }
      l.trace := l.trace + [SpawnPoller];
      if l.pollerJoinable {
        return Terminates;
      }
      l.pollerJoinable := true;
      return Returns;
    }

    /**
     * Linux `Stop`: clears `isRunning` and joins the poller only if it is
     * joinable. It does not disarm the timer descriptor or close anything,
     * and a Stop on a stopped timer changes nothing.
     */
    method StopLinux()
      requires impl.LinuxImpl?
      modifies this, impl.linux
      ensures !isRunning && !impl.linux.pollerJoinable
      ensures impl.linux.trace == old(impl.linux.trace) + (if old(impl.linux.pollerJoinable) then [JoinPoller] else [])
      ensures period == old(period) && callback == old(callback) && isPeriodic == old(isPeriodic)
      ensures impl.linux.timerfd == old(impl.linux.timerfd) && impl.linux.epollfd == old(impl.linux.epollfd)
      ensures impl.linux.timerfdOpen == old(impl.linux.timerfdOpen)
      ensures impl.linux.epollfdOpen == old(impl.linux.epollfdOpen)
      ensures impl.linux.registered == old(impl.linux.registered)
      ensures !old(isRunning) && !old(impl.linux.pollerJoinable) ==> unchanged(this) && unchanged(impl.linux)
    {
      isRunning := false;
      var l := impl.linux;
      if l.pollerJoinable {
        l.trace := l.trace + [JoinPoller];
        l.pollerJoinable := false;
      }
    }

    /**
     * The Linux destructor: clears `isRunning` and runs CleanupImpl. A
     * destructor may not throw, so a poller that is not joinable (never
     * started, or already joined by Stop) ends the program.
     */
    method DestroyLinux() returns (outcome: Outcome)
      requires impl.LinuxImpl?
      modifies this, impl.linux
      ensures outcome == if old(impl.linux.pollerJoinable) then Returns else Terminates
      ensures !isRunning
      ensures !impl.linux.timerfdOpen && !impl.linux.epollfdOpen && !impl.linux.pollerJoinable
      ensures impl.linux.trace == old(impl.linux.trace)
        + [Close(impl.linux.timerfd), Close(impl.linux.epollfd)]
        + (if old(impl.linux.pollerJoinable) then [JoinPoller] else [])
      ensures impl.linux.timerfd == old(impl.linux.timerfd) && impl.linux.epollfd == old(impl.linux.epollfd)
    {
      isRunning := false;
      var cleanup := CleanupImplLinux();
      outcome := if cleanup == Returns then Returns else Terminates;
    }
  }
}
