/**
 * Client code that drives a Timer through whole lifecycles, showing what
 * the class's contracts imply for a caller: restarting with a new
 * configuration, stopping before starting, and how each backend behaves on
 * destruction.
 */
module TimerScenarios {
  import opened CppInt
  import opened Arming
  import opened Timer

  /**
   * Linux: Stop on a timer that was never started joins nothing and leaves
   * the backend as it was; a second Stop changes nothing either.
   */
  method LinuxStopBeforeStart(tfd: int, efd: int, p: Interval, cb: Callback) returns (t: Timer)
    requires tfd != -1 && efd != -1
    ensures t.impl.LinuxImpl? && !t.isRunning
    ensures t.impl.linux.timerfdOpen && t.impl.linux.epollfdOpen && t.impl.linux.registered
    ensures t.impl.linux.trace == LinuxInitCalls(tfd, efd, 0)
  {
    var outcome;
    t, outcome := Timer.CreateLinux(tfd, efd, 0, p, cb);
    t.StopLinux();
    t.StopLinux();
  }

  /**
   * Linux: after Stop, a new period and periodic flag are what the next
   * Start arms the timer descriptor with.
   */
  method LinuxRestartUsesLatestConfig(tfd: int, efd: int, p1: Interval, p2: Interval, cb: Callback)
    returns (t: Timer, first: Outcome, second: Outcome)
    requires tfd != -1 && efd != -1
    requires 0 <= p1 < TWO_31 && 0 <= p2 < TWO_31
    ensures first == Returns && second == Returns
    ensures t.isRunning && t.period == p2 && t.isPeriodic
    ensures t.impl.LinuxImpl?
    ensures t.impl.linux.trace == LinuxInitCalls(tfd, efd, 0)
      + [TimerfdSettime(tfd, ArmingValue(p1, false), 0), SpawnPoller, JoinPoller]
      + [TimerfdSettime(tfd, ArmingValue(p2, true), 0), SpawnPoller]
  {
    var init;
    t, init := Timer.CreateLinux(tfd, efd, 0, p1, cb);
    first := t.StartLinux(0, true);
    t.StopLinux();
    t.SetPeriod(p2);
    t.SetPeriodic(true);
    second := t.StartLinux(0, true);
  }

  /**
   * Linux: destroying a timer after Stop reaches `std::thread::join` on a
   * poller Stop has already joined, so the destructor ends the program.
   */
  method LinuxDestroyAfterStop(tfd: int, efd: int, p: Interval, cb: Callback)
    returns (started: Outcome, destroyed: Outcome)
    requires tfd != -1 && efd != -1
    requires 0 <= p < TWO_31
    ensures started == Returns && destroyed == Terminates
  {
    var t, init := Timer.CreateLinux(tfd, efd, 0, p, cb);
    started := t.StartLinux(0, true);
    t.StopLinux();
    destroyed := t.DestroyLinux();
  }

  /**
   * Linux: a timer that was constructed but never started has no poller to
   * join, so destroying it ends the program too.
   */
  method LinuxDestroyNeverStarted(tfd: int, efd: int, p: Interval, cb: Callback)
    returns (t: Timer, destroyed: Outcome)
    requires tfd != -1 && efd != -1
    ensures destroyed == Terminates && t.impl.LinuxImpl?
    ensures t.impl.linux.trace == LinuxInitCalls(tfd, efd, 0) + [Close(tfd), Close(efd)]
  {
    var init;
    t, init := Timer.CreateLinux(tfd, efd, 0, p, cb);
    destroyed := t.DestroyLinux();
  }

  /**
   * Linux: destroying a running timer closes both descriptors and joins the
   * poller.
   */
  method LinuxDestroyWhileRunning(tfd: int, efd: int, p: Interval, cb: Callback)
    returns (t: Timer, destroyed: Outcome)
    requires tfd != -1 && efd != -1
    requires 0 <= p < TWO_31
    ensures destroyed == Returns && t.impl.LinuxImpl?
    ensures !t.impl.linux.timerfdOpen && !t.impl.linux.epollfdOpen && !t.impl.linux.pollerJoinable
    ensures t.impl.linux.trace == LinuxInitCalls(tfd, efd, 0)
      + [TimerfdSettime(tfd, ArmingValue(p, false), 0), SpawnPoller]
      + [Close(tfd), Close(efd), JoinPoller]
  {
    var init, started;
    t, init := Timer.CreateLinux(tfd, efd, 0, p, cb);
    started := t.StartLinux(0, true);
    destroyed := t.DestroyLinux();
  }

  /**
   * Linux: a failed Start has already closed both descriptors; the
   * destructor closes them a second time and, with no poller to join, ends
   * the program.
   */
  method LinuxFailedStartClosesTwice(tfd: int, efd: int, p: Interval, cb: Callback)
    returns (t: Timer, started: Outcome, destroyed: Outcome)
    requires tfd != -1 && efd != -1
    ensures started == Throws(START_FAILED) && destroyed == Terminates && t.impl.LinuxImpl?
    ensures t.impl.linux.trace == LinuxInitCalls(tfd, efd, 0)
      + [TimerfdSettime(tfd, ArmingValue(p, false), -1), Close(tfd), Close(efd)]
      + [Close(tfd), Close(efd)]
  {
    var init;
    t, init := Timer.CreateLinux(tfd, efd, 0, p, cb);
    started := t.StartLinux(-1, true);
    destroyed := t.DestroyLinux();
  }

  /**
   * Linux: a period from 2^31 ms up to 2^32 ms narrows to a negative `int`,
   * which the kernel refuses to arm, so Start throws whatever the periodic
   * flag.
   */
  method LinuxLongPeriodStartThrows(tfd: int, efd: int, p: Interval, periodic: bool, cb: Callback,
                                    settimeResult: int, spawned: bool)
    returns (started: Outcome)
    requires tfd != -1 && efd != -1
    requires TWO_31 <= p < TWO_32
    requires settimeResult != -1 ==> KernelAccepts(ArmingValue(p, periodic))
    ensures started == Throws(START_FAILED)
  {
    var t, init := Timer.CreateLinux(tfd, efd, 0, p, cb, periodic);
    LongPeriodsWrap(p);
    started := t.StartLinux(settimeResult, spawned);
  }

  /**
   * Linux: a period of exactly 2^32 ms narrows to 0, so Start succeeds and
   * sets `isRunning` while the descriptor is left disarmed.
   */
  method LinuxPeriodTwo32StartsDisarmed(tfd: int, efd: int, periodic: bool, cb: Callback)
    returns (t: Timer, started: Outcome)
    requires tfd != -1 && efd != -1
    ensures started == Returns && t.isRunning && t.impl.LinuxImpl?
    ensures t.impl.linux.trace == LinuxInitCalls(tfd, efd, 0)
      + [TimerfdSettime(tfd, ItimerSpec(ZERO, ZERO), 0), SpawnPoller]
  {
    var init;
    t, init := Timer.CreateLinux(tfd, efd, 0, TWO_32, cb, periodic);
    PeriodTwo32Disarms(periodic);
    started := t.StartLinux(0, true);
  }

  /**
   * Linux: when the poller thread cannot be started, Start throws with the
   * descriptor armed and `isRunning` already true, and the destructor then
   * finds no poller to join.
   */
  method LinuxThreadFailureLeavesRunning(tfd: int, efd: int, p: Interval, cb: Callback)
    returns (t: Timer, started: Outcome, running: bool, destroyed: Outcome)
    requires tfd != -1 && efd != -1
    requires 0 <= p < TWO_31
    ensures started == Throws(THREAD_FAILED) && running && destroyed == Terminates
    ensures t.impl.LinuxImpl?
    ensures t.impl.linux.trace == LinuxInitCalls(tfd, efd, 0)
      + [TimerfdSettime(tfd, ArmingValue(p, false), 0)]
      + [Close(tfd), Close(efd)]
  {
    var init;
    t, init := Timer.CreateLinux(tfd, efd, 0, p, cb);
    started := t.StartLinux(0, false);
    running := t.IsRunning();
    destroyed := t.DestroyLinux();
  }

  /**
   * Win32: Stop deletes the queue timer and the queue and creates a new
   * queue, but keeps the deleted timer's handle, so a second Stop deletes
   * that handle again, from the new queue.
   */
  method Win32StopTwice(q1: Handle, q2: Handle, q3: Handle, h: Handle, p: Interval, cb: Callback)
    returns (t: Timer)
    requires q1 != INVALID_HANDLE_VALUE && q2 != INVALID_HANDLE_VALUE && h != INVALID_HANDLE_VALUE
    ensures t.impl.Win32Impl? && !t.isRunning
    ensures t.impl.win.trace == [CreateTimerQueue(q1)]
      + [CreateTimerQueueTimer(q1, QueueTimerArgs(p, true), true)]
      + [DeleteTimerQueueTimer(q1, h), DeleteTimerQueueEx(q1), CreateTimerQueue(q2)]
      + [DeleteTimerQueueTimer(q2, h), DeleteTimerQueueEx(q2), CreateTimerQueue(q3)]
  {
    var init, started;
    t, init := Timer.CreateWin32(q1, p, cb, true);
    started := t.StartWin32(true, h);
    t.StopWin32(q2);
    t.StopWin32(q3);
  }
}
