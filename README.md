# Timer — a Dafny model

`Timer` is a small C++ class. It calls a user callback once, or again and
again, after a period given in milliseconds. It has two backends chosen
at compile time:

- **Windows**: a timer queue (`CreateTimerQueue`) and one queue timer
  (`CreateTimerQueueTimer`). The Windows thread pool calls a static
  trampoline, and the trampoline calls the callback.
- **Linux**: a `timerfd` descriptor registered with an `epoll` set. A
  poller thread waits on the set and calls the callback.

This project models the class in Dafny:

- its configuration: period, callback, periodic flag and running flag;
- its lifecycle: construction, `Start`, `Stop`, destruction;
- the arithmetic that turns the period into what each operating system is
  given.

The operating system drops out of the model. Each foreign call becomes a
parameter that carries the call's result. The call is also recorded in a
ghost trace kept by the backend object. The Linux backend also tracks in
ghost state:

- whether each descriptor is open;
- whether the timer descriptor is registered with the epoll set.

Modules:

- `CppInt` (`cpp_int.dfy`): C++ integer semantics. `static_cast<int>` of
  a 64-bit count wraps modulo 2^32. `static_cast<DWORD>` reduces modulo
  2^32. `/` and `%` truncate toward zero. Dafny's own operators are
  Euclidean and unbounded, so these are written out.
- `Arming` (`arming.dfy`): the `itimerspec` that Linux `Start` arms the
  descriptor with, and the due time, repeat period and flags that Windows
  `Start` gives `CreateTimerQueueTimer`. It also has the round-trip and
  bound lemmas for the millisecond to (seconds, nanoseconds) split.
- `Timer` (`timer.dfy`):
  - the `Timer` class, with its four configuration fields and its
    `impl`;
  - one backend class per platform (`Win32Backend`, `LinuxBackend`);
  - every member of the C++ class, once per platform where the code
    differs, with the backend suffix in the name (`StartLinux`,
    `StopWin32`, and so on);
  - the C++ constructor, which can throw. It becomes the static methods
    `CreateWin32` and `CreateLinux`. These return the new object together
    with an `Outcome`: the call returns, throws a named exception, or
    calls `std::terminate`.
  - `LinuxInitCalls` lists the foreign calls on each of the four paths
    through the Linux `InitializeImpl`. `OpenedFds` and `ClosedFds` count
    which descriptors a list of calls opens and which it closes.
- `TimerScenarios` (`scenarios.dfy`): client code that runs whole
  lifecycles through the class's contracts.

Behaviour of the code that the model keeps as written:

- The constructor never assigns `isRunning`, so its value is arbitrary
  until a `Start` that arms the timer, a `Stop`, or destruction. A `Start`
  whose arming fails leaves it as it was. `new TimerImpl` leaves the
  Windows handles and the Linux descriptors arbitrary in the same way.
- Linux `Stop` clears `isRunning` and joins the poller. It does not disarm
  the timer descriptor.
- Linux `CleanupImpl` always calls `poller.join()`. A destructor may not
  throw, so destroying a Linux timer whose poller is not joinable ends
  the program. This happens when the timer was never started, and when
  `Stop` has already joined the poller.
- Linux `Start` assigns a new `std::thread` to `poller`. If a poller
  thread is still joinable (`Start` twice without `Stop`), that
  assignment ends the program.
- A failed Linux `Start` closes both descriptors, and the destructor
  later closes them a second time.
- Windows `Stop` deletes the queue timer and the queue, then creates a new
  queue. It keeps the stale queue-timer handle and ignores whether the new
  queue is valid.
- Windows `Start` asks for a due time of 0, so the first call comes at
  once. Linux arms the first expiration one period ahead.
- Neither backend checks the period. When the timer is periodic, Windows
  narrows the period to `DWORD` (Timer.cpp:118); otherwise it passes 0.
  Linux narrows it to `int` (Timer.cpp:189-190), which wraps modulo 2^32:
  - A period from 2^31 ms up to (not including) 2^32 ms becomes negative,
    and `timerfd_settime` rejects the armed value.
  - A period of exactly 2^32 ms becomes 0. `Start` reports success and
    sets `isRunning`, but the descriptor stays disarmed.
  - Longer periods are armed as the period modulo 2^32, with a negative
    result rejected as above.
- Linux `Start` sets `isRunning` before it builds the poller thread
  (Timer.cpp:205-208). If the thread cannot be started, `Start` throws
  with the descriptor armed and `isRunning` true.

## Model

| member | source | states |
|---|---|---|
| CppInt.ToInt32 | Timer.cpp:189-190 | `static_cast<int>`: the result is an `int`, congruent to the input modulo 2^32, and equal to it when the input fits |
| CppInt.ToDword | Timer.cpp:118 | `static_cast<DWORD>`: the result is below 2^32, congruent to the input modulo 2^32, and equal to it when the input fits |
| CppInt.Quot | Timer.cpp:189 | truncating `/`: the quotient lies between 0 and the dividend, with the dividend's sign |
| CppInt.Rem | Timer.cpp:190 | truncating `%`: dividend = quotient × divisor + remainder, and the remainder has the dividend's sign and is smaller in size than the divisor |
| Arming.ToTimeSpec | Timer.cpp:185-190 | the seconds and nanoseconds stand for exactly the narrowed period in milliseconds; they are normalised, in whole milliseconds, for a non-negative narrowed period, and both are ≤ 0 otherwise |
| Arming.ArmingValue | Timer.cpp:183-196 | `it_value` is the converted period; `it_interval` is a copy of it for a periodic timer and all zero otherwise |
| Arming.MillisRoundTrip | Timer.cpp:189-190 | for every period an `int` holds, the seconds are `period / 1000`, the nanoseconds are `10^6 × (period % 1000)` (at most 999 000 000), and converting back gives the period |
| Arming.TimeSpecRoundTrip | Timer.cpp:189-190 | every normalised `timespec` of whole milliseconds below 2^31 ms is the conversion of its own millisecond count |
| Arming.NormalizedIffNonNegative | Timer.cpp:189-190 | the armed `timespec` is normalised if and only if the narrowed period is not negative |
| Arming.LongPeriodsWrap | Timer.cpp:185-190 | a period from 2^31 ms up to 2^32 ms narrows to period − 2^32, and the armed value is not normalised |
| Arming.PeriodsWrapModulo | Timer.cpp:189-196 | a period from 2^32 ms up to 2^32 + 2^31 ms is armed exactly as the period less 2^32 ms |
| Arming.PeriodTwo32Disarms | Timer.cpp:188-196 | a period of exactly 2^32 ms gives the all-zero `itimerspec`, which the kernel accepts and which leaves the descriptor disarmed |
| Arming.ZeroValueIffZeroPeriod | Timer.cpp:188-198 | the initial expiration is all zero, which disarms the descriptor, if and only if the narrowed period is 0 |
| Arming.ReloadsIffPeriodic | Timer.cpp:192-196 | the armed value reloads if and only if the timer is periodic and its narrowed period is not 0 |
| Arming.QueueTimerArgs | Timer.cpp:118-128 | due time 0 and flags 0; the repeat period is 0 for a one-shot timer, and for a periodic timer it is the period modulo 2^32 (the period itself when it fits a `DWORD`) |
| Timer.LinuxInitReleasesOnFailure | Timer.cpp:146-172 | when Linux `InitializeImpl` fails, it closes exactly the descriptors it opened, newest first; when it succeeds, it holds both descriptors and has closed none |
| Timer.LinuxInitOpens | Timer.cpp:150-164 | the descriptors opened on each path: none, the timer descriptor alone, or both |
| Timer.LinuxInitCloses | Timer.cpp:151-169 | the descriptors closed on each path: none, the timer descriptor, or the epoll set then the timer descriptor |
| Timer.TrampolineInvokes | Timer.cpp:91-99 | the trampoline calls the user callback if and only if its parameter is a timer whose callback is not empty |
| Timer.Win32Backend.constructor | Timer.cpp:8-12 | a new Windows backend has made no calls; both handles are indeterminate |
| Timer.LinuxBackend.constructor | Timer.cpp:21-26 | a new Linux backend holds no open descriptor, and its poller thread is not joinable |
| Timer.LinuxBackend.CloseTimerfd | Timer.cpp:176 | closes the timer descriptor, which also drops it from the epoll set, and changes nothing else |
| Timer.LinuxBackend.CloseEpollfd | Timer.cpp:177 | closes the epoll set, which also discards the registration, and changes nothing else |
| Timer.Timer.constructor | Timer.cpp:33-39 | stores period, callback and periodic flag as given, allocates a fresh backend for the platform, and leaves `isRunning` unset |
| Timer.Timer.GetPeriod | Timer.cpp:54-57 | returns the stored period |
| Timer.Timer.SetPeriod | Timer.cpp:59-62 | sets the period; callback, periodic flag and running flag are unchanged |
| Timer.Timer.GetCallback | Timer.cpp:64-67 | returns the stored callback |
| Timer.Timer.SetCallback | Timer.cpp:69-72 | sets the callback; the other three fields are unchanged |
| Timer.Timer.IsPeriodic | Timer.cpp:74-77 | returns the periodic flag |
| Timer.Timer.SetPeriodic | Timer.cpp:79-82 | sets the periodic flag; the other three fields are unchanged |
| Timer.Timer.IsRunning | Timer.cpp:84-87 | returns the running flag |
| Timer.Timer.PollerInvokes | Timer.cpp:212-222 | one poller pass calls the callback if and only if `epoll_wait` and `read` both succeed and the callback is not empty |
| Timer.Timer.CreateWin32 | Timer.cpp:33-42 | the Windows constructor throws "Failed to initialize timer!" if and only if the new queue handle is `INVALID_HANDLE_VALUE` |
| Timer.Timer.InitializeImplWin32 | Timer.cpp:101-105 | stores the new queue handle and succeeds if and only if it is not `INVALID_HANDLE_VALUE` |
| Timer.Timer.CleanupImplWin32 | Timer.cpp:107-114 | deletes the queue timer, then the queue, each only when its handle is not `INVALID_HANDLE_VALUE`; neither handle is reset |
| Timer.Timer.StartWin32 | Timer.cpp:116-134 | requests `QueueTimerArgs` of the current configuration on the current queue; on success it stores the new timer handle and sets `isRunning`; on failure it throws "Failed to start timer!" and leaves `isRunning` as it was |
| Timer.Timer.StopWin32 | Timer.cpp:136-141 | clears `isRunning`, deletes the old timer and queue, and creates a new queue; the configuration and the stale timer handle are kept |
| Timer.Timer.DestroyWin32 | Timer.cpp:44-52 | clears `isRunning` and deletes the queue timer and the queue |
| Timer.Timer.CreateLinux | Timer.cpp:33-42 | the Linux constructor throws "Failed to initialize timer!" if and only if one of the three setup calls fails; after it throws, no descriptor is open |
| Timer.Timer.InitializeImplLinux | Timer.cpp:146-172 | succeeds if and only if all three calls succeed; on success both descriptors are open and registered; on failure none is open; the calls made are those in `LinuxInitCalls` |
| Timer.Timer.CleanupImplLinux | Timer.cpp:174-179 | closes both descriptors, then joins the poller; it throws when the poller is not joinable |
| Timer.Timer.StartLinux | Timer.cpp:181-224 | arms the descriptor with `ArmingValue` of the current configuration, which the kernel accepts only when normalised. If arming fails, it closes both descriptors and throws "Failed to start timer!" with `isRunning` unchanged. Otherwise it sets `isRunning`. If the poller thread cannot be started, it throws with the descriptors open and the old poller kept. If a poller is still joinable, it terminates. Otherwise it spawns the poller and returns |
| Timer.Timer.StopLinux | Timer.cpp:226-231 | clears `isRunning` and joins the poller only when it is joinable; no descriptor is disarmed or closed; on a stopped timer it changes nothing |
| Timer.Timer.DestroyLinux | Timer.cpp:44-52 | clears `isRunning` and closes both descriptors; it terminates unless the poller was joinable |
| TimerScenarios.LinuxStopBeforeStart | Timer.cpp:226-231 | `Stop`, twice, on a timer that was never started makes no call and keeps both descriptors open |
| TimerScenarios.LinuxRestartUsesLatestConfig | Timer.cpp:181-231 | after `Stop`, `SetPeriod` and `SetPeriodic`, the next `Start` arms with the new period and flag |
| TimerScenarios.LinuxDestroyAfterStop | Timer.cpp:44-52 | destroying a timer after `Stop` ends the program |
| TimerScenarios.LinuxDestroyNeverStarted | Timer.cpp:174-179 | destroying a timer that was never started closes both descriptors and ends the program |
| TimerScenarios.LinuxDestroyWhileRunning | Timer.cpp:44-52 | destroying a running timer closes both descriptors and joins the poller |
| TimerScenarios.LinuxFailedStartClosesTwice | Timer.cpp:198-203 | after a failed `Start`, the destructor closes both descriptors a second time and, with no poller to join, ends the program |
| TimerScenarios.LinuxLongPeriodStartThrows | Timer.cpp:189-203 | a period from 2^31 ms up to 2^32 ms makes `Start` throw "Failed to start timer!", whatever the periodic flag |
| TimerScenarios.LinuxPeriodTwo32StartsDisarmed | Timer.cpp:189-205 | with a period of 2^32 ms, `Start` returns and sets `isRunning`, but arms the descriptor with the all-zero value |
| TimerScenarios.LinuxThreadFailureLeavesRunning | Timer.cpp:205-208 | when the poller thread cannot be started, `Start` throws, `IsRunning` then reports true, and the destructor ends the program |
| TimerScenarios.Win32StopTwice | Timer.cpp:136-141 | a second `Stop` deletes the stale timer handle again, from the new queue |

## Left out

- The operating system calls. `CreateTimerQueue`, `CreateTimerQueueTimer`,
  `DeleteTimerQueueTimer`, `DeleteTimerQueueEx`, `timerfd_create`,
  `epoll_create`, `epoll_ctl`, `timerfd_settime`, `close`, `epoll_wait`
  and `read` are inputs: their results are parameters. Their effects are
  recorded in the ghost trace, and on Linux in the open and registered
  flags.
- The choice of backend. It is made by the preprocessor (`_WIN32`,
  `__linux__`). Here it is the `Platform` argument of the constructor.
- The poller thread's loop and the thread pool's repeated calls of the
  trampoline. Only one pass of each is modelled (`PollerInvokes`,
  `TrampolineInvokes`). Whether the loop ends depends on another thread
  writing `isRunning`, which a sequential model cannot express.
- Concurrency. The poller and the trampoline read `callback` and
  `isRunning` while other threads write them, without synchronisation.
  Every operation here is atomic.
- Wall-clock time. Nothing in the model says when an expiration happens.
- What the callback does, and exceptions escaping it. A callback is an
  opaque token that is either empty or not.
- `delete impl`, and the leak of `impl` when the constructor throws. The
  model has no memory deallocation. The destructor's `if (impl)` test is
  always true, because `new` does not return null. An allocation failure
  in `new` is not modelled.
- The copy constructor and copy assignment the compiler generates. A
  copy would share `impl` and delete it twice. Neither is modelled.
- `CreateTimerQueue` reports failure with a null handle, not
  `INVALID_HANDLE_VALUE`. The model keeps the code's test against
  `INVALID_HANDLE_VALUE`, as written.
- The object after a failed construction. `CreateWin32` and `CreateLinux`
  return `t` even when the outcome is `Throws(INIT_FAILED)`. In C++ no
  object exists then, and no destructor runs. A caller must not use `t`
  unless the outcome is `Returns`; the model does not enforce this.
- Whether a failed `CreateTimerQueueTimer` writes its output handle. The
  model assumes it writes nothing.
- `timerfd_settime` can fail for other reasons too, such as a closed
  descriptor. The model constrains its result only by `KernelAccepts`:
  success is allowed only for a normalised `itimerspec`. Any other
  failure is left to the oracle.
- CppInt.Quot: its contract states only the bounds on the quotient. The
  exact truncated quotient is pinned down by the contract of CppInt.Rem,
  which relates it to the remainder.
- Timer.Timer.PollerInvokes: one loop pass only. The `while
  (this->isRunning)` condition and the repetition are not modelled.
