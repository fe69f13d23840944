/** The fault-injection policy of the tdb2 test suite: which recorded library
    calls a failure is expected of, whether a failure was properly logged
    once the run exits, and which calls are only failed once. */
module FailtestHelper {

  import opened Wrappers
  import opened Bytes

  /** The kinds of call the failure injector intercepts that this policy
      distinguishes; every other kind is `OtherCall`. */
  datatype CallType = Malloc | Open | Read | Fcntl | Mmap | OtherCall(code: int)

  /** The `cmd` argument of an intercepted fcntl. */
  datatype FcntlCmd = SetLk | SetLkW | GetLk | OtherCmd(code: int)

  /** The `l_type` of the lock an intercepted fcntl passes. */
  datatype LockType = RdLck | WrLck | UnLck

  datatype FcntlArgs = FcntlArgs(cmd: FcntlCmd, lockType: LockType)

  /** One recorded call: its kind, the source location it came from, whether
      the injector failed it, and the fcntl arguments (only meaningful when
      the kind is Fcntl, as in the C union). */
  datatype Call = Call(ctype: CallType, file: string, line: int, fail: bool, fcntl: FcntlArgs)

  /** A call site named by file, line and kind (the `file, line, type`
      triples URANDOM_OPEN, URANDOM_READ and INITIAL_TDB_MALLOC expand to). */
  datatype Site = Site(file: string, line: int, ctype: CallType)

  /** The three call sites whose failure has a defined fallback. */
  datatype KnownSites = KnownSites(urandomOpen: Site, urandomRead: Site, initialMalloc: Site)

  datatype FailResult = FailOk | FailDontFail | FailProbe

  /** strends: does str end with postfix? */
  function Strends(str: string, postfix: string): (r: bool)
    ensures r <==> exists front :: str == front + postfix
    ensures |str| < |postfix| ==> !r
  {
    if |str| < |postfix| then false
    else
      var tail := str[|str| - |postfix|..];
      assert str == str[..|str| - |postfix|] + tail;
      assert forall front :: str == front + postfix ==> tail == postfix by {
        forall front | str == front + postfix ensures tail == postfix {
          assert |front| == |str| - |postfix|;
          assert (front + postfix)[|front|..] == postfix;
        }
      }
      tail == postfix
  }

  /** failmatch: the call has the site's kind and line, and its file is the
      site's file or ends in "/" followed by it. */
  function Failmatch(call: Call, site: Site): (r: bool)
    ensures r <==> call.ctype == site.ctype && call.line == site.line &&
                   (call.file == site.file || exists dir :: call.file == dir + "/" + site.file)
  {
    var matchesFile :=
      call.file == site.file ||
      (Strends(call.file, site.file) && call.file[|call.file| - |site.file| - 1] == '/');
    assert matchesFile <==> (call.file == site.file || exists dir :: call.file == dir + "/" + site.file) by {
      if exists dir :: call.file == dir + "/" + site.file {
        var dir :| call.file == dir + "/" + site.file;
        assert call.file == (dir + "/") + site.file;
        assert call.file[|call.file| - |site.file| - 1] == '/';
      }
      if call.file != site.file && Strends(call.file, site.file) &&
         call.file[|call.file| - |site.file| - 1] == '/' {
        var dir := call.file[..|call.file| - |site.file| - 1];
        assert call.file == dir + "/" + site.file;
      }
    }
    call.ctype == site.ctype && call.line == site.line && matchesFile
  }

  /** is_nonblocking_lock: an fcntl with F_SETLK. */
  predicate IsNonblockingLock(call: Call)
  {
    call.ctype == Fcntl && call.fcntl.cmd == SetLk
  }

  /** is_unlock: an fcntl whose lock type is F_UNLCK. */
  predicate IsUnlock(call: Call)
  {
    call.ctype == Fcntl && call.fcntl.lockType == UnLck
  }

  /** A call whose failure needs no log message: the urandom open and read
      (there is a fallback), the initial allocation of the database (no log
      sink is wired yet) and non-blocking locks (failure is contention). */
  predicate Exempt(call: Call, sites: KnownSites)
  {
    Failmatch(call, sites.urandomOpen) || Failmatch(call, sites.urandomRead) ||
    Failmatch(call, sites.initialMalloc) || IsNonblockingLock(call)
  }

  /** A failed call that must have been logged. */
  predicate MustLog(call: Call, sites: KnownSites)
  {
    call.fail && !Exempt(call, sites)
  }

  /** exit_check_log: scans the history in order and stops at the first
      failed call that is not exempt; the run passes iff no such call exists
      or some message was logged. `stoppedAt` is the position of that call
      (the one the diagnostic names), None if the scan ran to the end. */
  method ExitCheckLog(history: seq<Call>, sites: KnownSites, tapLogMessages: uint32)
    returns (ok: bool, stoppedAt: Option<nat>)
    ensures ok <==> tapLogMessages != 0 || forall i :: 0 <= i < |history| ==> !MustLog(history[i], sites)
    ensures stoppedAt.None? ==> ok && forall i :: 0 <= i < |history| ==> !MustLog(history[i], sites)
    ensures stoppedAt.Some? ==>
              && stoppedAt.value < |history|
              && MustLog(history[stoppedAt.value], sites)
              && (forall i :: 0 <= i < stoppedAt.value ==> !MustLog(history[i], sites))
              && ok == (tapLogMessages != 0)
  {
    var i := 0;
    while i < |history|
      invariant 0 <= i <= |history|
      invariant forall j :: 0 <= j < i ==> !MustLog(history[j], sites)
    {
      var call := history[i];
      if !call.fail {
      } else if Failmatch(call, sites.urandomOpen) {
      } else if Failmatch(call, sites.urandomRead) {
      } else if Failmatch(call, sites.initialMalloc) {
      } else if IsNonblockingLock(call) {
      } else {
        return tapLogMessages != 0, Some(i);
      }
      i := i + 1;
    }
    return true, None;
  }

  /** block_repeat_failures: decides from the most recent call alone whether
      the injector may fail it (the tail of the history is dereferenced only
      when suppression is off). */
  function BlockRepeatFailures(history: seq<Call>, sites: KnownSites, failtestSuppress: bool): (r: FailResult)
    requires failtestSuppress || |history| > 0
    ensures failtestSuppress ==> r == FailDontFail
    ensures !failtestSuppress ==> r != FailDontFail
    ensures !failtestSuppress ==>
              var last := history[|history| - 1];
              (r == FailProbe <==> Exempt(last, sites) || last.ctype == Mmap || IsUnlock(last))
  {
    if failtestSuppress then FailDontFail
    else
      var last := history[|history| - 1];
      if Failmatch(last, sites.initialMalloc) || Failmatch(last, sites.urandomOpen) ||
         Failmatch(last, sites.urandomRead) then FailProbe
      else if last.ctype == Mmap then FailProbe
      else if IsUnlock(last) || IsNonblockingLock(last) then FailProbe
      else FailOk
  }

  /** Only the most recent call matters: two histories with the same tail
      get the same decision. */
  lemma BlockRepeatFailuresUsesTailOnly(h1: seq<Call>, h2: seq<Call>, last: Call, sites: KnownSites, suppress: bool)
    ensures BlockRepeatFailures(h1 + [last], sites, suppress) == BlockRepeatFailures(h2 + [last], sites, suppress)
  {
    assert (h1 + [last])[|h1 + [last]| - 1] == last;
    assert (h2 + [last])[|h2 + [last]| - 1] == last;
  }

  /** Every call whose failure exit_check_log excuses is failed only once
      (probed) unless injection is suppressed. */
  lemma ExemptCallsAreProbed(history: seq<Call>, call: Call, sites: KnownSites)
    requires Exempt(call, sites)
    ensures BlockRepeatFailures(history + [call], sites, false) == FailProbe
  {
    assert (history + [call])[|history + [call]| - 1] == call;
  }

  /** The two fcntl classifications: a failed non-blocking lock (F_SETLK)
      is excused by exit_check_log and probed by block_repeat_failures; an
      unlock is only probed, so a failed blocking unlock (F_SETLKW) at an
      unknown site must still have been logged. */
  lemma LockCallsPolicy(history: seq<Call>, call: Call, sites: KnownSites)
    ensures IsNonblockingLock(call) ==> !MustLog(call, sites)
    ensures IsNonblockingLock(call) || IsUnlock(call) ==>
              BlockRepeatFailures(history + [call], sites, false) == FailProbe
    ensures call.fail && IsUnlock(call) && call.fcntl.cmd == SetLkW &&
            !Failmatch(call, sites.urandomOpen) && !Failmatch(call, sites.urandomRead) &&
            !Failmatch(call, sites.initialMalloc) ==>
              MustLog(call, sites)
  {
    assert (history + [call])[|history + [call]| - 1] == call;
  }
}
