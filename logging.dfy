/** The log sink of the tdb2 test suite: every logged message bumps a
    counter and replaces the remembered last message, unless logging is
    suppressed. */
module Logging {

  import opened Wrappers
  import opened Bytes

  datatype LogLevel = LogError | LogUseError | LogWarning

  datatype TdbError = Success | ErrCorrupt | ErrIo | ErrLock | ErrOom | ErrExists
                    | ErrNoExist | ErrEinval | ErrRdonly | ErrLast

  /** The sink's global state as one value: tap_log_messages (an unsigned
      int), log_prefix, log_last (None for NULL) and suppress_logging. */
  datatype LogState = LogState(messages: uint32, prefix: string, last: Option<string>, suppress: bool)

  /** One tap_log_fn call: its message, and whether strdup managed to copy
      it (the allocator's answer). */
  datatype LogCall = LogCall(message: string, copied: bool)

  /** What log_last holds after the strdup of message: NULL when the copy
      failed. */
  function Copy(c: LogCall): Option<string>
  {
    if c.copied then Some(c.message) else None
  }

  /** `unsigned` increment: wraps to 0 after 2^32 - 1. */
  function Inc32(n: uint32): (r: uint32)
    ensures n < TWO_TO_THE_32 - 1 ==> r == n + 1
    ensures n == TWO_TO_THE_32 - 1 ==> r == 0
  {
    Add32(n, 1)
  }

  /** The effect of one tap_log_fn call on the sink's state: nothing when
      suppressed, otherwise one more message and this one remembered (or
      NULL, when strdup fails); the prefix and the suppress flag are only
      read. */
  function Step(s: LogState, call: LogCall): (t: LogState)
    ensures t.prefix == s.prefix && t.suppress == s.suppress
    ensures s.suppress ==> t == s
    ensures !s.suppress ==> t.messages == Inc32(s.messages)
    ensures !s.suppress && call.copied ==> t.last == Some(call.message)
    ensures !s.suppress && !call.copied ==> t.last == None
  {
    if s.suppress then s
    else s.(last := Copy(call), messages := Inc32(s.messages))
  }

  /** The effect of a sequence of tap_log_fn calls, in order. No call
      writes the prefix or the suppress flag. */
  function Run(s: LogState, calls: seq<LogCall>): (t: LogState)
    ensures t.prefix == s.prefix && t.suppress == s.suppress
    decreases |calls|
  {
    if calls == [] then s else Run(Step(s, calls[0]), calls[1..])
  }

  /** One more call after a run is one more step: successive Log calls
      build up Run. */
  lemma {:induction false} RunAppend(s: LogState, calls: seq<LogCall>, call: LogCall)
    ensures Run(s, calls + [call]) == Step(Run(s, calls), call)
    decreases |calls|
  {
    if calls == [] {
      assert Run(Step(s, call), []) == Step(s, call);
    } else {
      assert (calls + [call])[0] == calls[0];
      assert (calls + [call])[1..] == calls[1..] + [call];
      RunAppend(Step(s, calls[0]), calls[1..], call);
    }
  }

  class TapLog {
    var messages: uint32
    var prefix: string
    var last: Option<string>
    var suppress: bool

    function State(): LogState
      reads this
    {
      LogState(messages, prefix, last, suppress)
    }

    /** The initial values of the globals. */
    constructor ()
      ensures messages == 0 && prefix == "" && last == None && !suppress
    {
      messages := 0;
      prefix := "";
      last := None;
      suppress := false;
    }

    /** tap_log_fn. The level and error code only feed the diagnostic line;
        `strdupOk` is the allocator's answer to the copy of the message. */
    method Log(level: LogLevel, ecode: TdbError, message: string, strdupOk: bool)
      modifies this
      ensures prefix == old(prefix) && suppress == old(suppress)
      ensures old(suppress) ==> messages == old(messages) && last == old(last)
      ensures !old(suppress) ==> messages == Inc32(old(messages)) &&
                                 last == (if strdupOk then Some(message) else None)
      ensures State() == Step(old(State()), LogCall(message, strdupOk))
    {
      if suppress {
        return;
      }
      if strdupOk {
        last := Some(message);
      } else {
        last := None;
      }
      messages := Inc32(messages);
    }
  }

  /** With logging suppressed, no sequence of calls changes anything. */
  lemma {:induction false} SuppressedRunChangesNothing(s: LogState, calls: seq<LogCall>)
    requires s.suppress
    ensures Run(s, calls) == s
    decreases |calls|
  {
    if calls != [] {
      SuppressedRunChangesNothing(Step(s, calls[0]), calls[1..]);
    }
  }

  /** Below the wrap-around, n unsuppressed calls add exactly n to the
      counter, leave the prefix and the suppress flag alone, and remember the
      last message (NULL if its copy failed). */
  lemma {:induction false} RunCountsEveryMessage(s: LogState, calls: seq<LogCall>)
    requires !s.suppress && s.messages + |calls| < TWO_TO_THE_32
    ensures Run(s, calls).messages == s.messages + |calls|
    ensures Run(s, calls).prefix == s.prefix && Run(s, calls).suppress == s.suppress
    ensures calls != [] ==> Run(s, calls).last == Copy(calls[|calls| - 1])
    ensures calls == [] ==> Run(s, calls).last == s.last
    decreases |calls|
  {
    if calls != [] {
      var t := Step(s, calls[0]);
      RunCountsEveryMessage(t, calls[1..]);
      if |calls| > 1 {
        assert calls[1..][|calls[1..]| - 1] == calls[|calls| - 1];
      }
    }
  }

  /** The counter never decreases across calls that stay below 2^32. */
  lemma RunIsMonotone(s: LogState, calls: seq<LogCall>)
    requires s.messages + |calls| < TWO_TO_THE_32
    ensures Run(s, calls).messages >= s.messages
  {
    if s.suppress {
      SuppressedRunChangesNothing(s, calls);
    } else {
      RunCountsEveryMessage(s, calls);
    }
  }
}
