/** The bounded log of a background image build: a window over an unbounded stream. */
module BuildLog {

  type Byte = bv8

  const MAX_BUILD_JOB_LOG: nat := 0x10_0000

  function Min(a: nat, b: nat): nat { if a < b then a else b }

  /** First offset the window still holds. */
  function WindowBase(total: nat): nat {
    total - Min(total, MAX_BUILD_JOB_LOG)
  }

  datatype Reply = Reply(log: seq<Byte>, offset: int, nextOffset: int, truncated: bool)

  class BuildJobLog {
    var log: seq<Byte>
    var logBase: int
    var logTotal: int
    ghost var stream: seq<Byte>

    /** The buffer is the last bytes of the stream, and the offsets say which. */
    ghost predicate Valid()
      reads this
    {
      logTotal == |stream| && logBase == WindowBase(|stream|) && log == stream[logBase..]
    }

    constructor ()
      ensures Valid() && stream == []
    {
      log, logBase, logTotal, stream := [], 0, 0, [];
    }

    method Write(payload: seq<Byte>) returns (n: nat)
      requires Valid()
      modifies this
      ensures Valid() && stream == old(stream) + payload && n == |payload|
      ensures |log| == Min(|stream|, MAX_BUILD_JOB_LOG) && logBase + |log| == logTotal
    {
      n := |payload|;
      logTotal := logTotal + n;
      stream := stream + payload;
      if n >= MAX_BUILD_JOB_LOG {
        log := payload[n - MAX_BUILD_JOB_LOG..];
        logBase := logTotal - |log|;
        return;
      }
      var overflow := |log| + n - MAX_BUILD_JOB_LOG;
      if overflow > 0 {
        log := log[overflow..];
        logBase := logBase + overflow;
      }
      log := log + payload;
    }

    method Snapshot(after: int) returns (r: Reply)
      requires Valid()
      ensures r == ReplyTo(stream, after)
    {
      var offset := after;
      var truncated := false;
      if offset < logBase {
        offset := logBase;
        truncated := true;
      }
      if offset > logTotal {
        offset := logTotal;
      }
      r := Reply(log[offset - logBase..], offset, logTotal, truncated || after < logBase);
    }
  }

  /** What a poll answers, in terms of the whole stream. */
  function ReplyTo(stream: seq<Byte>, after: int): Reply {
    var base := WindowBase(|stream|);
    var offset := if after < base then base else if after > |stream| then |stream| else after;
    Reply(stream[offset..], offset, |stream|, after < base)
  }

  /** Every reply continues to the end of the stream. It starts where it was asked to, at the first byte of the last
      mebibyte if that is later, and then it is marked; past the end there is nothing to tell. */
  lemma RepliesExactly(stream: seq<Byte>, after: int)
    ensures var r := ReplyTo(stream, after);
            && 0 <= r.offset <= |stream| == r.nextOffset && r.log == stream[r.offset..]
            && (r.truncated <==> after < 0 || after < |stream| - 1_048_576)
            && (!r.truncated && after <= |stream| ==> r.offset == after)
            && (after > |stream| ==> r.log == [])
            && (r.truncated ==> |r.log| == if |stream| < 1_048_576 then |stream| else 1_048_576)
  {
  }

  // ----- a polling client -----

  datatype Event = Output(payload: seq<Byte>) | Poll

  /** The stream so far, and the client: what it has collected, where it will ask from, whether a reply was cut. */
  datatype Session = Session(stream: seq<Byte>, collected: seq<Byte>, next: int, cut: bool)

  function Advance(s: Session, e: Event): Session {
    match e
    case Output(payload) => s.(stream := s.stream + payload)
    case Poll =>
      var r := ReplyTo(s.stream, s.next);
      s.(collected := s.collected + r.log, next := r.nextOffset, cut := s.cut || r.truncated)
  }

  function Play(s: Session, events: seq<Event>): Session
    decreases |events|
  {
    if events == [] then s else Play(Advance(s, events[0]), events[1..])
  }

  ghost predicate InStep(s: Session) {
    0 <= s.next <= |s.stream| && (!s.cut ==> s.collected == s.stream[..s.next])
  }

  lemma AdvanceKeepsStep(s: Session, e: Event)
    requires InStep(s)
    ensures InStep(Advance(s, e))
    ensures s.cut ==> Advance(s, e).cut
    ensures e.Poll? && !s.cut ==> (Advance(s, e).cut <==> |s.stream| - s.next > MAX_BUILD_JOB_LOG)
  {
    match e {
      case Output(payload) =>
        assert (s.stream + payload)[..s.next] == s.stream[..s.next];
      case Poll =>
        if !Advance(s, e).cut {
          assert s.stream[..s.next] + s.stream[s.next..] == s.stream;
        }
    }
  }

  /** Over every interleaving of output and polls, a client that asks from 0 and then from each NextOffset holds the
      exact stream up to its offset as long as no reply was marked truncated. */
  lemma {:induction false} PollingReassemblesTheStream(s: Session, events: seq<Event>)
    requires InStep(s)
    ensures InStep(Play(s, events))
    ensures s.cut ==> Play(s, events).cut
    decreases |events|
  {
    if events == [] {
    } else {
      AdvanceKeepsStep(s, events[0]);
      PollingReassemblesTheStream(Advance(s, events[0]), events[1..]);
    }
  }

  /** Ending on a poll, such a client holds everything that was written. */
  lemma LastPollCompletes(events: seq<Event>)
    ensures var s := Advance(Play(Session([], [], 0, false), events), Poll);
            !s.cut ==> s.collected == s.stream && s.next == |s.stream|
  {
    var start := Session([], [], 0, false);
    PollingReassemblesTheStream(start, events);
    var s := Play(start, events);
    AdvanceKeepsStep(s, Poll);
    assert s.stream[..|s.stream|] == s.stream;
  }

  /** The client is never cut exactly when it never lets more than the window go by between two polls. */
  ghost predicate PollsInTime(s: Session, events: seq<Event>)
    decreases |events|
  {
    events == [] ||
    ((events[0].Poll? ==> |s.stream| - s.next <= MAX_BUILD_JOB_LOG) && PollsInTime(Advance(s, events[0]), events[1..]))
  }

  lemma {:induction false} CutMeansTooLate(s: Session, events: seq<Event>)
    requires InStep(s) && !s.cut
    ensures !Play(s, events).cut <==> PollsInTime(s, events)
    decreases |events|
  {
    if events == [] {
    } else {
      AdvanceKeepsStep(s, events[0]);
      if Advance(s, events[0]).cut {
        PollingReassemblesTheStream(Advance(s, events[0]), events[1..]);
      } else {
        CutMeansTooLate(Advance(s, events[0]), events[1..]);
      }
    }
  }
}
