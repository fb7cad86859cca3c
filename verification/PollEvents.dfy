/** Event masks: what a user may ask for, what is handed to the kernel, and what comes back. */
module PollEvents {

  const EPOLLIN: bv32 := 0x0001
  const EPOLLPRI: bv32 := 0x0002
  const EPOLLOUT: bv32 := 0x0004
  const EPOLLERR: bv32 := 0x0008
  const EPOLLHUP: bv32 := 0x0010
  const EPOLLRDNORM: bv32 := 0x0040
  const EPOLLRDBAND: bv32 := 0x0080
  const EPOLLWRNORM: bv32 := 0x0100
  const EPOLLWRBAND: bv32 := 0x0200
  const EPOLLMSG: bv32 := 0x0400
  const EPOLLRDHUP: bv32 := 0x2000
  const EPOLLONESHOT: bv32 := 0x8000_0000

  const KNOWN_EVENTS: bv32 :=
    EPOLLIN | EPOLLPRI | EPOLLOUT | EPOLLERR | EPOLLHUP | EPOLLRDNORM | EPOLLRDBAND | EPOLLWRNORM | EPOLLWRBAND |
      EPOLLMSG | EPOLLRDHUP

  const AFD_RECEIVE: bv32 := 0x0001
  const AFD_RECEIVE_EXPEDITED: bv32 := 0x0002
  const AFD_SEND: bv32 := 0x0004
  const AFD_DISCONNECT: bv32 := 0x0008
  const AFD_ABORT: bv32 := 0x0010
  const AFD_LOCAL_CLOSE: bv32 := 0x0020
  const AFD_ACCEPT: bv32 := 0x0080
  const AFD_CONNECT_FAIL: bv32 := 0x0100

  /** Known events that are wanted but not watched. */
  function Uncovered(wanted: bv32, watched: bv32): bv32 {
    wanted & KNOWN_EVENTS & !watched
  }

  /** Reported events the user did not ask for are filtered out. */
  function Filtered(raw: bv32, wanted: bv32): bv32 {
    raw & wanted
  }

  predicate IsOneShot(wanted: bv32) {
    wanted & EPOLLONESHOT != 0
  }

  function Flag(condition: bool, mask: bv32): bv32 {
    if condition then mask else 0
  }

  function ToAfd(events: bv32): bv32 {
    AFD_LOCAL_CLOSE
    | Flag(events & (EPOLLIN | EPOLLRDNORM) != 0, AFD_RECEIVE | AFD_ACCEPT)
    | Flag(events & (EPOLLPRI | EPOLLRDBAND) != 0, AFD_RECEIVE_EXPEDITED)
    | Flag(events & (EPOLLOUT | EPOLLWRNORM | EPOLLWRBAND) != 0, AFD_SEND)
    | Flag(events & (EPOLLIN | EPOLLRDNORM | EPOLLRDHUP) != 0, AFD_DISCONNECT)
    | Flag(events & EPOLLHUP != 0, AFD_ABORT)
    | Flag(events & EPOLLERR != 0, AFD_CONNECT_FAIL)
  }

  function FromAfd(events: bv32): bv32 {
    Flag(events & (AFD_RECEIVE | AFD_ACCEPT) != 0, EPOLLIN | EPOLLRDNORM)
    | Flag(events & AFD_RECEIVE_EXPEDITED != 0, EPOLLPRI | EPOLLRDBAND)
    | Flag(events & AFD_SEND != 0, EPOLLOUT | EPOLLWRNORM | EPOLLWRBAND)
    | Flag(events & AFD_DISCONNECT != 0, EPOLLIN | EPOLLRDNORM | EPOLLRDHUP)
    | Flag(events & AFD_ABORT != 0, EPOLLHUP)
    | Flag(events & AFD_CONNECT_FAIL != 0, EPOLLIN | EPOLLOUT | EPOLLERR | EPOLLRDNORM | EPOLLWRNORM | EPOLLRDHUP)
  }

  // ----- what is asked of the kernel

  /** One kernel event that is reported to the user. */
  predicate IsKernelEvent(k: bv32) {
    k == AFD_RECEIVE || k == AFD_RECEIVE_EXPEDITED || k == AFD_SEND || k == AFD_DISCONNECT || k == AFD_ABORT ||
    k == AFD_ACCEPT || k == AFD_CONNECT_FAIL
  }

  /** The kernel is asked for exactly the events whose report holds something that is wanted, except that a failed
      connection, which reports almost everything, is asked for with the errors only; and always for closed sockets. */
  lemma {:induction false} AskedExactly(events: bv32, k: bv32)
    ensures IsKernelEvent(k) && k != AFD_CONNECT_FAIL ==> (ToAfd(events) & k != 0 <==> FromAfd(k) & events != 0)
    ensures ToAfd(events) & AFD_CONNECT_FAIL != 0 <==> events & EPOLLERR != 0
    ensures ToAfd(events) & AFD_LOCAL_CLOSE != 0 && ToAfd(events) & !0x01bf == 0
  {
  }

  // ----- what is reported

  /** The kernel events that cause the report of an event. */
  function Causes(event: bv32): bv32 {
    if event == EPOLLIN || event == EPOLLRDNORM then AFD_RECEIVE | AFD_ACCEPT | AFD_DISCONNECT | AFD_CONNECT_FAIL
    else if event == EPOLLPRI || event == EPOLLRDBAND then AFD_RECEIVE_EXPEDITED
    else if event == EPOLLOUT || event == EPOLLWRNORM then AFD_SEND | AFD_CONNECT_FAIL
    else if event == EPOLLWRBAND then AFD_SEND
    else if event == EPOLLRDHUP then AFD_DISCONNECT | AFD_CONNECT_FAIL
    else if event == EPOLLHUP then AFD_ABORT
    else if event == EPOLLERR then AFD_CONNECT_FAIL
    else 0
  }

  predicate Has(events: bv32, b: bv32) {
    events & b != 0
  }

  /** One known event. */
  predicate IsEvent(b: bv32) {
    b == EPOLLIN || b == EPOLLPRI || b == EPOLLOUT || b == EPOLLERR || b == EPOLLHUP || b == EPOLLRDNORM ||
    b == EPOLLRDBAND || b == EPOLLWRNORM || b == EPOLLWRBAND || b == EPOLLMSG || b == EPOLLRDHUP
  }

  /** What is wanted is covered exactly if every known event of it is watched. */
  ghost predicate AllWithin(wanted: bv32, watched: bv32) {
    forall b | IsEvent(b) && Has(wanted, b) :: Has(watched, b)
  }

  lemma {:induction false} CoveredExactly(wanted: bv32, watched: bv32)
    ensures Uncovered(wanted, watched) == 0 <==> AllWithin(wanted, watched)
  {
    hide IsEvent;
    if Uncovered(wanted, watched) == 0 {
      forall b | IsEvent(b) && Has(wanted, b)
        ensures Has(watched, b)
      {
        CoveredEvent(wanted, watched, b);
      }
    } else {
      var b := FindUncovered(wanted, watched);
    }
  }

  lemma {:induction false} CoveredEvent(wanted: bv32, watched: bv32, b: bv32)
    requires IsEvent(b) && Has(wanted, b) && Uncovered(wanted, watched) == 0
    ensures Has(watched, b)
  {
  }

  lemma {:induction false} FindUncovered(wanted: bv32, watched: bv32) returns (b: bv32)
    requires Uncovered(wanted, watched) != 0
    ensures IsEvent(b) && Has(wanted, b) && !Has(watched, b)
  {
    var u := Uncovered(wanted, watched);
    b := if u & EPOLLIN != 0 then EPOLLIN else if u & EPOLLPRI != 0 then EPOLLPRI
         else if u & EPOLLOUT != 0 then EPOLLOUT
         else if u & EPOLLERR != 0 then EPOLLERR else if u & EPOLLHUP != 0 then EPOLLHUP
         else if u & EPOLLRDNORM != 0 then EPOLLRDNORM else if u & EPOLLRDBAND != 0 then EPOLLRDBAND
         else if u & EPOLLWRNORM != 0 then EPOLLWRNORM else if u & EPOLLWRBAND != 0 then EPOLLWRBAND
         else if u & EPOLLMSG != 0 then EPOLLMSG else EPOLLRDHUP;
  }

  /** The flag for a single report is the highest bit; the user's own errors and hang-ups are 8 and 16. */
  lemma {:induction false} Flags(wanted: bv32)
    ensures IsOneShot(wanted) <==> wanted >= 0x8000_0000
    ensures EPOLLERR == 8 && EPOLLHUP == 16
  {
  }

  /** Every known event is reported exactly for its causes, and no other. */
  lemma {:induction false} ReportedExactly(events: bv32, b: bv32)
    ensures IsEvent(b) ==> (Has(FromAfd(events), b) <==> Has(events, Causes(b)))
    ensures FromAfd(events) & !KNOWN_EVENTS == 0
  {
  }

  /** The reports of the single kernel events. */
  lemma {:induction false} ReportTable()
    ensures FromAfd(0x0001) == FromAfd(0x0080) == 0x0041 && FromAfd(0x0002) == 0x0082 && FromAfd(0x0004) == 0x0304
    ensures FromAfd(0x0008) == 0x2041 && FromAfd(0x0010) == 0x0010 && FromAfd(0x0100) == 0x214d
  {
  }

  /** Known events that are wanted, but that a request for these kernel events can never report.  EPOLLMSG has no
      counterpart. */
  function Unseen(wanted: bv32, request: bv32): bv32 {
    wanted & KNOWN_EVENTS & !EPOLLMSG & !FromAfd(request)
  }

  /** EPOLLMSG is the one known event without a counterpart: the kernel's answers never report it, and all others are
      reported by some answer. */
  lemma {:induction false} NoMessages(events: bv32)
    ensures FromAfd(events) & EPOLLMSG == 0
    ensures FromAfd(0xffff_ffff) == KNOWN_EVENTS & !EPOLLMSG
    ensures FromAfd(events) & !FromAfd(0xffff_ffff) == 0
  {
  }

  /** The request handed to the kernel can report every known event that it is recorded to watch, and closed sockets. */
  lemma {:induction false} RequestSees(events: bv32)
    ensures Unseen(events, ToAfd(events)) == 0
    ensures ToAfd(events) & AFD_LOCAL_CLOSE != 0
  {
  }

  lemma {:induction false} Chained(wanted: bv32, known: bv32, watched: bv32, skipped: bv32, seen: bv32)
    requires wanted & known & !watched == 0 && watched & known & skipped & !seen == 0
    ensures wanted & known & skipped & !seen == 0
  {
  }

  /** The request holds every kernel event whose report holds a wanted event, and closed sockets. */
  ghost predicate Sees(request: bv32, wanted: bv32) {
    request & AFD_LOCAL_CLOSE != 0 && forall k | IsKernelEvent(k) && FromAfd(k) & wanted != 0 :: request & k != 0
  }

  lemma {:induction false} StillCommon(report: bv32, wanted: bv32, watched: bv32)
    requires report & wanted != 0 && report & !KNOWN_EVENTS == 0 && Uncovered(wanted, watched) == 0
    ensures report & watched != 0
  {
  }

  lemma {:induction false} ErrorCovered(wanted: bv32, watched: bv32)
    requires Uncovered(wanted, watched) == 0 && wanted & EPOLLERR != 0
    ensures watched & EPOLLERR != 0
  {
  }

  /** A request for what is watched asks for everything whose report is wanted and covered. */
  lemma {:induction false} CoveredSees(wanted: bv32, watched: bv32)
    requires Uncovered(wanted, watched) == 0 && (wanted == 0 || wanted & EPOLLERR != 0)
    ensures Sees(ToAfd(watched), wanted)
  {
    hide ToAfd, FromAfd, Uncovered, IsKernelEvent;
    AskedExactly(watched, 0);
    forall k | IsKernelEvent(k) && FromAfd(k) & wanted != 0
      ensures ToAfd(watched) & k != 0
    {
      SeesOne(wanted, watched, k);
    }
  }

  lemma {:induction false} SeesOne(wanted: bv32, watched: bv32, k: bv32)
    requires Uncovered(wanted, watched) == 0 && (wanted == 0 || wanted & EPOLLERR != 0)
    requires IsKernelEvent(k) && FromAfd(k) & wanted != 0
    ensures ToAfd(watched) & k != 0
  {
    hide ToAfd, FromAfd, Uncovered, IsKernelEvent;
    AskedExactly(watched, k);
    if k == AFD_CONNECT_FAIL {
      ErrorCovered(wanted, watched);
    } else {
      ReportedExactly(k, 0);
      StillCommon(FromAfd(k), wanted, watched);
    }
  }

  /** What is covered by what is watched is seen by the request. */
  lemma {:induction false} CoveredIsSeen(wanted: bv32, watched: bv32)
    requires Uncovered(wanted, watched) == 0
    ensures Unseen(wanted, ToAfd(watched)) == 0
  {
    RequestSees(watched);
    hide ToAfd, FromAfd;
    Chained(wanted, KNOWN_EVENTS, watched, !EPOLLMSG, FromAfd(ToAfd(watched)));
  }

  lemma {:induction false} FullyCovered(wanted: bv32)
    ensures Uncovered(wanted, wanted) == 0
    ensures wanted & (EPOLLERR | EPOLLHUP) != 0 ==> Uncovered(wanted, 0) != 0
  {
  }

  /** What a user is registered for always includes errors and hang-ups, so it is never covered by nothing. */
  lemma {:induction false} Wanted(events: bv32)
    ensures Uncovered(events | EPOLLERR | EPOLLHUP, 0) != 0
  {
  }
}
