/** How one RPC call completes: netrpc/net/rpc/rpc_channel.cc and netrpc/net/rpc/rpc_controller.cc. */
module RpcCompletion {
  import opened Numerals

  const ERROR_PEER_CLOSED := 10000000
  const ERROR_FAILED_CONNECT := 10000001
  const ERROR_FAILED_SERIALIZE := 10000004
  const ERROR_RPC_CALL_TIMEOUT := 10000007

  /** What `connect` comes back with, at once or when the socket becomes writable; a failure is remembered by the
      client, with the system's text for it. */
  datatype Connect = Established | Refused(system: string) | Unknown(system: string) | Immediate(system: string)

  /** The continuations of a call, in whatever order they happen. */
  datatype Event =
    | ConnectDone(result: Connect)
    | WriteDone
    | Response(data: string, parses: bool, code: int, info: string)
    | Timeout

  datatype Controller = Controller(code: int, info: string, failed: bool, cancelled: bool, finished: bool)

  /** A call under way. `reenter` is how often the closure calls back into the channel while it runs; `connectCode`
      and `connectInfo` are the client's error, `queued` says a request is to be written, `reading` that its reply
      is awaited. */
  datatype Call = Call(controller: Controller, timeout: int, hasClosure: bool, reenter: nat, runs: nat,
                       connectCode: int, connectInfo: string, queued: bool, reading: bool, response: string)

  // The effect of the continuations.

  /** `callBack`: nothing when finished; the closure marks the call finished only after it has run. */
  function CallBack(c: Call): (d: Call)
    ensures d.connectCode == c.connectCode
  {
    if c.controller.finished || !c.hasClosure then c
    else c.(runs := c.runs + 1 + c.reenter, reenter := 0, controller := c.controller.(finished := true))
  }

  function ConnectCode(previous: int, result: Connect): int {
    match result
    case Established => previous
    case Refused(_) => ERROR_PEER_CLOSED
    case Unknown(_) => ERROR_FAILED_CONNECT
    case Immediate(_) => ERROR_FAILED_CONNECT
  }

  function ConnectInfo(previous: string, result: Connect): string {
    match result
    case Established => previous
    case Refused(system) => "connect refused, sys error = " + system
    case Unknown(system) => "connect unkonwn error, sys error =" + system
    case Immediate(system) => "connect error, sys error = " + system
  }

  function TimeoutInfo(timeout: int): string {
    "rpc call timeout " + Signed(timeout)
  }

  /** What a continuation sets on the controller, if anything. */
  datatype Report = Nothing | Error(code: int, info: string)

  function ReportOf(c: Call, e: Event): Report {
    match e
    case ConnectDone(result) =>
      var code := ConnectCode(c.connectCode, result);
      if code == 0 then Nothing else Error(code, ConnectInfo(c.connectInfo, result))
    case WriteDone => Nothing
    case Response(_, parses, code, info) =>
      if !c.reading then Nothing
      else if !parses then Error(ERROR_FAILED_SERIALIZE, "serialize error")
      else if code != 0 then Error(code, info)
      else Nothing
    case Timeout => if c.controller.finished then Nothing else Error(ERROR_RPC_CALL_TIMEOUT, TimeoutInfo(c.timeout))
  }

  function WithReport(c: Call, r: Report): (d: Call)
    ensures d.connectCode == c.connectCode
  {
    match r
    case Nothing => c
    case Error(code, info) => c.(controller := c.controller.(code := code, info := info, failed := true))
  }

  function Step(c: Call, e: Event): Call {
    var r := ReportOf(c, e);
    match e
    case ConnectDone(result) =>
      var d := c.(connectCode := ConnectCode(c.connectCode, result), connectInfo := ConnectInfo(c.connectInfo, result));
      if r.Error? then CallBack(WithReport(d, r)) else d.(queued := true)
    case WriteDone => if c.queued then c.(queued := false, reading := true) else c
    case Response(data, _, _, _) =>
      if !c.reading then c else CallBack(WithReport(c.(reading := false, response := data), r))
    case Timeout =>
      if c.controller.finished then c
      else
        var k := c.controller.(cancelled := true, failed := true, finished := true);
        CallBack(WithReport(c.(controller := k), r))
  }

  function Run(c: Call, es: seq<Event>): Call
    decreases |es|
  {
    if es == [] then c else Run(Step(c, es[0]), es[1..])
  }

  class RpcController {
    var errorCode: int
    var errorInfo: string
    var isFailed: bool
    var isCanceled: bool
    var isFinished: bool

    constructor ()
      ensures View() == Controller(0, "", false, false, false)
    {
      errorCode, errorInfo := 0, "";
      isFailed, isCanceled, isFinished := false, false, false;
    }

    function View(): Controller
      reads this
    {
      Controller(errorCode, errorInfo, isFailed, isCanceled, isFinished)
    }

    method StartCancel()
      modifies this
      ensures View() == old(View()).(cancelled := true, failed := true, finished := true)
    {
      isCanceled := true;
      isFailed := true;
      isFinished := true;
    }

    method SetError(code: int, info: string)
      modifies this
      ensures View() == old(View()).(code := code, info := info, failed := true)
    {
      errorCode := code;
      errorInfo := info;
      isFailed := true;
    }
  }

  /** The channel and its client's connect error. */
  class RpcChannel {
    var controller: RpcController
    var timeout: int
    var hasClosure: bool
    var reenter: nat
    var isInit: bool
    var runs: nat
    var connectErrorCode: int
    var connectErrorInfo: string
    var queued: bool
    var reading: bool
    var response: string

    ghost function View(): Call
      reads this, controller
    {
      Call(controller.View(), timeout, hasClosure, reenter, runs, connectErrorCode, connectErrorInfo, queued, reading,
           response)
    }

    constructor (placeholder: RpcController, timeout: int)
      ensures !isInit && runs == 0 && connectErrorCode == 0 && !queued && !reading
    {
      controller := placeholder;
      this.timeout := timeout;
      hasClosure, reenter, isInit, runs := false, 0, false, 0;
      connectErrorCode, connectErrorInfo, queued, reading, response := 0, "", false, false, "";
    }

    /** Only the first `Init` takes effect. */
    method Init(controller: RpcController, hasClosure: bool, reenter: nat)
      modifies this
      ensures isInit && runs == old(runs) && connectErrorCode == old(connectErrorCode)
      ensures connectErrorInfo == old(connectErrorInfo) && timeout == old(timeout)
      ensures queued == old(queued) && reading == old(reading) && response == old(response)
      ensures if old(isInit)
              then this.controller == old(this.controller) && this.hasClosure == old(this.hasClosure)
                   && this.reenter == old(this.reenter)
              else this.controller == controller && this.hasClosure == hasClosure && this.reenter == reenter
    {
      if isInit {
        return;
      }
      this.controller := controller;
      this.hasClosure := hasClosure;
      this.reenter := reenter;
      isInit := true;
    }

    method DoCallBack()
      modifies this`runs, this`reenter, controller
      ensures View() == CallBack(old(View()))
      decreases reenter
    {
      if controller.isFinished {
        return;
      }
      if hasClosure {
        RunClosure();
        controller.isFinished := true;
      }
    }

    /** The closure; it may call back into the channel while it runs. */
    method RunClosure()
      requires hasClosure && !controller.isFinished
      modifies this`runs, this`reenter, controller
      ensures runs == old(runs) + 1 + old(reenter) && reenter == 0
      ensures controller.View() == old(controller.View()).(finished := old(reenter) > 0)
      decreases reenter, 0
    {
      runs := runs + 1;
      if reenter > 0 {
        reenter := reenter - 1;
        DoCallBack();
      }
    }

    method OnTimeout()
      modifies this`runs, this`reenter, controller
      ensures View() == Step(old(View()), Timeout)
    {
      if controller.isFinished {
        return;
      }
      controller.StartCancel();
      controller.SetError(ERROR_RPC_CALL_TIMEOUT, "rpc call timeout " + Signed(timeout));
      DoCallBack();
    }

    method OnConnect(result: Connect)
      modifies this`runs, this`reenter, this`connectErrorCode, this`connectErrorInfo, this`queued, controller
      ensures View() == Step(old(View()), ConnectDone(result))
    {
      match result {
        case Established =>
        case Refused(system) =>
          connectErrorCode := ERROR_PEER_CLOSED;
          connectErrorInfo := "connect refused, sys error = " + system;
        case Unknown(system) =>
          connectErrorCode := ERROR_FAILED_CONNECT;
          connectErrorInfo := "connect unkonwn error, sys error =" + system;
        case Immediate(system) =>
          connectErrorCode := ERROR_FAILED_CONNECT;
          connectErrorInfo := "connect error, sys error = " + system;
      }
      if connectErrorCode != 0 {
        controller.SetError(connectErrorCode, connectErrorInfo);
        DoCallBack();
        return;
      }
      queued := true;
    }

    method OnWriteDone()
      modifies this`queued, this`reading
      ensures View() == Step(old(View()), WriteDone)
    {
      if queued {
        queued := false;
        reading := true;
      }
    }

    method OnResponse(data: string, parses: bool, code: int, info: string)
      modifies this`runs, this`reenter, this`reading, this`response, controller
      ensures View() == Step(old(View()), Response(data, parses, code, info))
    {
      if !reading {
        return;
      }
      reading := false;
      response := data;
      if !parses {
        controller.SetError(ERROR_FAILED_SERIALIZE, "serialize error");
        DoCallBack();
        return;
      }
      if code != 0 {
        controller.SetError(code, info);
        DoCallBack();
        return;
      }
      DoCallBack();
    }
  }

  // Every interleaving.

  /** The continuation calls `callBack` when it happens at `c`. */
  predicate Completes(c: Call, e: Event) {
    match e
    case ConnectDone(result) => ConnectCode(c.connectCode, result) != 0
    case Response(_, _, _, _) => c.reading
    case WriteDone => false
    case Timeout => false
  }

  datatype Verdict = Open | Completed | TimedOut

  /** What comes first in a run: a continuation that completes the call, or the timeout. */
  function FirstOf(c: Call, es: seq<Event>): Verdict
    decreases |es|
  {
    if es == [] then Open
    else if Completes(c, es[0]) then Completed
    else if es[0].Timeout? then TimedOut
    else FirstOf(Step(c, es[0]), es[1..])
  }

  predicate Fresh(c: Call) {
    !c.controller.finished && !c.controller.cancelled && c.runs == 0 && c.hasClosure
  }

  /** After a call is finished no continuation runs the closure, un-finishes or cancels it; all that can still change
      is the reported error, the response message and the bookkeeping of the connection. */
  lemma FinishedStays(c: Call, e: Event)
    requires c.controller.finished
    ensures var d := Step(c, e);
            && d.controller.finished && d.controller.cancelled == c.controller.cancelled
            && d.runs == c.runs && d.reenter == c.reenter && d.hasClosure == c.hasClosure
  {
  }

  lemma {:induction false} FinishedForGood(c: Call, es: seq<Event>)
    requires c.controller.finished
    ensures var d := Run(c, es);
            && d.controller.finished && d.controller.cancelled == c.controller.cancelled && d.runs == c.runs
    decreases |es|
  {
    hide Step;
    if es != [] {
      FinishedStays(c, es[0]);
      FinishedForGood(Step(c, es[0]), es[1..]);
    }
  }

  /** What the event at `i` of a run sets. */
  function ReportAt(c: Call, es: seq<Event>, i: nat): Report
    requires i < |es|
  {
    ReportOf(Run(c, es[..i]), es[i])
  }

  predicate IsLastReport(c: Call, es: seq<Event>, i: nat)
    requires i < |es|
  {
    ReportAt(c, es, i).Error? && forall k :: i < k < |es| ==> ReportAt(c, es, k).Nothing?
  }

  /** A finished call does not keep its outcome: whatever happens after, its controller shows the failure that was
      reported last, and is untouched only if none was. */
  lemma {:induction false} LateReports(c: Call, es: seq<Event>)
    requires c.controller.finished
    ensures (forall i :: 0 <= i < |es| ==> ReportAt(c, es, i).Nothing?) ==> Run(c, es).controller == c.controller
    ensures forall i :: 0 <= i < |es| && IsLastReport(c, es, i) ==>
              var r := ReportAt(c, es, i);
              Run(c, es).controller == c.controller.(code := r.code, info := r.info, failed := true)
    decreases |es|
  {
    hide Step, ReportOf, Run;
    if es == [] {
      RunsNothing(c, es);
    } else {
      var n := |es| - 1;
      var front := es[..n];
      assert es == front + [es[n]];
      FinishedForGood(c, front);
      LateReports(c, front);
      ReportsKept(c, es, n);
      RunThen(c, front, es[n]);
      LateStep(Run(c, front), es[n]);
      assert ReportAt(c, es, n) == ReportOf(Run(c, front), es[n]);
    }
  }

  lemma RunsNothing(c: Call, es: seq<Event>)
    requires es == []
    ensures Run(c, es) == c
  {
  }

  lemma ReportsKept(c: Call, es: seq<Event>, n: nat)
    requires n <= |es|
    ensures forall i :: 0 <= i < n ==> ReportAt(c, es, i) == ReportAt(c, es[..n], i)
  {
    hide Run, ReportOf;
    forall i | 0 <= i < n ensures ReportAt(c, es, i) == ReportAt(c, es[..n], i) {
      assert es[..n][..i] == es[..i];
    }
  }

  lemma LateStep(c: Call, e: Event)
    requires c.controller.finished
    ensures Step(c, e).controller
            == match ReportOf(c, e)
               case Nothing => c.controller
               case Error(code, info) => c.controller.(code := code, info := info, failed := true)
  {
    hide ConnectInfo, ConnectCode, TimeoutInfo;
  }

  /** For every interleaving: the closure has run once (and once more for every time it re-entered) exactly when a
      completing continuation came before any timeout; a timeout that came first keeps it from ever running and leaves
      the call cancelled; a call neither has ended is open. */
  lemma {:induction false} ClosureRunsIff(c: Call, es: seq<Event>)
    requires Fresh(c)
    ensures var d := Run(c, es);
            match FirstOf(c, es)
            case Completed => d.runs == 1 + c.reenter && d.controller.finished && !d.controller.cancelled
            case TimedOut => d.runs == 0 && d.controller.finished && d.controller.cancelled
            case Open => d.runs == 0 && !d.controller.finished && !d.controller.cancelled
    decreases |es|
  {
    if es != [] {
      var d := Step(c, es[0]);
      if Completes(c, es[0]) || es[0].Timeout? {
        FinishedForGood(d, es[1..]);
      } else {
        ClosureRunsIff(d, es[1..]);
      }
    }
  }

  /** At most one run, in every interleaving, exactly when the closure does not re-enter the channel. */
  lemma OnceOnlyIff(c: Call)
    requires Fresh(c)
    ensures (forall es :: Run(c, es).runs <= 1) <==> c.reenter == 0
  {
    forall es ensures Run(c, es).runs <= 1 + c.reenter {
      ClosureRunsIff(c, es);
    }
    var es := [ConnectDone(Refused(""))];
    assert Completes(c, es[0]) && FirstOf(c, es) == Completed;
    ClosureRunsIff(c, es);
  }

  predicate FailedConnect(e: Event) {
    e.ConnectDone? && !e.result.Established?
  }

  lemma {:induction false} RunThen(c: Call, es: seq<Event>, e: Event)
    ensures Run(c, es + [e]) == Step(Run(c, es), e)
    decreases |es|
  {
    hide Step;
    if es == [] {
      assert ([] + [e])[1..] == [];
    } else {
      assert (es + [e])[1..] == es[1..] + [e];
      RunThen(Step(c, es[0]), es[1..], e);
    }
  }

  /** The client's error is never cleared: it is there exactly when some connect has failed. */
  lemma {:induction false} FailureIsRemembered(c: Call, es: seq<Event>)
    ensures Run(c, es).connectCode == 0 <==> c.connectCode == 0 && forall e :: e in es ==> !FailedConnect(e)
    decreases |es|
  {
    hide Step, FailedConnect;
    if es != [] {
      StepRemembers(c, es[0]);
      FailureIsRemembered(Step(c, es[0]), es[1..]);
      assert es == [es[0]] + es[1..];
    }
  }

  lemma StepRemembers(c: Call, e: Event)
    ensures Step(c, e).connectCode == 0 <==> c.connectCode == 0 && !FailedConnect(e)
  {
    hide ConnectInfo, WithReport, CallBack, TimeoutInfo;
  }

  /** Some connect succeeds before any has failed. */
  predicate ConnectsInTime(es: seq<Event>) {
    exists i :: 0 <= i < |es| && es[i] == ConnectDone(Established) && forall e :: e in es[..i] ==> !FailedConnect(e)
  }

  /** Over every run, the request is queued at some point if and only if some connect succeeds before any has failed:
      after a failure, later successful connects report the failure again and queue nothing. */
  lemma {:induction false} QueuedIff(c: Call, es: seq<Event>)
    requires c.connectCode == 0 && !c.queued
    ensures (exists k :: 0 <= k <= |es| && Run(c, es[..k]).queued) <==> ConnectsInTime(es)
    decreases |es|
  {
    hide Step, Run, ConnectsInTime;
    if es == [] {
      NothingQueued(c, es);
    } else {
      var n := |es| - 1;
      var front := es[..n];
      QueuedIff(c, front);
      assert es == front + [es[n]] && es[..n + 1] == es;
      assert forall k :: 0 <= k <= n ==> es[..k] == front[..k];
      RunThen(c, front, es[n]);
      FailureIsRemembered(c, front);
      QueuesIff(Run(c, front), es[n]);
      InTimeGrows(front, es[n]);
      if Run(c, front).queued {
        assert front[..n] == front;
      }
    }
  }

  lemma NothingQueued(c: Call, es: seq<Event>)
    requires es == [] && !c.queued
    ensures !Run(c, es[..0]).queued && !ConnectsInTime(es)
  {
  }

  lemma QueuesIff(c: Call, e: Event)
    ensures Step(c, e).queued ==> c.queued || (e == ConnectDone(Established) && c.connectCode == 0)
    ensures e == ConnectDone(Established) && c.connectCode == 0 ==> Step(c, e).queued
  {
  }

  lemma InTimeGrows(es: seq<Event>, e: Event)
    ensures ConnectsInTime(es + [e])
            <==> ConnectsInTime(es) || (e == ConnectDone(Established) && forall x :: x in es ==> !FailedConnect(x))
  {
    var more := es + [e];
    assert forall i :: 0 <= i <= |es| ==> more[..i] == es[..i];
    assert es[..|es|] == es;
    if ConnectsInTime(es) {
      var i :| 0 <= i < |es| && es[i] == ConnectDone(Established) && forall x :: x in es[..i] ==> !FailedConnect(x);
      assert more[i] == es[i] && more[..i] == es[..i];
    } else if e == ConnectDone(Established) && forall x :: x in es ==> !FailedConnect(x) {
      assert more[|es|] == e && more[..|es|] == es;
    }
  }

  /** The state just after the first continuation that ends the call. */
  function Decided(c: Call, es: seq<Event>): Call
    decreases |es|
  {
    if es == [] then c
    else if Completes(c, es[0]) || es[0].Timeout? then Step(c, es[0])
    else Decided(Step(c, es[0]), es[1..])
  }

  /** Nothing has gone wrong yet. */
  predicate Clean(c: Call) {
    Fresh(c) && c.connectCode == 0 && c.controller.code == 0 && !c.controller.failed
  }

  /** What the closure finds: it has failed exactly when the code is not 0; the code is that of a failed connect,
      of the serialiser, or of the reply; after a timeout it is the timeout's, and the closure does not run. */
  lemma {:induction false} ClosureSees(c: Call, es: seq<Event>)
    requires Clean(c)
    ensures var d := Decided(c, es);
            && (d.controller.failed <==> d.controller.code != 0 || d.controller.cancelled)
            && (FirstOf(c, es).TimedOut? ==> d.controller.code == ERROR_RPC_CALL_TIMEOUT && d.runs == 0)
            && (FirstOf(c, es).Completed? ==>
                  || d.controller.code == ERROR_PEER_CLOSED == d.connectCode
                  || d.controller.code == ERROR_FAILED_CONNECT == d.connectCode
                  || exists e :: e in es && e.Response? && d.response == e.data
                       && d.controller.code == if e.parses then e.code else ERROR_FAILED_SERIALIZE)
    decreases |es|
  {
    if es != [] {
      if Completes(c, es[0]) || es[0].Timeout? {
        assert es[0] in es;
      } else {
        ClosureSees(Step(c, es[0]), es[1..]);
        assert forall e :: e in es[1..] ==> e in es;
      }
    }
  }

  // The same by the events alone.

  /** A request is written after a connect that succeeded. */
  predicate Awaited(es: seq<Event>, k: nat)
    requires k <= |es|
  {
    exists i, j :: 0 <= i < j < k && es[i] == ConnectDone(Established) && es[j] == WriteDone
  }

  /** The event at `k` is one that ends a call: a connect that fails, or a reply to a request that was written. */
  predicate Ends(es: seq<Event>, k: nat)
    requires k < |es|
  {
    FailedConnect(es[k]) || (es[k].Response? && Awaited(es, k))
  }

  /** The first event of a run that ends the call, or times it out. */
  predicate Decides(es: seq<Event>, k: nat) {
    && k < |es| && (Ends(es, k) || es[k].Timeout?)
    && forall i :: 0 <= i < k ==> !Ends(es, i) && !es[i].Timeout?
  }

  /** Nothing has happened to a call. */
  predicate Unused(c: Call) {
    Clean(c) && !c.queued && !c.reading
  }

  predicate Undecided(es: seq<Event>) {
    forall i :: 0 <= i < |es| ==> !Ends(es, i) && !es[i].Timeout?
  }

  predicate Connected(es: seq<Event>) {
    ConnectDone(Established) in es
  }

  /** As long as nothing decides the call, it stands as the events say: a reply is awaited exactly when the request
      was written after a successful connect; until then a request is queued exactly when one has succeeded. */
  lemma {:induction false} Standing(c: Call, es: seq<Event>)
    requires Unused(c) && Undecided(es)
    ensures var d := Run(c, es);
            && Clean(d) && d.timeout == c.timeout && d.reenter == c.reenter && d.controller == c.controller
            && (d.reading <==> Awaited(es, |es|)) && (d.queued || d.reading <==> Connected(es))
    decreases |es|
  {
    hide Step, Run, Clean, Awaited, Ends;
    if es == [] {
      RunsNothing(c, es);
      NothingAwaited(es);
    } else {
      var n := |es| - 1;
      var front := es[..n];
      assert es == front + [es[n]];
      FrontUndecided(es, n);
      Standing(c, front);
      RunThen(c, front, es[n]);
      AwaitedGrows(es, n);
      StandsOn(Run(c, front), es, n);
    }
  }

  lemma NothingAwaited(es: seq<Event>)
    requires es == []
    ensures !Awaited(es, 0)
  {
  }

  lemma FrontUndecided(es: seq<Event>, n: nat)
    requires n <= |es| && forall i :: 0 <= i < n ==> !Ends(es, i) && !es[i].Timeout?
    ensures Undecided(es[..n])
  {
    forall i | 0 <= i < n ensures Ends(es[..n], i) <==> Ends(es, i) {
      AwaitedIsLocal(es, n, i);
    }
  }

  lemma AwaitedIsLocal(es: seq<Event>, n: nat, k: nat)
    requires k <= n <= |es|
    ensures Awaited(es[..n], k) <==> Awaited(es, k)
  {
    var front := es[..n];
    if Awaited(es, k) {
      var i, j :| 0 <= i < j < k && es[i] == ConnectDone(Established) && es[j] == WriteDone;
      assert front[i] == es[i] && front[j] == es[j];
    }
  }

  lemma AwaitedGrows(es: seq<Event>, n: nat)
    requires |es| == n + 1
    ensures Awaited(es, n + 1) <==> Awaited(es[..n], n) || (es[n] == WriteDone && Connected(es[..n]))
    ensures Connected(es) <==> Connected(es[..n]) || es[n] == ConnectDone(Established)
  {
    AwaitedIsLocal(es, n, n);
    assert es == es[..n] + [es[n]];
    if es[n] == WriteDone && Connected(es[..n]) {
      var i :| 0 <= i < n && es[..n][i] == ConnectDone(Established);
      assert es[i] == ConnectDone(Established) && es[n] == WriteDone;
    }
  }

  lemma StandsOn(d: Call, es: seq<Event>, n: nat)
    requires |es| == n + 1 && Clean(d) && !Ends(es, n) && !es[n].Timeout?
    requires (d.reading <==> Awaited(es[..n], n)) && (d.queued || d.reading <==> Connected(es[..n]))
    requires Awaited(es, n + 1) <==> Awaited(es[..n], n) || (es[n] == WriteDone && Connected(es[..n]))
    requires Connected(es) <==> Connected(es[..n]) || es[n] == ConnectDone(Established)
    ensures var d' := Step(d, es[n]);
            && Clean(d') && d'.timeout == d.timeout && d'.reenter == d.reenter && d'.controller == d.controller
            && (d'.reading <==> Awaited(es, n + 1)) && (d'.queued || d'.reading <==> Connected(es))
  {
    hide Awaited, Connected, ConnectInfo, TimeoutInfo;
    AwaitedStays(es, n);
  }

  lemma AwaitedStays(es: seq<Event>, n: nat)
    requires n < |es|
    ensures Awaited(es[..n], n) <==> Awaited(es, n)
  {
    AwaitedIsLocal(es, n, n);
  }

  /** What is to come of a call that `e` decides, with the codes and texts a caller sees: a failed connect and a reply
      run the closure, a timeout does not. */
  predicate EndsAs(c: Call, e: Event, d: Call) {
    d.runs == (if e.Timeout? then 0 else 1 + c.reenter) &&
    d.reenter == (if e.Timeout? then c.reenter else 0) &&
    match e
    case ConnectDone(Refused(system)) =>
      d.controller == Controller(10000000, "connect refused, sys error = " + system, true, false, true)
    case ConnectDone(Unknown(system)) =>
      d.controller == Controller(10000001, "connect unkonwn error, sys error =" + system, true, false, true)
    case ConnectDone(Immediate(system)) =>
      d.controller == Controller(10000001, "connect error, sys error = " + system, true, false, true)
    case Response(data, parses, code, info) =>
      d.response == data
      && d.controller == (if !parses then Controller(10000004, "serialize error", true, false, true)
                          else if code != 0 then Controller(code, info, true, false, true)
                          else Controller(0, c.controller.info, false, false, true))
    case Timeout => d.controller == Controller(10000007, "rpc call timeout " + Signed(c.timeout), true, true, true)
    case ConnectDone(Established) => false  // neither of these decides a call
    case WriteDone => false
  }

  /** The event that decides a call makes just that of it. */
  lemma DecidedAs(c: Call, es: seq<Event>, k: nat)
    requires Unused(c) && Decides(es, k)
    ensures EndsAs(c, es[k], Run(c, es[..k + 1]))
  {
    hide Run, Awaited, Clean;
    FrontUndecided(es, k);
    Standing(c, es[..k]);
    AwaitedIsLocal(es, k, k);
    assert es[..k + 1] == es[..k] + [es[k]];
    RunThen(c, es[..k], es[k]);
    LastStep(c, Run(c, es[..k]), es[k]);
  }

  lemma LastStep(c: Call, b: Call, e: Event)
    requires Clean(b) && b.timeout == c.timeout && b.reenter == c.reenter && b.controller == c.controller
    requires FailedConnect(e) || (e.Response? && b.reading) || e.Timeout?
    ensures EndsAs(c, e, Step(b, e))
  {
  }

  /** Over every interleaving, by the events alone: the call is finished exactly when an event has decided it, and the
      closure has run exactly when the first such event was no timeout. */
  lemma CompletionLaw(c: Call, es: seq<Event>)
    requires Unused(c)
    ensures Run(c, es).controller.finished <==> exists k: nat :: Decides(es, k)
    ensures Run(c, es).runs
            == if exists k: nat :: Decides(es, k) && !es[k].Timeout? then 1 + c.reenter else 0
  {
    hide Run, Awaited, Ends, Clean, Step;
    if k: nat :| Decides(es, k) {
      DecidedAs(c, es, k);
      FinishedAt(c, es, k);
      OnlyOneDecides(es, k);
    } else {
      FirstDecides(es, |es|);
      Standing(c, es);
      CleanIsOpen(Run(c, es));
    }
  }

  lemma CleanIsOpen(c: Call)
    requires Clean(c)
    ensures !c.controller.finished && c.runs == 0
  {
  }

  lemma OnlyOneDecides(es: seq<Event>, k: nat)
    requires Decides(es, k)
    ensures forall i: nat :: Decides(es, i) ==> i == k
  {
    hide Ends;
  }

  lemma {:induction false} FirstDecides(es: seq<Event>, n: nat)
    requires n <= |es| && forall k :: !Decides(es, k)
    ensures forall i :: 0 <= i < n ==> !Ends(es, i) && !es[i].Timeout?
  {
    hide Ends;
    if n > 0 {
      FirstDecides(es, n - 1);
      assert !Decides(es, n - 1);
    }
  }

  /** What is finished after a front part of a run stays so, with as many runs of the closure. */
  lemma FinishedAt(c: Call, es: seq<Event>, k: nat)
    requires k < |es| && Run(c, es[..k + 1]).controller.finished
    ensures Run(c, es).controller.finished && Run(c, es).runs == Run(c, es[..k + 1]).runs
  {
    hide Run;
    RunConcat(c, es[..k + 1], es[k + 1..]);
    assert es[..k + 1] + es[k + 1..] == es;
    FinishedForGood(Run(c, es[..k + 1]), es[k + 1..]);
  }

  lemma {:induction false} RunConcat(c: Call, a: seq<Event>, b: seq<Event>)
    ensures Run(c, a + b) == Run(Run(c, a), b)
    decreases |a|
  {
    hide Step;
    if a == [] {
      assert a + b == b;
    } else {
      assert (a + b)[1..] == a[1..] + b;
      RunConcat(Step(c, a[0]), a[1..], b);
    }
  }

  /** The plain course of a call: connected, written, answered. */
  lemma GoodCall(c: Call, data: string, info: string)
    requires Unused(c)
    ensures var d := Run(c, [ConnectDone(Established), WriteDone, Response(data, true, 0, info)]);
            && d.runs == 1 + c.reenter && d.response == data
            && d.controller.finished && !d.controller.failed && d.controller.code == 0 && !d.controller.cancelled
  {
    hide Run, Clean;
    var es := [ConnectDone(Established), WriteDone, Response(data, true, 0, info)];
    assert es[0] == ConnectDone(Established) && es[1] == WriteDone;
    assert Awaited(es, 2);
    assert Decides(es, 2);
    DecidedAs(c, es, 2);
    assert es[..2 + 1] == es;
  }

  /** The last connect that fails is the one at `k`. */
  predicate LastFailure(es: seq<Event>, k: nat) {
    k < |es| && FailedConnect(es[k]) && forall i :: k < i < |es| ==> !FailedConnect(es[i])
  }

  /** What the client remembers of its connects is the failure of the last that failed, and nothing if none did. */
  lemma {:induction false} ClientRemembers(c: Call, es: seq<Event>)
    ensures (forall k :: 0 <= k < |es| ==> !FailedConnect(es[k])) ==>
              Run(c, es).connectCode == c.connectCode && Run(c, es).connectInfo == c.connectInfo
    ensures forall k: nat :: LastFailure(es, k) ==>
              var d := Run(c, es);
              match es[k].result
              case Refused(s) => d.connectCode == 10000000 && d.connectInfo == "connect refused, sys error = " + s
              case Unknown(s) => d.connectCode == 10000001 && d.connectInfo == "connect unkonwn error, sys error =" + s
              case Immediate(s) => d.connectCode == 10000001 && d.connectInfo == "connect error, sys error = " + s
              case Established => false
    decreases |es|
  {
    hide Run;
    if es == [] {
      RunsNothing(c, es);
    } else {
      var n := |es| - 1;
      var front := es[..n];
      assert es == front + [es[n]];
      ClientRemembers(c, front);
      RunThen(c, front, es[n]);
      StepRemembersText(Run(c, front), es[n]);
      assert !FailedConnect(es[n]) ==> forall k: nat :: LastFailure(es, k) ==> LastFailure(front, k);
      hide Step;
    }
  }

  lemma StepRemembersText(c: Call, e: Event)
    ensures var d := Step(c, e);
            if FailedConnect(e) then
              d.connectCode == ConnectCode(0, e.result) && d.connectInfo == ConnectInfo("", e.result)
            else d.connectCode == c.connectCode && d.connectInfo == c.connectInfo
  {
  }

  /** The request of a connect that succeeded before any had failed is still to be written. */
  predicate RequestWaits(es: seq<Event>) {
    exists i :: 0 <= i < |es| && es[i] == ConnectDone(Established)
                && (forall j :: 0 <= j < i ==> !FailedConnect(es[j]))
                && (forall j :: i < j < |es| ==> es[j] != WriteDone)
  }

  /** Such a request has been written and no reply has come since. */
  predicate ReplyWaits(es: seq<Event>) {
    exists j :: 0 <= j < |es| && es[j] == WriteDone && RequestWaits(es[..j])
                && forall k :: j < k < |es| ==> !es[k].Response?
  }

  /** Over every run: what is queued and what is awaited, by the events alone. */
  lemma {:induction false} WaitsIff(c: Call, es: seq<Event>)
    requires c.connectCode == 0 && !c.queued && !c.reading
    ensures Run(c, es).queued <==> RequestWaits(es)
    ensures Run(c, es).reading <==> ReplyWaits(es)
    decreases |es|
  {
    hide Step, Run, RequestWaits, ReplyWaits;
    if es == [] {
      RunsNothing(c, es);
      NothingWaits(es);
    } else {
      var n := |es| - 1;
      var front := es[..n];
      assert es == front + [es[n]];
      WaitsIff(c, front);
      RunThen(c, front, es[n]);
      FailureIsRemembered(c, front);
      StepWaits(Run(c, front), es[n]);
      RequestWaitsOn(es, n);
      ReplyWaitsOn(es, n);
    }
  }

  lemma NothingWaits(es: seq<Event>)
    requires es == []
    ensures !RequestWaits(es) && !ReplyWaits(es)
  {
  }

  lemma StepWaits(c: Call, e: Event)
    ensures var d := Step(c, e);
            && (d.queued <==> (e == ConnectDone(Established) && c.connectCode == 0) || (c.queued && e != WriteDone))
            && (d.reading <==> (e == WriteDone && c.queued) || (c.reading && !e.Response?))
  {
    hide ConnectInfo, TimeoutInfo;
  }

  predicate NoneFails(es: seq<Event>) {
    forall j :: 0 <= j < |es| ==> !FailedConnect(es[j])
  }

  lemma RequestWaitsOn(es: seq<Event>, n: nat)
    requires |es| == n + 1
    ensures RequestWaits(es)
            <==> (es[n] == ConnectDone(Established) && NoneFails(es[..n]))
                 || (RequestWaits(es[..n]) && es[n] != WriteDone)
  {
    hide FailedConnect;
    if RequestWaits(es[..n]) && es[n] != WriteDone {
      WaitsStill(es, n);
    }
    if RequestWaits(es) {
      WaitedBefore(es, n);
    }
  }

  lemma WaitsStill(es: seq<Event>, n: nat)
    requires |es| == n + 1 && RequestWaits(es[..n]) && es[n] != WriteDone
    ensures RequestWaits(es)
  {
    hide FailedConnect;
    var front := es[..n];
    var i :| 0 <= i < n && front[i] == ConnectDone(Established)
             && (forall j :: 0 <= j < i ==> !FailedConnect(front[j]))
             && (forall j :: i < j < n ==> front[j] != WriteDone);
    assert es[i] == front[i] && forall j :: 0 <= j < n ==> es[j] == front[j];
  }

  lemma WaitedBefore(es: seq<Event>, n: nat)
    requires |es| == n + 1 && RequestWaits(es)
    ensures (es[n] == ConnectDone(Established) && NoneFails(es[..n])) || (RequestWaits(es[..n]) && es[n] != WriteDone)
  {
    hide FailedConnect;
    var front := es[..n];
    var i :| 0 <= i < |es| && es[i] == ConnectDone(Established)
             && (forall j :: 0 <= j < i ==> !FailedConnect(es[j]))
             && (forall j :: i < j < |es| ==> es[j] != WriteDone);
    assert forall j :: 0 <= j < n ==> es[j] == front[j];
    assert i < n ==> front[i] == es[i] && es[n] != WriteDone;
  }

  lemma ReplyWaitsOn(es: seq<Event>, n: nat)
    requires |es| == n + 1
    ensures ReplyWaits(es)
            <==> (es[n] == WriteDone && RequestWaits(es[..n])) || (ReplyWaits(es[..n]) && !es[n].Response?)
  {
    hide RequestWaits;
    var front := es[..n];
    assert forall k :: 0 <= k <= n ==> es[..k] == front[..k];
    if ReplyWaits(front) && !es[n].Response? {
      var j :| 0 <= j < n && front[j] == WriteDone && RequestWaits(front[..j])
               && forall k :: j < k < n ==> !front[k].Response?;
      assert es[j] == WriteDone && RequestWaits(es[..j]);
    }
    if ReplyWaits(es) {
      var j :| 0 <= j < |es| && es[j] == WriteDone && RequestWaits(es[..j])
               && forall k :: j < k < |es| ==> !es[k].Response?;
      assert j < n ==> front[j] == WriteDone && RequestWaits(front[..j]);
    }
  }
}
