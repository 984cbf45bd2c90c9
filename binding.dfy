/**
 * The `bound` flag that guards `bind()` and `unbind()`. What the toolkit's
 * session answers is an input: a BIND response with its command status, or an
 * exception; an UNBIND response, or an exception. Every exception inside the
 * `try` blocks counts as thrown, including the NullPointerException of a null
 * response reaching `debugString()`.
 */
module Binding {

  /** The command status of a successful response, section 5.1.3 of the SMPP v3.4 specification. */
  const ESME_ROK: int := 0

  /** A non-null BIND response, or anything thrown before the status is read (a null response included). */
  datatype BindOutcome = BindResponse(status: int) | BindThrew

  /** `session.unbind()` returns a non-null response, or something throws before `bound` is cleared (a null response included). */
  datatype UnbindOutcome = UnbindReturned | UnbindThrew

  /** The message each path of `bind()` prints. */
  datatype BindReport = AlreadyBound | BindAccepted | BindRejected(status: int) | BindFailed

  /** The message each path of `unbind()` prints. */
  datatype UnbindReport = NotBound | Unbound | UnbindFailed

  /** A call of `bind()` or `unbind()` together with what the session did. */
  datatype Call = BindCall(bindOutcome: BindOutcome) | UnbindCall(unbindOutcome: UnbindOutcome)

  /** `bound` after `bind()`: unchanged while bound, otherwise set exactly by an ESME_ROK response. */
  function AfterBind(bound: bool, outcome: BindOutcome): (b: bool)
    ensures bound ==> b
    ensures !bound ==> (b <==> outcome.BindResponse? && outcome.status == ESME_ROK)
  {
    bound || outcome == BindResponse(ESME_ROK)
  }

  function BindReportOf(bound: bool, outcome: BindOutcome): (report: BindReport)
    ensures report == AlreadyBound <==> bound
    ensures report == BindAccepted <==> !bound && outcome == BindResponse(ESME_ROK)
    ensures report.BindRejected? <==> !bound && outcome.BindResponse? && outcome.status != ESME_ROK
    ensures report.BindRejected? ==> report.status == outcome.status
    ensures report == BindAccepted <==> !bound && AfterBind(bound, outcome)
  {
    if bound then AlreadyBound
    else match outcome
      case BindThrew => BindFailed
      case BindResponse(status) => if status == ESME_ROK then BindAccepted else BindRejected(status)
  }

  /** `bound` after `unbind()`: unchanged while not bound, otherwise cleared exactly when the session's unbind returns a response. */
  function AfterUnbind(bound: bool, outcome: UnbindOutcome): (b: bool)
    ensures !bound ==> !b
    ensures bound ==> (b <==> outcome == UnbindThrew)
  {
    bound && outcome == UnbindThrew
  }

  function UnbindReportOf(bound: bool, outcome: UnbindOutcome): (report: UnbindReport)
    ensures report == NotBound <==> !bound
    ensures report == Unbound <==> bound && outcome == UnbindReturned
    ensures report == Unbound <==> bound && !AfterUnbind(bound, outcome)
  {
    if !bound then NotBound
    else match outcome
      case UnbindReturned => Unbound
      case UnbindThrew => UnbindFailed
  }

  function Step(bound: bool, call: Call): bool {
    match call
    case BindCall(o) => AfterBind(bound, o)
    case UnbindCall(o) => AfterUnbind(bound, o)
  }

  /** `bound` after a sequence of calls on a fresh sender. */
  function BoundAfter(calls: seq<Call>): bool {
    if calls == [] then false
    else Step(BoundAfter(calls[..|calls| - 1]), calls[|calls| - 1])
  }

  /** Call `i` is a bind that got ESME_ROK and no later unbind returned. */
  predicate BindStands(calls: seq<Call>, i: int)
    requires 0 <= i < |calls|
  {
    && calls[i] == BindCall(BindResponse(ESME_ROK))
    && forall j :: i < j < |calls| ==> calls[j] != UnbindCall(UnbindReturned)
  }

  /**
   * A sender is bound after a sequence of calls exactly when some bind got
   * ESME_ROK and no unbind returned after it.
   */
  lemma {:induction false} BoundIffBindStands(calls: seq<Call>)
    ensures BoundAfter(calls) <==> exists i :: 0 <= i < |calls| && BindStands(calls, i)
    decreases |calls|
  {
    if calls != [] {
      var n := |calls| - 1;
      var init := calls[..n];
      BoundIffBindStands(init);
      var last := calls[n];
      if BoundAfter(calls) {
        if last == BindCall(BindResponse(ESME_ROK)) {
          assert BindStands(calls, n);
        } else {
          assert BoundAfter(init);
          var i :| 0 <= i < |init| && BindStands(init, i);
          assert BindStands(calls, i);
        }
      } else {
        forall i | 0 <= i < |calls| ensures !BindStands(calls, i) {
          if i < n && BindStands(calls, i) {
            assert BindStands(init, i);
            assert false;
          }
        }
      }
    }
  }
}
