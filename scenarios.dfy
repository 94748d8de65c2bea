/**
 * Requests as an HTTP client sends them: one request line, its CR LF, and
 * the blank CR LF line that ends the request.
 */
module Scenarios {
  import opened Clock
  import opened Actuator
  import opened Intake
  import opened MainLoop

  /** No prefix of a line without an `n` ends in the open command. */
  lemma {:induction false} NeverOpensWithoutN(text: string)
    requires 'n' !in text
    ensures forall k :: 0 <= k < |text| ==> !OpensAt(text, k)
  {
    forall k | 0 <= k < |text| ensures !OpensAt(text, k) {
      OpensAtFinalN(text, k);
      assert text[k] in text;
    }
  }

  /**
   * "GET /open HTTP/1.1" while ready starts the first stroke at the clock
   * reading of the request's ninth byte, the `n` of "/open"; the pass that
   * served it then drives IN1 LOW and IN2 HIGH.
   */
  lemma OpenRequestWhileReady(s: State, input: seq<Received>, now: uint32)
    requires Consistent(s) && PhaseOf(s) == Ready
    requires IsOneLineRequest(input, "GET /open HTTP/1.1")
    requires Elapsed(now, input[8].at) < STROKE_DURATION
    ensures var o := Serve(s, "", input);
      o.responded && PhaseOf(o.state) == FirstStroke && o.state.doorCloseStartTime == input[8].at
    ensures var p := Loop(s, now, Some(input));
      && p.responded && p.consumed == |input|
      && PhaseOf(p.state) == FirstStroke && p.state.doorCloseStartTime == input[8].at
      && !p.state.in1 && p.state.in2
  {
    var text := "GET /open HTTP/1.1";
    assert text[..9] == OPEN_COMMAND;
    assert OpensAt(text, 8);
    ServeOneLineRequest(s, input, text);
  }

  /** A second "GET /open HTTP/1.1", served right after the first, changes nothing. */
  lemma SecondOpenRequestIgnored(s: State, first: seq<Received>, second: seq<Received>)
    requires Consistent(s) && PhaseOf(s) == Ready
    requires IsOneLineRequest(first, "GET /open HTTP/1.1")
    requires IsOneLineRequest(second, "GET /open HTTP/1.1")
    ensures var s1 := Serve(s, "", first).state;
      var o := Serve(s1, "", second);
      o.responded && o.state == s1 && PhaseOf(s1) == FirstStroke && s1.doorCloseStartTime == first[8].at
  {
    var text := "GET /open HTTP/1.1";
    assert text[..9] == OPEN_COMMAND;
    assert OpensAt(text, 8);
    ServeOneLineRequest(s, first, text);
    ServeOneLineRequest(Serve(s, "", first).state, second, text);
  }

  /**
   * "GET /open HTTP/1.1" served at any point of either stroke (5000 ms into
   * the first one, say) is answered and leaves the state, and with it the
   * stroke's clock, unchanged.
   */
  lemma OpenRequestDuringCycleIgnored(s: State, input: seq<Received>)
    requires Consistent(s) && (PhaseOf(s) == FirstStroke || PhaseOf(s) == SecondStroke)
    requires IsOneLineRequest(input, "GET /open HTTP/1.1")
    ensures var o := Serve(s, "", input); o.responded && o.consumed == |input| && o.state == s
  {
    OneLineRequestAnswered(s, input, "GET /open HTTP/1.1");
  }

  /** "GET /closed HTTP/1.1" is answered and changes nothing, in every phase. */
  lemma ClosedRequestChangesNothing(s: State, input: seq<Received>)
    requires IsOneLineRequest(input, "GET /closed HTTP/1.1")
    ensures var o := Serve(s, "", input); o.responded && o.state == s
  {
    NeverOpensWithoutN("GET /closed HTTP/1.1");
    ServeOneLineRequest(s, input, "GET /closed HTTP/1.1");
  }

  /** An unrecognized request gets the same response and changes nothing. */
  lemma UnrecognizedRequestChangesNothing(s: State, input: seq<Received>)
    requires IsOneLineRequest(input, "GET /status HTTP/1.1")
    ensures var o := Serve(s, "", input); o.responded && o.state == s
  {
    NeverOpensWithoutN("GET /status HTTP/1.1");
    ServeOneLineRequest(s, input, "GET /status HTTP/1.1");
  }
}
