/**
 * The command intake of `loop()` in closer/closer.cpp: the bytes of one
 * client's request are accumulated into `currentLine`; a blank line ends the
 * request with the fixed response, and a line ending in "GET /open" asks the
 * sequencer to start a closing cycle.
 */
module Intake {
  import opened Clock
  import opened Actuator

  const OPEN_COMMAND: string := "GET /open"
  const CLOSED_COMMAND: string := "GET /closed"

  /** One byte read from the client, with the clock reading at the time it was handled. */
  datatype Received = Received(ch: char, at: uint32)

  /** Arduino's `String::endsWith`. */
  predicate EndsWith(line: string, suffix: string)
  {
    |suffix| <= |line| && line[|line| - |suffix|..] == suffix
  }

  /** `currentLine` after a byte that does not end the request. */
  function Accumulate(line: string, c: char): string
  {
    if c == '\n' then "" else if c == '\r' then line else line + [c]
  }

  /** A newline on an empty `currentLine` is the blank line that ends the request. */
  predicate Terminates(line: string, c: char)
  {
    c == '\n' && line == ""
  }

  /** `currentLine` after the first `k` bytes of `input`, starting from `line`. */
  function LineAfter(line: string, input: seq<Received>, k: nat): string
    requires k <= |input|
    decreases k
  {
    if k == 0 then line else LineAfter(Accumulate(line, input[0].ch), input[1..], k - 1)
  }

  /** Byte `k` is the blank line's newline. */
  predicate StopsAt(line: string, input: seq<Received>, k: nat)
    requires k < |input|
  {
    Terminates(LineAfter(line, input, k), input[k].ch)
  }

  /** After byte `k`, `currentLine` ends in the open command. */
  predicate Fires(line: string, input: seq<Received>, k: nat)
    requires k < |input|
  {
    EndsWith(LineAfter(line, input, k + 1), OPEN_COMMAND)
  }

  /**
   * What serving a client leaves behind: the controller state, whether the
   * fixed response was sent, and how many bytes were read.
   */
  datatype Outcome = Outcome(state: State, responded: bool, consumed: nat)

  /**
   * The byte loop: read while bytes remain; a terminating newline sends the
   * response and stops; any other byte updates `currentLine`, after which a
   * line ending in the open command calls `startDoorClosing()` at that byte's
   * clock reading (a line ending in the closed command only logs). Running out
   * of bytes is the client disconnecting without a complete request.
   */
  function Serve(s: State, line: string, input: seq<Received>): (o: Outcome)
    ensures o.consumed <= |input|
    ensures o.responded ==> 0 < o.consumed
    ensures o.state.isInitialized == s.isInitialized && o.state.initStartTime == s.initStartTime
    ensures o.state.in1 == s.in1 && o.state.in2 == s.in2
    ensures PhaseOf(s) != Ready ==> o.state == s
    ensures PhaseOf(o.state) == PhaseOf(s) || PhaseOf(o.state) == FirstStroke
    ensures Consistent(s) ==> Consistent(o.state)
    decreases |input|
  {
    if input == [] then Outcome(s, false, 0)
    else if Terminates(line, input[0].ch) then Outcome(s, true, 1)
    else
      var line' := Accumulate(line, input[0].ch);
      var s' := if EndsWith(line', OPEN_COMMAND) then StartDoorClosing(s, input[0].at) else s;
      var o := Serve(s', line', input[1..]);
      Outcome(o.state, o.responded, o.consumed + 1)
  }

  /** Bytes read before the blank line's newline (or all of them, if none came). */
  function Processed(o: Outcome): int
  {
    if o.responded then o.consumed - 1 else o.consumed
  }

  /**
   * Serving stops at the first blank line and only there: the response is sent
   * exactly when some byte is the blank line's newline, reading stops right
   * after the first one, and without one every byte is read.
   */
  lemma {:induction false} ServeStopsAtBlankLine(s: State, line: string, input: seq<Received>)
    ensures var o := Serve(s, line, input);
      && (o.responded ==> StopsAt(line, input, o.consumed - 1))
      && (forall k :: 0 <= k < Processed(o) ==> !StopsAt(line, input, k))
      && (!o.responded ==> o.consumed == |input|)
    decreases |input|
  {
    if input != [] && !Terminates(line, input[0].ch) {
      var line' := Accumulate(line, input[0].ch);
      var s' := if EndsWith(line', OPEN_COMMAND) then StartDoorClosing(s, input[0].at) else s;
      ServeStopsAtBlankLine(s', line', input[1..]);
      var o, o' := Serve(s, line, input), Serve(s', line', input[1..]);
      forall k | 0 <= k < Processed(o) ensures !StopsAt(line, input, k) {
        if k > 0 {
          assert StopsAt(line, input, k) == StopsAt(line', input[1..], k - 1);
        }
      }
      if o.responded {
        assert StopsAt(line, input, o.consumed - 1) == StopsAt(line', input[1..], o'.consumed - 1);
      }
    }
  }

  /** The responded flag is the same whether or not a command was recognized. */
  lemma {:induction false} ServeRespondsRegardlessOfState(s: State, s': State, line: string, input: seq<Received>)
    ensures Serve(s, line, input).responded == Serve(s', line, input).responded
    ensures Serve(s, line, input).consumed == Serve(s', line, input).consumed
    decreases |input|
  {
    if input != [] && !Terminates(line, input[0].ch) {
      var line' := Accumulate(line, input[0].ch);
      var t := if EndsWith(line', OPEN_COMMAND) then StartDoorClosing(s, input[0].at) else s;
      var t' := if EndsWith(line', OPEN_COMMAND) then StartDoorClosing(s', input[0].at) else s';
      ServeRespondsRegardlessOfState(t, t', line', input[1..]);
    }
  }

  /** A request in which `currentLine` never ends in the open command leaves the sequencer alone. */
  lemma {:induction false} ServeWithoutOpen(s: State, line: string, input: seq<Received>)
    requires forall k :: 0 <= k < Processed(Serve(s, line, input)) ==> !Fires(line, input, k)
    ensures Serve(s, line, input).state == s
    decreases |input|
  {
    if input != [] && !Terminates(line, input[0].ch) {
      var line' := Accumulate(line, input[0].ch);
      assert !Fires(line, input, 0);
      var o := Serve(s, line', input[1..]);
      forall k | 0 <= k < Processed(o) ensures !Fires(line', input[1..], k) {
        assert Fires(line, input, k + 1) == Fires(line', input[1..], k);
      }
      ServeWithoutOpen(s, line', input[1..]);
    }
  }

  /**
   * When `currentLine` first ends in the open command after byte `k`, the
   * request has the effect of one `startDoorClosing()` at that byte's clock
   * reading; later occurrences are ignored by the guard.
   */
  lemma {:induction false} ServeFirstOpen(s: State, line: string, input: seq<Received>, k: nat)
    requires k < Processed(Serve(s, line, input))
    requires Fires(line, input, k)
    requires forall j :: 0 <= j < k ==> !Fires(line, input, j)
    ensures Serve(s, line, input).state == StartDoorClosing(s, input[k].at)
    decreases |input|
  {
    var line' := Accumulate(line, input[0].ch);
    if k == 0 {
      var s' := StartDoorClosing(s, input[0].at);
      assert PhaseOf(s') != Ready;
      assert Serve(s, line, input).state == Serve(s', line', input[1..]).state;
    } else {
      assert !Fires(line, input, 0);
      var o := Serve(s, line', input[1..]);
      assert Fires(line, input, k) == Fires(line', input[1..], k - 1);
      forall j | 0 <= j < k - 1 ensures !Fires(line', input[1..], j) {
        assert Fires(line, input, j + 1) == Fires(line', input[1..], j);
      }
      ServeFirstOpen(s, line', input[1..], k - 1);
    }
  }

  /** A carriage return or a newline never stays in `currentLine`. */
  lemma {:induction false} LineAfterHasNoBreaks(line: string, input: seq<Received>, k: nat)
    requires k <= |input|
    requires '\r' !in line && '\n' !in line
    ensures var l := LineAfter(line, input, k); '\r' !in l && '\n' !in l
    decreases k
  {
    if k > 0 {
      LineAfterHasNoBreaks(Accumulate(line, input[0].ch), input[1..], k - 1);
    }
  }

  /** A line ending in the closed command never ends in the open command. */
  lemma ClosedIsNotOpen(line: string)
    ensures EndsWith(line, CLOSED_COMMAND) ==> !EndsWith(line, OPEN_COMMAND)
  {
    if EndsWith(line, CLOSED_COMMAND) {
      assert line[|line| - 1] == CLOSED_COMMAND[|CLOSED_COMMAND| - 1] == 'd';
    }
  }

  /** `input` carries the characters of `text` followed by a CR LF line end and a blank CR LF line. */
  predicate IsOneLineRequest(input: seq<Received>, text: string)
  {
    && |input| == |text| + 4
    && (forall i :: 0 <= i < |text| ==> input[i].ch == text[i])
    && input[|text|].ch == '\r' && input[|text| + 1].ch == '\n'
    && input[|text| + 2].ch == '\r' && input[|text| + 3].ch == '\n'
  }

  /** While the bytes of a line without line breaks arrive, `currentLine` is the part received so far. */
  lemma {:induction false} LineAfterPlainText(line: string, input: seq<Received>, text: string, k: nat)
    requires k <= |text| <= |input|
    requires forall i :: 0 <= i < |text| ==> input[i].ch == text[i]
    requires '\r' !in text && '\n' !in text
    ensures LineAfter(line, input, k) == line + text[..k]
    decreases k
  {
    if k > 0 {
      assert input[0].ch == text[0];
      assert Accumulate(line, input[0].ch) == line + [text[0]];
      assert forall i :: 0 <= i < |text| - 1 ==> input[1..][i].ch == text[1..][i];
      LineAfterPlainText(line + [text[0]], input[1..], text[1..], k - 1);
      assert [text[0]] + text[1..][..k - 1] == text[..k];
    }
  }

  /** One more byte updates `currentLine` as `Accumulate` says. */
  lemma {:induction false} LineAfterStep(line: string, input: seq<Received>, k: nat)
    requires k < |input|
    ensures LineAfter(line, input, k + 1) == Accumulate(LineAfter(line, input, k), input[k].ch)
    decreases k
  {
    if k > 0 {
      LineAfterStep(Accumulate(line, input[0].ch), input[1..], k - 1);
    }
  }

  /** The first `k + 1` characters of `text` end in the open command. */
  predicate OpensAt(text: string, k: nat)
    requires k < |text|
  {
    EndsWith(text[..k + 1], OPEN_COMMAND)
  }

  /** `currentLine` while a one-line request is read: the line so far, the line, then empty. */
  lemma OneLineRequestLines(input: seq<Received>, text: string)
    requires IsOneLineRequest(input, text)
    requires '\r' !in text && '\n' !in text
    ensures forall k :: 0 <= k <= |text| ==> LineAfter("", input, k) == text[..k]
    ensures LineAfter("", input, |text| + 1) == text
    ensures LineAfter("", input, |text| + 2) == ""
    ensures LineAfter("", input, |text| + 3) == ""
  {
    var n := |text|;
    forall k | 0 <= k <= n ensures LineAfter("", input, k) == text[..k] {
      LineAfterPlainText("", input, text, k);
    }
    assert text[..n] == text;
    LineAfterStep("", input, n);
    LineAfterStep("", input, n + 1);
    LineAfterStep("", input, n + 2);
  }

  /** A one-line request is read to its end and answered. */
  lemma OneLineRequestAnswered(s: State, input: seq<Received>, text: string)
    requires IsOneLineRequest(input, text)
    requires text != "" && '\r' !in text && '\n' !in text
    ensures var o := Serve(s, "", input); o.responded && o.consumed == |input|
  {
    var n := |text|;
    OneLineRequestLines(input, text);
    assert StopsAt("", input, n + 3);
    forall k | 0 <= k < n + 3 ensures !StopsAt("", input, k) {
      if k < n {
        assert input[k].ch == text[k];
        assert text[k] in text;
      }
    }
    ServeStopsAtBlankLine(s, "", input);
  }

  /** Where, in a one-line request, `currentLine` ends in the open command. */
  lemma OneLineRequestFires(input: seq<Received>, text: string)
    requires IsOneLineRequest(input, text)
    requires text != "" && '\r' !in text && '\n' !in text
    ensures forall k :: 0 <= k < |text| ==> Fires("", input, k) == OpensAt(text, k)
    ensures Fires("", input, |text|) == OpensAt(text, |text| - 1)
    ensures !Fires("", input, |text| + 1) && !Fires("", input, |text| + 2)
  {
    OneLineRequestLines(input, text);
    assert text[..(|text| - 1) + 1] == text;
  }

  /**
   * A request of one line (`text`, then CR LF and a blank CR LF line) is read
   * completely and answered; it starts a closing cycle, at the clock reading
   * of the byte that first completes the open command, exactly when some
   * prefix of the line ends in that command.
   */
  lemma ServeOneLineRequest(s: State, input: seq<Received>, text: string)
    requires IsOneLineRequest(input, text)
    requires text != "" && '\r' !in text && '\n' !in text
    ensures var o := Serve(s, "", input);
      && o.responded && o.consumed == |input|
      && ((forall k :: 0 <= k < |text| ==> !OpensAt(text, k)) ==> o.state == s)
      && (forall k :: 0 <= k < |text| && OpensAt(text, k) && (forall j :: 0 <= j < k ==> !OpensAt(text, j)) ==>
            o.state == StartDoorClosing(s, input[k].at))
  {
    var n := |text|;
    OneLineRequestAnswered(s, input, text);
    OneLineRequestFires(input, text);
    assert Processed(Serve(s, "", input)) == n + 3;
    if forall k :: 0 <= k < n ==> !OpensAt(text, k) {
      assert !OpensAt(text, n - 1);
      ServeWithoutOpen(s, "", input);
    }
    forall k | 0 <= k < n && OpensAt(text, k) && (forall j :: 0 <= j < k ==> !OpensAt(text, j))
      ensures Serve(s, "", input).state == StartDoorClosing(s, input[k].at)
    {
      ServeFirstOpen(s, "", input, k);
    }
  }

  /** The byte that completes the open command is its final `n`. */
  lemma OpensAtFinalN(text: string, k: nat)
    requires k < |text|
    ensures OpensAt(text, k) ==> text[k] == 'n'
  {
    if OpensAt(text, k) {
      assert text[..k + 1][k] == OPEN_COMMAND[|OPEN_COMMAND| - 1];
    }
  }
}
