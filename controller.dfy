/**
 * The controller of closer/closer.cpp as the program runs it: its globals
 * become the fields of one object, `digitalWrite` becomes an assignment to a
 * pin field, and every `millis()` reading is a parameter. Each method is
 * proved to update the fields as the value-level model in modules Actuator,
 * Intake and MainLoop says.
 */
module Controller {
  import opened Clock
  import opened Actuator
  import opened Intake
  import opened MainLoop

  class DoorController {
    var isInitialized: bool
    var initStartTime: uint32
    var isDoorClosing: bool
    var extending: bool
    var doorCloseStartTime: uint32
    /** The level last written to IN1 (pin 25); `true` is HIGH. */
    var in1: bool
    /** The level last written to IN2 (pin 26); `true` is HIGH. */
    var in2: bool

    /** The fields as a value. */
    function Snapshot(): State
      reads this
    {
      State(isInitialized, initStartTime, isDoorClosing, extending, doorCloseStartTime, in1, in2)
    }

    /** The globals' initial values, then `setup()` with its clock reading `now`. */
    constructor (now: uint32)
      ensures Snapshot() == Initial(now)
    {
      isDoorClosing, extending, doorCloseStartTime := false, false, 0;
      in1, in2 := false, false;
      isInitialized := false;
      initStartTime := now;
      in1, in2 := false, true;
    }

    /** The initialization branch of `loop()`, at clock reading `now`. */
    method InitTick(now: uint32)
      requires Consistent(Snapshot()) && !isInitialized
      modifies this
      ensures Snapshot() == Actuator.InitTick(old(Snapshot()), now)
    {
      var elapsed := Elapsed(now, initStartTime);
      in1 := true;
      in2 := false;
      if elapsed >= INIT_DURATION {
        in1 := false;
        in2 := false;
        isInitialized := true;
      }
    }

    /** `startDoorClosing()`, at clock reading `now`. */
    method StartDoorClosing(now: uint32)
      modifies this
      ensures Snapshot() == Actuator.StartDoorClosing(old(Snapshot()), now)
    {
      if !isInitialized {
        return;
      }
      if isDoorClosing {
        return;
      }
      isDoorClosing := true;
      extending := true;
      doorCloseStartTime := now;
    }

    /** `controlLinearActuator()`, at clock reading `now`. */
    method ControlLinearActuator(now: uint32)
      requires Consistent(Snapshot())
      modifies this
      ensures Snapshot() == Actuator.ControlLinearActuator(old(Snapshot()), now)
    {
      if !isDoorClosing {
        return;
      }
      var elapsed := Elapsed(now, doorCloseStartTime);
      if extending {
        in1 := false;
        in2 := true;
        if elapsed >= STROKE_DURATION {
          extending := false;
          doorCloseStartTime := now;
        }
      } else {
        in1 := true;
        in2 := false;
        if elapsed >= STROKE_DURATION {
          in1 := false;
          in2 := false;
          isDoorClosing := false;
        }
      }
    }

    /**
     * The client loop of `loop()` over the bytes `input` the client sends
     * before disconnecting: returns whether the fixed response was sent and
     * how many bytes were read.
     */
    method HandleClient(input: seq<Received>) returns (responded: bool, consumed: nat)
      modifies this
      ensures var o := Serve(old(Snapshot()), "", input);
        Snapshot() == o.state && responded == o.responded && consumed == o.consumed
    {
      var currentLine := "";
      var i := 0;
      responded, consumed := false, 0;
      while i < |input|
        invariant 0 <= i <= |input| && !responded
        invariant var o, rest := Serve(old(Snapshot()), "", input), Serve(Snapshot(), currentLine, input[i..]);
          o == Outcome(rest.state, rest.responded, rest.consumed + i)
      {
        var c := input[i].ch;
        if c == '\n' {
          if |currentLine| == 0 {
            responded, consumed := true, i + 1;
            break;
          } else {
            currentLine := "";
          }
        } else if c != '\r' {
          currentLine := currentLine + [c];
        }
        if EndsWith(currentLine, OPEN_COMMAND) {
          StartDoorClosing(input[i].at);
        }
        // a line ending in CLOSED_COMMAND is only logged
        i := i + 1;
      }
      if !responded {
        consumed := i;
      }
    }

    /**
     * One pass of `loop()`: `now` is the clock reading of the initialization
     * branch or of `controlLinearActuator()`, and `client` the connection
     * accepted, if any.
     */
    method Loop(now: uint32, client: Option<seq<Received>>) returns (responded: bool, consumed: nat)
      requires Consistent(Snapshot())
      modifies this
      ensures var p := MainLoop.Loop(old(Snapshot()), now, client);
        Snapshot() == p.state && responded == p.responded && consumed == p.consumed
    {
      responded, consumed := false, 0;
      if !isInitialized {
        InitTick(now);
        return;
      }
      if client.Some? {
        responded, consumed := HandleClient(client.value);
      }
      ControlLinearActuator(now);
    }
  }
}
