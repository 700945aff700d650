/**
 * The hand-held transmitter of the radio-controlled car.  Button A switches
 * it on and off.  While it is on, every pass of its forever loop turns the
 * tilt of the board into a two-character command and broadcasts it: the
 * first character drives (F forwards, B backwards, - neither) and the second
 * steers (L left, R right, - straight).  While it is off, every pass
 * broadcasts the complete stop "--".
 *
 * The accelerometer is a parameter.  The source reads an axis a second time
 * when the first reading is not past the forward (or left) threshold, so a
 * command is a function of up to two readings per axis.
 */
module RcTransmitter {
  const COMMAND_FORWARDS: char := 'F'
  const COMMAND_BACKWARDS: char := 'B'
  const COMMAND_LEFT: char := 'L'
  const COMMAND_RIGHT: char := 'R'
  const COMMAND_STOP: char := '-'
  /** Both characters "no movement". */
  const COMPLETE_STOP: string := [COMMAND_STOP, COMMAND_STOP]
  /** How far (in milli-g) the board must tilt before it counts. */
  const SENSITIVITY: int := 200

  /**
   * The drive character: forwards when the first Y reading is below
   * -SENSITIVITY, otherwise backwards when the second Y reading is above
   * SENSITIVITY, otherwise stop.
   */
  function DriveChar(yFirst: int, ySecond: int): (c: char)
    ensures c == COMMAND_FORWARDS <==> yFirst < -SENSITIVITY
    ensures c == COMMAND_BACKWARDS <==> yFirst >= -SENSITIVITY && ySecond > SENSITIVITY
    ensures c == COMMAND_STOP <==> yFirst >= -SENSITIVITY && ySecond <= SENSITIVITY
  {
    if yFirst < -SENSITIVITY then COMMAND_FORWARDS
    else if ySecond > SENSITIVITY then COMMAND_BACKWARDS
    else COMMAND_STOP
  }

  /** The steering character: the same rule on the X readings, with left for forwards and right for backwards. */
  function SteerChar(xFirst: int, xSecond: int): (c: char)
    ensures c == COMMAND_LEFT <==> xFirst < -SENSITIVITY
    ensures c == COMMAND_RIGHT <==> xFirst >= -SENSITIVITY && xSecond > SENSITIVITY
    ensures c == COMMAND_STOP <==> xFirst >= -SENSITIVITY && xSecond <= SENSITIVITY
  {
    if xFirst < -SENSITIVITY then COMMAND_LEFT
    else if xSecond > SENSITIVITY then COMMAND_RIGHT
    else COMMAND_STOP
  }

  /** The command sendCommand builds from the readings it takes. */
  function Command(yFirst: int, ySecond: int, xFirst: int, xSecond: int): (cmd: string)
    ensures |cmd| == 2
    ensures cmd[0] == DriveChar(yFirst, ySecond) && cmd[1] == SteerChar(xFirst, xSecond)
  {
    [DriveChar(yFirst, ySecond)] + [SteerChar(xFirst, xSecond)]
  }

  /**
   * With a board that holds still between readings (each axis reads the same
   * twice), the command is decided by the tilt alone: forwards below -200 and
   * backwards above 200 on Y, left below -200 and right above 200 on X, and
   * the thresholds themselves count as level.
   */
  lemma SteadyTilt(y: int, x: int)
    ensures Command(y, y, x, x)[0] == COMMAND_FORWARDS <==> y < -200
    ensures Command(y, y, x, x)[0] == COMMAND_BACKWARDS <==> y > 200
    ensures Command(y, y, x, x)[0] == COMMAND_STOP <==> -200 <= y <= 200
    ensures Command(y, y, x, x)[1] == COMMAND_LEFT <==> x < -200
    ensures Command(y, y, x, x)[1] == COMMAND_RIGHT <==> x > 200
    ensures Command(y, y, x, x)[1] == COMMAND_STOP <==> -200 <= x <= 200
    ensures Command(y, y, x, x) == COMPLETE_STOP <==> -200 <= y <= 200 && -200 <= x <= 200
  {
  }

  /** A command never asks to go forwards and backwards at once, nor left and right. */
  lemma CommandAlphabet(yFirst: int, ySecond: int, xFirst: int, xSecond: int)
    ensures Command(yFirst, ySecond, xFirst, xSecond)[0] in {COMMAND_FORWARDS, COMMAND_BACKWARDS, COMMAND_STOP}
    ensures Command(yFirst, ySecond, xFirst, xSecond)[1] in {COMMAND_LEFT, COMMAND_RIGHT, COMMAND_STOP}
  {
  }

  /** The transmitter's two variables. */
  class Transmitter {
    var currentCommand: string
    var controllerOn: bool

    /** Power-up: the transmitter is off and its last command is the complete stop. */
    constructor ()
      ensures currentCommand == COMPLETE_STOP && !controllerOn
    {
      currentCommand := COMPLETE_STOP;
      controllerOn := false;
    }

    /** Button A: switches the transmitter on or off. */
    method OnButtonPressed()
      modifies this
      ensures controllerOn == !old(controllerOn)
      ensures currentCommand == old(currentCommand)
    {
      controllerOn := !controllerOn;
    }

    /** Builds the command from the readings, keeps it, and returns the string broadcast. */
    method SendCommand(yFirst: int, ySecond: int, xFirst: int, xSecond: int) returns (sent: string)
      modifies this
      ensures sent == Command(yFirst, ySecond, xFirst, xSecond)
      ensures currentCommand == sent && controllerOn == old(controllerOn)
    {
      currentCommand := "";
      if yFirst < -SENSITIVITY {
        currentCommand := [COMMAND_FORWARDS];
      } else if ySecond > SENSITIVITY {
        currentCommand := [COMMAND_BACKWARDS];
      } else {
        currentCommand := [COMMAND_STOP];
      }

      if xFirst < -SENSITIVITY {
        currentCommand := currentCommand + [COMMAND_LEFT];
      } else if xSecond > SENSITIVITY {
        currentCommand := currentCommand + [COMMAND_RIGHT];
      } else {
        currentCommand := currentCommand + [COMMAND_STOP];
      }
      sent := currentCommand;
    }

    /** The string sendStop broadcasts. */
    method SendStop() returns (sent: string)
      ensures sent == COMPLETE_STOP
    {
      sent := COMPLETE_STOP;
    }

    /**
     * One pass of the forever loop (the icon is left out): on, it sends the
     * command for the readings; off, it sends the complete stop and keeps its
     * last command.
     */
    method LoopStep(yFirst: int, ySecond: int, xFirst: int, xSecond: int) returns (sent: string)
      modifies this
      ensures |sent| == 2
      ensures sent == if old(controllerOn) then Command(yFirst, ySecond, xFirst, xSecond) else COMPLETE_STOP
      ensures controllerOn == old(controllerOn)
      ensures currentCommand == if old(controllerOn) then sent else old(currentCommand)
    {
      if controllerOn {
        sent := SendCommand(yFirst, ySecond, xFirst, xSecond);
      } else {
        sent := SendStop();
      }
    }
  }

  /** Two presses of button A leave the transmitter as it was. */
  method PressTwice(t: Transmitter)
    modifies t
    ensures t.controllerOn == old(t.controllerOn) && t.currentCommand == old(t.currentCommand)
  {
    t.OnButtonPressed();
    t.OnButtonPressed();
  }
}
