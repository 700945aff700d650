/**
 * The receiver on the car.  A radio handler stores every string it receives
 * as the new command; the forever loop promotes a non-empty new command to
 * the current one (clearing the new one), then sets the four motor pins and
 * the four indicator LEDs from the first two characters of the current
 * command.  The car repeats its current command until a new one arrives.
 */
module RcController {
  const COMPLETE_STOP: string := "--"
  const COMMAND_FORWARDS: string := "F"
  const COMMAND_BACKWARDS: string := "B"
  const COMMAND_LEFT: string := "L"
  const COMMAND_RIGHT: string := "R"

  /** String.charAt: the one-character string at index i, or "" past the end. */
  function CharAt(s: string, i: nat): (c: string)
    ensures |c| <= 1
    ensures i < |s| <==> |c| == 1
    ensures i < |s| ==> c[0] == s[i]
  {
    if i < |s| then [s[i]] else ""
  }

  /**
   * What processCommands leaves on the hardware: the level (0 or 1) written to
   * each motor pin and whether each indicator LED is plotted (forwards at
   * (2, 4), backwards at (2, 0), left at (4, 2), right at (0, 2)).
   */
  datatype Outputs = Outputs(forwardPin: int, backwardPin: int, leftPin: int, rightPin: int,
                             forwardLed: bool, backwardLed: bool, leftLed: bool, rightLed: bool)

  /** Every pin is written 0 or 1, and every LED is lit exactly when its pin is 1. */
  predicate Consistent(o: Outputs) {
    && o.forwardPin in {0, 1} && o.backwardPin in {0, 1} && o.leftPin in {0, 1} && o.rightPin in {0, 1}
    && (o.forwardLed <==> o.forwardPin == 1) && (o.backwardLed <==> o.backwardPin == 1)
    && (o.leftLed <==> o.leftPin == 1) && (o.rightLed <==> o.rightPin == 1)
  }

  /** Pins and LEDs for a command; each of the four checks writes its pin either way. */
  function ProcessCommands(command: string): (o: Outputs)
    ensures Consistent(o)
    ensures o.forwardPin == 1 <==> |command| >= 1 && command[0] == 'F'
    ensures o.backwardPin == 1 <==> |command| >= 1 && command[0] == 'B'
    ensures o.leftPin == 1 <==> |command| >= 2 && command[1] == 'L'
    ensures o.rightPin == 1 <==> |command| >= 2 && command[1] == 'R'
    ensures !(o.forwardPin == 1 && o.backwardPin == 1) && !(o.leftPin == 1 && o.rightPin == 1)
  {
    var forwards := CharAt(command, 0) == COMMAND_FORWARDS;
    var backwards := CharAt(command, 0) == COMMAND_BACKWARDS;
    var left := CharAt(command, 1) == COMMAND_LEFT;
    var right := CharAt(command, 1) == COMMAND_RIGHT;
    Outputs(if forwards then 1 else 0, if backwards then 1 else 0,
            if left then 1 else 0, if right then 1 else 0,
            forwards, backwards, left, right)
  }

  /**
   * The complete stop switches every pin and every LED off, and so does any
   * command without F/B first and L/R second, including "" and one-character
   * commands, for which charAt gives "".
   */
  lemma StopHalts(command: string)
    requires |command| < 1 || command[0] !in "FB"
    requires |command| < 2 || command[1] !in "LR"
    ensures ProcessCommands(command) == Outputs(0, 0, 0, 0, false, false, false, false)
  {
  }

  /** The two command variables of the car. */
  datatype Latch = Latch(current: string, pending: string)

  /** The radio handler: the received string replaces the new command, whatever it held. */
  function Receive(l: Latch, message: string): (l': Latch)
    ensures l'.pending == message && l'.current == l.current
  {
    l.(pending := message)
  }

  /** The head of the forever loop: a non-empty new command becomes current and the new command is cleared; an empty one changes nothing. */
  function Promote(l: Latch): (l': Latch)
    ensures l'.pending == ""
    ensures l'.current == if l.pending == "" then l.current else l.pending
  {
    if l.pending != "" then Latch(l.pending, "") else l
  }

  /** Passes of the loop with no message in between keep the car on the same command. */
  lemma PromoteStable(l: Latch)
    ensures Promote(Promote(l)) == Promote(l)
    ensures ProcessCommands(Promote(Promote(l)).current) == ProcessCommands(Promote(l).current)
  {
  }

  /** Several messages arriving between two passes of the loop. */
  function ReceiveAll(l: Latch, messages: seq<string>): Latch {
    if messages == [] then l else Receive(ReceiveAll(l, messages[..|messages| - 1]), messages[|messages| - 1])
  }

  /** Of several messages that arrive before the loop runs, only the last is kept; the current command is untouched. */
  lemma {:induction false} ReceiveAllKeepsLast(l: Latch, messages: seq<string>)
    requires messages != []
    ensures ReceiveAll(l, messages) == Latch(l.current, messages[|messages| - 1])
  {
    if |messages| > 1 {
      ReceiveAllKeepsLast(l, messages[..|messages| - 1]);
    }
  }

  /**
   * After a burst of messages the next pass drives by the last message of the
   * burst; when that last one is empty, the earlier ones are lost and the car
   * keeps its current command.
   */
  lemma LastMessageWins(l: Latch, messages: seq<string>)
    requires messages != []
    ensures Promote(ReceiveAll(l, messages)).current ==
      if messages[|messages| - 1] != "" then messages[|messages| - 1] else l.current
  {
    ReceiveAllKeepsLast(l, messages);
  }

  /** What happens to the car: a string from the radio, or a pass of the forever loop. */
  datatype Event = Received(message: string) | Pass

  /** The latch after a sequence of events. */
  function Run(l: Latch, events: seq<Event>): Latch {
    if events == [] then l
    else
      var before := Run(l, events[..|events| - 1]);
      match events[|events| - 1]
      case Received(m) => Receive(before, m)
      case Pass => Promote(before)
  }

  /** A command the car could hold after some events: one it started with, or one it received. */
  predicate FromStartOrRadio(l: Latch, events: seq<Event>, command: string) {
    command == l.current || command == l.pending || Received(command) in events
  }

  /** The car only ever drives by a command it started with or a string it received. */
  lemma {:induction false} RunDrivesByReceived(l: Latch, events: seq<Event>)
    ensures FromStartOrRadio(l, events, Run(l, events).current)
    ensures Run(l, events).pending == "" || FromStartOrRadio(l, events, Run(l, events).pending)
  {
    if events != [] {
      var prefix := events[..|events| - 1];
      RunDrivesByReceived(l, prefix);
      assert events == prefix + [events[|events| - 1]];
      assert forall e :: e in prefix ==> e in events;
    }
  }

  /** The car's variables: the two commands and what the last pass wrote to the hardware. */
  class Controller {
    var currentCommand: string
    var newCommand: string
    var outputs: Outputs

    /** The commands as a Latch value. */
    function State(): Latch
      reads this
    {
      Latch(currentCommand, newCommand)
    }

    /** Start-up: both commands are the complete stop, and every pin and LED is off. */
    constructor ()
      ensures State() == Latch(COMPLETE_STOP, COMPLETE_STOP)
      ensures outputs == ProcessCommands(COMPLETE_STOP)
    {
      currentCommand := COMPLETE_STOP;
      newCommand := COMPLETE_STOP;
      outputs := ProcessCommands(COMPLETE_STOP);
    }

    /** The radio handler. */
    method OnReceivedString(command: string)
      modifies this
      ensures State() == Receive(old(State()), command)
      ensures outputs == old(outputs)
    {
      newCommand := command;
    }

    /** One pass of the forever loop: promote the new command, then drive the hardware from the current one. */
    method LoopStep()
      modifies this
      ensures State() == Promote(old(State()))
      ensures outputs == ProcessCommands(currentCommand)
      ensures Consistent(outputs)
    {
      if newCommand != "" {
        currentCommand := newCommand;
        newCommand := "";
      }
      outputs := ProcessCommands(currentCommand);
    }
  }
}
