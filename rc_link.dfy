/**
 * The transmitter and the car together: what the car's motor pins do for a
 * given tilt of the transmitter, once the transmitter's string has been
 * received and the car's loop has run.
 */
module RcLink {
  import RcTransmitter
  import RcController

  /** Both programs spell the complete stop the same way. */
  lemma StopsAgree()
    ensures RcTransmitter.COMPLETE_STOP == RcController.COMPLETE_STOP
  {
  }

  /** Every string the transmitter sends is non-empty, so the car's loop always takes it up on its next pass. */
  lemma SentIsTakenUp(l: RcController.Latch, sent: string)
    requires |sent| == 2
    ensures RcController.Promote(RcController.Receive(l, sent)) == RcController.Latch(sent, "")
  {
  }

  /**
   * The pins for a transmitted command: forwards exactly when the first Y
   * reading is below -200, backwards exactly when it is not but the second Y
   * reading is above 200, and the same on X for left and right.
   */
  lemma TiltDrivesPins(yFirst: int, ySecond: int, xFirst: int, xSecond: int)
    ensures var o := RcController.ProcessCommands(RcTransmitter.Command(yFirst, ySecond, xFirst, xSecond));
      && (o.forwardPin == 1 <==> yFirst < -200)
      && (o.backwardPin == 1 <==> yFirst >= -200 && ySecond > 200)
      && (o.leftPin == 1 <==> xFirst < -200)
      && (o.rightPin == 1 <==> xFirst >= -200 && xSecond > 200)
  {
  }

  /** With the transmitter off, the car stops: every pin low and every LED dark. */
  lemma OffStopsCar()
    ensures RcController.ProcessCommands(RcTransmitter.COMPLETE_STOP) ==
      RcController.Outputs(0, 0, 0, 0, false, false, false, false)
  {
    RcController.StopHalts(RcTransmitter.COMPLETE_STOP);
  }

  /**
   * One round trip over the radio: a pass of the transmitter's loop, the car
   * receiving that string, then a pass of the car's loop.  The car's pins
   * then follow the tilt when the transmitter is on, and are all low when it
   * is off.
   */
  method RoundTrip(t: RcTransmitter.Transmitter, car: RcController.Controller,
                   yFirst: int, ySecond: int, xFirst: int, xSecond: int)
    modifies t, car
    ensures car.currentCommand == if old(t.controllerOn) then RcTransmitter.Command(yFirst, ySecond, xFirst, xSecond)
                                 else RcTransmitter.COMPLETE_STOP
    ensures car.newCommand == ""
    ensures car.outputs == RcController.ProcessCommands(car.currentCommand)
    ensures old(t.controllerOn) ==> (car.outputs.forwardPin == 1 <==> yFirst < -200)
    ensures old(t.controllerOn) ==> (car.outputs.backwardPin == 1 <==> yFirst >= -200 && ySecond > 200)
    ensures old(t.controllerOn) ==> (car.outputs.leftPin == 1 <==> xFirst < -200)
    ensures old(t.controllerOn) ==> (car.outputs.rightPin == 1 <==> xFirst >= -200 && xSecond > 200)
    ensures t.controllerOn == old(t.controllerOn)
    ensures t.currentCommand == if old(t.controllerOn) then RcTransmitter.Command(yFirst, ySecond, xFirst, xSecond)
                                else old(t.currentCommand)
    ensures !old(t.controllerOn) ==> car.outputs == RcController.Outputs(0, 0, 0, 0, false, false, false, false)
  {
    var sent := t.LoopStep(yFirst, ySecond, xFirst, xSecond);
    car.OnReceivedString(sent);
    car.LoopStep();
    TiltDrivesPins(yFirst, ySecond, xFirst, xSecond);
    OffStopsCar();
  }
}
