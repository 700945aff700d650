# micro:bit multi-display animation and radio-controlled car, modelled in Dafny

This project models two small micro:bit programs and the test helpers that
check one of them.

- **The multi-display animation** (`multidisplay/multidisplay.py`). Several
  micro:bits side by side show one animation. The master keeps a frame that
  is 5 rows high and 5 columns wide per screen. On each pass of its main
  loop it does four things:
  - it clears the frame;
  - it bounces a ball along row 2, drawn with brightness 9;
  - it copies the leftmost 5x5 tile into its own display buffer;
  - it packs every other tile into a 25-digit string, row by row.

  `Node` (in `multidisplay.dfy`) models this as a class. The frame and the
  display buffer are `array2<int>` fields, and the ball is two `int` fields.
- **The reference logic of the multi-display tests**
  (`tests/test_multidisplay_logic.py`). The tests compare the module
  against three reference functions:
  - a sprite stepper that stamps a clipped sprite into a caller's buffer;
  - a master-side split of a frame into the master's tile and one message
    per other screen (`str(screen)` followed by the packed tile);
  - a decoder that rebuilds a tile from its packed string.

  `reference_logic.dfy` models these as methods. `tiling.dfy` holds the
  specification functions that both the node and the reference logic are
  proved against. `decimal.dfy` models Python's `str` and `int` on integers.
- **The radio-controlled car** (`rccar/`).
  - The transmitter (`rc_transmitter.dfy`) turns the tilt of the board into
    a two-character command: F/B/- for driving and L/R/- for steering. When
    it is switched off, it sends the complete stop `--`.
  - The car (`rc_controller.dfy`) latches the last string it received.
    Each pass of its loop drives four motor pins and four LEDs from the
    first two characters of that string.
  - `rc_link.dfy` relates the two programs: what the car's pins do for a
    given tilt.

## Model

| member | source | states |
|---|---|---|
| Decimal.IntToStringShape | multidisplay/multidisplay.py:61 | `str(i)` is non-empty. It starts with '-' exactly when i is negative, and is all digits otherwise. It has no leading zero when i is 10 or more. A single digit is one character. |
| Decimal.IntToStringRoundTrip | tests/test_multidisplay_logic.py:156 | Parsing `str(i)` back gives i, for every integer. |
| Decimal.IntToStringInjective | tests/test_multidisplay_logic.py:146 | Different integers have different decimal texts. |
| Tiling.Blank | tests/test_multidisplay_logic.py:133 | `[[0] * cols for _ in range(rows)]` has the given shape and only zero cells. |
| Tiling.Tile | tests/test_multidisplay_logic.py:136-140 | Cell (r, c) of the tile whose left column is lo is cell (r, lo + c) of the frame. |
| Tiling.TileRowsAt | tests/test_multidisplay_logic.py:143-146 | The row-major list of a tile's cells holds cell (r, lo + c) at index r·width + c. |
| Tiling.ShowDigits | multidisplay/multidisplay.py:59-61 | Concatenating the texts of single-digit cells gives one character per cell, and each character is that cell's digit. |
| Tiling.PackedTileLayout | tests/test_multidisplay_logic.py:143-146 | A packed tile of digit cells has ds·ds characters. The character at ds·r + c is the digit of tile cell (r, c). |
| Tiling.DecodeShortFails | tests/test_multidisplay_logic.py:151-157 | A text shorter than ds·ds characters never decodes (ds > 0): the slice for the last cell is empty and `int("")` raises. |
| Tiling.DecodeIgnoresTrailing | tests/test_multidisplay_logic.py:151-157 | Characters after the first ds·ds are never read: a longer text decodes exactly as its first ds·ds characters do, so an over-long payload is not rejected. |
| Tiling.PackedTileRoundTrip | tests/test_multidisplay_logic.py:143-157 | Decoding a packed tile of digit cells gives back the tile. |
| Tiling.TileMessageRoundTrip | tests/test_multidisplay_logic.py:143-147 | A screen's message starts with `str(screen)`. The rest of it decodes to that screen's tile. |
| ReferenceLogic.Animate | tests/test_multidisplay_logic.py:111-129 | The new position is x + 1, or -sprite_width once x + 1 passes total_width. Exactly the sprite cells on canvas columns [0, total_width) are written, and every other cell keeps its value. |
| ReferenceLogic.SpriteStaysInRange | tests/test_multidisplay_logic.py:112-114 | A position in [-sprite_width, total_width] stays in that range. |
| ReferenceLogic.SpriteXAfterLap | tests/test_multidisplay_logic.py:112-114 | Closed form of the position after k ≤ W + S + 1 steps: it walks right to W, then restarts at -S. |
| ReferenceLogic.SpritePeriod | tests/test_multidisplay_logic.py:112-114 | The sprite returns to its start after exactly W + S + 1 steps, and not sooner. |
| ReferenceLogic.Messages | tests/test_multidisplay_logic.py:135-147 | With screens ≥ 1, there is one message per screen other than 0. |
| ReferenceLogic.MessagesAt | tests/test_multidisplay_logic.py:135-147 | Message k is `str(k + 1)` followed by the packed tile k + 1, so the messages come in ascending screen order. |
| ReferenceLogic.PackTile | tests/test_multidisplay_logic.py:143-146 | The inner packing loops produce the packed tile whose left column is lo. |
| ReferenceLogic.MasterBuffer | tests/test_multidisplay_logic.py:132-148 | The master buffer is tile 0 of the frame, or all zeros when there are no screens. The messages are exactly `Messages`. |
| ReferenceLogic.Decode | tests/test_multidisplay_logic.py:151-157 | The result is `DecodeTile`. It fails (where `int` would raise) exactly when a character is missing or is not a digit. |
| MultiDisplay.BallStep | multidisplay/multidisplay.py:32-38 | One move keeps 0 ≤ ballX < max_cols with a direction of ±1. The ball moves by exactly its new direction. It turns right at column 0 and left at max_cols - 1, and keeps its direction elsewhere. |
| MultiDisplay.BallStaysOnFrame | multidisplay/multidisplay.py:29-39 | After any number of ticks, the ball is still on the frame with a direction of ±1. |
| MultiDisplay.CreateAnimationBuffer | multidisplay/multidisplay.py:23-26 | A fresh 5 × max_cols frame of zeros. |
| MultiDisplay.Node.constructor | multidisplay/multidisplay.py:12-21 | The frame is 5 × (5·screens) and the display 5 × 5, both all zero. The ball starts at column 2 moving left. |
| MultiDisplay.Node.ResetBuffer | multidisplay/multidisplay.py:42-45 | Every frame cell is 0 afterwards, whatever it held, so clearing twice is the same as clearing once. |
| MultiDisplay.Node.Animate | multidisplay/multidisplay.py:29-39 | The ball turns at an edge and moves one column. Only cell [2][ballX] is written, with 9, and the ball invariant is kept. |
| MultiDisplay.Node.PackScreen | multidisplay/multidisplay.py:58-61 | The packing loop builds `PackedTile` of the frame at column lo. |
| MultiDisplay.Node.Distribute | multidisplay/multidisplay.py:48-61 | The display buffer becomes tile 0 of the frame. The packed string for screen k + 1 is the frame's tile at column 5(k + 1). The frame is not changed. |
| MultiDisplay.Node.MainLoopStep | multidisplay/multidisplay.py:74-77 | On the master, the ball takes its next direction and column. The only lit frame cell is then 9 at (2, ballX). The display shows the ball exactly when ballX < 5. Every packed string has 25 digits and decodes back to its tile. A node that is not the master changes nothing. |
| MultiDisplay.DistributeMatchesReference | multidisplay/multidisplay.py:57-61 | The node's packed string for a screen is the reference message for that screen without its leading screen number. |
| RcTransmitter.DriveChar | rccar/rccar-transmitter.ts:41-47 | F exactly when the first Y reading is below -200. B exactly when it is not and the second Y reading is above 200. '-' otherwise. |
| RcTransmitter.SteerChar | rccar/rccar-transmitter.ts:49-55 | L, R and '-' by the same rule on the X readings. |
| RcTransmitter.Command | rccar/rccar-transmitter.ts:39-57 | Every command has exactly two characters: drive, then steer. |
| RcTransmitter.SteadyTilt | rccar/rccar-transmitter.ts:41-55 | For a steady board the thresholds are strict: ±200 counts as level. The command is `--` exactly when both axes are within [-200, 200]. |
| RcTransmitter.CommandAlphabet | rccar/rccar-transmitter.ts:39-57 | The drive character is one of F, B, '-'. The steer character is one of L, R, '-'. |
| RcTransmitter.Transmitter.constructor | rccar/rccar-transmitter.ts:15-16 | The transmitter starts switched off, with `--` as its last command. |
| RcTransmitter.Transmitter.OnButtonPressed | rccar/rccar-transmitter.ts:21-23 | Button A negates controllerOn and changes nothing else. |
| RcTransmitter.PressTwice | rccar/rccar-transmitter.ts:21-23 | Two presses restore the transmitter's state. |
| RcTransmitter.Transmitter.SendCommand | rccar/rccar-transmitter.ts:39-57 | The string sent is `Command` of the readings, and it is also kept as currentCommand. |
| RcTransmitter.Transmitter.SendStop | rccar/rccar-transmitter.ts:35-37 | The string sent is `--`. |
| RcTransmitter.Transmitter.LoopStep | rccar/rccar-transmitter.ts:25-33 | Each pass sends a two-character string. When on, that string is the command for the readings. When off, it is `--`. |
| RcController.CharAt | rccar/rccar-pcb-controller.ts:47 | `charAt(i)` is the one-character string at i, or "" past the end. |
| RcController.ProcessCommands | rccar/rccar-pcb-controller.ts:46-78 | The forward pin is 1 exactly when character 0 is F, backward exactly when it is B. Left is 1 exactly when character 1 is L, right exactly when it is R. Otherwise a pin is 0. Each LED is lit exactly when its pin is 1. Forward/backward never both fire, and neither do left/right. |
| RcController.StopHalts | rccar/rccar-pcb-controller.ts:46-78 | `--`, or any command with neither F/B first nor L/R second, writes every pin 0 and unplots every LED. This includes "" and one-character commands, for which `charAt` gives "". |
| RcController.Receive | rccar/rccar-pcb-controller.ts:27-29 | The received string replaces the new command. The current command is untouched. |
| RcController.Promote | rccar/rccar-pcb-controller.ts:35-38 | A non-empty new command becomes current. Either way the new command is "" afterwards, and an empty one leaves the current command as it was. |
| RcController.PromoteStable | rccar/rccar-pcb-controller.ts:34-41 | Further passes with no message keep the same command and the same outputs. |
| RcController.ReceiveAllKeepsLast | rccar/rccar-pcb-controller.ts:27-29 | Of several strings received between passes, only the last is kept. |
| RcController.LastMessageWins | rccar/rccar-pcb-controller.ts:27-41 | The next pass drives by the last string of a burst. If that string is empty, the car keeps its previous command. |
| RcController.RunDrivesByReceived | rccar/rccar-pcb-controller.ts:18-41 | Over any sequence of receptions and passes, the current command is a start-up value or a string that was received. |
| RcController.Controller.constructor | rccar/rccar-pcb-controller.ts:18-19 | Both commands start as `--`. |
| RcController.Controller.OnReceivedString | rccar/rccar-pcb-controller.ts:27-29 | The handler is `Receive` on the car's variables. It does not touch the pins. |
| RcController.Controller.LoopStep | rccar/rccar-pcb-controller.ts:34-41 | A pass is `Promote` followed by `ProcessCommands` of the current command. |
| RcLink.StopsAgree | rccar/rccar-transmitter.ts:8 | The transmitter's complete stop is the car's `--`. |
| RcLink.SentIsTakenUp | rccar/rccar-pcb-controller.ts:35-38 | Every transmitted string is non-empty, so the car's next pass makes it current. |
| RcLink.TiltDrivesPins | rccar/rccar-transmitter.ts:41-55 | Forward pin 1 exactly when the first Y reading is below -200. Left pin 1 exactly when the first X reading is below -200. Backward and right likewise, on the second readings. |
| RcLink.OffStopsCar | rccar/rccar-transmitter.ts:29-32 | When the transmitter is off, the car's pins are all low and its LEDs all dark. |
| RcLink.RoundTrip | rccar/rccar-transmitter.ts:25-33 | After the transmitter's pass, the car's reception and the car's pass, the car holds the sent command and its outputs are `ProcessCommands` of it. When the transmitter is on, each of the four pins is an iff over the readings. When it is off, every pin is low. The transmitter stays on or off, and keeps the sent command only when on. |

## Left out

- `render`, `display.set_pixel`, `sleep`, `led.plot`/`unplot` as hardware calls, `basic.showIcon` and `radio.setGroup` are hardware output and are not modelled. The LEDs are modelled as four booleans in `RcController.Outputs`, and the icons not at all.
- The radio is not modelled as a channel. `distribute` builds a packed string for each other screen but does not send it, and the model returns those strings from `MultiDisplay.Node.Distribute`. `RcLink.RoundTrip` hands the transmitter's string straight to the car's handler, so there is no loss, reordering or delay.
- The accelerometer is modelled as parameters. `sendCommand` reads each axis once, and again only when the first reading does not pass the low threshold. Both readings are parameters (`yFirst`, `ySecond`, `xFirst`, `xSecond`).
- Event registration is not modelled: `basic.forever`, `input.onButtonPressed` and `radio.onReceivedString` are the methods `LoopStep`, `OnButtonPressed` and `OnReceivedString`. Handlers never interleave inside a method.
- The car's unused `running` variable is not modelled.
- The multi-display module's `is_master` and `number_of_screens` are constants (`True`, `2`). They are constructor parameters here, with number_of_screens ≥ 1.
- RcController.Controller.constructor: the source writes no pin before the first loop pass. The model starts the outputs as those of `--`, which are all off.
- ReferenceLogic.Animate: `sprite_y` is a `nat`, so Python's negative row indexing for a sprite above the buffer is not modelled. The model also demands more than Python does: the buffer must be at least total_width columns wide and the sprite must have sprite_width columns in each of its rows, whereas Python raises `IndexError` only when a cell it actually writes or reads is out of range.
- ReferenceLogic.Decode: Python's `int` of a one-character string also accepts non-ASCII Unicode digits. The model accepts only '0'..'9'.
- Python's `str` and `int` are modelled for integers only. Frame cells are `int`.
- Coordinator election and screen-number discovery are not in `multidisplay/multidisplay.py` and are not modelled.
