# SynScan motor-board client, modelled in Dafny

This project models the client side of the Sky-Watcher SynScan motor-board
protocol as astrocom implements it in `astrocom/serialport.py`, together with
the two turn-fraction converters of `astrocom/astro.py`.

- `pytext.dfy` (module `PyText`) writes out the Python built-ins the client
  relies on: `str(n)`, `hex(n)[2:].upper()`, `int(s, 16)`, `'%Ns' % s`,
  `bytes(s, 'utf8')` and `&` on small integers.
- `codec.dfy` (module `Codec`) holds the wire codec. It has the `SW_ERROR` and
  `SW_MODE` tables, framing, reply classification (`has_error`,
  `error_to_str`), the byte-swapped hexadecimal position codec
  (`position_to_turn_ratio`, `turn_ratio_to_position`), status decoding
  (`axis_status_to_dict`) and the status line (`axis_dict_to_str`).
- `transport.dfy` (module `Transport`) models the serial port. It is a
  class that records every frame written and hands out a scripted reply one
  character at a time. The module also has `sw_write`, the `sw_read` loop
  and `send_cmd`.
- `synscan.dfy` (module `SynScanClient`) has the `SynScan` class, with one
  method per motor-board command. Each method is tied to `SendSpec`, a
  function of the port's input that gives the frames written, the result and
  the input left unread. Lemmas beside the class prove what the commands do
  on the wire.
- `astro.dfy` (module `Astro`) models `turn_to_hms` and `turn_to_dms`.

The source signals errors by returning the `AstrocomException` class as a
sentinel, or by letting an `IndexError` escape. Here those become a
`Result` whose errors are `InvalidAxis`, `DeviceError(reply)`,
`NotHexadecimal(pos)` and `IndexError`. Ratios and turn fractions are exact
reals. Python's `int()` on a float is `Codec.Trunc`, which truncates toward
zero.

Three facts about the code that the model follows:
- `turn_ratio_to_position` does not zero-pad the hexadecimal digits (see Findings).
- `sw_read` waits 1 s for a reply, and `send_cmd` does not retry.
- `turn_ratio_to_position` rounds, so a position decodes back to its ratio
  only within half an encoding step.

## Model

| member | source | states |
|---|---|---|
| PyText.BitAnd | astrocom/serialport.py:147-154 | Python's `&` on non-negative integers; the result is no larger than either operand |
| PyText.BitAndLowBits | astrocom/serialport.py:147-154 | masking a non-negative integer with 1, 2 or 4 keeps exactly bit 0, 1 or 2 of it |
| PyText.IntToString | astrocom/serialport.py:132 | `str(n)` is never empty and starts with '-' exactly when n is negative |
| PyText.IntToStringRoundTrip | astrocom/serialport.py:132 | `str(n)` of any integer is read back to `n` (so the axis digit and payload numbers are rendered without loss) |
| PyText.HexUpper | astrocom/serialport.py:205 | `hex(n)[2:].upper()` is a non-empty string of upper-case hexadecimal digits |
| PyText.HexRoundTrip | astrocom/serialport.py:205 | `int(hex(n)[2:].upper(), 16) == n` for every `n >= 0` |
| PyText.HexValue | astrocom/serialport.py:190 | `int(s, 16)` on k hexadecimal digits is a value below 16^k |
| PyText.HexUpperLength | astrocom/serialport.py:205-206 | `hex` prints at most k digits for `n < 16^k` and at least k digits for `n >= 16^(k-1)` |
| PyText.HexValueZeroPad | astrocom/serialport.py:205 | leading zeros do not change the value `int(s, 16)` reads |
| PyText.RightJustify | astrocom/serialport.py:164-177 | `'%Ns' % s` has length max(\|s\|, N) and ends with `s` |
| PyText.RightJustifyPads | astrocom/serialport.py:164-177 | everything `'%Ns' % s` puts before `s` is a space |
| PyText.Utf8 | astrocom/serialport.py:145 | `bytes(s, 'utf8')` has at least one byte per character |
| PyText.Utf8Ascii | astrocom/serialport.py:145 | on ASCII text, `bytes(s, 'utf8')` has one byte per character, equal to its code |
| PyText.Utf8Longer | astrocom/serialport.py:145 | any non-ASCII character makes the byte string longer than the text, so byte indices shift |
| Codec.SwErrorKeys | astrocom/serialport.py:30-40 | every key of the error table is a single decimal digit |
| Codec.Frame | astrocom/serialport.py:71-73 | a frame is ':' + text + '\r', two characters longer than the text |
| Codec.FrameRoundTrip | astrocom/serialport.py:71-73 | removing the first and last character of a frame gives the text back |
| Codec.FrameInjective | astrocom/serialport.py:71-73 | different texts are sent as different frames |
| Codec.HasError | astrocom/serialport.py:96-102 | a reply is an error iff it is empty or contains '!' |
| Codec.ErrorToStr | astrocom/serialport.py:105-113 | EMPTY_ANSWER iff the reply is empty; the table entry of `s[1:]` when that is a key; UNKNOWN_ERROR otherwise |
| Codec.ErrorToStrTerminated | astrocom/serialport.py:105-113 | any reply ending in '\r', as `sw_read` returns them, is named UNKNOWN_ERROR |
| Codec.ErrorToStrMotorRunning | astrocom/serialport.py:105-113 | the board's "!2\r" (motor running) is named UNKNOWN_ERROR, not MOTOR_RUNNING |
| Codec.ReplyErrorName | astrocom/serialport.py:105-113 | the corrected naming: EMPTY_ANSWER iff empty, always a table value or UNKNOWN_ERROR, and the same as `error_to_str` on replies without '\r' |
| Codec.ReplyErrorNameOfCode | astrocom/serialport.py:30-40 | "!" + code + "\r" and "!" + code are error replies named by the code's table entry |
| Codec.Message | astrocom/serialport.py:135-139 | the text `send_cmd` logs: `error_to_str` of the reply (as written) for a device error, INVALID_AXIS_ID for a bad axis |
| Codec.Swap | astrocom/serialport.py:188 | the permutation [4,5,2,3,0,1] reverses the order of the three two-digit bytes |
| Codec.SwapInvolutive | astrocom/serialport.py:188 | the byte swap is its own inverse |
| Codec.SwapExample | astrocom/serialport.py:184 | swap("123456") == "563412" and back |
| Codec.RatioOf | astrocom/serialport.py:190 | `(v - offset) / maxi`: scaling the ratio back by maxi and adding the offset gives v; a 24-bit v gives a ratio in [-1 - 1/0xFFFFFF, 1] |
| Codec.PositionToTurnRatio | astrocom/serialport.py:181-194 | IndexError iff the text is shorter than six; an error iff it is short or the swapped six are not hexadecimal; otherwise a ratio in [-1 - 1/0xFFFFFF, 1] |
| Codec.DecodeCentre | astrocom/serialport.py:186-191 | "000080" decodes to ratio 0 |
| Codec.DecodeIgnoresTail | astrocom/serialport.py:188 | characters after the sixth (such as the reply's '\r') change neither success nor value |
| Codec.Trunc | astrocom/serialport.py:202 | Python's `int()` on a real: the integer part, truncated toward zero |
| Codec.Reduce | astrocom/serialport.py:202 | `ratio - int(ratio)` differs from the ratio by a whole number of turns, lies in (-1, 1), keeps the sign and is the identity on (-1, 1) |
| Codec.Round | astrocom/serialport.py:205 | `round` returns an integer within half of its argument |
| Codec.EncodedValue | astrocom/serialport.py:202-205 | the rounded value is a non-zero unsigned 24-bit number within half of `r*maxi + offset` |
| Codec.TurnRatioToPosition | astrocom/serialport.py:197-206 | as written: IndexError iff the rounded value is below 0x100000, else six upper-case hexadecimal digits |
| Codec.TurnRatioToPositionDefined | astrocom/serialport.py:205-206 | the unpadded encoder succeeds iff `r*maxi + offset >= 1048575.5` |
| Codec.TurnRatioToPositionFailsAt | astrocom/serialport.py:205-206 | the ratio -0.9, inside the documented range, makes the unpadded encoder raise IndexError |
| Codec.EncodedValueError | astrocom/serialport.py:186-205 | the ratio of the encoded value is within half an encoding step (0.5/maxi) of the reduced ratio |
| Codec.TurnRatioToPositionRoundTrip | astrocom/serialport.py:181-206 | wherever the source's encoder yields a position, decoding it returns the reduced ratio within 0.5/maxi |
| Codec.EncodePosition | astrocom/serialport.py:205-206 | the corrected encoder always gives six upper-case hexadecimal digits, and agrees with the source's encoder wherever that one succeeds |
| Codec.EncodePositionRoundTrip | astrocom/serialport.py:181-206 | for every ratio, decoding the corrected encoding returns the reduced ratio within 0.5/maxi |
| Codec.EncodeCentre | astrocom/serialport.py:204-206 | ratio 0 encodes as the centre position "000080" |
| Codec.AxisStatusToDict | astrocom/serialport.py:143-155 | IndexError iff the reply has fewer than four UTF-8 bytes; otherwise GOTO/TRACK, FORWARD/BACKWARD and FAST/SLOW are exact complements |
| Codec.DigitBits | astrocom/serialport.py:147-154 | bits 0-2 of a decimal digit's character code are the bits of the digit's value |
| Codec.StatusOfDigits | astrocom/serialport.py:143-155 | for '=' + three digits: TRACK iff the first digit is odd, FORWARD iff its bit 1 is clear, FAST iff its bit 2 is set, STOP iff the second digit is even, INIT iff the third is odd |
| Codec.StatusDecodeExample | astrocom/serialport.py:143-155 | "=101\r" decodes to a stopped, tracking, forward, slow, initialised axis |
| Codec.StatusText | astrocom/serialport.py:158-178 | the value `axis_dict_to_str` returns: "NOT-INITIALIZED" when INIT is clear, otherwise the STOP/RUNNING column first and at least 23 characters |
| Codec.AxisDictToStr | astrocom/serialport.py:158-178 | the method returns `StatusText` of the status, built by the source's appends and loop |
| Codec.ModeFieldsOf | astrocom/serialport.py:167-169 | the loop over ['TRACK', 'GOTO'] appends '%7s' % k for exactly the keys whose flag is set, in order |
| Codec.ModeFieldsComplementary | astrocom/serialport.py:167-169 | with complementary flags exactly one of TRACK and GOTO is printed |
| Codec.StatusTextColumns | astrocom/serialport.py:163-177 | an initialised status prints as 30 characters: columns of widths 8, 7, 9 and 6 holding STOP/RUNNING, TRACK/GOTO, FORWARD/BACKWARD, FAST/SLOW |
| Codec.StatusTextNotInitialized | astrocom/serialport.py:161-162 | the text is "NOT-INITIALIZED" iff INIT is false |
| Codec.FieldTexts | astrocom/serialport.py:164-176 | the padded fields "    STOP", "  TRACK", "  FORWARD", "  SLOW" |
| Codec.StatusTextExample | astrocom/serialport.py:158-178 | the example status prints as "    STOP  TRACK  FORWARD  SLOW" |
| Codec.StatusSpeed | astrocom/serialport.py:292 | for complementary flags, the SW_MODE code of whichever of FAST/SLOW is set |
| Codec.StatusMode | astrocom/serialport.py:299 | for complementary flags, the SW_MODE code of whichever of TRACK/GOTO is set |
| Codec.StatusDirection | astrocom/serialport.py:306 | for complementary flags, the SW_MODE code of whichever of FORWARD/BACKWARD is set |
| Transport.SerialPort.Write | astrocom/serialport.py:73 | one frame is appended to what was written; the input is untouched |
| Transport.SerialPort.Read | astrocom/serialport.py:86 | one character is taken off the input, or nothing once the input is exhausted (the timeout) |
| Transport.NextReply | astrocom/serialport.py:76-93 | the reply is no longer than the input |
| Transport.NextReplyShape | astrocom/serialport.py:89-92 | the reply is a prefix of the input, has no '\r' before its last character, and ends in '\r' unless it is all of the input |
| Transport.NextReplyTerminated | astrocom/serialport.py:89-92 | a reply terminated by '\r' is read whole and nothing after it is read |
| Transport.SwWrite | astrocom/serialport.py:71-73 | exactly the frame of the text is written; the input is untouched |
| Transport.SwRead | astrocom/serialport.py:76-93 | the loop returns `NextReply` of the input, consumes exactly that many characters and writes nothing |
| Transport.NextReplyStep | astrocom/serialport.py:84-92 | one turn of the read loop keeps what was read plus what remains equal to the input, and the reply assembled so far in step with the rest |
| Transport.SendSpec | astrocom/serialport.py:116-140 | a successful result is a reply with no error mark and at least one character |
| Transport.SendCmd | astrocom/serialport.py:116-140 | frames written, input left and result are those of `SendSpec` |
| Transport.SendInvalidAxis | astrocom/serialport.py:131-140 | an axis outside [1, 2, 3] writes nothing, reads nothing and gives InvalidAxis |
| Transport.SendValidAxis | astrocom/serialport.py:131-137 | a valid axis writes exactly ':' + letter + axis digit + payload + '\r', consumes one reply, and returns it iff `has_error` is false |
| Transport.SendDeviceError | astrocom/serialport.py:133-136 | an error reply "!code\r" gives a device error, leaves the rest of the input, and is logged as UNKNOWN_ERROR even though the corrected naming gives the code's table entry |
| SynScanClient.MotionModePayload | astrocom/serialport.py:242-246 | the payload has at least two characters |
| SynScanClient.MotionModeDigits | astrocom/serialport.py:246 | for 0/1 flags the payload is exactly two digits in '0'..'3' |
| SynScanClient.DecodeMotionMode | astrocom/serialport.py:244-246 | the board's reading of a two-digit payload yields four 0/1 flags |
| SynScanClient.MotionModeRoundTrip | astrocom/serialport.py:242-246 | the board recovers mode, speed (un-inverting it in GOTO mode), direction and hemisphere from the payload |
| SynScanClient.MotionModeExamples | astrocom/serialport.py:244-246 | fast GOTO forward north is "00", slow track forward north "10", fast track backward south "33" |
| SynScanClient.ReplyToRatio | astrocom/serialport.py:254-257 | an error passes through; a reply is decoded after dropping its first character |
| SynScanClient.ReplyToStatus | astrocom/serialport.py:282-285 | an error passes through; a reply is decoded by `axis_status_to_dict` |
| SynScanClient.StatusCode | astrocom/serialport.py:289-292 | an error passes through; a status gives its code |
| SynScanClient.PositionReply | astrocom/serialport.py:252-257 | for the reply '=' + six hexadecimal digits + '\r' the getter writes ':' + letter + axis + '\r', consumes just that reply and returns the ratio of the swapped digits |
| SynScanClient.GotoTargetRoundTrip | astrocom/serialport.py:264-274 | a target sent by `set_goto_target` and echoed back is read by `get_goto_target` as the reduced ratio within 0.5/maxi |
| SynScanClient.StatusReply | astrocom/serialport.py:276-285 | for the reply '=' + three digits + '\r' the status is decoded from that reply and the rest of the input is left |
| SynScanClient.SilentMount | astrocom/serialport.py:105-108 | when nothing arrives before the timeout, the command fails with an empty reply named EMPTY_ANSWER |
| SynScanClient.GettersPassErrors | astrocom/serialport.py:254-256 | the getters return data only from a successful reply, and return the reply's error unchanged otherwise |
| SynScanClient.SynScan.constructor | astrocom/serialport.py:224 | a new client uses the given port and the northern hemisphere |
| SynScanClient.SynScan.SetMotionMode | astrocom/serialport.py:242-246 | sends 'G' with `MotionModePayload` of the flags and the client's hemisphere, as `SendSpec` says |
| SynScanClient.SynScan.InitMotor | astrocom/serialport.py:248-250 | sends 'F' with no payload, as `SendSpec` says |
| SynScanClient.SynScan.GetAxisPosition | astrocom/serialport.py:252-257 | sends 'j' and returns `ReplyToRatio` of the result |
| SynScanClient.SynScan.SetAxisPosition | astrocom/serialport.py:259-262 | sends 'E' with the zero-padded position of the ratio |
| SynScanClient.SynScan.SetGotoTarget | astrocom/serialport.py:264-267 | sends 'S' with the zero-padded position of the ratio |
| SynScanClient.SynScan.GetGotoTarget | astrocom/serialport.py:269-274 | sends 'h' and returns `ReplyToRatio` of the result |
| SynScanClient.SynScan.GetAxisStatus | astrocom/serialport.py:276-278 | sends 'f' and returns the reply |
| SynScanClient.SynScan.GetAxisStatusAsDict | astrocom/serialport.py:280-285 | sends 'f' once and returns `ReplyToStatus` of the result |
| SynScanClient.SynScan.GetAxisStatusSpeed | astrocom/serialport.py:287-292 | sends 'f' once and returns the speed code of the decoded status |
| SynScanClient.SynScan.GetAxisStatusMode | astrocom/serialport.py:294-299 | sends 'f' once and returns the mode code of the decoded status |
| SynScanClient.SynScan.GetAxisStatusDirection | astrocom/serialport.py:301-306 | sends 'f' once and returns the direction code of the decoded status |
| SynScanClient.SynScan.GetAxisStatusAsStr | astrocom/serialport.py:308-313 | sends 'f' once and returns the status line of the decoded status |
| SynScanClient.SynScan.GetMotorBoardVersion | astrocom/serialport.py:315-317 | sends 'e' and returns the reply |
| SynScanClient.SynScan.StartMotion | astrocom/serialport.py:319-321 | sends 'J' and returns the reply |
| SynScanClient.SynScan.StopMotion | astrocom/serialport.py:323-325 | sends 'K' and returns the reply |
| SynScanClient.SynScan.StopMotionNow | astrocom/serialport.py:327-329 | sends 'L' and returns the reply |
| SynScanClient.SynScan.SetSt4GuideRate | astrocom/serialport.py:331-333 | sends 'P' with `str(rate)` as payload |
| Astro.Split | astrocom/astro.py:7-9 | non-negative amounts give non-negative parts, non-positive amounts non-positive parts |
| Astro.TurnToHms | astrocom/astro.py:5-10 | `turn_to_hms(v)` is the split of 24*v |
| Astro.TurnToDms | astrocom/astro.py:13-18 | `turn_to_dms(v)` is the split of 360*v |
| Astro.Sexagesimal60 | astrocom/astro.py:7-9 | for x >= 0: the whole part is floor(x), minutes and seconds lie in 0..59, and 3600*hh + 60*mm + ss == floor(3600*x) |
| Astro.SplitOdd | astrocom/astro.py:7-9 | the split of -x is the split of x with every part negated |
| Astro.WithinOneTurn | astrocom/astro.py:7 | for v in [0, 1): 0 <= hh <= 23 and 0 <= dd <= 359 |
| Astro.HmsSeconds | astrocom/astro.py:7-9 | for v >= 0: mm and ss lie in 0..59 and 3600*hh + 60*mm + ss == floor(86400*v) |
| Astro.DmsSeconds | astrocom/astro.py:15-17 | for v >= 0: mm and ss lie in 0..59 and 3600*dd + 60*mm + ss == floor(1296000*v) |
| Astro.NegativeTurn | astrocom/astro.py:5-18 | both converters are odd: -v gives every component of v negated |
| Astro.QuarterTurn | astrocom/astro.py:5-18 | a quarter turn is (6, 0, 0) hours and (90, 0, 0) degrees |

## Left out

- `list_ports` and `print_ports` are left out. They only wrap pyserial's port enumeration and print it.
- `SynScan.__init__` is left out: it opens and flushes a real port. The constructor takes an open port and sets only the hemisphere.
- The `SW_MODE` attributes that `__init__` copies onto the object in a loop are left out as attributes. They are the module constants `FORWARD` … `FAST` of `Codec`.
- `SynScan.__del__` is left out. It makes a best-effort stop and close.
- The logger calls are left out. They have no effect on any result. `Codec.Message` gives the text they would log.
- The dynamic type checks at the start of `send_cmd` are left out, because Dafny's types enforce them. The command letter is one `char`.
- Transport.SwRead: the wall-clock timeout is modelled as the scripted input running out. A timeout in the middle of a reply that goes on arriving later is not modelled.
- Transport.SwRead: the reply is a sequence of characters, not bytes decoded from UTF-8. The decode error on invalid UTF-8 is not modelled.
- Transport.SerialPort.Write: the port records the frame as text, not as the UTF-8 bytes of that text.
- Codec.PositionToTurnRatio: `int(s, 16)` is modelled as accepting exactly the strings of ASCII hexadecimal digits. Python also accepts surrounding whitespace, a sign, a `0x` prefix and underscores between digits.
- PyText.HexValue: the empty string reads as 0, where Python's `int('', 16)` raises. The source never reaches that case, because the swapped position always has six characters.
- Codec.Round: a tie is rounded up. Python rounds half to even. The half-step bound holds either way.
- Floating point is left out everywhere. `maxi`, ratios and turn fractions are exact reals, so IEEE rounding in `Codec.PositionToTurnRatio`, `Codec.EncodedValue` and `Astro.Split` is not modelled.
- SynScanClient.SynScan.SetAxisPosition and SynScanClient.SynScan.SetGotoTarget send the zero-padded position (`Codec.EncodePosition`). The source uses the unpadded encoder, which raises IndexError before writing anything when the rounded value is below 0x100000 (see Findings).

## Findings

| source | as written | input that shows it | evidently intended | confidence | as-written member | corrected member |
|---|---|---|---|---|---|---|
| astrocom/serialport.py:105-113 | `error_to_str` looks up `strng[1:]`, but `sw_read` keeps the terminating '\r', so a real error reply is never found in the table | the reply "!2\r" (motor running) gives UNKNOWN_ERROR | drop the '\r' before the lookup, so "!2\r" gives MOTOR_RUNNING | not executed | Codec.ErrorToStrTerminated | Codec.ReplyErrorNameOfCode |
| astrocom/serialport.py:205-206 | `hex(...)[2:]` is not zero-padded, so a rounded value below 0x100000 has five digits and `hexa[5]` raises IndexError | ratio -0.9: round(-0.9*maxi + 0x800000) = 0xCCCCD | pad the digits to six with leading zeros, as the position format requires | not executed | Codec.TurnRatioToPositionFailsAt | Codec.EncodePositionRoundTrip |
