/** The SynScan class of astrocom/serialport.py: one method per motor-board
    command, each sending one framed command through send_cmd and decoding
    the reply where the command returns data. */
module SynScanClient {
  import opened PyText
  import opened Codec
  import opened Transport

  // ---------------------------------------------------------------------------
  // The set_motion_mode payload

  /** The speed bit the board is sent: in GOTO mode FAST and SLOW are inverted. */
  function SpeedBit(gotoOrTrack: int, speed: int): int {
    if gotoOrTrack == GOTO then 1 - speed else speed
  }

  /** str(2*speed + goto_or_track) + str(2*north_south + direction). */
  function MotionModePayload(gotoOrTrack: int, speed: int, direction: int, northSouth: int): (p: string)
    ensures |p| >= 2
  {
    IntToString(2 * SpeedBit(gotoOrTrack, speed) + gotoOrTrack) + IntToString(2 * northSouth + direction)
  }

  predicate IsBit(b: int) {
    b == 0 || b == 1
  }

  /** For the documented flag values the payload is exactly two digits in 0..3. */
  lemma MotionModeDigits(gotoOrTrack: int, speed: int, direction: int, northSouth: int)
    requires IsBit(gotoOrTrack) && IsBit(speed) && IsBit(direction) && IsBit(northSouth)
    ensures var p := MotionModePayload(gotoOrTrack, speed, direction, northSouth);
      |p| == 2 && '0' <= p[0] <= '3' && '0' <= p[1] <= '3'
  {
  }

  /** The four flags as the board reads them back from the two digits. */
  datatype MotionMode = MotionMode(gotoOrTrack: int, speed: int, direction: int, northSouth: int)

  /** Reads a two-digit payload: bit 0 of the first digit is the mode and
      bit 1 the (mode-dependent) speed bit; bit 0 of the second digit is the
      direction and bit 1 the hemisphere. */
  function DecodeMotionMode(p: string): (m: MotionMode)
    requires |p| == 2 && '0' <= p[0] <= '3' && '0' <= p[1] <= '3'
    ensures IsBit(m.gotoOrTrack) && IsBit(m.speed) && IsBit(m.direction) && IsBit(m.northSouth)
  {
    var a := p[0] as int - '0' as int;
    var b := p[1] as int - '0' as int;
    var g := a % 2;
    MotionMode(g, SpeedBit(g, a / 2), b % 2, b / 2)
  }

  /** The payload loses nothing: the board recovers all four flags. */
  lemma {:induction false} MotionModeRoundTrip(gotoOrTrack: int, speed: int, direction: int, northSouth: int)
    requires IsBit(gotoOrTrack) && IsBit(speed) && IsBit(direction) && IsBit(northSouth)
    ensures var p := MotionModePayload(gotoOrTrack, speed, direction, northSouth);
      |p| == 2 && '0' <= p[0] <= '3' && '0' <= p[1] <= '3' &&
      DecodeMotionMode(p) == MotionMode(gotoOrTrack, speed, direction, northSouth)
  {
    var a := 2 * SpeedBit(gotoOrTrack, speed) + gotoOrTrack;
    var b := 2 * northSouth + direction;
    var p := MotionModePayload(gotoOrTrack, speed, direction, northSouth);
    assert p == [DigitChar(a), DigitChar(b)];
    assert a % 2 == gotoOrTrack && a / 2 == SpeedBit(gotoOrTrack, speed);
    assert b % 2 == direction && b / 2 == northSouth;
  }

  /** A fast GOTO forward in the north is "00", a slow track forward in the
      north "10", a fast track backward in the south "33". */
  lemma MotionModeExamples()
    ensures MotionModePayload(GOTO, FAST, FORWARD, NORTH) == "00"
    ensures MotionModePayload(TRACK, SLOW, FORWARD, NORTH) == "10"
    ensures MotionModePayload(TRACK, FAST, BACKWARD, SOUTH) == "33"
  {
  }

  // ---------------------------------------------------------------------------
  // Decoding what the getters return

  /** get_axis_position / get_goto_target after send_cmd: an error passes
      through, otherwise the text after the leading '=' is decoded. */
  function ReplyToRatio(ans: Result<string>): (r: Result<real>)
    requires ans.Ok? ==> |ans.value| >= 1
    ensures ans.Err? ==> r == Err(ans.error)
    ensures ans.Ok? ==> r == PositionToTurnRatio(ans.value[1..])
  {
    match ans
    case Err(e) => Err(e)
    case Ok(s) => PositionToTurnRatio(s[1..])
  }

  /** get_axis_status_as_dict after get_axis_status. */
  function ReplyToStatus(ans: Result<string>): (r: Result<AxisStatus>)
    ensures ans.Err? ==> r == Err(ans.error)
    ensures ans.Ok? ==> r == AxisStatusToDict(ans.value)
  {
    match ans
    case Err(e) => Err(e)
    case Ok(s) => AxisStatusToDict(s)
  }

  /** One of the status getters' codes, applied to a decoded status. */
  function StatusCode(d: Result<AxisStatus>, code: AxisStatus -> int): (r: Result<int>)
    ensures d.Err? ==> r == Err(d.error)
    ensures d.Ok? ==> r == Ok(code(d.value))
  {
    match d
    case Err(e) => Err(e)
    case Ok(s) => Ok(code(s))
  }

  // ---------------------------------------------------------------------------
  // What the commands do on the wire

  /** A hexadecimal text carries neither '!' nor '\r'. */
  lemma HexHasNoMarks(h: string)
    requires AllHex(h)
    ensures Unmarked(h)
  {
  }

  /** A position reply '=' + six hexadecimal digits + '\r' is read whole
      and decodes to the ratio those digits stand for, byte-swapped. */
  lemma {:induction false} PositionReply(letter: char, axis: int, pos: string, rest: seq<char>)
    requires ValidAxis(axis) && |pos| == 6 && AllHex(pos)
    ensures var e := SendSpec(letter, axis, "", "=" + pos + "\r" + rest);
      e.frames == [[':', letter, DigitChar(axis), '\r']] &&
      e.rest == rest &&
      e.result == Ok("=" + pos + "\r") &&
      ReplyToRatio(e.result) == Ok(RatioOf(HexValue(Swap(pos))))
  {
    HexHasNoMarks(pos);
    var body := "=" + pos;
    UnmarkedAfterEquals(pos);
    CleanReply(body, rest);
    SendValidAxis(letter, axis, "", body + "\r" + rest);
    assert [':', letter, DigitChar(axis)] + "" + "\r" == [':', letter, DigitChar(axis), '\r'];
    assert (body + "\r")[1..] == pos + "\r";
    DecodeIgnoresTail(pos, "\r");
  }

  /** No carriage return and no '!' in `t`. */
  predicate Unmarked(t: string) {
    forall i :: 0 <= i < |t| ==> t[i] != '\r' && t[i] != '!'
  }

  lemma UnmarkedAfterEquals(t: string)
    requires Unmarked(t)
    ensures Unmarked("=" + t)
  {
    var body := "=" + t;
    forall i | 0 <= i < |body| ensures body[i] != '\r' && body[i] != '!' {
      if i > 0 {
        assert body[i] == t[i - 1];
      }
    }
  }

  /** A reply with no '!' that the mount terminates is read whole and
      returned as data. */
  lemma {:induction false} CleanReply(body: string, rest: seq<char>)
    requires Unmarked(body)
    ensures NextReply(body + "\r" + rest) == body + "\r"
    ensures !HasError(body + "\r")
  {
    NextReplyTerminated(body, rest);
    var reply := body + "\r";
    forall i | 0 <= i < |reply| ensures reply[i] != '!' {
      if i < |body| {
        assert reply[i] == body[i];
      }
    }
  }

  /** Setting a target and reading it back: if the mount echoes the position
      set_goto_target sent, get_goto_target returns the reduced ratio to
      within half a step. */
  lemma {:induction false} GotoTargetRoundTrip(axis: int, ratio: real, rest: seq<char>)
    requires ValidAxis(axis)
    ensures var pos := EncodePosition(ratio);
      SendSpec('S', axis, pos, []).frames == [Frame(['S', DigitChar(axis)] + pos)] &&
      var e := SendSpec('h', axis, "", "=" + pos + "\r" + rest);
      ReplyToRatio(e.result).Ok? &&
      Reduce(ratio) - 0.5 / Maxi < ReplyToRatio(e.result).value <= Reduce(ratio) + 0.5 / Maxi
  {
    var pos := EncodePosition(ratio);
    assert IntToString(axis) == [DigitChar(axis)];
    assert ['S'] + IntToString(axis) + pos == ['S', DigitChar(axis)] + pos;
    PositionReply('h', axis, pos, rest);
    EncodePositionRoundTrip(ratio);
    assert AllHex(pos);
    DecodeIgnoresTail(pos, "\r");
  }

  /** A status reply '=' + three digits + '\r' decodes as axis_status_to_dict
      decodes those digits. */
  lemma {:induction false} StatusReply(axis: int, digits: string, rest: seq<char>)
    requires ValidAxis(axis) && |digits| == 3 && AllDigits(digits)
    ensures var reply := "=" + digits + "\r";
      var e := SendSpec('f', axis, "", reply + rest);
      e.result == Ok(reply) && e.rest == rest &&
      ReplyToStatus(e.result).Ok? &&
      ReplyToStatus(e.result) == AxisStatusToDict(reply)
  {
    var body := "=" + digits;
    UnmarkedAfterEquals(digits);
    CleanReply(body, rest);
    var reply := body + "\r";
    assert IsAscii(reply) by {
      forall i | 0 <= i < |reply| ensures reply[i] as int < 0x80 {
        if 0 < i < 4 {
          assert reply[i] == digits[i - 1];
        }
      }
    }
    assert IsDigit(reply[1]) && IsDigit(reply[2]) && IsDigit(reply[3]) by {
      assert reply[1] == digits[0] && reply[2] == digits[1] && reply[3] == digits[2];
    }
    StatusOfDigits(reply);
  }

  /** When the mount stays silent the read times out, and the command fails
      with an empty answer. */
  lemma {:induction false} SilentMount(letter: char, axis: int, payload: string)
    requires ValidAxis(axis)
    ensures var e := SendSpec(letter, axis, payload, []);
      e.result == Err(DeviceError("")) && Message(e.result.error) == "EMPTY_ANSWER" && e.rest == []
  {
    assert NextReply([]) == [];
  }

  /** A decoded error is never turned into data by the getters. */
  lemma {:induction false} GettersPassErrors(letter: char, axis: int, payload: string, incoming: seq<char>)
    ensures var e := SendSpec(letter, axis, payload, incoming);
      (ReplyToRatio(e.result).Ok? ==> e.result.Ok?) &&
      (ReplyToStatus(e.result).Ok? ==> e.result.Ok?) &&
      (e.result.Err? ==> ReplyToRatio(e.result) == Err(e.result.error) &&
                         ReplyToStatus(e.result) == Err(e.result.error))
  {
  }

  // ---------------------------------------------------------------------------
  // The SynScan class

  /** A SynScan mount on an open serial link. The source's class is a
      Serial subclass; here the link is the `port` it owns. */
  class SynScan {
    const port: SerialPort
    var northSouth: int

    /** The state __init__ leaves: the port given, the northern hemisphere. */
    constructor (port: SerialPort)
      ensures this.port == port && northSouth == NORTH
    {
      this.port := port;
      northSouth := NORTH;
    }

    method SetMotionMode(axis: int, gotoOrTrack: int, speed: int, direction: int) returns (r: Result<string>)
      modifies port
      ensures var e := SendSpec('G', axis, MotionModePayload(gotoOrTrack, speed, direction, northSouth),
                                old(port.incoming));
        port.written == old(port.written) + e.frames && port.incoming == e.rest && r == e.result
    {
      var s := speed;
      if gotoOrTrack == GOTO {
        s := 1 - speed;
      }
      assert s == SpeedBit(gotoOrTrack, speed);
      var payload := IntToString(2 * s + gotoOrTrack) + IntToString(2 * northSouth + direction);
      assert payload == MotionModePayload(gotoOrTrack, speed, direction, northSouth);
      r := SendCmd(port, 'G', axis, payload);
    }

    method InitMotor(axis: int) returns (r: Result<string>)
      modifies port
      ensures var e := SendSpec('F', axis, "", old(port.incoming));
        port.written == old(port.written) + e.frames && port.incoming == e.rest && r == e.result
    {
      r := SendCmd(port, 'F', axis, "");
    }

    method GetAxisPosition(axis: int) returns (r: Result<real>)
      modifies port
      ensures var e := SendSpec('j', axis, "", old(port.incoming));
        port.written == old(port.written) + e.frames && port.incoming == e.rest &&
        r == ReplyToRatio(e.result)
    {
      var ans := SendCmd(port, 'j', axis, "");
      if ans.Err? {
        return Err(ans.error);
      }
      r := PositionToTurnRatio(ans.value[1..]);
    }

    /** set_axis_position, with the position zero-padded (see EncodePosition). */
    method SetAxisPosition(axis: int, ratio: real) returns (r: Result<string>)
      modifies port
      ensures var e := SendSpec('E', axis, EncodePosition(ratio), old(port.incoming));
        port.written == old(port.written) + e.frames && port.incoming == e.rest && r == e.result
    {
      var pos := EncodePosition(ratio);
      r := SendCmd(port, 'E', axis, pos);
    }

    /** set_goto_target, with the position zero-padded (see EncodePosition). */
    method SetGotoTarget(axis: int, ratio: real) returns (r: Result<string>)
      modifies port
      ensures var e := SendSpec('S', axis, EncodePosition(ratio), old(port.incoming));
        port.written == old(port.written) + e.frames && port.incoming == e.rest && r == e.result
    {
      var pos := EncodePosition(ratio);
      r := SendCmd(port, 'S', axis, pos);
    }

    method GetGotoTarget(axis: int) returns (r: Result<real>)
      modifies port
      ensures var e := SendSpec('h', axis, "", old(port.incoming));
        port.written == old(port.written) + e.frames && port.incoming == e.rest &&
        r == ReplyToRatio(e.result)
    {
      var ans := SendCmd(port, 'h', axis, "");
      if ans.Err? {
        return Err(ans.error);
      }
      r := PositionToTurnRatio(ans.value[1..]);
    }

    method GetAxisStatus(axis: int) returns (r: Result<string>)
      modifies port
      ensures var e := SendSpec('f', axis, "", old(port.incoming));
        port.written == old(port.written) + e.frames && port.incoming == e.rest && r == e.result
    {
      r := SendCmd(port, 'f', axis, "");
    }

    method GetAxisStatusAsDict(axis: int) returns (r: Result<AxisStatus>)
      modifies port
      ensures var e := SendSpec('f', axis, "", old(port.incoming));
        port.written == old(port.written) + e.frames && port.incoming == e.rest &&
        r == ReplyToStatus(e.result)
    {
      var ans := GetAxisStatus(axis);
      if ans.Err? {
        return Err(ans.error);
      }
      r := AxisStatusToDict(ans.value);
    }

    method GetAxisStatusSpeed(axis: int) returns (r: Result<int>)
      modifies port
      ensures var e := SendSpec('f', axis, "", old(port.incoming));
        port.written == old(port.written) + e.frames && port.incoming == e.rest &&
        r == StatusCode(ReplyToStatus(e.result), StatusSpeed)
    {
      var dic := GetAxisStatusAsDict(axis);
      if dic.Err? {
        return Err(dic.error);
      }
      r := Ok(StatusSpeed(dic.value));
    }

    method GetAxisStatusMode(axis: int) returns (r: Result<int>)
      modifies port
      ensures var e := SendSpec('f', axis, "", old(port.incoming));
        port.written == old(port.written) + e.frames && port.incoming == e.rest &&
        r == StatusCode(ReplyToStatus(e.result), StatusMode)
    {
      var dic := GetAxisStatusAsDict(axis);
      if dic.Err? {
        return Err(dic.error);
      }
      r := Ok(StatusMode(dic.value));
    }

    method GetAxisStatusDirection(axis: int) returns (r: Result<int>)
      modifies port
      ensures var e := SendSpec('f', axis, "", old(port.incoming));
        port.written == old(port.written) + e.frames && port.incoming == e.rest &&
        r == StatusCode(ReplyToStatus(e.result), StatusDirection)
    {
      var dic := GetAxisStatusAsDict(axis);
      if dic.Err? {
        return Err(dic.error);
      }
      r := Ok(StatusDirection(dic.value));
    }

    method GetAxisStatusAsStr(axis: int) returns (r: Result<string>)
      modifies port
      ensures var e := SendSpec('f', axis, "", old(port.incoming));
        port.written == old(port.written) + e.frames && port.incoming == e.rest &&
        var d := ReplyToStatus(e.result);
        (d.Err? ==> r == Err(d.error)) && (d.Ok? ==> r == Ok(StatusText(d.value)))
    {
      var dic := GetAxisStatusAsDict(axis);
      if dic.Err? {
        return Err(dic.error);
      }
      var text := AxisDictToStr(dic.value);
      r := Ok(text);
    }

    method GetMotorBoardVersion(axis: int) returns (r: Result<string>)
      modifies port
      ensures var e := SendSpec('e', axis, "", old(port.incoming));
        port.written == old(port.written) + e.frames && port.incoming == e.rest && r == e.result
    {
      r := SendCmd(port, 'e', axis, "");
    }

    method StartMotion(axis: int) returns (r: Result<string>)
      modifies port
      ensures var e := SendSpec('J', axis, "", old(port.incoming));
        port.written == old(port.written) + e.frames && port.incoming == e.rest && r == e.result
    {
      r := SendCmd(port, 'J', axis, "");
    }

    method StopMotion(axis: int) returns (r: Result<string>)
      modifies port
      ensures var e := SendSpec('K', axis, "", old(port.incoming));
        port.written == old(port.written) + e.frames && port.incoming == e.rest && r == e.result
    {
      r := SendCmd(port, 'K', axis, "");
    }

    method StopMotionNow(axis: int) returns (r: Result<string>)
      modifies port
      ensures var e := SendSpec('L', axis, "", old(port.incoming));
        port.written == old(port.written) + e.frames && port.incoming == e.rest && r == e.result
    {
      r := SendCmd(port, 'L', axis, "");
    }

    /** set_st4_guide_rate: the rate index 0..4 stands for 1.0, 0.75, 0.50,
        0.25 and 0.125 times sidereal; it is sent as str(rate). */
    method SetSt4GuideRate(axis: int, rate: int) returns (r: Result<string>)
      modifies port
      ensures var e := SendSpec('P', axis, IntToString(rate), old(port.incoming));
        port.written == old(port.written) + e.frames && port.incoming == e.rest && r == e.result
    {
      r := SendCmd(port, 'P', axis, IntToString(rate));
    }
  }
}
