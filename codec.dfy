/** The SynScan motor-board wire format: command framing, reply
    classification, the byte-swapped hexadecimal position codec and the
    axis-status flags (astrocom/serialport.py, module-level functions). */
module Codec {
  import opened PyText

  // ---------------------------------------------------------------------------
  // Tables

  /** Error codes a motor board answers with, after the '!' marker. */
  const SwError: map<string, string> := map[
    "0" := "UNKNOWN_COMMAND",
    "1" := "INVALID_COMMAND_LENGTH",
    "2" := "MOTOR_RUNNING",
    "3" := "INVALID_CHARACTER",
    "4" := "NOT_INITIALIZED",
    "5" := "DRIVER_ASLEEP",
    "6" := "MOUNT_NOT_TRACKING",
    "7" := "PEC_RUNNING",
    "8" := "INVALID_PEC_DATA",
    "9" := "INVALID_CMD"]

  /** The SW_MODE codes. */
  const FORWARD := 0
  const BACKWARD := 1
  const NORTH := 0
  const SOUTH := 1
  const GOTO := 0
  const TRACK := 1
  const SLOW := 0
  const FAST := 1

  /** Scale and centre of the 24-bit position: `int("F"*6, 16) / 2` and `int("800000", 16)`. */
  const Maxi: real := 16777215.0 / 2.0
  const Offset: int := 0x800000

  // ---------------------------------------------------------------------------
  // Results

  /** What the source signals by returning the AstrocomException class,
      or by raising IndexError on a string that is too short. */
  datatype Error =
    | InvalidAxis                   // axis not in [1, 2, 3]
    | DeviceError(reply: string)    // the reply is empty or carries '!'
    | NotHexadecimal(pos: string)   // int(..., 16) refused the position digits
    | IndexError                    // a string was indexed past its end

  datatype Result<T> = Ok(value: T) | Err(error: Error)

  // ---------------------------------------------------------------------------
  // Framing (sw_write)

  /** A command on the wire: ':' + text + carriage return. */
  function Frame(text: string): (f: string)
    ensures |f| == |text| + 2
    ensures f[0] == ':' && f[|f| - 1] == '\r' && f[1..|f| - 1] == text
  {
    ":" + text + "\r"
  }

  /** The text a frame carries; the inverse of `Frame`. */
  function Unframe(f: string): string
    requires |f| >= 2
  {
    f[1..|f| - 1]
  }

  lemma FrameRoundTrip(text: string)
    ensures Unframe(Frame(text)) == text
  {
  }

  /** Distinct texts give distinct frames. */
  lemma FrameInjective(a: string, b: string)
    requires Frame(a) == Frame(b)
    ensures a == b
  {
    assert a == Unframe(Frame(a));
  }

  // ---------------------------------------------------------------------------
  // Reply classification (has_error, error_to_str)

  function HasError(s: string): (b: bool)
    ensures b <==> (|s| == 0 || exists i :: 0 <= i < |s| && s[i] == '!')
  {
    |s| == 0 || '!' in s
  }

  /** error_to_str, as written: looks up everything after the first character. */
  function ErrorToStr(s: string): (m: string)
    ensures (m == "EMPTY_ANSWER") <==> s == []
    ensures m == "UNKNOWN_ERROR" || m == "EMPTY_ANSWER" || m in SwError.Values
    ensures |s| >= 1 && s[1..] in SwError ==> m == SwError[s[1..]]
    ensures |s| >= 1 && s[1..] !in SwError ==> m == "UNKNOWN_ERROR"
  {
    if |s| == 0 then "EMPTY_ANSWER"
    else if s[1..] in SwError then SwError[s[1..]]
    else "UNKNOWN_ERROR"
  }

  /** Every key of the error table is one decimal digit. */
  lemma SwErrorKeys(k: string)
    requires k in SwError
    ensures |k| == 1 && IsDigit(k[0])
  {
  }

  /** A reply as the transport returns it ends with the carriage return,
      so error_to_str never finds it in the table. */
  lemma {:induction false} ErrorToStrTerminated(s: string)
    requires |s| >= 1 && s[|s| - 1] == '\r'
    ensures ErrorToStr(s) == "UNKNOWN_ERROR"
  {
    var t := s[1..];
    if |t| == 1 {
      assert t == "\r";
    }
  }

  /** The motor board's "motor running" answer, as read off the wire. */
  lemma ErrorToStrMotorRunning()
    ensures ErrorToStr("!2\r") == "UNKNOWN_ERROR"
  {
    ErrorToStrTerminated("!2\r");
  }

  /** The error name as evidently intended: the terminating carriage
      return is dropped before the code is looked up. */
  function ReplyErrorName(s: string): (m: string)
    ensures (m == "EMPTY_ANSWER") <==> s == []
    ensures m == "UNKNOWN_ERROR" || m == "EMPTY_ANSWER" || m in SwError.Values
    ensures |s| == 0 || s[|s| - 1] != '\r' ==> m == ErrorToStr(s)
  {
    if |s| == 0 then "EMPTY_ANSWER"
    else
      var body := if s[|s| - 1] == '\r' then s[..|s| - 1] else s;
      if |body| >= 1 && body[1..] in SwError then SwError[body[1..]] else "UNKNOWN_ERROR"
  }

  /** A well-formed error reply '!' + code + '\r' is named by its code. */
  lemma ReplyErrorNameOfCode(code: string)
    requires code in SwError
    ensures HasError("!" + code + "\r")
    ensures ReplyErrorName("!" + code + "\r") == SwError[code]
    ensures ReplyErrorName("!" + code) == SwError[code]
  {
    SwErrorKeys(code);
    var s := "!" + code + "\r";
    assert s[0] == '!' && s[|s| - 1] == '\r';
    assert s[..|s| - 1] == "!" + code;
    assert ("!" + code)[1..] == code;
    assert ("!" + code)[|"!" + code| - 1] == code[0];
  }

  /** The message the source logs for each error. A device error is named by
      error_to_str as written, so a terminated reply is UNKNOWN_ERROR (see
      ErrorToStrTerminated); ReplyErrorName is the naming evidently intended. */
  function Message(e: Error): (m: string)
    ensures e.InvalidAxis? ==> m == "INVALID_AXIS_ID"
    ensures e.DeviceError? ==> m == ErrorToStr(e.reply)
  {
    match e
    case InvalidAxis => "INVALID_AXIS_ID"
    case DeviceError(reply) => ErrorToStr(reply)
    case NotHexadecimal(pos) => "Cannot convert " + pos + " from hexadecimal to decimal"
    case IndexError => "IndexError"
  }

  // ---------------------------------------------------------------------------
  // Position codec (position_to_turn_ratio, turn_ratio_to_position)

  /** The digit permutation [4,5,2,3,0,1]: reverses the order of the three bytes. */
  function Swap(h: string): (r: string)
    requires |h| >= 6
    ensures |r| == 6
    ensures r[0..2] == h[4..6] && r[2..4] == h[2..4] && r[4..6] == h[0..2]
  {
    [h[4], h[5], h[2], h[3], h[0], h[1]]
  }

  lemma SwapInvolutive(h: string)
    requires |h| == 6
    ensures Swap(Swap(h)) == h
  {
  }

  /** The documented example: hexa=0x123456 -> pos=563412. */
  lemma SwapExample()
    ensures Swap("123456") == "563412" && Swap("563412") == "123456"
  {
  }

  /** The turn ratio a big-endian 24-bit value stands for. */
  function RatioOf(v: int): (r: real)
    ensures r * Maxi + Offset as real == v as real
    ensures 0 <= v < 0x1000000 ==> -1.0 - 1.0 / 16777215.0 <= r <= 1.0
  {
    (v - Offset) as real / Maxi
  }

  /** position_to_turn_ratio: decodes the first six characters of a position. */
  function PositionToTurnRatio(pos: string): (r: Result<real>)
    ensures r == Err(IndexError) <==> |pos| < 6
    ensures r.Err? <==> |pos| < 6 || !AllHex(Swap(pos))
    ensures r.Ok? ==> -1.0 - 1.0 / 16777215.0 <= r.value <= 1.0
  {
    if |pos| < 6 then Err(IndexError)
    else
      var hexa := Swap(pos);
      if !AllHex(hexa) then Err(NotHexadecimal(pos))
      else
        var v := HexValue(hexa);
        assert v < 0x1000000 by {
          HexUpperLengthBound(hexa);
        }
        Ok(RatioOf(v))
  }

  /** A six-digit hexadecimal string is below 16^6. */
  lemma HexUpperLengthBound(h: string)
    requires |h| == 6 && AllHex(h)
    ensures HexValue(h) < 0x1000000
  {
    assert Pow16(6) == 0x1000000;
  }

  /** The centre position "000080" is ratio 0. */
  lemma DecodeCentre()
    ensures PositionToTurnRatio("000080") == Ok(0.0)
  {
    assert Swap("000080") == "800000";
    assert HexValue("800000") == 0x800000 by {
      assert "800000"[..5] == "80000";
      assert "80000"[..4] == "8000";
      assert "8000"[..3] == "800";
      assert "800"[..2] == "80";
      assert "80"[..1] == "8";
    }
  }

  /** Anything past the sixth character is ignored, e.g. the reply's '\r'. */
  lemma DecodeIgnoresTail(pos: string, tail: string)
    requires |pos| == 6
    ensures PositionToTurnRatio(pos + tail).Ok? == PositionToTurnRatio(pos).Ok?
    ensures PositionToTurnRatio(pos).Ok? ==> PositionToTurnRatio(pos + tail) == PositionToTurnRatio(pos)
  {
    assert Swap(pos + tail) == Swap(pos);
  }

  /** Python's int(): truncation toward zero. */
  function Trunc(x: real): (n: int)
    ensures x >= 0.0 ==> 0 <= n && n as real <= x < n as real + 1.0
    ensures x < 0.0 ==> n <= 0 && n as real - 1.0 < x <= n as real
  {
    if x >= 0.0 then x.Floor else -((-x).Floor)
  }

  /** `ratio - int(ratio)`: the fraction of a turn, keeping its sign. */
  function Reduce(ratio: real): (r: real)
    ensures (ratio - r).Floor as real == ratio - r
    ensures -1.0 < r < 1.0
    ensures ratio >= 0.0 ==> r >= 0.0
    ensures ratio <= 0.0 ==> r <= 0.0
    ensures -1.0 < ratio < 1.0 ==> r == ratio
  {
    ratio - Trunc(ratio) as real
  }

  /** round(), as the nearest integer (a tie goes up). */
  function Round(x: real): (n: int)
    ensures x - 0.5 < n as real <= x + 0.5
  {
    (x + 0.5).Floor
  }

  /** The unsigned 24-bit value `round(r*maxi + offset)` for the reduced ratio. */
  function EncodedValue(ratio: real): (n: nat)
    ensures 1 <= n < 0x1000000
    ensures var x := Reduce(ratio) * Maxi + Offset as real; x - 0.5 < n as real <= x + 0.5
  {
    Round(Reduce(ratio) * Maxi + Offset as real)
  }

  /** turn_ratio_to_position, as written: the hex text is not zero-padded, so
      a value below 0x100000 has fewer than six digits and `hexa[5]` raises. */
  function TurnRatioToPosition(ratio: real): (r: Result<string>)
    ensures r.Err? <==> EncodedValue(ratio) < 0x100000
    ensures r.Err? ==> r.error == IndexError
    ensures r.Ok? ==> |r.value| == 6 && AllUpperHex(r.value)
  {
    var n := EncodedValue(ratio);
    var hexa := HexUpper(n);
    HexUpperLength(n, 6);
    HexUpperLength(n, 5);
    if |hexa| < 6 then Err(IndexError) else Ok(Swap(hexa))
  }

  /** Where the unpadded encoder works: the rounded value must reach 0x100000. */
  lemma {:induction false} TurnRatioToPositionDefined(ratio: real)
    ensures TurnRatioToPosition(ratio).Ok? <==> Reduce(ratio) * Maxi + Offset as real >= 1048575.5
  {
    var x := Reduce(ratio) * Maxi + Offset as real;
    var n := EncodedValue(ratio);
    assert n == (x + 0.5).Floor;
  }

  /** A ratio inside the documented range [-1, 1] that the unpadded encoder
      cannot render: round(-0.9*maxi + offset) = 0xCCCCD has five digits. */
  lemma TurnRatioToPositionFailsAt()
    ensures TurnRatioToPosition(-0.9) == Err(IndexError)
  {
  }

  /** The encoded text decodes to the encoded value's ratio. */
  lemma {:induction false} DecodeEncodedHex(h: string, n: nat)
    requires |h| == 6 && AllHex(h) && HexValue(h) == n
    ensures PositionToTurnRatio(Swap(h)) == Ok(RatioOf(n))
  {
    SwapInvolutive(h);
  }

  /** Decoding the encoding returns the reduced ratio to within half a step. */
  lemma {:induction false} EncodedValueError(ratio: real)
    ensures Reduce(ratio) - 0.5 / Maxi < RatioOf(EncodedValue(ratio)) <= Reduce(ratio) + 0.5 / Maxi
  {
    var r := Reduce(ratio);
    var n := EncodedValue(ratio);
    assert RatioOf(n) - r == (n as real - (r * Maxi + Offset as real)) / Maxi;
  }

  /** Round trip of the source's encoder, wherever it produces a position. */
  lemma {:induction false} TurnRatioToPositionRoundTrip(ratio: real)
    requires TurnRatioToPosition(ratio).Ok?
    ensures var d := PositionToTurnRatio(TurnRatioToPosition(ratio).value);
      d.Ok? && Reduce(ratio) - 0.5 / Maxi < d.value <= Reduce(ratio) + 0.5 / Maxi
  {
    var n := EncodedValue(ratio);
    HexRoundTrip(n);
    HexUpperLength(n, 6);
    DecodeEncodedHex(HexUpper(n), n);
    EncodedValueError(ratio);
  }

  /** The encoder as evidently intended: the value rendered as six
      upper-case digits, zero-padded, then byte-swapped. */
  function EncodePosition(ratio: real): (pos: string)
    ensures |pos| == 6 && AllUpperHex(pos)
    ensures TurnRatioToPosition(ratio).Ok? ==> pos == TurnRatioToPosition(ratio).value
  {
    var n := EncodedValue(ratio);
    HexUpperLength(n, 6);
    Swap(ZeroPad(HexUpper(n), 6))
  }

  /** Round trip of the corrected encoder, for every ratio. */
  lemma {:induction false} EncodePositionRoundTrip(ratio: real)
    ensures var d := PositionToTurnRatio(EncodePosition(ratio));
      d.Ok? && Reduce(ratio) - 0.5 / Maxi < d.value <= Reduce(ratio) + 0.5 / Maxi
  {
    var n := EncodedValue(ratio);
    HexRoundTrip(n);
    HexUpperLength(n, 6);
    HexValueZeroPad(HexUpper(n), 6);
    DecodeEncodedHex(ZeroPad(HexUpper(n), 6), n);
    EncodedValueError(ratio);
  }

  /** Ratio 0 is the centre position "000080". */
  lemma EncodeCentre()
    ensures EncodePosition(0.0) == "000080"
  {
    assert EncodedValue(0.0) == 0x800000;
    assert HexUpper(0x800000) == "800000";
  }

  // ---------------------------------------------------------------------------
  // Axis status (axis_status_to_dict, axis_dict_to_str)

  /** The status dictionary: one entry per key the source fills in. */
  datatype AxisStatus = AxisStatus(
    stop: bool, track: bool, goto: bool, forward: bool,
    backward: bool, fast: bool, slow: bool, init: bool)

  /** The three pairs of the dictionary are exact complements. */
  predicate Complementary(d: AxisStatus) {
    d.goto == !d.track && d.backward == !d.forward && d.slow == !d.fast
  }

  function AxisStatusToDict(s: string): (r: Result<AxisStatus>)
    ensures r.Err? <==> |Utf8(s)| < 4
    ensures r.Err? ==> r.error == IndexError
    ensures r.Ok? ==> Complementary(r.value)
  {
    var bt := Utf8(s);
    if |bt| < 4 then Err(IndexError)
    else
      var track := BitAnd(bt[1] as int, 0x01) != 0;
      var forward := BitAnd(bt[1] as int, 0x02) == 0;
      var fast := BitAnd(bt[1] as int, 0x04) != 0;
      Ok(AxisStatus(
        stop := BitAnd(bt[2] as int, 0x01) == 0,
        track := track, goto := !track,
        forward := forward, backward := !forward,
        fast := fast, slow := !fast,
        init := BitAnd(bt[3] as int, 1) == 1))
  }

  /** Bits 0 to 2 of a decimal digit's character code are those of its value. */
  lemma DigitBits(c: char)
    requires IsDigit(c)
    ensures var b := c as int; var v := c as int - '0' as int;
      (BitAnd(b, 0x01) != 0 <==> v % 2 == 1) &&
      (BitAnd(b, 0x02) != 0 <==> (v / 2) % 2 == 1) &&
      (BitAnd(b, 0x04) != 0 <==> (v / 4) % 2 == 1)
  {
    BitAndLowBits(c as int);
  }

  /** A status reply '=' + three decimal digits (+ '\r') decodes to the bits
      of those digits: the first gives mode, direction and speed, the second
      running, the third initialised. */
  lemma {:induction false} StatusOfDigits(s: string)
    requires |s| >= 4 && IsAscii(s) && IsDigit(s[1]) && IsDigit(s[2]) && IsDigit(s[3])
    ensures var r := AxisStatusToDict(s);
      var m := s[1] as int - '0' as int;
      var run := s[2] as int - '0' as int;
      var ini := s[3] as int - '0' as int;
      r.Ok? &&
      (r.value.track <==> m % 2 == 1) &&
      (r.value.forward <==> (m / 2) % 2 == 0) &&
      (r.value.fast <==> (m / 4) % 2 == 1) &&
      (r.value.stop <==> run % 2 == 0) &&
      (r.value.init <==> ini % 2 == 1)
  {
    Utf8Ascii(s);
    DigitBits(s[1]);
    DigitBits(s[2]);
    DigitBits(s[3]);
  }

  /** The keys of the status dictionary. */
  datatype Key = StopKey | TrackKey | GotoKey | ForwardKey | BackwardKey | FastKey | SlowKey | InitKey

  /** The key as text. */
  function Name(k: Key): string {
    match k
    case StopKey => "STOP"
    case TrackKey => "TRACK"
    case GotoKey => "GOTO"
    case ForwardKey => "FORWARD"
    case BackwardKey => "BACKWARD"
    case FastKey => "FAST"
    case SlowKey => "SLOW"
    case InitKey => "INIT"
  }

  /** `dic[k]`. */
  function Flag(d: AxisStatus, k: Key): bool {
    match k
    case StopKey => d.stop
    case TrackKey => d.track
    case GotoKey => d.goto
    case ForwardKey => d.forward
    case BackwardKey => d.backward
    case FastKey => d.fast
    case SlowKey => d.slow
    case InitKey => d.init
  }

  /** '%7s' % k. */
  function KeyField(k: Key): string {
    RightJustify(Name(k), 7)
  }

  /** '%7s' % k when the flag of `k` is set, nothing otherwise. */
  function ModeField(d: AxisStatus, k: Key): string {
    if Flag(d, k) then KeyField(k) else ""
  }

  /** The fields '%7s' % k for the keys among `keys` whose flag is set. */
  function ModeFields(d: AxisStatus, keys: seq<Key>): string {
    if keys == [] then ""
    else ModeFields(d, keys[..|keys| - 1]) + ModeField(d, keys[|keys| - 1])
  }

  /** '%8s' % ('STOP' if dic['STOP'] else 'RUNNING'). */
  function StopField(d: AxisStatus): string {
    RightJustify(if d.stop then "STOP" else "RUNNING", 8)
  }

  /** '%9s' % ('FORWARD' if dic['FORWARD'] else 'BACKWARD'). */
  function DirectionField(d: AxisStatus): string {
    RightJustify(if d.forward then "FORWARD" else "BACKWARD", 9)
  }

  /** '%6s' % ('FAST' if dic['FAST'] else 'SLOW'). */
  function SpeedField(d: AxisStatus): string {
    RightJustify(if d.fast then "FAST" else "SLOW", 6)
  }

  /** The one-line status text. Once initialised it starts with the
      STOP/RUNNING column and holds at least the 8 + 9 + 6 characters of
      the three columns that are always printed. */
  function StatusText(d: AxisStatus): (t: string)
    ensures !d.init ==> t == "NOT-INITIALIZED"
    ensures d.init ==> |t| >= 23 && t[..8] == StopField(d)
  {
    if !d.init then "NOT-INITIALIZED"
    else StopField(d) + ModeFields(d, [TrackKey, GotoKey]) + DirectionField(d) + SpeedField(d)
  }

  /** axis_dict_to_str: builds the line field by field. */
  method AxisDictToStr(dic: AxisStatus) returns (ans: string)
    ensures ans == StatusText(dic)
  {
    ans := "";
    if !dic.init {
      return "NOT-INITIALIZED";
    }
    ans := ans + StopField(dic);
    assert ans == StopField(dic);
    var modes := ModeFieldsOf(dic, [TrackKey, GotoKey]);
    ans := ans + modes;
    ans := ans + DirectionField(dic);
    ans := ans + SpeedField(dic);
  }

  /** The loop of axis_dict_to_str over the mode keys: '%7s' % k for every
      key whose flag is set, in order. */
  method ModeFieldsOf(dic: AxisStatus, keys: seq<Key>) returns (ans: string)
    ensures ans == ModeFields(dic, keys)
  {
    ans := "";
    for i := 0 to |keys|
      invariant ans == ModeFields(dic, keys[..i])
    {
      ModeFieldsSnoc(dic, keys, i);
      if Flag(dic, keys[i]) {
        ans := ans + KeyField(keys[i]);
      }
    }
    assert keys[..|keys|] == keys;
  }

  /** ModeFields grows one key at a time. */
  lemma ModeFieldsSnoc(d: AxisStatus, keys: seq<Key>, i: nat)
    requires i < |keys|
    ensures ModeFields(d, keys[..i + 1]) == ModeFields(d, keys[..i]) + ModeField(d, keys[i])
  {
    assert keys[..i + 1][..i] == keys[..i];
  }

  /** With complementary pairs, exactly one of TRACK and GOTO is printed. */
  lemma {:induction false} ModeFieldsComplementary(d: AxisStatus)
    requires Complementary(d)
    ensures ModeFields(d, [TrackKey, GotoKey]) == RightJustify(if d.track then "TRACK" else "GOTO", 7)
  {
    var keys := [TrackKey, GotoKey];
    assert keys[..1] == [TrackKey];
    assert [TrackKey][..0] == [];
    var t := if d.track then RightJustify("TRACK", 7) else "";
    var g := if d.goto then RightJustify("GOTO", 7) else "";
    assert ModeFields(d, [TrackKey]) == "" + t;
    assert ModeFields(d, keys) == ("" + t) + g;
    if d.track {
      assert ("" + t) + g == t;
    } else {
      assert ("" + t) + g == g;
    }
  }

  /** An initialised, complementary status is four right-justified columns
      of widths 8, 7, 9 and 6: thirty characters. */
  lemma {:induction false} StatusTextColumns(d: AxisStatus)
    requires d.init && Complementary(d)
    ensures var t := StatusText(d);
      |t| == 30 &&
      t[..8] == RightJustify(if d.stop then "STOP" else "RUNNING", 8) &&
      t[8..15] == RightJustify(if d.track then "TRACK" else "GOTO", 7) &&
      t[15..24] == RightJustify(if d.forward then "FORWARD" else "BACKWARD", 9) &&
      t[24..] == RightJustify(if d.fast then "FAST" else "SLOW", 6)
  {
    ModeFieldsComplementary(d);
    ColumnSlices(StopField(d), ModeFields(d, [TrackKey, GotoKey]), DirectionField(d), SpeedField(d));
  }

  /** Four strings of widths 8, 7, 9 and 6, joined, are recovered by slicing. */
  lemma ColumnSlices(a: string, m: string, b: string, c: string)
    requires |a| == 8 && |m| == 7 && |b| == 9 && |c| == 6
    ensures var t := a + m + b + c;
      |t| == 30 && t[..8] == a && t[8..15] == m && t[15..24] == b && t[24..] == c
  {
    var t := a + m + b + c;
    assert t[..8] == a;
    assert t[8..15] == m;
    assert t[15..24] == b;
    assert t[24..] == c;
  }

  /** The text is "NOT-INITIALIZED" exactly when the INIT flag is clear. */
  lemma {:induction false} StatusTextNotInitialized(d: AxisStatus)
    ensures StatusText(d) == "NOT-INITIALIZED" <==> !d.init
  {
    if d.init {
      var keys := [TrackKey, GotoKey];
      assert keys[..1] == [TrackKey];
      assert keys[..1][..0] == [];
      assert |StatusText(d)| >= 23;
    }
  }

  /** The fixed-width fields of the example below. */
  lemma FieldTexts()
    ensures RightJustify("STOP", 8) == "    STOP"
    ensures RightJustify("TRACK", 7) == "  TRACK"
    ensures RightJustify("FORWARD", 9) == "  FORWARD"
    ensures RightJustify("SLOW", 6) == "  SLOW"
  {
    assert RightJustify("STOP", 8) == seq(4, _ => ' ') + "STOP";
    assert seq(4, _ => ' ') == "    ";
    assert seq(2, _ => ' ') == "  ";
  }

  /** The status reply "=101" decodes to a stopped, tracking, forward,
      slow and initialised axis. */
  lemma StatusDecodeExample()
    ensures AxisStatusToDict("=101\r") == Ok(AxisStatus(
      stop := true, track := true, goto := false, forward := true,
      backward := false, fast := false, slow := true, init := true))
  {
    StatusOfDigits("=101\r");
  }

  /** ... and prints as STOP, TRACK, FORWARD, SLOW. */
  lemma StatusTextExample()
    ensures StatusText(AxisStatus(
      stop := true, track := true, goto := false, forward := true,
      backward := false, fast := false, slow := true, init := true))
      == "    STOP" + "  TRACK" + "  FORWARD" + "  SLOW"
  {
    var d := AxisStatus(true, true, false, true, false, false, true, true);
    ModeFieldsComplementary(d);
    FieldTexts();
    assert StopField(d) == "    STOP";
    assert ModeFields(d, [TrackKey, GotoKey]) == "  TRACK";
    assert DirectionField(d) == "  FORWARD";
    assert SpeedField(d) == "  SLOW";
  }

  // ---------------------------------------------------------------------------
  // The status getters' arithmetic: dic[A]*self.A + dic[B]*self.B

  function BoolToInt(b: bool): int {
    if b then 1 else 0
  }

  function StatusSpeed(d: AxisStatus): (code: int)
    ensures Complementary(d) ==> code == if d.fast then FAST else SLOW
  {
    BoolToInt(d.fast) * FAST + BoolToInt(d.slow) * SLOW
  }

  function StatusMode(d: AxisStatus): (code: int)
    ensures Complementary(d) ==> code == if d.track then TRACK else GOTO
  {
    BoolToInt(d.goto) * GOTO + BoolToInt(d.track) * TRACK
  }

  function StatusDirection(d: AxisStatus): (code: int)
    ensures Complementary(d) ==> code == if d.forward then FORWARD else BACKWARD
  {
    BoolToInt(d.forward) * FORWARD + BoolToInt(d.backward) * BACKWARD
  }
}
