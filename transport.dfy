/** The serial transport of astrocom/serialport.py: the port object the
    program writes frames to and reads characters from, and the
    module-level sw_write, sw_read and send_cmd built on it. */
module Transport {
  import opened PyText
  import opened Codec

  /** The open serial link as the program sees it: every frame written so
      far, oldest first, and the characters the mount has yet to send. */
  class SerialPort {
    var written: seq<string>
    var incoming: seq<char>

    constructor (script: seq<char>)
      ensures written == [] && incoming == script
    {
      written := [];
      incoming := script;
    }

    /** `srl.write(data)`. */
    method Write(data: string)
      modifies this
      ensures written == old(written) + [data]
      ensures incoming == old(incoming)
    {
      written := written + [data];
    }

    /** `srl.read()`: one character, or nothing once the read timeout elapses. */
    method Read() returns (chunk: string)
      modifies this
      ensures written == old(written)
      ensures old(incoming) == [] ==> chunk == [] && incoming == []
      ensures old(incoming) != [] ==> chunk == [old(incoming)[0]] && incoming == old(incoming)[1..]
    {
      if incoming == [] {
        chunk := [];
      } else {
        chunk := [incoming[0]];
        incoming := incoming[1..];
      }
    }
  }

  /** The reply sw_read assembles from `s`: everything up to and including
      the first carriage return, or all of `s` when there is none. */
  function NextReply(s: seq<char>): (r: string)
    ensures |r| <= |s|
  {
    if s == [] then []
    else if s[0] == '\r' then ['\r']
    else [s[0]] + NextReply(s[1..])
  }

  /** The reply is a prefix of the input, holds no carriage return before
      its last character, and either ends in one or is the whole input. */
  lemma {:induction false} NextReplyShape(s: seq<char>)
    ensures var r := NextReply(s);
      s[..|r|] == r &&
      (forall i :: 0 <= i < |r| - 1 ==> r[i] != '\r') &&
      (r == s || (|r| >= 1 && r[|r| - 1] == '\r'))
    decreases |s|
  {
    if s != [] && s[0] != '\r' {
      NextReplyShape(s[1..]);
      var r := NextReply(s);
      var t := NextReply(s[1..]);
      assert r == [s[0]] + t;
      assert forall i :: 1 <= i < |r| ==> r[i] == t[i - 1];
    }
  }

  /** A reply the mount terminates is read whole, and nothing past it. */
  lemma {:induction false} NextReplyTerminated(body: string, rest: seq<char>)
    requires forall i :: 0 <= i < |body| ==> body[i] != '\r'
    ensures NextReply(body + "\r" + rest) == body + "\r"
    decreases |body|
  {
    if body == [] {
      assert (body + "\r" + rest)[0] == '\r';
    } else {
      assert (body + "\r" + rest)[1..] == body[1..] + "\r" + rest;
      NextReplyTerminated(body[1..], rest);
    }
  }

  /** sw_write. */
  method SwWrite(srl: SerialPort, strng: string)
    modifies srl
    ensures srl.written == old(srl.written) + [Frame(strng)]
    ensures srl.incoming == old(srl.incoming)
  {
    srl.Write(":" + strng + "\r");
  }

  /** sw_read: reads one character at a time until a carriage return
      arrives or the timeout elapses (a read that returns nothing). */
  method SwRead(srl: SerialPort) returns (ans: string)
    modifies srl
    ensures ans == NextReply(old(srl.incoming))
    ensures srl.incoming == old(srl.incoming)[|ans|..]
    ensures srl.written == old(srl.written)
  {
    ans := [];
    var stop := false;
    while !stop
      invariant ans + srl.incoming == old(srl.incoming)
      invariant srl.written == old(srl.written)
      invariant !stop ==> NextReply(old(srl.incoming)) == ans + NextReply(srl.incoming)
      invariant stop ==> ans == NextReply(old(srl.incoming))
      decreases |srl.incoming|, if stop then 0 else 1
    {
      ghost var before := srl.incoming;
      ghost var prefix := ans;
      var chunk := srl.Read();
      ans := ans + chunk;
      if chunk == [] {
        stop := true;
      }
      if |ans| > 0 && ans[|ans| - 1] == '\r' {
        stop := true;
      }
      NextReplyStep(before, prefix, chunk, ans, stop, srl.incoming);
    }
    SuffixAfterPrefix(ans, srl.incoming, old(srl.incoming));
  }

  /** One turn of sw_read's loop keeps the reply assembled so far in step
      with the reply still to come. */
  lemma NextReplyStep(before: seq<char>, prefix: string, chunk: string, ans: string, stop: bool,
                      after: seq<char>)
    requires before == [] ==> chunk == [] && after == []
    requires before != [] ==> chunk == [before[0]] && after == before[1..]
    requires ans == prefix + chunk
    requires stop <==> chunk == [] || (|ans| > 0 && ans[|ans| - 1] == '\r')
    ensures prefix + before == ans + after
    ensures !stop ==> prefix + NextReply(before) == ans + NextReply(after)
    ensures stop ==> prefix + NextReply(before) == ans
  {
    if before == [] {
      assert prefix + NextReply(before) == prefix;
    } else {
      ReadOneChar(before, prefix, before[0], after);
    }
  }

  /** Reading the character `c` off the front of `before`. */
  lemma ReadOneChar(before: seq<char>, prefix: string, c: char, after: seq<char>)
    requires before != [] && c == before[0] && after == before[1..]
    ensures prefix + before == (prefix + [c]) + after
    ensures (prefix + [c])[|prefix|] == c
    ensures c == '\r' ==> prefix + NextReply(before) == prefix + [c]
    ensures c != '\r' ==> prefix + NextReply(before) == (prefix + [c]) + NextReply(after)
  {
    assert before == [c] + after;
    if c != '\r' {
      assert NextReply(before) == [c] + NextReply(after);
    }
  }

  lemma SuffixAfterPrefix(a: seq<char>, b: seq<char>, c: seq<char>)
    requires a + b == c
    ensures b == c[|a|..]
  {
  }

  /** What one send_cmd call does, seen from outside: the frames it writes,
      the result it returns and the input it leaves unread. */
  datatype Exchange = Exchange(frames: seq<string>, result: Result<string>, rest: seq<char>)

  predicate ValidAxis(axis: int) {
    axis == 1 || axis == 2 || axis == 3
  }

  function SendSpec(letter: char, axis: int, payload: string, incoming: seq<char>): (e: Exchange)
    ensures e.result.Ok? ==> !HasError(e.result.value) && |e.result.value| >= 1
  {
    if ValidAxis(axis) then
      var reply := NextReply(incoming);
      Exchange([Frame([letter] + IntToString(axis) + payload)],
               if HasError(reply) then Err(DeviceError(reply)) else Ok(reply),
               incoming[|reply|..])
    else
      Exchange([], Err(InvalidAxis), incoming)
  }

  /** send_cmd: an axis outside [1, 2, 3] is refused before anything is
      written; otherwise one framed command goes out and one reply comes back. */
  method SendCmd(srl: SerialPort, cmdLetter: char, axisInt: int, cmdString: string)
    returns (r: Result<string>)
    modifies srl
    ensures var e := SendSpec(cmdLetter, axisInt, cmdString, old(srl.incoming));
      srl.written == old(srl.written) + e.frames && srl.incoming == e.rest && r == e.result
  {
    if axisInt in [1, 2, 3] {
      SwWrite(srl, [cmdLetter] + IntToString(axisInt) + cmdString);
      var ans := SwRead(srl);
      if HasError(ans) {
        return Err(DeviceError(ans));
      }
      return Ok(ans);
    } else {
      return Err(InvalidAxis);
    }
  }

  // ---------------------------------------------------------------------------
  // What send_cmd promises

  /** An invalid axis writes nothing and consumes nothing. */
  lemma SendInvalidAxis(letter: char, axis: int, payload: string, incoming: seq<char>)
    requires !ValidAxis(axis)
    ensures SendSpec(letter, axis, payload, incoming) == Exchange([], Err(InvalidAxis), incoming)
  {
  }

  /** A valid axis writes exactly the frame ':' + letter + axis digit +
      payload + '\r', consumes one reply, and returns that reply iff it
      carries no error. */
  lemma {:induction false} SendValidAxis(letter: char, axis: int, payload: string, incoming: seq<char>)
    requires ValidAxis(axis)
    ensures var e := SendSpec(letter, axis, payload, incoming);
      var reply := NextReply(incoming);
      e.frames == [[':', letter, DigitChar(axis)] + payload + "\r"] &&
      incoming == reply + e.rest &&
      (e.result.Ok? <==> !HasError(reply)) &&
      (e.result.Ok? ==> e.result.value == reply) &&
      (e.result.Err? ==> e.result == Err(DeviceError(reply)))
  {
    assert IntToString(axis) == [DigitChar(axis)];
    assert Frame([letter] + [DigitChar(axis)] + payload) == [':', letter, DigitChar(axis)] + payload + "\r";
    NextReplyShape(incoming);
    assert incoming == NextReply(incoming) + incoming[|NextReply(incoming)|..];
  }

  /** A terminated error reply from the board comes back as a device error.
      send_cmd logs it as UNKNOWN_ERROR, whatever the code; the corrected
      naming would give the code's table entry. */
  lemma {:induction false} SendDeviceError(letter: char, axis: int, payload: string, code: string, rest: seq<char>)
    requires ValidAxis(axis) && code in SwError
    ensures var e := SendSpec(letter, axis, payload, "!" + code + "\r" + rest);
      e.result == Err(DeviceError("!" + code + "\r")) &&
      Message(e.result.error) == "UNKNOWN_ERROR" &&
      ReplyErrorName(e.result.error.reply) == SwError[code] &&
      e.rest == rest
  {
    SwErrorKeys(code);
    NextReplyTerminated("!" + code, rest);
    ReplyErrorNameOfCode(code);
    ErrorToStrTerminated("!" + code + "\r");
  }
}
