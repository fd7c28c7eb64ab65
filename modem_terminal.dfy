// drivers/modem/modem_terminal.c: a line editor on the debug UART and the terminal
// loop that passes each line typed to the modem as an AT command.
//
// Each `HAL_UART_Receive` of one byte is an element of the input: its status and the
// byte. The receive waits forever (`HAL_MAX_DELAY`); here the input is finite, and
// running out of it means the call is still waiting. Echoing, `printf` and
// `modem_init` are not part of this model; `modem_send_command`'s result is a parameter.

module ModemTerminal {
  import opened Wrappers
  import opened CInt
  import opened CStr

  /** `HAL_OK` of `HAL_StatusTypeDef`. */
  const HalOk: int := 0

  const InputBufferSize: nat := 128

  /** The line feed and carriage return that end a line. */
  const Lf: u8 := 10
  const Cr: u8 := 13
  /** The two bytes that erase the last character: backspace and DEL. */
  const Bs: u8 := 8
  const Del: u8 := 127

  /** One `HAL_UART_Receive` of one byte: the status it returns and the byte it stored. */
  datatype Rx = Rx(status: int, c: u8)

  /** The bytes stored in the line: ' ' to '~'. */
  predicate Printable(c: u8)
  {
    ' ' as int <= c <= '~' as int
  }

  predicate IsBreak(c: u8)
  {
    c == Cr || c == Lf
  }

  predicate IsErase(c: u8)
  {
    c == Bs || c == Del
  }

  predicate PrintableText(line: seq<char>)
  {
    forall k :: 0 <= k < |line| ==> ' ' <= line[k] <= '~'
  }

  /** What a byte other than a line break does to the line being typed: an erase drops the
    * last character if there is one, a printable byte is appended, anything else is dropped. */
  function Edit(line: seq<char>, c: u8): seq<char>
  {
    if IsErase(c) then (if |line| > 0 then line[..|line| - 1] else line)
    else if Printable(c) then line + [c as char]
    else line
  }

  /** How a call of `read_line_from_debug_uart` ends: the status returned (`None` while it is
    * still waiting for input), the line typed, and how many bytes it received. */
  datatype Outcome = Outcome(status: Option<int>, line: seq<char>, used: nat)

  /** The line editor, from the line typed so far, with room for `cap` characters. */
  function ReadLine(input: seq<Rx>, line: seq<char>, cap: nat): (r: Outcome)
    ensures r.used <= |input|
    ensures |line| < cap && r.status.Some? ==> r.used >= 1
    decreases |input|
  {
    if |line| >= cap then Outcome(Some(HalOk), line, 0)
    else if input == [] then Outcome(None, line, 0)
    else if input[0].status != HalOk then Outcome(Some(input[0].status), line, 1)
    else if IsBreak(input[0].c) then Outcome(Some(HalOk), line, 1)
    else
      var r := ReadLine(input[1..], Edit(line, input[0].c), cap);
      Outcome(r.status, r.line, r.used + 1)
  }

  /** The line never holds more than `cap` characters, all of them printable, and it is
    * complete (`HAL_OK`) unless a receive failed or the input ran out. */
  lemma {:induction false} ReadLineBounds(input: seq<Rx>, line: seq<char>, cap: nat)
    requires |line| <= cap && PrintableText(line)
    ensures var r := ReadLine(input, line, cap);
      |r.line| <= cap && PrintableText(r.line) &&
      (r.status == Some(HalOk) <==>
        (exists k :: 0 <= k < r.used && input[k].status == HalOk && IsBreak(input[k].c)) || |r.line| == cap) &&
      (r.status.Some? && r.status != Some(HalOk) ==> r.used >= 1 && input[r.used - 1].status == r.status.value) &&
      (r.status.None? ==> r.used == |input|)
  {
    if |line| < cap && input != [] && input[0].status == HalOk && !IsBreak(input[0].c) {
      var line' := Edit(line, input[0].c);
      ReadLineBounds(input[1..], line', cap);
      var r, r' := ReadLine(input, line, cap), ReadLine(input[1..], line', cap);
      if r.status == Some(HalOk) && |r.line| < cap {
        var k :| 0 <= k < r'.used && input[1..][k].status == HalOk && IsBreak(input[1..][k].c);
        assert input[k + 1] == input[1..][k];
      }
      if exists k :: 0 <= k < r.used && input[k].status == HalOk && IsBreak(input[k].c) {
        var k :| 0 <= k < r.used && input[k].status == HalOk && IsBreak(input[k].c);
        assert k >= 1 && input[1..][k - 1] == input[k];
      }
      if r.status.Some? && r.status != Some(HalOk) {
        assert input[r.used - 1] == input[1..][r'.used - 1];
      }
    }
  }

  /** The bytes of a text, each received without error. */
  function Typed(text: seq<char>): (input: seq<Rx>)
    requires PrintableText(text)
    ensures |input| == |text|
    ensures forall k :: 0 <= k < |text| ==> input[k] == Rx(HalOk, text[k] as int)
  {
    seq(|text|, k requires 0 <= k < |text| => Rx(HalOk, text[k] as int))
  }

  /** Round trip: a printable text that fits, typed and ended by a line break, is the line read. */
  lemma {:induction false} ReadTypedLine(done: seq<char>, text: seq<char>, cap: nat, rest: seq<Rx>, brk: u8)
    requires PrintableText(text) && PrintableText(done) && |done| + |text| < cap && IsBreak(brk)
    ensures ReadLine(Typed(text) + [Rx(HalOk, brk)] + rest, done, cap) ==
      Outcome(Some(HalOk), done + text, |text| + 1)
    decreases |text|
  {
    var input := Typed(text) + [Rx(HalOk, brk)] + rest;
    if text == [] {
      assert input[0] == Rx(HalOk, brk);
    } else {
      var c := text[0] as int;
      assert input[0] == Rx(HalOk, c) && Printable(c);
      assert Edit(done, c) == done + [text[0]];
      assert input[1..] == Typed(text[1..]) + [Rx(HalOk, brk)] + rest;
      ReadTypedLine(done + [text[0]], text[1..], cap, rest, brk);
      assert done + [text[0]] + text[1..] == done + text;
    }
  }

  /** A text longer than the buffer is cut off when the buffer is full, and nothing after
    * that is received. */
  lemma {:induction false} ReadLongLine(done: seq<char>, text: seq<char>, cap: nat, rest: seq<Rx>)
    requires PrintableText(text) && PrintableText(done) && |done| <= cap <= |done| + |text|
    ensures ReadLine(Typed(text) + rest, done, cap) ==
      Outcome(Some(HalOk), done + text[..cap - |done|], cap - |done|)
    decreases |text|
  {
    var input := Typed(text) + rest;
    if |done| < cap {
      var c := text[0] as int;
      assert input[0] == Rx(HalOk, c) && Printable(c);
      assert Edit(done, c) == done + [text[0]];
      assert input[1..] == Typed(text[1..]) + rest;
      ReadLongLine(done + [text[0]], text[1..], cap, rest);
      assert done + [text[0]] + text[1..][..cap - |done| - 1] == done + text[..cap - |done|];
    } else {
      assert text[..0] == [] && done + [] == done;
    }
  }

  /** `n` erasing bytes. */
  function Erasures(n: nat): (input: seq<Rx>)
    ensures |input| == n && forall k :: 0 <= k < n ==> input[k] == Rx(HalOk, Bs)
  {
    seq(n, k => Rx(HalOk, Bs))
  }

  /** Erasing: `n` backspaces followed by a line break leave the line without its last `n`
    * characters, and no fewer than none. */
  lemma {:induction false} EraseLine(line: seq<char>, n: nat, cap: nat, brk: u8)
    requires |line| < cap && IsBreak(brk)
    ensures ReadLine(Erasures(n) + [Rx(HalOk, brk)], line, cap) ==
      Outcome(Some(HalOk), line[..if n <= |line| then |line| - n else 0], n + 1)
  {
    var input := Erasures(n) + [Rx(HalOk, brk)];
    if n > 0 {
      assert input[0] == Rx(HalOk, Bs);
      assert input[1..] == Erasures(n - 1) + [Rx(HalOk, brk)];
      var line' := Edit(line, Bs);
      EraseLine(line', n - 1, cap, brk);
      if |line| > 0 {
        assert line'[..if n - 1 <= |line'| then |line'| - (n - 1) else 0] ==
               line[..if n <= |line| then |line| - n else 0];
      }
    } else {
      assert input[0] == Rx(HalOk, brk) && line[..|line|] == line;
    }
  }

  /** `read_line_from_debug_uart(buffer, maxLen)`: clears the buffer, then receives bytes into
    * it until a line break, a failed receive, or `maxLen - 1` characters; it NUL-terminates
    * the line unless a receive failed. */
  method ReadLineFromUart(buffer: array<char>, maxLen: int, input: seq<Rx>) returns (status: Option<int>, used: nat)
    requires buffer.Length == maxLen && 1 <= maxLen < 0x1_0000
    modifies buffer
    ensures var r := ReadLine(input, [], maxLen - 1);
      status == r.status && used == r.used && |r.line| < maxLen && buffer[..|r.line|] == r.line &&
      PrintableText(r.line) &&
      (status == Some(HalOk) ==> buffer[|r.line|] == NUL)
    ensures forall k :: 0 <= k < maxLen ==> buffer[k] == NUL || ' ' <= buffer[k] <= '~'
    ensures buffer[maxLen - 1] == NUL
  {
    Memset(buffer);
    ghost var cap: nat := maxLen - 1;
    ghost var line: seq<char> := [];
    var index := 0;
    var i := 0;
    while index < maxLen - 1
      invariant 0 <= i <= |input| && 0 <= index <= cap && |line| == index
      invariant buffer[..index] == line && PrintableText(line)
      invariant forall k :: 0 <= k < maxLen ==> buffer[k] == NUL || ' ' <= buffer[k] <= '~'
      invariant buffer[maxLen - 1] == NUL
      invariant ReadLine(input, [], cap) == ReadLine(input[i..], line, cap).(used := ReadLine(input[i..], line, cap).used + i)
      decreases |input| - i
    {
      if i == |input| {
        assert input[i..] == [];
        return None, i;
      }
      var rx := input[i];
      ReadStep(input, i, line, cap);
      i := i + 1;
      if rx.status != HalOk {
        return Some(rx.status), i;
      }
      if rx.c == Cr || rx.c == Lf {
        buffer[index] := NUL;
        return Some(HalOk), i;
      } else if rx.c == Bs || rx.c == Del {
        if index > 0 {
          index := index - 1;
        }
      } else if ' ' as int <= rx.c <= '~' as int {
        buffer[index] := rx.c as char;
        index := index + 1;
      }
      line := Edit(line, rx.c);
    }
    assert ReadLine(input[i..], line, cap) == Outcome(Some(HalOk), line, 0);
    buffer[index] := NUL;
    return Some(HalOk), i;
  }

  /** One byte received by the line editor, as seen from the `i`-th. */
  lemma ReadStep(input: seq<Rx>, i: nat, line: seq<char>, cap: nat)
    requires i < |input| && |line| < cap
    ensures input[i].status != HalOk ==>
      ReadLine(input[i..], line, cap) == Outcome(Some(input[i].status), line, 1)
    ensures input[i].status == HalOk && IsBreak(input[i].c) ==>
      ReadLine(input[i..], line, cap) == Outcome(Some(HalOk), line, 1)
    ensures input[i].status == HalOk && !IsBreak(input[i].c) ==>
      var r := ReadLine(input[i + 1..], Edit(line, input[i].c), cap);
      ReadLine(input[i..], line, cap) == r.(used := r.used + 1)
  {
    assert input[i..][0] == input[i] && input[i..][1..] == input[i + 1..];
  }

  // ------------------------------------------------------------------ modem_terminal_run

  /** The debug messages the terminal prints about `modem_init` and about each command. */
  datatype Note = InitSucceeded | InitFailed | Sent(command: seq<char>, answered: bool)

  /** The message about `modem_init`'s result, which is 0 when it succeeds. */
  function InitNote(code: u8): (n: Note)
    ensures n == InitSucceeded <==> code == 0
    ensures n == InitSucceeded || n == InitFailed
  {
    if code == 0 then InitSucceeded else InitFailed
  }

  /** As written, `if (modem_init())` takes a non-zero, failing, result for success, so the
    * message is the wrong one for every result and a successful start-up reads as failed. */
  function InitNoteAsWritten(code: u8): (n: Note)
    ensures n != InitNote(code)
    ensures code == 0 ==> n == InitFailed
  {
    if code != 0 then InitSucceeded else InitFailed
  }

  /** The message about a command, given `modem_send_command`'s status, which is 0 when the
    * command was written and answered. */
  function SendNote(command: seq<char>, status: u8): (n: Note)
    ensures n.Sent? && n.command == command
    ensures n.answered <==> status == 0
  {
    if status != 0 then Sent(command, false) else Sent(command, true)
  }

  /** As written, `if (!modem_send_command(...))` reports a failure when the status is 0, so
    * every command's message is the wrong one: a command that was answered is reported as not
    * sent, and its response is not shown. */
  function SendNoteAsWritten(command: seq<char>, status: u8): (n: Note)
    ensures n.Sent? && n.command == command
    ensures n != SendNote(command, status)
    ensures status == 0 ==> n == Sent(command, false)
  {
    if status == 0 then Sent(command, false) else Sent(command, true)
  }

  /** A line break character, as stored in a buffer. */
  predicate BreakChar(c: char)
  {
    c == '\r' || c == '\n'
  }

  /** The text without the line breaks that end it. */
  function Trimmed(t: seq<char>): (r: seq<char>)
    ensures |r| <= |t| && r == t[..|r|]
    ensures r == [] || !BreakChar(r[|r| - 1])
    ensures forall k :: |r| <= k < |t| ==> BreakChar(t[k])
  {
    if t != [] && BreakChar(t[|t| - 1]) then Trimmed(t[..|t| - 1]) else t
  }

  /** Trimming only removes line breaks, which a line read never holds: it changes nothing. */
  lemma TrimmedLine(line: seq<char>)
    requires PrintableText(line)
    ensures Trimmed(line) == line
  {
  }

  /** The trimming loop of `modem_terminal_run`: overwrites the line breaks at the end of the
    * buffer's C string with NULs. */
  method TrimBreaks(buffer: array<char>)
    requires StrLen(buffer[..]) < buffer.Length
    modifies buffer
    ensures Text(buffer[..]) == Trimmed(old(Text(buffer[..])))
    ensures forall k :: 0 <= k < buffer.Length ==>
      buffer[k] == old(buffer[k]) || (buffer[k] == NUL && BreakChar(old(buffer[k])))
  {
    ghost var b0 := buffer[..];
    ghost var t := Text(b0);
    var len := StrLen(buffer[..]);
    assert t[..len] == t;
    while len > 0 && (buffer[len - 1] == '\r' || buffer[len - 1] == '\n')
      invariant 0 <= len <= |t| < buffer.Length
      invariant forall k :: 0 <= k < buffer.Length ==> buffer[k] == if len <= k < |t| then NUL else b0[k]
      invariant Trimmed(t[..len]) == Trimmed(t)
    {
      assert buffer[len - 1] == b0[len - 1] == t[len - 1];
      TrimStep(t, len);
      buffer[len - 1] := NUL;
      len := len - 1;
    }
    TrimEnd(b0, buffer[..], len);
  }

  /** Dropping a line break at the end does not change what trimming leaves. */
  lemma TrimStep(t: seq<char>, len: nat)
    requires 0 < len <= |t| && BreakChar(t[len - 1])
    ensures Trimmed(t[..len - 1]) == Trimmed(t[..len])
  {
    assert t[..len][..len - 1] == t[..len - 1];
  }

  /** The buffer the trimming loop leaves when it stops at `len`. */
  lemma TrimEnd(b0: seq<char>, b: seq<char>, len: nat)
    requires StrLen(b0) < |b0| == |b| && len <= StrLen(b0)
    requires forall k :: 0 <= k < |b| ==> b[k] == if len <= k < StrLen(b0) then NUL else b0[k]
    requires Trimmed(Text(b0)[..len]) == Trimmed(Text(b0))
    requires len == 0 || !BreakChar(b0[len - 1])
    ensures Text(b) == Trimmed(Text(b0))
    ensures forall k :: 0 <= k < |b| ==> b[k] == b0[k] || (b[k] == NUL && BreakChar(b0[k]))
  {
    var t := Text(b0);
    var n := StrLen(b0);
    assert t == b0[..n] && b0[n] == NUL;
    assert len == 0 || t[..len][len - 1] == b0[len - 1];
    assert Trimmed(t[..len]) == t[..len];
    assert forall k :: 0 <= k < len ==> b[k] == t[k];
    assert b[..len] == t[..len];
    assert b[len] == NUL;
    TextOfCopy(b, t[..len]);
    forall k | 0 <= k < |b|
      ensures b[k] == b0[k] || (b[k] == NUL && BreakChar(b0[k]))
    {
      if len <= k < n {
        assert b0[k] == t[k] && BreakChar(t[k]);
      }
    }
  }

  /** What the terminal prints about the commands typed on `input`, `send(c)` being the status
    * `modem_send_command` returns for `c`; and whether "exit" ended it. A line that could not
    * be read, or is empty, is skipped. */
  function Session(input: seq<Rx>, send: seq<char> -> u8): (r: (seq<Note>, bool))
    decreases |input|
  {
    var o := ReadLine(input, [], InputBufferSize - 1);
    if o.status.None? then ([], false)
    else if o.status != Some(HalOk) || o.line == [] then Session(input[o.used..], send)
    else if o.line == "exit" then ([], true)
    else
      var rest := Session(input[o.used..], send);
      ([SendNote(o.line, send(o.line))] + rest.0, rest.1)
  }

  /** The body of `modem_terminal_run`'s loop after a line was read into `buffer`: an empty
    * line is skipped, "exit" stops the terminal, and any other line is trimmed and sent. */
  method HandleLine(buffer: array<char>, ghost line: seq<char>, send: seq<char> -> u8) returns (stop: bool, note: Option<Note>)
    requires |line| < buffer.Length && buffer[..|line|] == line && buffer[|line|] == NUL && PrintableText(line)
    modifies buffer
    ensures stop <==> line == "exit"
    ensures note == if line == [] || stop then None else Some(SendNote(line, send(line)))
  {
    TextOfCopy(buffer[..], line);
    if StrLen(buffer[..]) == 0 {
      return false, None;
    }
    if Text(buffer[..]) == "exit" {
      return true, None;
    }
    TrimBreaks(buffer);
    TrimmedLine(line);
    var command := Text(buffer[..]);
    return false, Some(SendNote(command, send(command)));
  }

  /** `modem_terminal_run`, from `modem_init`'s result `initCode`: reads lines from the debug
    * UART into a 128-byte buffer and sends each one to the modem until "exit" is typed. It
    * returns the messages it prints and whether it stopped; if not, it is still waiting for
    * input. */
  method TerminalRun(initCode: u8, input: seq<Rx>, send: seq<char> -> u8) returns (notes: seq<Note>, exited: bool)
    ensures notes == [InitNote(initCode)] + Session(input, send).0
    ensures exited == Session(input, send).1
  {
    notes := [InitNote(initCode)];
    var buffer := new char[InputBufferSize];
    var rest := input;
    while true
      invariant notes + Session(rest, send).0 == [InitNote(initCode)] + Session(input, send).0
      invariant Session(rest, send).1 == Session(input, send).1
      decreases |rest|
    {
      var status, used := ReadLineFromUart(buffer, InputBufferSize, rest);
      ghost var o := ReadLine(rest, [], InputBufferSize - 1);
      SessionStep(rest, send);
      if status.None? {
        return notes, false;
      }
      rest := rest[used..];
      if status != Some(HalOk) {
        continue;
      }
      var stop, note := HandleLine(buffer, o.line, send);
      if stop {
        return notes, true;
      }
      if note.Some? {
        Append3(notes, [note.value], Session(rest, send).0);
        notes := notes + [note.value];
      }
    }
  }

  /** One turn of the terminal's loop, by the outcome of reading a line. */
  lemma SessionStep(input: seq<Rx>, send: seq<char> -> u8)
    ensures var o := ReadLine(input, [], InputBufferSize - 1);
      var s := Session(input, send);
      (o.status.None? ==> s == ([], false))
      && (o.status.Some? ==> 1 <= o.used && (o.status != Some(HalOk) || o.line == [] ==> s == Session(input[o.used..], send)))
      && (o.status == Some(HalOk) && o.line == "exit" ==> s == ([], true))
      && (o.status == Some(HalOk) && o.line != [] && o.line != "exit" ==>
            s == ([SendNote(o.line, send(o.line))] + Session(input[o.used..], send).0, Session(input[o.used..], send).1))
  {
  }

  lemma Append3<T>(a: seq<T>, b: seq<T>, c: seq<T>)
    ensures a + b + c == a + (b + c)
  {
  }

  /** A command typed and ended by a line break is sent, unless it is "exit", which ends the
    * session. */
  lemma TypedCommand(command: seq<char>, brk: u8, rest: seq<Rx>, send: seq<char> -> u8)
    requires PrintableText(command) && 0 < |command| < InputBufferSize - 1 && IsBreak(brk)
    ensures var s := Session(Typed(command) + [Rx(HalOk, brk)] + rest, send);
      if command == "exit" then s == ([], true)
      else s == ([SendNote(command, send(command))] + Session(rest, send).0, Session(rest, send).1)
  {
    var input := Typed(command) + [Rx(HalOk, brk)] + rest;
    ReadTypedLine([], command, InputBufferSize - 1, rest, brk);
    assert [] + command == command;
    assert input[|command| + 1..] == rest;
  }

  /** Every command sent is a non-empty line of printable characters that fits the buffer,
    * and is not "exit". */
  lemma {:induction false} SessionCommands(input: seq<Rx>, send: seq<char> -> u8)
    ensures forall n <- Session(input, send).0 ::
      n.Sent? && 0 < |n.command| < InputBufferSize && PrintableText(n.command) && n.command != "exit"
    decreases |input|
  {
    var o := ReadLine(input, [], InputBufferSize - 1);
    ReadLineBounds(input, [], InputBufferSize - 1);
    if o.status.Some? {
      SessionCommands(input[o.used..], send);
    }
  }
}
