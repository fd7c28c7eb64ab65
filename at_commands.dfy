// drivers/modem/at_commands.c: building the AT commands the RC7620 modem is sent,
// checking their arguments, and reading the modem's replies.
//
// `modem_send_command` is not modelled: each operation takes its return status and
// the C string the reply buffer holds, and, where a command is sent, says which.

module AtCommands {
  import opened Wrappers
  import opened CInt
  import opened CStr
  import opened CLib
  import Errno

  /** The result of a command whose reply carries a value: the value, or the error returned. */
  datatype Answer<T> = Failed(code: int) | Done(value: T)

  /** A command that is only acknowledged: the command sent, if one was, and the return code. */
  datatype Exchange = Exchange(sent: Option<seq<char>>, code: int)

  /** `modem_check_response_ok`: "OK" appears somewhere in the reply. */
  predicate ResponseOk(reply: seq<char>)
  {
    Contains(reply, "OK")
  }

  /** The check every set command ends with: 0 when the send succeeded and the reply
    * holds "OK", `EBADMSG` otherwise. */
  function Acknowledged(status: int, reply: seq<char>): (code: int)
    ensures code == 0 <==> status == 0 && ResponseOk(reply)
    ensures code == 0 || code == Errno.EBADMSG
  {
    if status != 0 || !ResponseOk(reply) then Errno.EBADMSG else 0
  }

  /** An information or result line in the verbose format of section 5.7.1 of ITU-T V.250. */
  function Verbose(line: seq<char>): seq<char>
  {
    "\r\n" + line + "\r\n"
  }

  /** A reply ending in the final result "OK". */
  lemma OkReplyAcknowledged(body: seq<char>)
    ensures ResponseOk(body + Verbose("OK"))
  {
    ContainsAt(Verbose("OK"), "OK", 2);
    ContainsInTail(body, Verbose("OK"), "OK");
  }

  // ------------------------------------------------------------ +CFUN (27.007 8.2)

  /** The `enum FunctionModes` values the RC7620 defines: minimum, full, airplane,
    * factory test, reset and offline. */
  const FunctionModes: set<int> := {0, 1, 4, 5, 6, 7}

  /** `at_set_function_mode`: an undefined mode is refused before anything is sent. */
  function SetFunctionMode(mode: int, status: int, reply: seq<char>): (e: Exchange)
    ensures e.sent.None? <==> mode !in FunctionModes
    ensures e.sent.None? ==> e.code == Errno.EINVAL
    ensures e.sent.Some? ==> |e.sent.value| < 10 && e.code == Acknowledged(status, reply)
  {
    if mode !in FunctionModes then Exchange(None, Errno.EINVAL)
    else Exchange(Some("AT+CFUN=" + Decimal(mode)), Acknowledged(status, reply))
  }

  /** The modem reads the requested mode back out of the command. */
  lemma FunctionModeReadBack(mode: int, status: int, reply: seq<char>)
    requires mode in FunctionModes
    ensures var cmd := SetFunctionMode(mode, status, reply).sent.value;
            Scan(Format("AT+CFUN=") + [Int], cmd) == Scanned([IntVal(mode)], false)
  {
    ScanFormat("AT+CFUN=", [Int], Decimal(mode));
    ScanInt([], mode, []);
    assert [Int] + [] == [Int] && Decimal(mode) + [] == Decimal(mode);
  }

  // ------------------------------------------ string parameters of a set command

  /** The number of characters before the next double quote. */
  function QuoteRun(s: seq<char>): (n: nat)
    ensures n <= |s| && forall i :: 0 <= i < n ==> s[i] != '"'
    ensures n < |s| ==> s[n] == '"'
  {
    if s != [] && s[0] != '"' then 1 + QuoteRun(s[1..]) else 0
  }

  lemma {:induction false} QuoteRunOf(p: seq<char>, rest: seq<char>)
    requires '"' !in p
    ensures QuoteRun(p + ['"'] + rest) == |p|
  {
    if p != [] {
      assert (p + ['"'] + rest)[1..] == p[1..] + ['"'] + rest;
      QuoteRunOf(p[1..], rest);
    }
  }

  /** A list of string constants separated by commas, as the parameters of an
    * extended-syntax set command are written (section 5.4.2.1 of ITU-T V.250); `None`
    * when the text is not such a list. */
  function Strings(s: seq<char>): Option<seq<seq<char>>>
    decreases |s|
  {
    if s == [] || s[0] != '"' then None
    else
      var n := QuoteRun(s[1..]);
      if n + 1 == |s| then None
      else
        var p, rest := s[1..n + 1], s[n + 2..];
        if rest == [] then Some([p])
        else if rest[0] != ',' then None
        else (match Strings(rest[1..])
          case None => None
          case Some(ps) => Some([p] + ps))
  }

  /** The string parameters of the set command `name=...`. */
  function Parameters(name: seq<char>, cmd: seq<char>): Option<seq<seq<char>>>
  {
    if name <= cmd then Strings(cmd[|name|..]) else None
  }

  function Quoted(p: seq<char>): seq<char>
  {
    ['"'] + p + ['"']
  }

  /** A quoted string followed by `rest`: the string, then whatever `rest` allows. */
  lemma StringsOfQuoted(p: seq<char>, rest: seq<char>)
    requires '"' !in p
    ensures rest == [] ==> Strings(Quoted(p) + rest) == Some([p])
    ensures rest != [] && rest[0] != ',' ==> Strings(Quoted(p) + rest) == None
    ensures rest != [] && rest[0] == ',' ==>
              Strings(Quoted(p) + rest) == (match Strings(rest[1..]) case None => None case Some(ps) => Some([p] + ps))
  {
    QuotedParts(p, rest);
  }

  /** How `Strings` sees a quoted string followed by `rest`. */
  lemma QuotedParts(p: seq<char>, rest: seq<char>)
    requires '"' !in p
    ensures var s := Quoted(p) + rest;
      s != [] && s[0] == '"' && QuoteRun(s[1..]) == |p| && |p| + 2 <= |s| &&
      s[1..|p| + 1] == p && s[|p| + 2..] == rest
  {
    var s := Quoted(p) + rest;
    assert s[1..] == p + ['"'] + rest;
    QuoteRunOf(p, rest);
    assert s[1..|p| + 1] == p && s[|p| + 2..] == rest;
  }

  lemma StringsOfOne(p: seq<char>)
    requires '"' !in p
    ensures Strings(Quoted(p)) == Some([p])
  {
    StringsOfQuoted(p, []);
    assert Quoted(p) + [] == Quoted(p);
  }

  lemma ParametersOf(name: seq<char>, tail: seq<char>)
    ensures Parameters(name, name + tail) == Strings(tail)
  {
    assert (name + tail)[..|name|] == name && (name + tail)[|name|..] == tail;
  }

  // ------------------------------------------------------------ +CSCS (27.007 5.5)

  /** `at_select_char_set`: a character set name longer than six characters is refused. */
  function SelectCharSet(chset: seq<char>, status: int, reply: seq<char>): (e: Exchange)
    ensures e.sent.None? <==> |chset| > 6
    ensures e.sent.None? ==> e.code == Errno.EINVAL
    ensures e.sent.Some? ==> |e.sent.value| < 24 && e.code == Acknowledged(status, reply)
  {
    if |chset| > 6 then Exchange(None, Errno.EINVAL)
    else Exchange(Some("AT+CSCS=" + Quoted(chset)), Acknowledged(status, reply))
  }

  /** The modem reads the character set back as the one string parameter. */
  lemma CharSetReadBack(chset: seq<char>, status: int, reply: seq<char>)
    requires |chset| <= 6 && '"' !in chset
    ensures Parameters("AT+CSCS=", SelectCharSet(chset, status, reply).sent.value) == Some([chset])
  {
    ParametersOf("AT+CSCS=", Quoted(chset));
    StringsOfOne(chset);
  }

  // ------------------------------------------------------------ +CPBS (27.007 8.11)

  /** The checks of `at_select_phonebook_memory`: a two-character storage name and a
    * password, if there is one, of at most eight characters. */
  predicate PhonebookArgsOk(storage: seq<char>, password: Option<seq<char>>)
  {
    |storage| == 2 && (password.Some? ==> |password.value| <= 8)
  }

  /** `at_select_phonebook_memory` as written: the password is appended straight after
    * the quoted storage name. */
  function SelectPhonebookMemoryAsWritten(storage: seq<char>, password: Option<seq<char>>, status: int, reply: seq<char>): (e: Exchange)
    ensures e.sent.None? <==> !PhonebookArgsOk(storage, password)
    ensures e.sent.None? ==> e.code == Errno.EINVAL
    ensures e.sent.Some? ==> |e.sent.value| < 24 && e.code == Acknowledged(status, reply)
  {
    if !PhonebookArgsOk(storage, password) then Exchange(None, Errno.EINVAL)
    else
      var pw := if password.Some? then password.value else "";
      Exchange(Some("AT+CPBS=" + (Quoted(storage) + pw)), Acknowledged(status, reply))
  }

  /** As written, a command with a password is not a parameter list the modem can read. */
  lemma PhonebookPasswordUnreadable(storage: seq<char>, password: seq<char>, status: int, reply: seq<char>)
    requires |storage| == 2 && '"' !in storage
    requires 1 <= |password| <= 8 && password[0] != ','
    ensures var cmd := SelectPhonebookMemoryAsWritten(storage, Some(password), status, reply).sent.value;
            Parameters("AT+CPBS=", cmd) == None
  {
    ParametersOf("AT+CPBS=", Quoted(storage) + password);
    StringsOfQuoted(storage, password);
  }

  /** `at_select_phonebook_memory` with the password sent as the second parameter,
    * `+CPBS=<storage>[,<password>]`. */
  function SelectPhonebookMemory(storage: seq<char>, password: Option<seq<char>>, status: int, reply: seq<char>): (e: Exchange)
    ensures e.sent.None? <==> !PhonebookArgsOk(storage, password)
    ensures e.sent.None? ==> e.code == Errno.EINVAL
    ensures e.sent.Some? ==> |e.sent.value| < 24 && e.code == Acknowledged(status, reply)
  {
    if !PhonebookArgsOk(storage, password) then Exchange(None, Errno.EINVAL)
    else
      var pw := if password.Some? then [','] + Quoted(password.value) else "";
      Exchange(Some("AT+CPBS=" + (Quoted(storage) + pw)), Acknowledged(status, reply))
  }

  /** Without a password the modem reads back the storage alone. */
  lemma PhonebookReadBack(storage: seq<char>, status: int, reply: seq<char>)
    requires |storage| == 2 && '"' !in storage
    ensures var cmd := SelectPhonebookMemory(storage, None, status, reply).sent.value;
            Parameters("AT+CPBS=", cmd) == Some([storage])
  {
    assert Quoted(storage) + "" == Quoted(storage);
    ParametersOf("AT+CPBS=", Quoted(storage));
    StringsOfOne(storage);
  }

  /** With a password the modem reads back the storage and then the password. */
  lemma PhonebookPasswordReadBack(storage: seq<char>, password: seq<char>, status: int, reply: seq<char>)
    requires |storage| == 2 && '"' !in storage
    requires |password| <= 8 && '"' !in password
    ensures var cmd := SelectPhonebookMemory(storage, Some(password), status, reply).sent.value;
            Parameters("AT+CPBS=", cmd) == Some([storage, password])
  {
    var pw := [','] + Quoted(password);
    ParametersOf("AT+CPBS=", Quoted(storage) + pw);
    StringsOfQuoted(storage, pw);
    assert pw[0] == ',' && pw[1..] == Quoted(password);
    StringsOfOne(password);
    assert [storage] + [password] == [storage, password];
  }

  // ------------------------------------------------------------- +CSQ (27.007 8.5)

  datatype Signal = Signal(rssi: int, ber: u8)

  /** The RSSI index in dBm: 0 stands for -113 dBm and each step is 2 dB; 99, "not
    * known", reads as 0. The result always fits the `int16_t` it is stored in. */
  function RssiToDb(v: u8): (db: int)
    ensures v == 99 ==> db == 0
    ensures v != 99 ==> db == 2 * v - 113
    ensures -113 <= db <= 397
  {
    if v != 99 then v * 2 - 113 else 0
  }

  /** The indices 0 to 31 cover -113 to -51 dBm, two dB apart. */
  lemma RssiScale(a: u8, b: u8)
    requires a <= 31 && b <= 31
    ensures RssiToDb(a) - RssiToDb(b) == 2 * (a - b)
    ensures -113 <= RssiToDb(a) <= -51
  {
  }

  /** `%hhd` into a `uint8_t`: the value cut to eight bits. */
  function ByteOf(f: Field): u8
  {
    if f.IntVal? then ToU8(f.i) else 0
  }

  /** The format `at_get_signal_strength` hands to `sscanf`. */
  const CsqFormatAsWritten: seq<Directive> := Format("AT+CSQ: ") + [Int] + Format(",") + [Int]

  /** The reply the command expects, with its leading line break skipped. */
  const CsqFormat: seq<Directive> := Format(" +CSQ: ") + [Int] + Format(",") + [Int]

  /** `at_get_signal_strength`, reading the reply with the format `fmt`. */
  function SignalStrength(fmt: seq<Directive>, status: int, reply: seq<char>): (r: Answer<Signal>)
    ensures r.Failed? <==> Acknowledged(status, reply) != 0 || Matches(fmt, reply) != 2
    ensures r.Failed? ==> r.code == Errno.EBADMSG
  {
    if Acknowledged(status, reply) != 0 || Matches(fmt, reply) != 2 then Failed(Errno.EBADMSG)
    else
      var v := Scan(fmt, reply).values;
      Done(Signal(RssiToDb(ByteOf(v[0])), ByteOf(v[1])))
  }

  /** `at_get_signal_strength` as written: only a reply that starts with 'A' can match its format. */
  function GetSignalStrengthAsWritten(status: int, reply: seq<char>): (r: Answer<Signal>)
    ensures r.Failed? ==> r.code == Errno.EBADMSG
    ensures r.Done? ==> Acknowledged(status, reply) == 0 && reply != [] && reply[0] == 'A'
  {
    assert CsqFormatAsWritten[0] == Lit('A');
    SignalStrength(CsqFormatAsWritten, status, reply)
  }

  /** `at_get_signal_strength` with the format that skips the reply's leading line break. */
  function GetSignalStrength(status: int, reply: seq<char>): (r: Answer<Signal>)
    ensures r.Failed? ==> r.code == Errno.EBADMSG
    ensures r.Done? ==> Acknowledged(status, reply) == 0 && Matches(CsqFormat, reply) == 2
    ensures r.Done? ==> -113 <= r.value.rssi <= 397
  {
    SignalStrength(CsqFormat, status, reply)
  }

  /** The reply to `AT+CSQ` with echo off (section 8.5 of 3GPP TS 27.007). */
  function CsqReply(rssi: nat, ber: nat): seq<char>
  {
    Verbose("+CSQ: " + Decimal(rssi) + "," + Decimal(ber)) + Verbose("OK")
  }

  /** As written, the format wants the reply to start with "AT": a reply that starts
    * with anything else, such as the line break of every information response, fails. */
  lemma SignalStrengthAsWrittenRejects(status: int, reply: seq<char>)
    requires reply != [] && reply[0] != 'A'
    ensures GetSignalStrengthAsWritten(status, reply) == Failed(Errno.EBADMSG)
  {
    assert CsqFormatAsWritten[0] == Lit('A');
  }

  lemma SignalStrengthAsWrittenRejectsReply(rssi: nat, ber: nat)
    ensures GetSignalStrengthAsWritten(0, CsqReply(rssi, ber)) == Failed(Errno.EBADMSG)
  {
    SignalStrengthAsWrittenRejects(0, CsqReply(rssi, ber));
  }

  lemma CsqFormatShape()
    ensures CsqFormat == [Space] + (Format("+CSQ:") + ([Space] + ([Int] + (Format(",") + [Int]))))
  {
  }

  lemma CsqReplyShape(rssi: nat, ber: nat)
    ensures CsqReply(rssi, ber) == "\r\n" + ("+CSQ:" + (" " + (Decimal(rssi) + ("," + (Decimal(ber) + "\r\n\r\nOK\r\n")))))
  {
  }

  /** The reply to `AT+CSQ` reads back as the signal it reports. */
  lemma SignalStrengthReadBack(rssi: nat, ber: nat)
    requires rssi < 0x100 && ber < 0x100
    ensures GetSignalStrength(0, CsqReply(rssi, ber)) == Done(Signal(RssiToDb(rssi), ber))
  {
    OkReplyAcknowledged(Verbose("+CSQ: " + Decimal(rssi) + "," + Decimal(ber)));
    CsqScan(rssi, ber);
  }

  lemma CsqScan(rssi: nat, ber: nat)
    ensures Scan(CsqFormat, CsqReply(rssi, ber)) == Scanned([IntVal(rssi), IntVal(ber)], false)
  {
    CsqScanHead(rssi, ber);
    CsqScanValues(rssi, ber);
  }

  /** The values after "+CSQ: ": `%hhd,%hhd`. */
  lemma CsqScanValues(rssi: nat, ber: nat)
    ensures Scan([Int] + (Format(",") + [Int]), Decimal(rssi) + ("," + (Decimal(ber) + "\r\n\r\nOK\r\n")))
         == Scanned([IntVal(rssi), IntVal(ber)], false)
  {
    var tail := "\r\n\r\nOK\r\n";
    ScanInt(Format(",") + [Int], rssi, "," + (Decimal(ber) + tail));
    ScanFormat(",", [Int], Decimal(ber) + tail);
    ScanInt([], ber, tail);
    assert [Int] + [] == [Int];
  }

  /** The line break, "+CSQ:" and the space before the values. */
  lemma CsqScanHead(rssi: nat, ber: nat)
    ensures Scan(CsqFormat, CsqReply(rssi, ber))
         == Scan([Int] + (Format(",") + [Int]), Decimal(rssi) + ("," + (Decimal(ber) + "\r\n\r\nOK\r\n")))
  {
    var f3 := [Int] + (Format(",") + [Int]);
    var s3 := Decimal(rssi) + ("," + (Decimal(ber) + "\r\n\r\nOK\r\n"));
    ScanSpace(Format("+CSQ:") + ([Space] + f3), "\r\n", "+CSQ:" + (" " + s3));
    ScanFormat("+CSQ:", [Space] + f3, " " + s3);
    ScanSpace(f3, " ", s3);
    CsqFormatShape();
    CsqReplyShape(rssi, ber);
  }

  // ------------------------------------------------------------ +CCLK (27.007 8.15)

  /** The date and time fields `at_get_clock` fills, each an `uint8_t`. */
  datatype Clock = Clock(year: u8, month: u8, day: u8, hours: u8, minutes: u8, seconds: u8)

  /** What `at_get_clock` returns when the reply lacks "OK". */
  const ClockNotOk: int := 52

  /** The size of the reply buffer of `at_get_clock`. */
  const ClockReplySize: int := 100

  /** The index of the first double quote, or the length when there is none. */
  function QuotePos(t: seq<char>): (q: nat)
    ensures q <= |t| && '"' !in t[..q]
    ensures q < |t| ==> t[q] == '"'
  {
    QuoteRun(t)
  }

  /** Where `at_get_clock` starts reading: just after the first double quote, or at the
    * terminating NUL when there is none. */
  function ClockStart(t: seq<char>): (p: nat)
    ensures p <= |t|
  {
    if QuotePos(t) < |t| then QuotePos(t) + 1 else |t|
  }

  /** The offsets from the start of the six fields of "yy/MM/dd,hh:mm:ss". */
  const FieldOffsets: seq<nat> := [0, 3, 6, 9, 12, 15]

  /** Where `at_get_clock` as written calls `atoi`: six places past the first quote. */
  function ClockReadsAsWritten(t: seq<char>): (at: seq<int>)
    ensures |at| == 6 && forall k :: 0 <= k < 6 ==> at[k] == ClockStart(t) + FieldOffsets[k]
  {
    seq(6, k requires 0 <= k < 6 => ClockStart(t) + FieldOffsets[k])
  }

  /** The checks `at_get_clock` makes before it reads the fields. */
  predicate ClockChecksPass(status: int, reply: seq<char>)
  {
    ResponseOk(reply) && status == 0 && |reply| >= 26
  }

  /** As written: a reply that holds "OK", no double quote and 99 characters (as many as the
    * buffer takes) passes every check, and `atoi` then reads past the end of the buffer. */
  lemma ClockReadsPastBuffer()
    ensures var reply := "OK" + seq(97, _ => 'x');
            NoNul(reply) && |reply| == ClockReplySize - 1 && ClockChecksPass(0, reply)
            && ClockReadsAsWritten(reply)[1] >= ClockReplySize
  {
    var reply := "OK" + seq(97, _ => 'x');
    assert reply[0..2] == "OK";
    ContainsAt(reply, "OK", 0);
    assert '"' !in reply;
  }

  /** One field: `atoi` at index `at`, stored in an `uint8_t`. */
  function FieldAt(t: seq<char>, at: nat): u8
    requires at <= |t|
  {
    ToU8(Atoi(t[at..]))
  }

  /** `at_get_clock`, with the reads kept inside the reply: the fields are read only when a
    * double quote is followed by the 17 characters of "yy/MM/dd,hh:mm:ss". */
  function GetClock(status: int, reply: seq<char>): (r: Answer<Clock>)
    ensures !ResponseOk(reply) ==> r == Failed(ClockNotOk)
    ensures ResponseOk(reply) && (status != 0 || |reply| < 26) ==> r == Failed(Errno.EBADMSG)
    ensures r.Done? ==> ClockChecksPass(status, reply) && QuotePos(reply) < |reply|
                        && ClockStart(reply) + 17 <= |reply|
  {
    if !ResponseOk(reply) then Failed(ClockNotOk)
    else if status != 0 || |reply| < 26 then Failed(Errno.EBADMSG)
    else if QuotePos(reply) == |reply| || ClockStart(reply) + 17 > |reply| then Failed(Errno.EBADMSG)
    else
      var p := ClockStart(reply);
      Done(Clock(FieldAt(reply, p), FieldAt(reply, p + 3), FieldAt(reply, p + 6),
                 FieldAt(reply, p + 9), FieldAt(reply, p + 12), FieldAt(reply, p + 15)))
  }

  /** A clock whose fields print with two digits each. */
  predicate TwoDigitClock(c: Clock)
  {
    c.year < 100 && c.month < 100 && c.day < 100 && c.hours < 100 && c.minutes < 100 && c.seconds < 100
  }

  /** "yy/MM/dd,hh:mm:ss". */
  function Stamp(c: Clock): (s: seq<char>)
    requires TwoDigitClock(c)
    ensures |s| == 17
  {
    TwoDigits(c.year) + "/" + TwoDigits(c.month) + "/" + TwoDigits(c.day) + ","
      + TwoDigits(c.hours) + ":" + TwoDigits(c.minutes) + ":" + TwoDigits(c.seconds)
  }

  /** Field `k` of a clock. */
  function Field(c: Clock, k: nat): u8
    requires k < 6
  {
    [c.year, c.month, c.day, c.hours, c.minutes, c.seconds][k]
  }

  /** Each field sits at its offset in the stamp, followed by a separator or the end. */
  lemma StampLayout(c: Clock, k: nat)
    requires TwoDigitClock(c) && k < 6
    ensures Stamp(c)[FieldOffsets[k]..FieldOffsets[k] + 2] == TwoDigits(Field(c, k))
    ensures k < 5 ==> !IsDigit(Stamp(c)[FieldOffsets[k] + 2])
  {
  }

  /** The reply to `AT+CCLK?` with echo off, its time zone written as a sign and two digits. */
  function CclkReply(c: Clock, zone: seq<char>): seq<char>
    requires TwoDigitClock(c)
  {
    Verbose("+CCLK: " + Quoted(Stamp(c) + zone)) + Verbose("OK")
  }

  /** `atoi` at a two-digit field of the reply. */
  lemma FieldAtTwoDigits(t: seq<char>, at: nat, n: nat)
    requires n < 100 && at + 2 < |t|
    requires t[at..at + 2] == TwoDigits(n) && !IsDigit(t[at + 2])
    ensures FieldAt(t, at) == n
  {
    assert t[at..] == TwoDigits(n) + t[at + 2..];
    AtoiOfTwoDigits(n, t[at + 2..]);
  }

  /** The reply to `AT+CCLK?` reads back as the date and time it reports. */
  lemma ClockReadBack(c: Clock, sign: char, zone: nat)
    requires TwoDigitClock(c) && (sign == '+' || sign == '-') && zone < 100
    ensures GetClock(0, CclkReply(c, [sign] + TwoDigits(zone))) == Done(c)
  {
    var tz := [sign] + TwoDigits(zone);
    OkReplyAcknowledged(Verbose("+CCLK: " + Quoted(Stamp(c) + tz)));
    CclkReplyShape(c, tz);
    ClockOf(c, tz + "\"\r\n\r\nOK\r\n");
  }

  /** A quoted stamp after "+CCLK: " and before a non-digit reads back as its clock. */
  lemma ClockOf(c: Clock, tail: seq<char>)
    requires TwoDigitClock(c) && tail != [] && !IsDigit(tail[0])
    requires ResponseOk("\r\n+CCLK: \"" + (Stamp(c) + tail))
    ensures GetClock(0, "\r\n+CCLK: \"" + (Stamp(c) + tail)) == Done(c)
  {
    var t := "\r\n+CCLK: \"" + (Stamp(c) + tail);
    assert t == "\r\n+CCLK: " + ['"'] + (Stamp(c) + tail);
    QuoteRunOf("\r\n+CCLK: ", Stamp(c) + tail);
    assert ClockStart(t) == 10;
    ClockFieldReadBack(c, tail, 0);
    ClockFieldReadBack(c, tail, 1);
    ClockFieldReadBack(c, tail, 2);
    ClockFieldReadBack(c, tail, 3);
    ClockFieldReadBack(c, tail, 4);
    ClockFieldReadBack(c, tail, 5);
  }

  lemma CclkReplyShape(c: Clock, tz: seq<char>)
    requires TwoDigitClock(c)
    ensures CclkReply(c, tz) == "\r\n+CCLK: \"" + (Stamp(c) + (tz + "\"\r\n\r\nOK\r\n"))
  {
  }

  /** Field `k` of the stamp reads back from the reply. */
  lemma ClockFieldReadBack(c: Clock, tail: seq<char>, k: nat)
    requires TwoDigitClock(c) && k < 6
    requires tail != [] && !IsDigit(tail[0])
    ensures FieldAt("\r\n+CCLK: \"" + (Stamp(c) + tail), 10 + FieldOffsets[k]) == Field(c, k)
  {
    var t := "\r\n+CCLK: \"" + (Stamp(c) + tail);
    var at := 10 + FieldOffsets[k];
    StampLayout(c, k);
    assert t[at..at + 2] == Stamp(c)[FieldOffsets[k]..FieldOffsets[k] + 2];
    assert t[at + 2] == if k < 5 then Stamp(c)[FieldOffsets[k] + 2] else tail[0];
    FieldAtTwoDigits(t, at, Field(c, k));
  }

  // ------------------------------------------ dial and answer (V.250 6.3.1 and 5.7)

  /** The numeric result codes of section 5.7.1 of ITU-T V.250, as `enum ATV0ResultCodes` has them;
    * the dial and answer code assigns them under an `ATV0_` prefix that no header defines. */
  const Ok: int := 0
  const Connect: int := 1
  const NoCarrier: int := 3
  const Error: int := 4
  const NoDialtone: int := 6
  const Busy: int := 7
  const NoAnswer: int := 8

  /** A result word the reply is searched for, and the code it stands for. */
  datatype ResultWord = ResultWord(word: seq<char>, code: int)

  /** The words `at_call_dial` looks for, in the order it looks, as written: the
    * "no dial tone" result is spelt "NO DAILTONE". */
  const DialWordsAsWritten: seq<ResultWord> :=
    [ResultWord("CONNECT", Connect), ResultWord("NO CARRIER", NoCarrier), ResultWord("ERROR", Error),
     ResultWord("BUSY", Busy), ResultWord("NO ANSWER", NoAnswer), ResultWord("NO DAILTONE", NoDialtone),
     ResultWord("OK", Ok)]

  /** The same words with "NO DIALTONE" spelt as section 5.7.1 of ITU-T V.250 spells it. */
  const DialWords: seq<ResultWord> :=
    [ResultWord("CONNECT", Connect), ResultWord("NO CARRIER", NoCarrier), ResultWord("ERROR", Error),
     ResultWord("BUSY", Busy), ResultWord("NO ANSWER", NoAnswer), ResultWord("NO DIALTONE", NoDialtone),
     ResultWord("OK", Ok)]

  /** The words `at_call_answer` looks for, in order. */
  const AnswerWords: seq<ResultWord> :=
    [ResultWord("CONNECT", Connect), ResultWord("NO CARRIER", NoCarrier), ResultWord("ERROR", Error),
     ResultWord("OK", Ok)]

  /** The first word of the table that occurs in the reply, or the table's length when none does. */
  function FirstMatch(reply: seq<char>, words: seq<ResultWord>): (i: nat)
    ensures i <= |words|
    ensures i < |words| ==> Contains(reply, words[i].word)
    ensures forall j :: 0 <= j < i ==> !Contains(reply, words[j].word)
  {
    if words == [] then 0
    else if Contains(reply, words[0].word) then 0
    else 1 + FirstMatch(reply, words[1..])
  }

  /** The first-match search is pinned down by where the first occurring word is. */
  lemma FirstMatchAt(reply: seq<char>, words: seq<ResultWord>, i: nat)
    requires i <= |words|
    requires i < |words| ==> Contains(reply, words[i].word)
    requires forall j :: 0 <= j < i ==> !Contains(reply, words[j].word)
    ensures FirstMatch(reply, words) == i
  {
  }

  /** The `strstr` if-chain of `at_call_dial` and `at_call_answer`: a failed send, or a
    * reply holding none of the words, is `EBADMSG`; otherwise the code of the first word
    * found. */
  function Classify(status: int, reply: seq<char>, words: seq<ResultWord>): (r: Answer<int>)
    ensures r.Failed? <==> status != 0 || FirstMatch(reply, words) == |words|
    ensures r.Failed? ==> r.code == Errno.EBADMSG
    ensures r.Done? ==> r.value == words[FirstMatch(reply, words)].code
    ensures r.Done? <==> status == 0 && exists k :: 0 <= k < |words| && Contains(reply, words[k].word)
  {
    if status != 0 then Failed(Errno.EBADMSG)
    else
      var i := FirstMatch(reply, words);
      if i == |words| then Failed(Errno.EBADMSG) else Done(words[i].code)
  }

  /** The command sent and the outcome of a dial. */
  datatype Dialled = Dialled(cmd: seq<char>, result: Answer<int>)

  /** `snprintf(cmd, 32, "ATD%s;")`: the dial string with a semicolon for a voice call,
    * cut to the 31 characters the buffer holds. */
  function DialCommand(dial: seq<char>): (cmd: seq<char>)
    ensures |cmd| <= 31 && cmd <= "ATD" + dial + ";"
    ensures |dial| <= 27 ==> cmd == "ATD" + dial + ";"
  {
    Truncate("ATD" + dial + ";", 31)
  }

  /** `at_call_dial` as written: the command sent, and the code of the first table word the
    * reply holds, or `EBADMSG`. */
  function CallDialAsWritten(dial: seq<char>, status: int, reply: seq<char>): (d: Dialled)
    ensures |d.cmd| <= 31 && (|dial| <= 27 ==> d.cmd == "ATD" + dial + ";")
    ensures d.result.Failed? ==> d.result.code == Errno.EBADMSG
    ensures d.result.Done? <==> status == 0 && exists k :: 0 <= k < |DialWordsAsWritten| && Contains(reply, DialWordsAsWritten[k].word)
    ensures d.result.Done? ==> d.result.value in {Connect, NoCarrier, Error, Busy, NoAnswer, NoDialtone, Ok}
  {
    Dialled(DialCommand(dial), Classify(status, reply, DialWordsAsWritten))
  }

  /** `at_call_dial`, with "NO DIALTONE" spelt as V.250 spells it. */
  function CallDial(dial: seq<char>, status: int, reply: seq<char>): (d: Dialled)
    ensures |d.cmd| <= 31 && (|dial| <= 27 ==> d.cmd == "ATD" + dial + ";")
    ensures d.result.Failed? ==> d.result.code == Errno.EBADMSG
    ensures d.result.Done? <==> status == 0 && exists k :: 0 <= k < |DialWords| && Contains(reply, DialWords[k].word)
    ensures d.result.Done? ==> d.result.value in {Connect, NoCarrier, Error, Busy, NoAnswer, NoDialtone, Ok}
  {
    Dialled(DialCommand(dial), Classify(status, reply, DialWords))
  }

  /** `at_call_answer`. */
  function CallAnswer(status: int, reply: seq<char>): (r: Answer<int>)
    ensures r.Failed? ==> r.code == Errno.EBADMSG
    ensures r.Done? <==> status == 0 && exists k :: 0 <= k < |AnswerWords| && Contains(reply, AnswerWords[k].word)
    ensures r.Done? ==> r.value in {Connect, NoCarrier, Error, Ok}
  {
    Classify(status, reply, AnswerWords)
  }

  lemma VerboseHas(w: seq<char>)
    ensures Contains(Verbose(w), w)
  {
    assert Verbose(w)[2..2 + |w|] == w;
    ContainsAt(Verbose(w), w, 2);
  }

  /** A word with a character that neither the line nor its line breaks hold is not in the verbose result. */
  lemma NotInVerbose(line: seq<char>, needle: seq<char>, k: nat)
    requires k < |needle| && needle[k] !in line && needle[k] != '\r' && needle[k] != '\n'
    ensures !Contains(Verbose(line), needle)
  {
    NotContainsChar(Verbose(line), needle, k);
  }

  /** A word as long as the line, other than the line and not starting or ending in a
    * line break, is not in the verbose result. */
  lemma NotInVerboseSameLength(line: seq<char>, needle: seq<char>)
    requires |needle| == |line| > 0 && needle != line
    requires needle[0] != '\r' && needle[0] != '\n'
    requires needle[|needle| - 1] != '\r' && needle[|needle| - 1] != '\n'
    ensures !Contains(Verbose(line), needle)
  {
    var hay := Verbose(line);
    forall i: nat | i <= |hay| ensures !OccursAt(hay, needle, i) {
      if i + |needle| <= |hay| {
        var at := hay[i..i + |needle|];
        assert at[0] == hay[i] && at[|needle| - 1] == hay[i + |needle| - 1];
        if i == 2 {
          assert at == line;
        }
      }
    }
  }

  /** As `NotInVerbose`, for a word that can only start early enough to end before `tail`. */
  lemma NotInVerboseBefore(head: seq<char>, tail: seq<char>, needle: seq<char>, k: nat)
    requires |tail| + 3 + k <= |needle| && k < |needle|
    requires needle[k] !in head && needle[k] != '\r' && needle[k] != '\n'
    ensures !Contains(Verbose(head + tail), needle)
  {
    var hay := Verbose(head + tail);
    forall i: nat | i <= |hay| ensures !OccursAt(hay, needle, i) {
      if i + |needle| <= |hay| {
        assert hay[i..i + |needle|][k] == hay[i + k];
        if i + k >= 2 {
          assert hay[i + k] == head[i + k - 2];
        }
      }
    }
  }

  /** Each result a modem gives for a dial classifies as its code. */
  lemma DialResults(dial: seq<char>, reply: seq<char>)
    ensures reply == Verbose("CONNECT") ==> CallDial(dial, 0, reply).result == Done(Connect)
    ensures reply == Verbose("NO CARRIER") ==> CallDial(dial, 0, reply).result == Done(NoCarrier)
    ensures reply == Verbose("ERROR") ==> CallDial(dial, 0, reply).result == Done(Error)
    ensures reply == Verbose("BUSY") ==> CallDial(dial, 0, reply).result == Done(Busy)
    ensures reply == Verbose("NO ANSWER") ==> CallDial(dial, 0, reply).result == Done(NoAnswer)
    ensures reply == Verbose("NO DIALTONE") ==> CallDial(dial, 0, reply).result == Done(NoDialtone)
    ensures reply == Verbose("OK") ==> CallDial(dial, 0, reply).result == Done(Ok)
  {
    if reply == Verbose("CONNECT") {
      ReplyConnect(reply, DialWords);
    } else if reply == Verbose("NO CARRIER") {
      ReplyNoCarrier(reply, DialWords);
    } else if reply == Verbose("ERROR") {
      ReplyError(reply, DialWords);
    } else if reply == Verbose("BUSY") {
      DialBusy(reply);
    } else if reply == Verbose("NO ANSWER") {
      DialNoAnswer(reply);
    } else if reply == Verbose("NO DIALTONE") {
      DialNoDialtone(reply);
    } else if reply == Verbose("OK") {
      DialOk(reply);
    }
  }

  /** The tables of dial and answer both start with CONNECT, NO CARRIER and ERROR. */
  predicate CommonStart(words: seq<ResultWord>)
  {
    |words| >= 3 && words[0].word == "CONNECT" && words[1].word == "NO CARRIER" && words[2].word == "ERROR"
  }

  // The earlier words of the tables that each verbose result does not hold.

  lemma NoCarrierMisses()
    ensures !Contains(Verbose("NO CARRIER"), "CONNECT")
  {
    NotInVerbose("NO CARRIER", "CONNECT", 6);
  }

  lemma ErrorMisses()
    ensures !Contains(Verbose("ERROR"), "CONNECT") && !Contains(Verbose("ERROR"), "NO CARRIER")
  {
    NotInVerbose("ERROR", "CONNECT", 0);
    NotInVerbose("ERROR", "NO CARRIER", 0);
  }

  lemma BusyMisses()
    ensures !Contains(Verbose("BUSY"), "CONNECT") && !Contains(Verbose("BUSY"), "NO CARRIER")
    ensures !Contains(Verbose("BUSY"), "ERROR")
  {
    NotInVerbose("BUSY", "CONNECT", 0);
    NotInVerbose("BUSY", "NO CARRIER", 0);
    NotInVerbose("BUSY", "ERROR", 0);
  }

  lemma NoAnswerMisses()
    ensures !Contains(Verbose("NO ANSWER"), "CONNECT") && !Contains(Verbose("NO ANSWER"), "NO CARRIER")
    ensures !Contains(Verbose("NO ANSWER"), "ERROR") && !Contains(Verbose("NO ANSWER"), "BUSY")
  {
    NotInVerbose("NO ANSWER", "CONNECT", 0);
    NotInVerbose("NO ANSWER", "NO CARRIER", 7);
    NotInVerboseBefore("NO ANSW", "ER", "ERROR", 0);
    assert "NO ANSW" + "ER" == "NO ANSWER";
    NotInVerbose("NO ANSWER", "BUSY", 0);
  }

  /** No word of the dial table but "NO DIALTONE" occurs in that result, whichever way the table spells it. */
  lemma NoDialtoneMisses()
    ensures !Contains(Verbose("NO DIALTONE"), "CONNECT") && !Contains(Verbose("NO DIALTONE"), "NO CARRIER")
    ensures !Contains(Verbose("NO DIALTONE"), "ERROR") && !Contains(Verbose("NO DIALTONE"), "BUSY")
    ensures !Contains(Verbose("NO DIALTONE"), "NO ANSWER") && !Contains(Verbose("NO DIALTONE"), "OK")
  {
    NotInVerbose("NO DIALTONE", "CONNECT", 0);
    NotInVerbose("NO DIALTONE", "NO CARRIER", 3);
    NotInVerbose("NO DIALTONE", "ERROR", 1);
    NotInVerbose("NO DIALTONE", "BUSY", 0);
    NotInVerbose("NO DIALTONE", "NO ANSWER", 5);
    NotInVerbose("NO DIALTONE", "OK", 1);
  }

  lemma OkMisses()
    ensures !Contains(Verbose("OK"), "CONNECT") && !Contains(Verbose("OK"), "NO CARRIER")
    ensures !Contains(Verbose("OK"), "ERROR") && !Contains(Verbose("OK"), "BUSY")
    ensures !Contains(Verbose("OK"), "NO ANSWER") && !Contains(Verbose("OK"), "NO DIALTONE")
  {
    NotInVerbose("OK", "CONNECT", 0);
    NotInVerbose("OK", "NO CARRIER", 0);
    NotInVerbose("OK", "ERROR", 0);
    NotInVerbose("OK", "BUSY", 0);
    NotInVerbose("OK", "NO ANSWER", 0);
    NotInVerbose("OK", "NO DIALTONE", 0);
  }

  lemma ReplyConnect(r: seq<char>, words: seq<ResultWord>)
    requires r == Verbose("CONNECT") && CommonStart(words)
    ensures FirstMatch(r, words) == 0
  {
    VerboseHas("CONNECT");
    FirstMatchAt(r, words, 0);
  }

  lemma ReplyNoCarrier(r: seq<char>, words: seq<ResultWord>)
    requires r == Verbose("NO CARRIER") && CommonStart(words)
    ensures FirstMatch(r, words) == 1
  {
    NoCarrierMisses();
    VerboseHas("NO CARRIER");
    FirstMatchAt(r, words, 1);
  }

  lemma ReplyError(r: seq<char>, words: seq<ResultWord>)
    requires r == Verbose("ERROR") && CommonStart(words)
    ensures FirstMatch(r, words) == 2
  {
    ErrorMisses();
    VerboseHas("ERROR");
    FirstMatchAt(r, words, 2);
  }

  lemma DialBusy(r: seq<char>)
    requires r == Verbose("BUSY")
    ensures FirstMatch(r, DialWords) == 3
  {
    BusyMisses();
    VerboseHas("BUSY");
    FirstMatchAt(r, DialWords, 3);
  }

  lemma DialNoAnswer(r: seq<char>)
    requires r == Verbose("NO ANSWER")
    ensures FirstMatch(r, DialWords) == 4
  {
    NoAnswerMisses();
    VerboseHas("NO ANSWER");
    FirstMatchAt(r, DialWords, 4);
  }

  lemma DialNoDialtone(r: seq<char>)
    requires r == Verbose("NO DIALTONE")
    ensures FirstMatch(r, DialWords) == 5
  {
    NoDialtoneMisses();
    VerboseHas("NO DIALTONE");
    FirstMatchAt(r, DialWords, 5);
  }

  lemma DialOk(r: seq<char>)
    requires r == Verbose("OK")
    ensures FirstMatch(r, DialWords) == 6
  {
    OkMisses();
    VerboseHas("OK");
    FirstMatchAt(r, DialWords, 6);
  }

  /** As written, the modem's "NO DIALTONE" result matches no word and the dial fails. */
  lemma DialNoDialtoneAsWritten(dial: seq<char>, reply: seq<char>)
    requires reply == Verbose("NO DIALTONE")
    ensures CallDialAsWritten(dial, 0, reply).result == Failed(Errno.EBADMSG)
  {
    NoDialtoneMisses();
    NotInVerboseSameLength("NO DIALTONE", "NO DAILTONE");
    FirstMatchAt(reply, DialWordsAsWritten, 7);
  }

  /** Each result a modem gives for an answer classifies as its code. */
  lemma AnswerResults(reply: seq<char>)
    ensures reply == Verbose("CONNECT") ==> CallAnswer(0, reply) == Done(Connect)
    ensures reply == Verbose("NO CARRIER") ==> CallAnswer(0, reply) == Done(NoCarrier)
    ensures reply == Verbose("ERROR") ==> CallAnswer(0, reply) == Done(Error)
    ensures reply == Verbose("OK") ==> CallAnswer(0, reply) == Done(Ok)
  {
    if reply == Verbose("CONNECT") {
      ReplyConnect(reply, AnswerWords);
    } else if reply == Verbose("NO CARRIER") {
      ReplyNoCarrier(reply, AnswerWords);
    } else if reply == Verbose("ERROR") {
      ReplyError(reply, AnswerWords);
    } else if reply == Verbose("OK") {
      OkMisses();
      VerboseHas("OK");
      FirstMatchAt(reply, AnswerWords, 3);
    }
  }

  // ------------------------------------------------------------ +CLCC (27.007 7.18)

  /** The largest direction, mode and multiparty values `at_call_status` accepts: mobile
    * terminated (1), unknown mode (9) and multiparty (1), numbered as section 7.18 of
    * 3GPP TS 27.007 numbers them. */
  const DirMt: int := 1
  const ModeUnknown: int := 9
  const MptyYes: int := 1

  /** The size of the number buffer, of which `%15s` fills at most fifteen characters and a NUL. */
  const NumberSize: nat := 16

  /** The number buffer as `at_call_status` clears it before the first line. */
  function Blank(): (b: seq<char>)
    ensures |b| == NumberSize && forall i :: 0 <= i < |b| ==> b[i] == NUL
  {
    seq(NumberSize, i => NUL)
  }

  /** What `at_call_status` writes into one `call_status_t`. */
  datatype Call = Call(ccidx: int, dir: int, mode: int, mpty: int, number: seq<char>)

  /** `n` pairs of `%d` and a comma, then `%15s`. */
  function FieldsFormat(n: nat): (f: seq<Directive>)
    ensures |f| == 2 * n + 1
  {
    if n == 0 then [Word(15)] else [Int, Lit(',')] + FieldsFormat(n - 1)
  }

  /** `"+CLCC: %d,%d,%d,%d,%d,%15s"`: index, direction, state, mode, multiparty and number. */
  const ClccFormat: seq<Directive> := Format("+CLCC: ") + FieldsFormat(5)

  function IntOf(f: Field): int
  {
    if f.IntVal? then f.i else 0
  }

  function WordOf(f: Field): seq<char>
  {
    if f.WordVal? then f.w else []
  }

  /** The number buffer after `%15s` stored `w` in it: `w`, its NUL, then what was there. */
  function Stored(buf: seq<char>, w: seq<char>): (r: seq<char>)
    requires |buf| == NumberSize
    ensures |r| == NumberSize
    ensures |w| < NumberSize ==> r == w + [NUL] + buf[|w| + 1..]
  {
    var r := seq(NumberSize, i requires 0 <= i < NumberSize => if i < |w| then w[i] else if i == |w| then NUL else buf[i]);
    assert |w| < NumberSize ==> r == w + [NUL] + buf[|w| + 1..];
    r
  }

  /** The C string the stored number holds is the word `%15s` read. */
  lemma StoredText(buf: seq<char>, w: seq<char>)
    requires |buf| == NumberSize && |w| < NumberSize && NoNul(w)
    ensures Text(Stored(buf, w)) == w
  {
    StrLenOfTerminated(w, buf[|w| + 1..]);
    assert (w + [NUL] + buf[|w| + 1..])[..|w|] == w;
  }

  /** One token of the `+CLCC` reply, as `sscanf` left it in `fields`: the call it describes,
    * or `None` when `sscanf` filled fewer than six values or the direction, mode or
    * multiparty value is too large. `number` is the number buffer as the previous line left it. */
  function Checked(fields: Scanned, number: seq<char>): (r: Option<Call>)
    requires |number| == NumberSize
    ensures r.Some? <==> Accepted(fields)
    ensures r.Some? ==> r.value.dir <= DirMt && r.value.mode <= ModeUnknown && r.value.mpty <= MptyYes
    ensures r.Some? ==> |r.value.number| == NumberSize
  {
    if !Accepted(fields) then None
    else
      var v := fields.values;
      Some(Call(IntOf(v[0]), IntOf(v[1]), IntOf(v[3]), IntOf(v[4]), Stored(number, WordOf(v[5]))))
  }

  /** `sscanf` filled all six values and none of the three checked ones is too large. */
  predicate Accepted(fields: Scanned)
  {
    Count(fields) == 6 &&
    var v := fields.values;
    IntOf(v[1]) <= DirMt && IntOf(v[3]) <= ModeUnknown && IntOf(v[4]) <= MptyYes
  }

  /** What `sscanf` makes of each token with the `+CLCC` format. */
  function ScanLines(lines: seq<seq<char>>): (r: seq<Scanned>)
    ensures |r| == |lines|
    ensures forall j :: 0 <= j < |lines| ==> r[j] == Scan(ClccFormat, lines[j])
  {
    seq(|lines|, j requires 0 <= j < |lines| => Scan(ClccFormat, lines[j]))
  }

  /** How far `at_call_status` got: the calls it filled in, the number buffer, and whether
    * every line so far was read. */
  datatype Listed = Listed(entries: seq<Call>, number: seq<char>, complete: bool)

  /** Before the first line: nothing listed, the number buffer zeroed. */
  const Start: Listed := Listed([], Blank(), true)

  /** One more scanned line: once a line failed, nothing changes. */
  function Step(l: Listed, fields: Scanned): (r: Listed)
    requires |l.number| == NumberSize
    ensures |r.number| == NumberSize
  {
    if !l.complete then l
    else match Checked(fields, l.number)
      case None => Listed(l.entries, l.number, false)
      case Some(c) => Listed(l.entries + [c], c.number, true)
  }

  /** The state after the first `n` scanned lines. */
  function Run(scans: seq<Scanned>, n: nat): (r: Listed)
    requires n <= |scans|
    ensures |r.number| == NumberSize
  {
    if n == 0 then Start else Step(Run(scans, n - 1), scans[n - 1])
  }

  /** What `at_call_status` lists from the scanned lines when it may fill `k` entries. */
  function Listing(scans: seq<Scanned>, k: int): Listed
  {
    Run(scans, if k <= 0 then 0 else Min(k, |scans|))
  }

  /** `at_call_status`: sends "AT+CLCC" (the reply and the send status are parameters) and
    * fills `calls[0..]` from the reply's tokens, one per line, at most `maxItems` of them.
    * It gives up with `EBADMSG` on the first line it cannot read, which leaves the entries
    * already filled in place. */
  method CallStatus(calls: array<Call>, maxItems: int, status: int, reply: seq<char>) returns (code: int)
    requires maxItems <= calls.Length
    modifies calls
    ensures status != 0 || !ResponseOk(reply) ==> code == Errno.EBADMSG && calls[..] == old(calls[..])
    ensures status == 0 && ResponseOk(reply) ==>
      var r := Listing(ScanLines(Lines(reply)), maxItems);
      code == (if r.complete then 0 else Errno.EBADMSG) && |r.entries| <= calls.Length &&
      (forall j :: 0 <= j < |r.entries| ==> calls[j] == r.entries[j]) &&
      (forall j :: |r.entries| <= j < calls.Length ==> calls[j] == old(calls[j]))
  {
    if status != 0 || !ResponseOk(reply) {
      return Errno.EBADMSG;
    }
    code := FillCalls(calls, maxItems, ScanLines(Lines(reply)));
  }

  /** The loop of `at_call_status` over the reply's lines, each already scanned. */
  method FillCalls(calls: array<Call>, maxItems: int, scans: seq<Scanned>) returns (code: int)
    requires maxItems <= calls.Length
    modifies calls
    ensures var r := Listing(scans, maxItems);
      code == (if r.complete then 0 else Errno.EBADMSG) && |r.entries| <= calls.Length &&
      (forall j :: 0 <= j < |r.entries| ==> calls[j] == r.entries[j]) &&
      (forall j :: |r.entries| <= j < calls.Length ==> calls[j] == old(calls[j]))
  {
    var number := Blank();
    var i := 0;
    ghost var written: seq<Call> := [];
    while i < maxItems && i < |scans|
      invariant 0 <= i <= |scans| && (i == 0 || i <= maxItems) && |written| == i
      invariant Run(scans, i) == Listed(written, number, true)
      invariant forall j :: 0 <= j < i ==> calls[j] == written[j]
      invariant forall j :: i <= j < calls.Length ==> calls[j] == old(calls[j])
      decreases |scans| - i
    {
      var call := Checked(scans[i], number);
      if call.None? {
        ghost var n := if maxItems <= 0 then 0 else Min(maxItems, |scans|);
        RunStays(scans, i + 1, n);
        return Errno.EBADMSG;
      }
      assert Run(scans, i + 1) == Listed(written + [call.value], call.value.number, true);
      calls[i] := call.value;
      written := written + [call.value];
      number := call.value.number;
      i := i + 1;
    }
    assert Listing(scans, maxItems) == Run(scans, i);
    return 0;
  }

  /** Once a line failed, the later lines change nothing. */
  lemma {:induction false} RunStays(scans: seq<Scanned>, m: nat, n: nat)
    requires m <= n <= |scans| && !Run(scans, m).complete
    ensures Run(scans, n) == Run(scans, m)
  {
    if n > m {
      RunStays(scans, m, n - 1);
    }
  }

  /** Within the first `n` lines: the calls listed are accepted ones, one per line while
    * every line was accepted, and the listing is complete exactly when every line was. */
  lemma {:induction false} RunComplete(scans: seq<Scanned>, n: nat)
    requires n <= |scans|
    ensures Run(scans, n).complete <==> forall j :: 0 <= j < n ==> Accepted(scans[j])
    ensures |Run(scans, n).entries| <= n
    ensures Run(scans, n).complete ==> |Run(scans, n).entries| == n
    ensures forall c :: c in Run(scans, n).entries ==>
      c.dir <= DirMt && c.mode <= ModeUnknown && c.mpty <= MptyYes && |c.number| == NumberSize
  {
    if n > 0 {
      RunComplete(scans, n - 1);
    }
  }

  // A reply to "AT+CLCC" as the modem sends it: one information line per call, then OK.

  /** One call as the modem reports it: index, direction, state, mode, multiparty, and the
    * word that follows them (the number and what comes with it, up to the first space). */
  datatype CallLine = CallLine(ccidx: nat, dir: nat, stat: nat, mode: nat, mpty: nat, word: seq<char>)

  /** A word `%15s` reads whole and that is a valid C string. */
  predicate WordFits(w: seq<char>)
  {
    1 <= |w| < NumberSize && forall i :: 0 <= i < |w| ==> !IsSpace(w[i]) && w[i] != NUL
  }

  /** The text of a "+CLCC: " information line. */
  function ClccLine(e: CallLine): seq<char>
  {
    "+CLCC: " + (Decimal(e.ccidx) + "," + (Decimal(e.dir) + "," + (Decimal(e.stat) + "," +
      (Decimal(e.mode) + "," + (Decimal(e.mpty) + "," + e.word)))))
  }

  /** One `%d,` pair reads back a number printed before a comma. */
  lemma ScanField(v: nat, n: nat, t: seq<char>)
    ensures Scan(FieldsFormat(n + 1), Decimal(v) + "," + t) == Then(IntVal(v), Scan(FieldsFormat(n), t))
  {
    var f := [Lit(',')] + FieldsFormat(n);
    assert FieldsFormat(n + 1) == [Int] + f;
    assert Decimal(v) + "," + t == Decimal(v) + ("," + t);
    ScanInt(f, v, "," + t);
    assert f[1..] == FieldsFormat(n) && ("," + t)[1..] == t;
  }

  /** The "+CLCC:" prefix and the space after it are matched and skipped. */
  lemma ScanClccPrefix(t: seq<char>)
    requires t != [] && IsDigit(t[0])
    ensures Scan(ClccFormat, "+CLCC: " + t) == Scan(FieldsFormat(5), t)
  {
    assert ClccFormat == Format("+CLCC:") + ([Space] + FieldsFormat(5));
    assert "+CLCC: " + t == "+CLCC:" + (" " + t);
    ScanFormat("+CLCC:", [Space] + FieldsFormat(5), " " + t);
    ScanSpace(FieldsFormat(5), " ", t);
  }

  /** `sscanf` stored the line's five numbers and its word. */
  predicate Decodes(r: Scanned, e: CallLine)
  {
    !r.inputFailure && |r.values| == 6 &&
    r.values[0] == IntVal(e.ccidx) && r.values[1] == IntVal(e.dir) && r.values[2] == IntVal(e.stat) &&
    r.values[3] == IntVal(e.mode) && r.values[4] == IntVal(e.mpty) && r.values[5] == WordVal(e.word)
  }

  /** The whole line scans to its five numbers and its word, one `%d,` pair at a time. */
  lemma ScanClccLine(e: CallLine)
    requires WordFits(e.word)
    ensures Decodes(Scan(ClccFormat, ClccLine(e)), e)
  {
    var t4 := Decimal(e.mpty) + "," + e.word;
    var t3 := Decimal(e.mode) + "," + t4;
    var t2 := Decimal(e.stat) + "," + t3;
    var t1 := Decimal(e.dir) + "," + t2;
    var t0 := Decimal(e.ccidx) + "," + t1;
    ScanWord([], 15, e.word, []);
    assert [Word(15)] + [] == FieldsFormat(0) && e.word + [] == e.word;
    ScanField(e.mpty, 0, e.word);
    ScanField(e.mode, 1, t4);
    ScanField(e.stat, 2, t3);
    ScanField(e.dir, 3, t2);
    ScanField(e.ccidx, 4, t1);
    assert t0[0] == Decimal(e.ccidx)[0];
    ScanClccPrefix(t0);
  }

  /** The entry holds what the line says: index, direction, mode, multiparty value and,
    * NUL-terminated, the number. */
  predicate Reads(c: Call, e: CallLine)
  {
    c.ccidx == e.ccidx && c.dir == e.dir && c.mode == e.mode && c.mpty == e.mpty && Holds(c.number, e.word)
  }

  /** `buf` holds the C string `w`: its characters, then a NUL. */
  predicate Holds(buf: seq<char>, w: seq<char>)
  {
    |w| < |buf| && buf[..|w|] == w && buf[|w|] == NUL
  }

  /** Round trip: the entry `at_call_status` fills from a "+CLCC: " line holds the line's
    * index, direction, mode and multiparty value and, as a C string, its number; the line
    * is accepted exactly when the three checked values are in range. */
  lemma ClccReadBack(e: CallLine, buf: seq<char>)
    requires |buf| == NumberSize && WordFits(e.word)
    ensures var r := Checked(Scan(ClccFormat, ClccLine(e)), buf);
      (r.Some? <==> e.dir <= DirMt && e.mode <= ModeUnknown && e.mpty <= MptyYes) &&
      (r.Some? ==> Reads(r.value, e) && Text(r.value.number) == e.word)
  {
    ScanClccLine(e);
    CheckedReads(Scan(ClccFormat, ClccLine(e)), e, buf);
    StoredText(buf, e.word);
  }

  /** What `at_call_status` does with the values `sscanf` stored from a line. */
  lemma CheckedReads(fields: Scanned, e: CallLine, buf: seq<char>)
    requires |buf| == NumberSize && WordFits(e.word) && Decodes(fields, e)
    ensures var r := Checked(fields, buf);
      (r.Some? <==> e.dir <= DirMt && e.mode <= ModeUnknown && e.mpty <= MptyYes) &&
      (r.Some? ==> Reads(r.value, e))
  {
  }

  /** The final "OK" of the reply is not a "+CLCC: " line. */
  lemma OkRejected()
    ensures !Accepted(Scan(ClccFormat, "OK"))
  {
    assert ClccFormat[0] == Lit('+');
  }

  /** A call the firmware accepts: direction, mode and multiparty value in range. */
  predicate InRange(e: CallLine)
  {
    WordFits(e.word) && e.dir <= DirMt && e.mode <= ModeUnknown && e.mpty <= MptyYes
  }

  /** The information lines for `es`, in order. */
  function ClccLines(es: seq<CallLine>): (ls: seq<seq<char>>)
    ensures |ls| == |es| && forall j :: 0 <= j < |es| ==> ls[j] == ClccLine(es[j])
  {
    if es == [] then [] else [ClccLine(es[0])] + ClccLines(es[1..])
  }

  /** The modem's whole reply to "AT+CLCC": one verbose information line per call, then OK. */
  function ClccReply(es: seq<CallLine>): seq<char>
  {
    if es == [] then Verbose("OK") else Verbose(ClccLine(es[0])) + ClccReply(es[1..])
  }

  predicate NoBreak(s: seq<char>)
  {
    forall k :: 0 <= k < |s| ==> !IsLineBreak(s[k])
  }

  lemma NoBreakJoin(a: seq<char>, b: seq<char>)
    requires NoBreak(a) && NoBreak(b)
    ensures NoBreak(a + b)
  {
    assert forall k :: 0 <= k < |a + b| ==> (a + b)[k] == if k < |a| then a[k] else b[k - |a|];
  }

  lemma DecimalNoBreak(n: nat)
    ensures NoBreak(Decimal(n))
  {
    assert forall k :: 0 <= k < |Decimal(n)| ==> IsDigit(Decimal(n)[k]);
  }

  /** An information line holds no line break. */
  lemma ClccLineNoBreak(e: CallLine)
    requires WordFits(e.word)
    ensures ClccLine(e) != [] && NoBreak(ClccLine(e))
  {
    DecimalNoBreak(e.ccidx);
    DecimalNoBreak(e.dir);
    DecimalNoBreak(e.stat);
    DecimalNoBreak(e.mode);
    DecimalNoBreak(e.mpty);
    NoBreakJoin(Decimal(e.mpty) + ",", e.word);
    var t4 := Decimal(e.mpty) + "," + e.word;
    NoBreakJoin(Decimal(e.mode) + ",", t4);
    var t3 := Decimal(e.mode) + "," + t4;
    NoBreakJoin(Decimal(e.stat) + ",", t3);
    var t2 := Decimal(e.stat) + "," + t3;
    NoBreakJoin(Decimal(e.dir) + ",", t2);
    var t1 := Decimal(e.dir) + "," + t2;
    NoBreakJoin(Decimal(e.ccidx) + ",", t1);
    var t0 := Decimal(e.ccidx) + "," + t1;
    NoBreakJoin("+CLCC: ", t0);
  }

  /** `strtok` yields a verbose line's text and goes on after it. */
  lemma LinesOfVerbose(line: seq<char>, rest: seq<char>)
    requires line != [] && NoBreak(line)
    ensures Lines(Verbose(line) + rest) == [line] + Lines(rest)
  {
    var tail := "\r\n" + rest;
    assert Verbose(line) + rest == ['\r'] + (['\n'] + (line + tail));
    LinesOfBreak('\r', ['\n'] + (line + tail));
    LinesOfBreak('\n', line + tail);
    LinesOfLine(line, tail);
    assert tail == ['\r'] + (['\n'] + rest);
    LinesOfBreak('\r', ['\n'] + rest);
    LinesOfBreak('\n', rest);
  }

  /** The tokens of the reply: the information lines, then "OK". */
  lemma {:induction false} LinesOfClccReply(es: seq<CallLine>)
    requires forall j :: 0 <= j < |es| ==> WordFits(es[j].word)
    ensures Lines(ClccReply(es)) == ClccLines(es) + ["OK"]
  {
    if es == [] {
      LinesOfVerbose("OK", []);
      assert Verbose("OK") + [] == Verbose("OK");
    } else {
      ClccLineNoBreak(es[0]);
      LinesOfVerbose(ClccLine(es[0]), ClccReply(es[1..]));
      LinesOfClccReply(es[1..]);
      assert ClccLines(es) + ["OK"] == [ClccLine(es[0])] + (ClccLines(es[1..]) + ["OK"]);
    }
  }

  /** The reply ends in "OK", so `modem_check_response_ok` passes it. */
  lemma {:induction false} ClccReplyOk(es: seq<CallLine>)
    ensures ResponseOk(ClccReply(es))
  {
    if es == [] {
      assert OccursAt(Verbose("OK"), "OK", 2);
      ContainsAt(Verbose("OK"), "OK", 2);
    } else {
      ClccReplyOk(es[1..]);
      ContainsInTail(Verbose(ClccLine(es[0])), ClccReply(es[1..]), "OK");
    }
  }

  /** While the lines are in-range calls, each one fills the next entry. */
  lemma {:induction false} RunFills(es: seq<CallLine>, scans: seq<Scanned>, n: nat)
    requires n <= |es| && n <= |scans|
    requires forall j :: 0 <= j < n ==> InRange(es[j]) && Decodes(scans[j], es[j])
    ensures Run(scans, n).complete && |Run(scans, n).entries| == n
  {
    if n > 0 {
      RunFills(es, scans, n - 1);
      StepReads(Run(scans, n - 1), scans[n - 1], es[n - 1]);
    }
  }

  /** ... with what its line says. */
  lemma {:induction false} RunReads(es: seq<CallLine>, scans: seq<Scanned>, n: nat, j: nat)
    requires j < n <= |es| && n <= |scans|
    requires forall i :: 0 <= i < n ==> InRange(es[i]) && Decodes(scans[i], es[i])
    ensures |Run(scans, n).entries| == n && Reads(Run(scans, n).entries[j], es[j])
  {
    RunFills(es, scans, n - 1);
    var prev := Run(scans, n - 1);
    var r := Run(scans, n);
    assert r == Step(prev, scans[n - 1]);
    StepReads(prev, scans[n - 1], es[n - 1]);
    if j < n - 1 {
      RunReads(es, scans, n - 1, j);
      assert r.entries[j] == r.entries[..n - 1][j];
    }
  }

  /** An in-range call line, after complete ones, is read into the next entry. */
  lemma StepReads(l: Listed, fields: Scanned, e: CallLine)
    requires |l.number| == NumberSize && l.complete && InRange(e) && Decodes(fields, e)
    ensures var r := Step(l, fields);
      r.complete && |r.entries| == |l.entries| + 1 && r.entries[..|l.entries|] == l.entries &&
      Reads(r.entries[|l.entries|], e)
  {
    CheckedReads(fields, e, l.number);
  }

  /** What `at_call_status` makes of a full reply with `k` entries to fill: it lists the
    * first `k` calls (or all of them) exactly as the modem reported them, and it reports
    * success only when `k` is no more than the number of calls, since the final "OK"
    * token is read as one more "+CLCC: " line and fails. */
  lemma ClccListing(es: seq<CallLine>, k: int)
    requires forall j :: 0 <= j < |es| ==> InRange(es[j])
    ensures ResponseOk(ClccReply(es))
    ensures var r := Listing(ScanLines(Lines(ClccReply(es))), k);
      (r.complete <==> k <= |es|) &&
      |r.entries| == (if k <= 0 then 0 else Min(k, |es|)) &&
      forall j :: 0 <= j < |r.entries| ==> Reads(r.entries[j], es[j])
  {
    ClccReplyOk(es);
    LinesOfClccReply(es);
    var scans := ScanLines(ClccLines(es) + ["OK"]);
    forall j | 0 <= j < |es|
      ensures Decodes(scans[j], es[j])
    {
      ScanClccLine(es[j]);
    }
    OkRejected();
    ListingOfScans(es, scans, k);
  }

  /** The listing, given how each token scanned: one in-range call per line, then a
    * token that is not accepted. */
  lemma ListingOfScans(es: seq<CallLine>, scans: seq<Scanned>, k: int)
    requires |scans| == |es| + 1 && !Accepted(scans[|es|])
    requires forall j :: 0 <= j < |es| ==> InRange(es[j]) && Decodes(scans[j], es[j])
    ensures var r := Listing(scans, k);
      (r.complete <==> k <= |es|) &&
      |r.entries| == (if k <= 0 then 0 else Min(k, |es|)) &&
      forall j :: 0 <= j < |r.entries| ==> Reads(r.entries[j], es[j])
  {
    if k > 0 {
      var n := Min(k, |es|);
      RunFills(es, scans, n);
      forall j | 0 <= j < n
        ensures Reads(Run(scans, n).entries[j], es[j])
      {
        RunReads(es, scans, n, j);
      }
      if k > |es| {
        assert Listing(scans, k) == Run(scans, |es| + 1);
      }
    }
  }
}
