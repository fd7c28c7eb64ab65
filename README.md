# UniQOS firmware core in Dafny

This project models the logic of the UniQOS phone firmware and proves properties of it. The firmware runs on a microcontroller board with a cellular modem, an ST7789V display, a keypad, a NAU88C22 audio codec, a haptic driver, an RGB LED strip and a battery charger. Two Python tools convert images and sound into C arrays for it. The model covers:

- the SMS PDU codec (semi-octet numbers, 7-bit septets, UCS2, SMS-SUBMIT encoding and SMS-DELIVER decoding, after 3GPP TS 23.040 and TS 23.038);
- the argument checks and reply parsing of the modem's AT commands (after 3GPP TS 27.007 and ITU-T V.250), the airplane-mode toggle, the start-up error handling and the debug terminal's line editor;
- the user-interface state machines: multi-tap text entry, the clamped cursor, the dirty-tile set, the menu, the option overlay, contact details, the calendar, the calculator, the new-message and call pages, the message viewer's word wrap, and the snake and minesweeper games;
- the kernel's call-state machine, the signal-bar conversion and the contacts B+-tree leaf;
- the drivers: keypad debouncing, display drawing, ST7789V and 9-bit SPI framing, the NAU88C22 register logic, the DRV2603 PWM arithmetic, the WS2812 bit stream and the MCP73871 status table;
- the two asset tools, `png_to_bmp.py` and `wav_to_h.py`.

There is one Dafny module per source file. `common.dfy` (C integer widths, `Option`, errno values, C strings, bit helpers), `clib.dfy` (`atoi`, `sscanf` and the line splitting of `strtok` as functions) and `input.dfy` (the input event numbers) hold shared definitions.

Code that updates a state in place becomes a class whose methods have `modifies` clauses: the pages, the games, the tile grid, the codec, the keypad, the LED strip, the display canvas and the bus drivers. Fixed-size C buffers stay arrays. Loops stay `while` loops with invariants, each proved against a specification function. Pure conversions and parsers become functions with lemmas.

What the firmware gets from outside becomes a parameter:
- the modem's reply text and send status;
- `rand()` results;
- `HAL_GetTick()`;
- GPIO pin levels;
- whether I2C transfers are acknowledged;
- the pixels and samples that Pillow and scipy decode.

What the firmware sends out becomes a trace, a sequence the methods append to:
- SPI words;
- I2C frames;
- LED bits;
- draw calls;
- display-task posts.

Several functions are written in two versions. An "as written" member reproduces a defect of the source. Its "corrected" partner has the evidently intended property proved. The "## Findings" table pairs them, and the "## Model" rows are marked accordingly. Methods model the code as written, except where their row begins "corrected:"; those use the corrected partner of a Findings row.

The two tools follow their code, which is narrower than their description. `png_to_bmp.py` classifies a pixel by alpha alone, with no brightness threshold. Every row line, the last one included, ends in " },". `wav_to_h.py` ends the fragment with "};" and no line break.

## Model

| member | source | states |
|---|---|---|
| Pdu.HexCharToInt | drivers/modem/pdu.c:5-14 | a hex digit of either case reads below 16; every other character reads as 0 |
| Pdu.HexCharMeaning | drivers/modem/pdu.c:5-14 | every hex digit of either case reads as the position of its upper-case form in the digit table |
| Pdu.HexToByte | drivers/modem/pdu.c:16-19 | the byte's high nibble is the first digit's value and its low nibble the second's |
| Pdu.Hex2 | drivers/modem/pdu.c:21-27 | `byteToHex` writes two upper-case hex digits |
| Pdu.ByteHexRoundTrip | drivers/modem/pdu.c:16-27 | `hexToByte` of what `byteToHex` wrote is the byte |
| Pdu.ByteToHex | drivers/modem/pdu.c:21-27 | writes the two digits and a NUL; nothing after them changes |
| Pdu.SemiOctets | drivers/modem/pdu.c:29-41 | the swapped digits number the digits rounded up to even |
| Pdu.SemiPair | drivers/modem/pdu.c:32-38 | pair `j` holds digit `2j+1` (or the filler 'F') and then digit `2j` |
| Pdu.EncodeSemiOctetNumber | drivers/modem/pdu.c:29-41 | writes the semi-octets and a NUL, returns their count, and leaves the rest of the buffer alone |
| Pdu.SemiOctetRoundTrip | drivers/modem/pdu.c:29-54 | reading back the semi-octets of a number without 'F' gives the number |
| Pdu.DigitsPrefix | drivers/modem/pdu.c:46-52 | the digits of a shorter even prefix are a prefix of the digits of a longer one |
| Pdu.PutPair | drivers/modem/pdu.c:48-51 | one loop pass stores the pair's digits, skipping 'F' and stopping at the buffer's last place |
| Pdu.DigitsCut | drivers/modem/pdu.c:46 | when the loop stops, early or at the end, the buffer holds the first digits of the whole number |
| Pdu.DecodeSemiOctetNumber | drivers/modem/pdu.c:43-54 | the buffer holds the digits of the first `length` semi-octets, cut to `outSize - 1`, then a NUL; later bytes are unchanged |
| Pdu.Septet | drivers/modem/pdu.c:61 | a character's septet is below 0x80 |
| Pdu.PackedPrefix | drivers/modem/pdu.c:59-74 | `n` characters pack to `n + n / 7` octets |
| Pdu.Packed | drivers/modem/pdu.c:56-78 | a text packs to one octet per character, one extra per seven, and a closing carry when the count is not a multiple of 7 |
| Pdu.PackedAt | drivers/modem/pdu.c:61-71 | octet `8g+c` is character `7g+c`'s septet shifted up by `c` or-ed with the previous septet shifted right by `9-c`, and octet `8g+7` is the seventh septet shifted right by 2 |
| Pdu.PackedEnd | drivers/modem/pdu.c:75-76 | a text of `7g+c` characters packs to `8g+c` octets, then, when `c > 0`, the closing carry: the last septet shifted right by `9-c` |
| Pdu.PackSeptet | drivers/modem/pdu.c:61-71 | one pass writes the octet, moves the carry on, and after the seventh character writes the carry as an extra octet |
| Pdu.PackStep | drivers/modem/pdu.c:59-74 | one pass keeps the invariant that the octets written are the prefix of `Packed` |
| Pdu.PackClose | drivers/modem/pdu.c:75-77 | the closing carry is written when there is room; the output is a prefix of `Packed`, whole when it fits in `maxlen` |
| Pdu.Pack7bit | drivers/modem/pdu.c:56-78 | the octets written are a prefix of `Packed(t)`, all of it when it fits in `maxlen`; the count can pass `maxlen` by one only when a group's extra octet lands there |
| Pdu.UnpackedSeptet | drivers/modem/pdu.c:85-90 | septet `i` read from its byte and, when needed, the next one, is below 0x80 |
| Pdu.Septets | drivers/modem/pdu.c:83-91 | the first `n` septets, each as `UnpackedSeptet` reads it |
| Pdu.ReadSeptet | drivers/modem/pdu.c:85-90 | one loop pass of `decode7bit` returns septet `i` |
| Pdu.Decode7bit | drivers/modem/pdu.c:80-93 | the output holds `min(septetCount, outSize - 1)` septets and a NUL; later bytes are unchanged |
| Pdu.Ucs2 | drivers/modem/pdu.c:94-103 | each character is encoded as 0x00 and then its low eight bits |
| Pdu.EncodeUCS2 | drivers/modem/pdu.c:94-103 | writes as many whole characters as fit in `maxlen` octets and returns twice that count |
| Pdu.CodeUnitChar | drivers/modem/pdu.c:109-110 | a code unit below 128 prints as itself and any other as '?' |
| Pdu.Ucs2Chars | drivers/modem/pdu.c:107-111 | `n` code units decode to `n` characters |
| Pdu.DecodeUCS2 | drivers/modem/pdu.c:104-113 | the output holds `min(byteCount / 2, outSize - 1)` decoded characters and a NUL |
| Pdu.Ucs2RoundTrip | drivers/modem/pdu.c:94-113 | decoding the encoding gives back each ASCII character and '?' for every other byte-sized one |
| Pdu.Ucs2AsciiRoundTrip | drivers/modem/pdu.c:94-113 | ASCII text survives UCS2 encoding and decoding unchanged |
| Pdu.Printf02X | drivers/modem/pdu.c:133 | `%02X` prints at least two hex digits |
| Pdu.Printf02XOfByte | drivers/modem/pdu.c:133 | for a byte, `%02X` prints what `byteToHex` writes |
| Pdu.NumeralLength | drivers/modem/pdu.c:155 | a number below `16^k` prints in at most `k` hex digits |
| Pdu.UserData | drivers/modem/pdu.c:150-161 | the user data fits in the 280-octet `ud` buffer |
| Pdu.SubmitHeader | drivers/modem/pdu.c:124-149 | the fields up to the coding scheme take 14 characters plus the semi-octets |
| Pdu.UdlFits | drivers/modem/pdu.c:155-172 | the length field's digits land inside the user data hex that overwrites them |
| Pdu.Field | drivers/modem/pdu.c:124-125 | `strcpy` of a field and the pointer moved past it: the buffer before the pointer grows by the field |
| Pdu.PutSubmitHeader | drivers/modem/pdu.c:122-149 | the buffer holds the SMS-SUBMIT header and the pointer sits at its end |
| Pdu.PutHexByte | drivers/modem/pdu.c:167-170 | one pass appends the byte's two hex digits |
| Pdu.PutUserData | drivers/modem/pdu.c:165-172 | the buffer holds what came before and then the user data's hex, two digits per octet |
| Pdu.BuildUserData | drivers/modem/pdu.c:150-161 | the `ud` buffer holds `UserData(message)`, and the length field is the UCS2 octet count or the character count |
| Pdu.PutUdlAndData | drivers/modem/pdu.c:162-173 | the buffer holds the length field's first two digits, then the user data hex, then a NUL |
| Pdu.EncodePDU | drivers/modem/pdu.c:115-175 | the buffer holds the SMS-SUBMIT PDU and a NUL; the returned length is the PDU's; later bytes are unchanged |
| Pdu.HexOfReadsBack | drivers/modem/pdu.c:16-27 | hex text read back two digits at a time gives the bytes it was made from |
| Pdu.SubmitFieldsReadBack | drivers/modem/pdu.c:124-172 | each field of a SUBMIT PDU reads back as the value written there |
| Pdu.PduReadsBack | drivers/modem/pdu.c:124-172 | the PDU `encodePDU` lays out reads back as "001100", the destination length, type 91, the semi-octets, the coding scheme, the length field and the user data |
| Pdu.DestinationReadsBack | drivers/modem/pdu.c:133-192 | the destination `encodePDU` writes reads back through `decodePDU`'s address rule as the original digits |
| Pdu.Ucs2UserDataReadsBack | drivers/modem/pdu.c:152-156 | in UCS2, the user data decodes back to the ASCII message cut to 140 characters |
| Pdu.EvenUp | drivers/modem/pdu.c:191 | `(n + 1) / 2 * 2` is even and is `n` or `n + 1` |
| Pdu.FieldsFrom | drivers/modem/pdu.c:182-207 | corrected: the field positions with the whole 14-digit time stamp skipped; `None` when the PDU ends before the user data |
| Pdu.UdOctets | drivers/modem/pdu.c:208-211 | every whole hex pair after the length field, read as a byte |
| Pdu.TsPairs | drivers/modem/pdu.c:199 | at most seven time stamp octets, and only as many as fit with their NUL |
| Pdu.DcsText | drivers/modem/pdu.c:217 | the `[DCS XX]` note is 8 characters |
| Pdu.Snprintf | drivers/modem/pdu.c:217 | the text is cut to `size - 1` characters and a NUL follows |
| Pdu.CopyTimestamp | drivers/modem/pdu.c:198-205 | each copied octet's two digits are swapped, then a NUL; the rest is unchanged |
| Pdu.UdBuffer | drivers/modem/pdu.c:209-211 | the 280-octet buffer after it is filled |
| Pdu.FillBuffer | drivers/modem/pdu.c:208-211 | the buffer holds the user data octets and, past them, what it held before; `udBytes` is half the hex characters left |
| Pdu.DecodedText | drivers/modem/pdu.c:212-217 | coding scheme 0 gives `udl` septets, 8 gives `udBytes / 2` characters, any other gives the `[DCS XX]` note; all cut to the buffer |
| Pdu.DecodeMessage | drivers/modem/pdu.c:212-217 | the message buffer holds `DecodedText` and a NUL |
| Pdu.AddressField | drivers/modem/pdu.c:182-191 | past the service centre, first octet, address length and type, the pointer sits at the sender's semi-octets |
| Pdu.UserDataLength | drivers/modem/pdu.c:206-207 | reads the user data length where `FieldsFrom` says it is |
| Pdu.DecodeSender | drivers/modem/pdu.c:192 | the sender buffer holds the address digits, cut to its size |
| Pdu.DecodeTimestamp | drivers/modem/pdu.c:198-205 | the time stamp buffer holds the swapped octets that fit |
| Pdu.CodingScheme | drivers/modem/pdu.c:193-197 | reads the coding scheme past the sender and the protocol identifier |
| Pdu.DecodePDU | drivers/modem/pdu.c:177-218 | corrected: sender, time stamp and message as `decodePDU` fills them, with the time stamp skipped whole (see Findings) |
| Pdu.DeliverText | drivers/modem/pdu.c:182-211 | an SMS-DELIVER PDU's length, for any service centre, address and user data |
| Pdu.DeliverFieldsAt | drivers/modem/pdu.c:182-207 | where each DELIVER field lies, for fields of any content |
| Pdu.DeliverAt | drivers/modem/pdu.c:182-207 | the DELIVER field positions after a service centre of `S` digits and an address of `s` semi-octets |
| Pdu.FieldsFound | drivers/modem/pdu.c:182-207 | `FieldsFrom` finds the fields at those positions from the length octets it reads |
| Pdu.UdOctetsReadBack | drivers/modem/pdu.c:208-211 | user data hex whose pairs spell `ud` decodes to `ud` |
| Pdu.DeliverFieldsReadBack | drivers/modem/pdu.c:182-211 | the fields of a DELIVER PDU read back as the lengths, coding scheme and user data put there |
| Pdu.DeliverReadsBack | drivers/modem/pdu.c:182-211 | `decodePDU` finds every field of a DELIVER PDU where it was put, when the time stamp is skipped whole |
| Pdu.SenderOf | drivers/modem/pdu.c:192 | a sender is read exactly when the fields are found |
| Pdu.MessageOf | drivers/modem/pdu.c:209-217 | a decoded message is shorter than the buffer |
| Pdu.OfFields | drivers/modem/pdu.c:192-217 | the sender and message read, in terms of the fields found |
| Pdu.UcsDeliverDecodes | drivers/modem/pdu.c:192-215 | a UCS2 DELIVER PDU decodes to its address digits and its characters |
| Pdu.DecodesTo | drivers/modem/pdu.c:177-218 | a DELIVER PDU whose semi-octets spell `number` and whose UCS2 data spells `message` decodes to them |
| Pdu.DeliverRoundTrip | drivers/modem/pdu.c:115-218 | a DELIVER PDU carrying a number and an ASCII UCS2 message laid out as `encodePDU` lays them out decodes back to that number and message |
| Pdu.FieldsAsWritten | drivers/modem/pdu.c:198-207 | as written: the user data length is read `2 * TsPairs(tsSize)` characters past the time stamp's start, not 14 |
| Pdu.AsWrittenSkipsWholeTimestamp | drivers/modem/pdu.c:199 | as written, only a time stamp buffer of 15 or more skips the whole time stamp |
| Pdu.TimestampSkipCounterexample | drivers/modem/pdu.c:198-207 | with a one-character time stamp buffer, the source reads the year's digits "21" as the user data length instead of 1 |
| AtCommands.Acknowledged | drivers/modem/at_commands.c:25-33 | a set command returns 0 exactly when the send succeeded and the reply holds "OK", and `EBADMSG` otherwise |
| AtCommands.OkReplyAcknowledged | drivers/modem/at_commands.c:27 | a reply ending in the final result "OK" passes the check |
| AtCommands.SetFunctionMode | drivers/modem/at_commands.c:6-34 | nothing is sent, and `EINVAL` returned, exactly for a mode outside {0, 1, 4, 5, 6, 7}; a sent command fits `cmd[10]` and the result is the acknowledgement |
| AtCommands.FunctionModeReadBack | drivers/modem/at_commands.c:19 | the mode scans back out of "AT+CFUN=%d" |
| AtCommands.StringsOfQuoted | drivers/modem/at_commands.c:163 | how a quoted string parameter followed by more text reads back |
| AtCommands.ParametersOf | drivers/modem/at_commands.c:163 | the parameters of a command are the strings after its name |
| AtCommands.SelectCharSet | drivers/modem/at_commands.c:150-178 | a name longer than 6 characters is refused with `EINVAL` before sending; otherwise the command fits `cmd[24]` and the result is the acknowledgement |
| AtCommands.CharSetReadBack | drivers/modem/at_commands.c:163 | the modem reads the character set back as the command's one string parameter |
| AtCommands.SelectPhonebookMemoryAsWritten | drivers/modem/at_commands.c:180-218 | as written: `EINVAL` exactly for a storage name not 2 long or a password over 8; the password is appended straight after the quoted storage |
| AtCommands.PhonebookPasswordUnreadable | drivers/modem/at_commands.c:191-204 | as written, a command carrying a password is not a parameter list the modem can read |
| AtCommands.SelectPhonebookMemory | drivers/modem/at_commands.c:180-218 | corrected: the same checks and result, with the password sent as the second parameter `,"<password>"` |
| AtCommands.PhonebookReadBack | drivers/modem/at_commands.c:191 | without a password the modem reads back the storage alone |
| AtCommands.PhonebookPasswordReadBack | drivers/modem/at_commands.c:197-204 | corrected: with a password the modem reads back the storage and then the password |
| AtCommands.RssiToDb | drivers/modem/at_commands.c:135-142 | 99 ("not known") reads as 0, any other index `v` as `2 * v - 113`; the result fits `int16_t` |
| AtCommands.RssiScale | drivers/modem/at_commands.c:137 | the indices 0 to 31 cover -113 to -51 dBm, two dB apart |
| AtCommands.SignalStrength | drivers/modem/at_commands.c:117-147 | fails with `EBADMSG` exactly when the send fails, the reply lacks "OK", or the format does not match two values |
| AtCommands.GetSignalStrengthAsWritten | drivers/modem/at_commands.c:109-148 | as written: `EBADMSG` on every failure, and success only for an acknowledged reply whose first character is 'A' |
| AtCommands.GetSignalStrength | drivers/modem/at_commands.c:109-148 | corrected: `EBADMSG` on every failure; success only for an acknowledged reply that matches both numbers, and the dBm value lies in -113..397 |
| AtCommands.SignalStrengthAsWrittenRejects | drivers/modem/at_commands.c:126-133 | as written, the format starts with "AT", so every reply not starting with 'A' gives `EBADMSG` |
| AtCommands.SignalStrengthAsWrittenRejectsReply | drivers/modem/at_commands.c:126-133 | as written, the modem's actual "+CSQ" reply gives `EBADMSG` |
| AtCommands.SignalStrengthReadBack | drivers/modem/at_commands.c:109-148 | corrected: the reply to `AT+CSQ` reads back as `RssiToDb(rssi)` and the bit error rate |
| AtCommands.CsqScan | drivers/modem/at_commands.c:126-127 | the corrected format scans the reply into its two numbers |
| AtCommands.QuotePos | drivers/modem/at_commands.c:87-91 | the index of the first double quote, or the length when there is none |
| AtCommands.ClockStart | drivers/modem/at_commands.c:87-93 | reading starts just past the first quote, or at the end |
| AtCommands.ClockReadsAsWritten | drivers/modem/at_commands.c:96-101 | as written, the six `atoi` calls read at 0, 3, 6, 9, 12 and 15 past the start |
| AtCommands.ClockReadsPastBuffer | drivers/modem/at_commands.c:70-101 | as written, a 99-character reply holding "OK" and no quote passes every check, and `atoi` then reads past the 100-byte buffer |
| AtCommands.GetClock | drivers/modem/at_commands.c:59-107 | corrected: 52 without "OK"; `EBADMSG` on a failed send or a reply under 26; fields read only when the quote is followed by a whole stamp |
| AtCommands.Stamp | drivers/modem/at_commands.c:80 | the "yy/MM/dd,hh:mm:ss" stamp is 17 characters |
| AtCommands.StampLayout | drivers/modem/at_commands.c:95-101 | each field lies at its offset in the stamp, followed by a separator |
| AtCommands.FieldAtTwoDigits | drivers/modem/at_commands.c:96-101 | `atoi` at a two-digit field followed by a non-digit reads that number |
| AtCommands.ClockReadBack | drivers/modem/at_commands.c:59-107 | the reply to `AT+CCLK?` reads back as the date and time it reports |
| AtCommands.ClockOf | drivers/modem/at_commands.c:87-101 | a quoted stamp after "+CCLK: " reads back as its clock |
| AtCommands.ClockFieldReadBack | drivers/modem/at_commands.c:96-101 | field `k` of the stamp reads back from the reply |
| AtCommands.FirstMatch | drivers/modem/at_commands.c:712-758 | the index of the first table word the reply contains, with no earlier word contained; the table's length when none is |
| AtCommands.FirstMatchAt | drivers/modem/at_commands.c:712-758 | the first match is pinned down by the first word that occurs |
| AtCommands.Classify | drivers/modem/at_commands.c:704-758 | `EBADMSG` exactly on a failed send or a reply with none of the words; otherwise the code of the first word found |
| AtCommands.DialCommand | drivers/modem/at_commands.c:698 | "ATD<dial>;" cut to the 31 characters `cmd[32]` holds, whole when the dial string has at most 27 |
| AtCommands.CallDialAsWritten | drivers/modem/at_commands.c:690-761 | as written: the command fits `cmd[32]`; the dial succeeds exactly when the send did and the reply holds a word of the table (with "NO DAILTONE"), and the code is one of the seven; otherwise `EBADMSG` |
| AtCommands.CallDial | drivers/modem/at_commands.c:690-761 | corrected: the same, with the table word "NO DIALTONE" |
| AtCommands.CallAnswer | drivers/modem/at_commands.c:763-806 | the answer succeeds exactly when the send did and the reply holds CONNECT, NO CARRIER, ERROR or OK, and the code is that word's; otherwise `EBADMSG` |
| AtCommands.NotInVerbose | drivers/modem/at_commands.c:712 | a word with a character the line lacks does not occur in the line's verbose result |
| AtCommands.DialResults | drivers/modem/at_commands.c:690-761 | corrected: each verbose result of a dial classifies as its own code, "NO DIALTONE" included |
| AtCommands.NoDialtoneMisses | drivers/modem/at_commands.c:712-753 | no table word but "NO DIALTONE" occurs in that result |
| AtCommands.DialNoDialtone | drivers/modem/at_commands.c:742-746 | corrected: "NO DIALTONE" is the sixth word matched |
| AtCommands.DialNoDialtoneAsWritten | drivers/modem/at_commands.c:742 | as written ("NO DAILTONE"), the modem's "NO DIALTONE" matches no word and the dial returns `EBADMSG` |
| AtCommands.AnswerResults | drivers/modem/at_commands.c:763-806 | each verbose result of an answer classifies as its code: CONNECT, NO CARRIER, ERROR, OK |
| AtCommands.Stored | drivers/modem/at_commands.c:650-651 | `%15s` stores the word, a NUL, and leaves the rest of the number buffer |
| AtCommands.StoredText | drivers/modem/at_commands.c:650-651 | the stored number, as a C string, is the word read |
| AtCommands.Checked | drivers/modem/at_commands.c:653-675 | a line is accepted exactly when six values were stored and dir, mode and mpty are in range |
| AtCommands.ScanLines | drivers/modem/at_commands.c:650 | each token scanned with the "+CLCC" format |
| AtCommands.CallStatus | drivers/modem/at_commands.c:626-688 | `EBADMSG` and nothing written on a failed send or no "OK"; otherwise the calls listed from the tokens, 0 exactly when the first min(`max_items`, number of tokens) tokens were all accepted, so also for a reply with fewer tokens than `max_items` and for `max_items` at most 0 |
| AtCommands.FillCalls | drivers/modem/at_commands.c:644-687 | the loop writes the listed entries in order, leaves the rest of the array alone, and returns 0 exactly when the listing is complete |
| AtCommands.RunStays | drivers/modem/at_commands.c:653-675 | once a token is rejected, later tokens change nothing |
| AtCommands.RunComplete | drivers/modem/at_commands.c:646-685 | the listing is complete exactly when every token so far was accepted; every entry listed is in range |
| AtCommands.ScanClccLine | drivers/modem/at_commands.c:650-651 | a "+CLCC" line scans to its five numbers and its word |
| AtCommands.ClccReadBack | drivers/modem/at_commands.c:650-682 | the entry filled from a "+CLCC: " line holds the line's fields and, as a C string, its number; it is accepted exactly when they are in range |
| AtCommands.CheckedReads | drivers/modem/at_commands.c:653-682 | an in-range scanned line is read into an entry with its values |
| AtCommands.OkRejected | drivers/modem/at_commands.c:650-657 | the final "OK" token is not a "+CLCC" line |
| AtCommands.LinesOfClccReply | drivers/modem/at_commands.c:644-684 | `strtok` splits a "+CLCC" reply into its information lines, then "OK" |
| AtCommands.ClccReplyOk | drivers/modem/at_commands.c:637 | a "+CLCC" reply ending in "OK" passes the response check |
| AtCommands.RunFills | drivers/modem/at_commands.c:646-685 | while tokens are in-range calls, each fills the next entry |
| AtCommands.RunReads | drivers/modem/at_commands.c:677-682 | entry `j` holds what line `j` says |
| AtCommands.StepReads | drivers/modem/at_commands.c:677-682 | an in-range line after complete ones is read into the next entry |
| AtCommands.ClccListing | drivers/modem/at_commands.c:626-688 | a full reply with `k` entries to fill lists the first `k` calls as reported; it returns 0 only when `k` is at most the number of calls, since the final "OK" is otherwise scanned as a line |
| AtCommands.ListingOfScans | drivers/modem/at_commands.c:646-685 | the listing of in-range lines followed by a rejected token |
| AtCommands.ReplyConnect | drivers/modem/at_commands.c:712-716 | a verbose "CONNECT" reply matches the first word of the dial and answer tables |
| AtCommands.ReplyNoCarrier | drivers/modem/at_commands.c:718-722 | a verbose "NO CARRIER" reply matches the second word |
| AtCommands.ReplyError | drivers/modem/at_commands.c:724-728 | a verbose "ERROR" reply matches the third word |
| AtCommands.DialBusy | drivers/modem/at_commands.c:730-734 | a verbose "BUSY" reply to a dial matches the fourth word |
| AtCommands.DialNoAnswer | drivers/modem/at_commands.c:736-740 | a verbose "NO ANSWER" reply to a dial matches the fifth word |
| AtCommands.DialOk | drivers/modem/at_commands.c:748-752 | a verbose "OK" reply to a dial matches the seventh and last word, "OK" |
| Modem.Toggled | drivers/modem/modem.c:9-22 | the toggle asks for full mode exactly from airplane mode, and for airplane mode from every other |
| Modem.Radio.constructor | drivers/modem/modem.c:4 | the mode starts at `MODE_MIN` |
| Modem.Radio.ToggleAirplane | drivers/modem/modem.c:6-25 | requests the toggled mode, returns the set result unchanged, and takes the new mode only when that result is 0 |
| Modem.FirstToggle | drivers/modem/modem.c:4-25 | the first toggle after start-up asks for airplane mode |
| Modem.Init | drivers/modem/modem.c:27-131 | stops after "AT" with its send status unless acknowledged; after "AT+CPIN?" with its status or `EBUSY` unless the SIM is ready; after "AT+CFUN=1" with 0 unless acknowledged; then returns `EBADMSG` exactly when "AT+CMGF=1" is not acknowledged |
| ModemTerminal.ReadLine | drivers/modem/modem_terminal.c:21-61 | the line reader consumes some of the input, at least one character when it finishes with room left |
| ModemTerminal.ReadLineBounds | drivers/modem/modem_terminal.c:21-61 | the line holds at most `max_len - 1` printable characters; HAL_OK comes exactly from a line break or a full buffer, and a receive error is returned as it is |
| ModemTerminal.Typed | drivers/modem/modem_terminal.c:31 | typed text is one received character per character |
| ModemTerminal.ReadTypedLine | drivers/modem/modem_terminal.c:39-56 | printable text ended by CR or LF reads back as that text |
| ModemTerminal.ReadLongLine | drivers/modem/modem_terminal.c:29-60 | text longer than the room is cut at the room, and reading stops there |
| ModemTerminal.Erasures | drivers/modem/modem_terminal.c:45 | a run of backspaces |
| ModemTerminal.EraseLine | drivers/modem/modem_terminal.c:45-52 | `n` backspaces remove the last `n` characters, or all when there are fewer, and never more |
| ModemTerminal.ReadLineFromUart | drivers/modem/modem_terminal.c:21-61 | the buffer holds the line the reader defines, NUL-terminated within `max_len`, and the status is the reader's |
| ModemTerminal.ReadStep | drivers/modem/modem_terminal.c:31-56 | one received character: an error returns, a break ends the line, a backspace or DEL drops one character if any, a printable one is stored, any other is dropped |
| ModemTerminal.InitNote | drivers/modem/modem_terminal.c:71-78 | corrected: start-up reports success exactly when `modem_init` returns 0 |
| ModemTerminal.InitNoteAsWritten | drivers/modem/modem_terminal.c:71-78 | as written, every start-up result gets the other message, and a successful one reads as failed |
| ModemTerminal.SendNote | drivers/modem/modem_terminal.c:112-119 | corrected: a command is reported answered exactly when `modem_send_command` returns 0 |
| ModemTerminal.SendNoteAsWritten | drivers/modem/modem_terminal.c:112-119 | as written, every command gets the other message, and an answered one reads as not sent |
| ModemTerminal.Trimmed | drivers/modem/modem_terminal.c:104-109 | trimming keeps a prefix that does not end in CR or LF, and drops only CRs and LFs |
| ModemTerminal.TrimmedLine | drivers/modem/modem_terminal.c:104-109 | a line of printable characters is left as it is |
| ModemTerminal.TrimBreaks | drivers/modem/modem_terminal.c:104-109 | the buffer's text becomes its trimmed text; only trailing CRs and LFs are overwritten, with NUL |
| ModemTerminal.TrimStep | drivers/modem/modem_terminal.c:106-108 | dropping one trailing break does not change the trimmed text |
| ModemTerminal.TrimEnd | drivers/modem/modem_terminal.c:104-109 | when the loop stops, the buffer holds the trimmed text |
| ModemTerminal.HandleLine | drivers/modem/modem_terminal.c:93-119 | corrected: reports each command with `SendNote`; stops exactly on "exit"; an empty line sends nothing; any other line is sent and reported |
| ModemTerminal.TerminalRun | drivers/modem/modem_terminal.c:63-121 | corrected: the start-up message of `InitNote`, then the messages of the session the input makes, ending exactly when "exit" is read |
| ModemTerminal.SessionStep | drivers/modem/modem_terminal.c:82-120 | one turn of the loop: a read error or an empty line goes on, "exit" stops, any other line is sent and the session goes on |
| ModemTerminal.TypedCommand | drivers/modem/modem_terminal.c:82-120 | a typed command and a break send that command, or stop on "exit" |
| ModemTerminal.SessionCommands | drivers/modem/modem_terminal.c:82-120 | every command sent is non-empty, printable, shorter than the buffer, and not "exit" |
| Multitap.KeyChars | ui/multitap.c:5-19 | every mapped key has 1 to 5 characters and none is NUL |
| Multitap.DigitComesLast | ui/multitap.c:5-19 | each digit key's last character is its digit |
| Multitap.GetKeyMapping | ui/multitap.c:111-118 | a mapping is returned exactly for keys 0 to 9, `*` and `#`, and it is that key's characters |
| Multitap.PressValid | ui/multitap.c:36-78 | a keypress keeps the state valid; a character is written exactly when another tap key is pressed while one is active, and then the pending character is written and the state reset; a key outside 0..`*` changes nothing |
| Multitap.CurrentCharShown | ui/multitap.c:85-109 | the current character is NUL exactly when inactive; confirming writes it and resets when active, and does nothing otherwise |
| Multitap.TapsSelect | ui/multitap.c:52-77 | `n + 1` taps of one key select its character `n mod count`, which confirming writes; repeated taps write nothing |
| Multitap.PressSameKey | ui/multitap.c:52-60 | the same key again moves to the next character, cycling |
| Multitap.SecondKeyIsDropped | ui/multitap.c:63-68 | a different key writes the pending character and is not started: nothing is pending afterwards |
| Multitap.Multitap.constructor | ui/multitap.c:21 | the state starts idle |
| Multitap.Multitap.Reset | ui/multitap.c:28-34 | no key, index 0, inactive, nothing pending |
| Multitap.Multitap.HandleKeypress | ui/multitap.c:36-78 | a NULL output returns false and changes nothing; otherwise the keypress as `Press` defines it, true exactly when a character is written |
| Multitap.Multitap.IsActive | ui/multitap.c:80-83 | whether a key is active |
| Multitap.Multitap.GetCurrentChar | ui/multitap.c:85-92 | NUL when inactive, else the pending character |
| Multitap.Multitap.ConfirmCharacter | ui/multitap.c:94-109 | a NULL output returns false; otherwise confirms, true exactly when a character is written |
| Cursors.Clamp | ui/cursor.c:15-21 | for a bound at least 0 the result lies in 0..bound, equals the value exactly when it is in range, and is the nearer end otherwise |
| Cursors.ClampMonotone | ui/cursor.c:15-21 | clamping keeps order |
| Cursors.StepBack | ui/cursor.c:11-24 | a move that stays in range is undone by the opposite move |
| Cursors.Cursor.constructor | ui/cursor.c:3-9 | position (0, 0), the given bounds, not selected |
| Cursors.Cursor.Init | ui/cursor.c:3-9 | position (0, 0), the given bounds, not selected |
| Cursors.Cursor.Move | ui/cursor.c:11-24 | the old position is written out, the new one is the moved one clamped to the bounds, and the result is true exactly when the position changed |
| Cursors.Cursor.Select | ui/cursor.c:26-28 | flips the selection between 0 and 1 and keeps the rest |
| Cursors.Cursor.Reset | ui/cursor.c:30-33 | zeroes the position and selection and keeps the bounds |
| Tiles.TileToPixels | include/ui/tile.h:10-13 | a tile on the 8 x 9 grid lies on the 240 x 320 panel below the navigation bar |
| Tiles.TilesDisjoint | include/ui/tile.h:10-13 | no pixel belongs to two tiles |
| Tiles.At | ui/tile.c:20-29 | position `k` of the row-major order is on the grid at index `k` |
| Tiles.AtRowCol | ui/tile.c:20-29 | each grid tile has its place in the row-major order |
| Tiles.AllTiles | ui/tile.c:12-18 | exactly the tiles of the grid |
| Tiles.Mark | ui/tile.c:6-10 | an on-grid tile is added to the dirty set; an off-grid one changes nothing |
| Tiles.MarkedAllIs | ui/tile.c:6-10 | a run of marks adds exactly its on-grid tiles |
| Tiles.DirtyInOrder | ui/tile.c:20-29 | the tiles drawn are exactly the dirty tiles before the given position |
| Tiles.FlushDrawsDirty | ui/tile.c:20-29 | a flush draws the dirty tiles in row-major order and leaves dirty only those not reached |
| Tiles.FlushCleans | ui/tile.c:20-29 | after a whole flush nothing is dirty, even tiles the callback marked again while drawing |
| Tiles.TileGrid.constructor | ui/tile.c:4 | nothing is dirty |
| Tiles.TileGrid.MarkTileDirty | ui/tile.c:6-10 | the dirty set gains the tile when it is on the grid |
| Tiles.TileGrid.MarkAllTilesDirty | ui/tile.c:12-18 | every tile is dirty |
| Tiles.TileGrid.MarkAll | ui/tile.c:6-10 | the dirty set gains the run's on-grid tiles |
| Tiles.TileGrid.FlushTile | ui/tile.c:22-27 | one step of the flush loop, as the flush run defines it |
| Tiles.TileGrid.FlushDirtyTiles | ui/tile.c:20-29 | the drawing and the dirty set are those of the whole flush run |
| Menu.Next | ui/pages/menu.c:79-84 | the selection moves two rows on and wraps to 0 past row 8, so it cycles 0, 2, 4, 6, 8 |
| Menu.PressesCycle | ui/pages/menu.c:79-84 | after `n` inputs the selection is `2 (n mod 5)` |
| Menu.NeverHighlighted | ui/pages/menu.c:10-18 | "Calendar" and "Settings" are never selected |
| Menu.DrawTile | ui/pages/menu.c:72-77 | only column 0 draws; an odd row draws the even row before it, with that row's item, highlighted exactly when it is selected |
| Menu.MarksAreHighlightChanges | ui/pages/menu.c:86-92 | the tiles marked after an input are exactly those whose drawing changes |
| Menu.MarkedRows | ui/pages/menu.c:86-92 | the marks add the old and new rows and the rows below them |
| Menu.DrawnRows | ui/pages/menu.c:63-70 | the loop draws one row per tile in column 0 |
| Menu.DrawLeavesGrid | ui/pages/menu.c:63-70 | as written, the loop over `TILE_ROWS * TILE_ROWS` tiles draws 11 rows, and row 10 lies off the 9-row grid |
| Menu.DrawStaysInGrid | ui/pages/menu.c:63-70 | corrected, over `TILE_ROWS * TILE_COLS` tiles: rows 0 to 8, once each, in order |
| Menu.Menu.constructor | ui/pages/menu.c:8 | the selection starts at 0 |
| Menu.Menu.HandleInput | ui/pages/menu.c:79-93 | every input moves the selection on and marks the tiles the move changes |
| Menu.Menu.DrawLoop | ui/pages/menu.c:64-69 | the rows of the first `n` tiles |
| Menu.Menu.Draw | ui/pages/menu.c:63-70 | as written: the rows of `TILE_ROWS * TILE_ROWS` tiles |
| Menu.Menu.DrawGrid | ui/pages/menu.c:63-70 | corrected: the rows of `TILE_ROWS * TILE_COLS` tiles |
| OptionOverlay.RowOf | ui/overlays/option_overlay.c:61-64 | option `y` sits on tile row `TILE_ROWS - (1 + n) + 1 + y` |
| OptionOverlay.OptionRows | ui/overlays/option_overlay.c:18-40 | for 1 to 3 options the header and the option rows lie on the grid, one row per option, the last on the bottom row |
| OptionOverlay.RowAt | ui/overlays/option_overlay.c:16-44 | the header row draws the header, each option row its caption highlighted exactly at the cursor, and every other row nothing |
| OptionOverlay.MoveMarksRedraw | ui/overlays/option_overlay.c:60-69 | a move marks exactly the tiles whose drawing changes |
| OptionOverlay.Chosen | ui/overlays/option_overlay.c:70-74 | the callback is called exactly on SELECT or key 0 when there is one: with the cursor row on SELECT and -1 on key 0 |
| OptionOverlay.Overlay.constructor | ui/overlays/option_overlay.c:97-117 | the given options, the cursor at (0, 0), not mounted |
| OptionOverlay.Overlay.HandleInput | ui/overlays/option_overlay.c:46-75 | up and down move the cursor within the options and mark the old and new rows; the callback result is `Chosen`'s |
| OptionOverlay.Overlay.DrawTile | ui/overlays/option_overlay.c:16-44 | the first draw clears the overlay and mounts it; the row drawn is `RowAt`'s |
| OptionOverlay.Overlay.Reset | ui/overlays/option_overlay.c:77-86 | the cursor back at (0, 0) with its bounds, not mounted, every tile dirty |
| OptionOverlay.Create | ui/overlays/option_overlay.c:95-118 | no page exactly when there are fewer than 1 or more than 3 options; otherwise a fresh unmounted overlay with the cursor at row 0 |
| ContactDetails.Kept | ui/pages/contacts/contact_details.c:117-122 | the contact is kept exactly when its name is non-empty, and zeroed otherwise |
| ContactDetails.Moved | ui/pages/contacts/contact_details.c:71-94 | only the pad moves the cursor |
| ContactDetails.MovedStaysOnActions | ui/pages/contacts/contact_details.c:74-85 | with the bounds the page sets, the cursor stays in column 0 and on the four actions |
| ContactDetails.DownReachesEveryAction | ui/pages/contacts/contact_details.c:74-79 | down moves to the next action until the last, and up undoes it |
| ContactDetails.NameText | ui/pages/contacts/contact_details.c:23-35 | the name, or "(Name)" when it is empty |
| ContactDetails.PhoneText | ui/pages/contacts/contact_details.c:43-53 | the number, or "(Phone)" when it is empty |
| ContactDetails.RowAt | ui/pages/contacts/contact_details.c:58-65 | rows 3 to 6 draw the four actions, highlighted exactly at the cursor; other rows draw none |
| ContactDetails.Details.constructor | ui/pages/contacts/contact_details.c:113-128 | the kept contact, the cursor at (0, 0), not mounted |
| ContactDetails.Details.HandleInput | ui/pages/contacts/contact_details.c:71-94 | the cursor moves as `Moved` says, the bounds are kept, and every tile is dirty |
| ContactDetails.Details.DrawTile | ui/pages/contacts/contact_details.c:37-69 | the first draw shows the name and number texts and mounts the page; the action row is `RowAt`'s |
| ContactDetails.Details.Reset | ui/pages/contacts/contact_details.c:96-104 | the cursor back at (0, 0), not mounted, every tile dirty |
| Calendar.DaysInMonth | ui/pages/calendar.c:43-50 | 29 in February exactly of a leap year, otherwise the table's value, always 28 to 31 |
| Calendar.IsLeapYear | ui/pages/calendar.c:38-41 | every fourth year is a leap year, except a century year that 400 does not divide |
| Calendar.LeapYearInC | ui/pages/calendar.c:38-41 | the rule with C's truncating `%` agrees with the rule for every year, negative ones included |
| Calendar.Weekday | ui/pages/calendar.c:36 | the Gregorian weekday from the day count, Sunday 0 |
| Calendar.LeapStep | ui/pages/calendar.c:38-41 | each year adds one leap day exactly when it is a leap year |
| Calendar.DayNumberSteps | ui/pages/calendar.c:30-50 | the first of a month follows the last day of the month before, across the new year too |
| Calendar.DayOfWeek | ui/pages/calendar.c:53-64 | Zeller's congruence under C's truncating division gives 0 to 6 |
| Calendar.DayOfWeekSum | ui/pages/calendar.c:55-63 | the weekday is the congruence sum's remainder, shifted so Sunday is 0 |
| Calendar.CYearTermNonneg | ui/pages/calendar.c:60-62 | for a year at least 0 the C year terms are the mathematical ones |
| Calendar.MonthTerm | ui/pages/calendar.c:62 | `13 (m + 1) / 5` differs from the month's start day by a multiple of 7 |
| Calendar.YearTerm | ui/pages/calendar.c:60-62 | the year terms differ from the year's day count by a multiple of 7 |
| Calendar.DayNumberShifted | ui/pages/calendar.c:55-59 | counting January and February as months 13 and 14 of the year before gives the same day count |
| Calendar.DayOfWeekIsWeekday | ui/pages/calendar.c:53-64 | for year at least 1, `get_day_of_week` is the Gregorian weekday with Sunday 0 |
| Calendar.KnownDates | ui/pages/calendar.c:36-64 | 1 January 2000 is a Saturday and 16 October 2026 a Friday |
| Calendar.NavigateRoundTrip | ui/pages/calendar.c:200-220 | right moves one month on and left one back, the month stays in 1 to 12, and each undoes the other |
| Calendar.DrawGrid | ui/pages/calendar.c:92-154 | one cell per day of the month, day `i + 1` at position `first weekday + i` in 7 columns, today's marked, in 1 to 6 rows |
| Calendar.CalendarPage.constructor | ui/pages/calendar.c:243-257 | not mounted and no month chosen |
| Calendar.CalendarPage.HandleInput | ui/pages/calendar.c:193-231 | right and left navigate, unmount and mark every tile; other events change nothing |
| Calendar.CalendarPage.DrawTile | ui/pages/calendar.c:158-191 | the first draw picks the clock's month when none is chosen and mounts, placing day `i+1` at row-major slot weekday-of-the-1st plus `i` in 1 to 6 week rows and marking today; a mounted page draws nothing |
| Calculator.WithDigit | ui/pages/calculator.c:78-102 | ignored after an error; otherwise the display is edited and a new number is no longer pending, nothing else changes, and the display stays within 13 characters |
| Calculator.WithDecimal | ui/pages/calculator.c:104-121 | ignored after an error; otherwise the display gains a point ("0." on a new number) when it has room, nothing else changes, and the display stays within 13 characters |
| Calculator.AtMostOnePoint | ui/pages/calculator.c:104-118 | digits and the decimal point never give the display a second point |
| Calculator.DropZeros | ui/pages/calculator.c:81-92 | without its leading zeros a digit string starts with a non-zero digit |
| Calculator.Entered | ui/pages/calculator.c:78-102 | a typed number shows 1 to 13 characters |
| Calculator.DropZerosSnoc | ui/pages/calculator.c:81-99 | one more digit extends the number, unless all before it were zeros |
| Calculator.TypedDigits | ui/pages/calculator.c:78-102 | typing digits on a new number shows them without leading zeros, at most 13 |
| Calculator.ShowNumber | ui/pages/calculator.c:60-72 | the formatted number when it fits in 13 characters, otherwise "Error" with the error flag |
| Calculator.SetOperation | ui/pages/calculator.c:128-160 | ignored after an error; with nothing pending or a new number, the display is kept as the first operand; a division of a typed zero shows "Error"; otherwise the pending operation is carried out first |
| Calculator.CalculateResult | ui/pages/calculator.c:162-187 | ignored after an error or with no operation; a division by zero shows "Error"; otherwise the result is shown, no operation is left, and a new number is pending |
| Calculator.Calculation | ui/pages/calculator.c:128-187 | two operands and an operator show the result as the format writes it, or "Error" for a division by zero |
| Calculator.Operator | ui/pages/calculator.c:189-200 | "C" clears, the four operators and "=" act, and any other character changes nothing; the state stays well formed |
| Calculator.ButtonOf | ui/pages/calculator.c:296-326 | a tile belongs to one of the 3 x 2 buttons or to none |
| Calculator.ButtonTilesBelong | ui/pages/calculator.c:296-326 | the tiles marked for a button are exactly its own, and on the grid |
| Calculator.TileAt | ui/pages/calculator.c:202-335 | the background on (0, 0), the readout with the display on (1, 1), red after an error, and each button on its first tile, highlighted at the cursor |
| Calculator.ButtonDrawnOnce | ui/pages/calculator.c:296-326 | each button is drawn once, on its first tile |
| Calculator.CursorStaysOnButtons | ui/pages/calculator.c:359-414 | the pad keeps the cursor in columns 0 to 2 and rows 0 to 1, every button can be reached, and other keys do not move it |
| Calculator.CalculatorPage.constructor | ui/pages/calculator.c:444-461 | a cleared calculator with the cursor on the first button |
| Calculator.CalculatorPage.SetDisplay | ui/pages/calculator.c:51-72 | the display reads the string copied in |
| Calculator.CalculatorPage.SetSingle | ui/pages/calculator.c:85-88 | the display reads the one character |
| Calculator.CalculatorPage.Append | ui/pages/calculator.c:93-97 | the display reads its text with the character appended |
| Calculator.CalculatorPage.AddDigit | ui/pages/calculator.c:78-102 | the state becomes `WithDigit`'s, and the readout tile is marked unless ignored |
| Calculator.CalculatorPage.AddDecimal | ui/pages/calculator.c:104-121 | the state becomes `WithDecimal`'s, and the readout tile is marked unless ignored |
| Calculator.CalculatorPage.UpdateDisplayNumber | ui/pages/calculator.c:60-72 | the state becomes `ShowNumber`'s |
| Calculator.CalculatorPage.SetOp | ui/pages/calculator.c:128-160 | the state becomes `SetOperation`'s, and the readout is marked when something is shown |
| Calculator.CalculatorPage.CarryOut | ui/pages/calculator.c:137-158 | succeeds exactly unless it divides by zero, and then shows the result of the operands |
| Calculator.CalculatorPage.Calculate | ui/pages/calculator.c:162-187 | the state becomes `CalculateResult`'s |
| Calculator.CalculatorPage.Clear | ui/pages/calculator.c:51-58 | display "0", operands 0, no operation, a new number pending, no error |
| Calculator.CalculatorPage.HandleOperator | ui/pages/calculator.c:189-200 | the state becomes `Operator`'s |
| Calculator.CalculatorPage.MoveCursor | ui/pages/calculator.c:359-414 | the cursor moves as the pad says, and the buttons left and reached are marked |
| Calculator.CalculatorPage.HandleInput | ui/pages/calculator.c:341-434 | digits and `*` edit the display and mark its tile unless in error, the pad moves the cursor and marks the old and new buttons, SELECT presses the button under it and marks the display when an operator result shows; other keys change nothing |
| Calculator.CalculatorPage.DrawTile | ui/pages/calculator.c:328-335 | what `TileAt` says the tile shows |
| NewSms.SmsChar | ui/pages/sms/new_sms.c:224-293 | in message mode keys 0 to 9 type ' ', '.', 'a', 'd', 'g', 'j', 'm', 'p', 't', 'w' |
| NewSms.LinesFromAre | ui/pages/sms/new_sms.c:166-205 | line `k` from character `i` on holds the characters from `i + 14k`, and there are as many lines as the rest needs |
| NewSms.LinesOfMessage | ui/pages/sms/new_sms.c:166-205 | the lines hold the message in order, 14 characters to a line, every line but the last full |
| NewSms.CursorAfterText | ui/pages/sms/new_sms.c:105-121 | the cursor `(len mod 14, len / 14)` stands right after the last character drawn |
| NewSms.WrapLines | ui/pages/sms/new_sms.c:166-205 | the loop cuts the message into its lines |
| NewSms.NewSmsPage.constructor | ui/pages/sms/new_sms.c:334-354 | both fields empty, typing the number, the cursor at 0 |
| NewSms.NewSmsPage.AddDigit | ui/pages/sms/new_sms.c:32-42 | the digit is appended while the number has fewer than 10, the cursor stays at its end, and the number's tile is marked |
| NewSms.NewSmsPage.RemoveDigit | ui/pages/sms/new_sms.c:67-78 | the last digit is dropped when there is one |
| NewSms.NewSmsPage.AddChar | ui/pages/sms/new_sms.c:105-121 | the character is appended while the message has fewer than 140, with the cursor after it |
| NewSms.NewSmsPage.RemoveChar | ui/pages/sms/new_sms.c:140-164 | the last character is dropped when there is one, and the cursor follows; an add then a remove restores the message |
| NewSms.NewSmsPage.HandleInput | ui/pages/sms/new_sms.c:221-329 | a digit key types into the current field, left erases, up and down switch fields with the cursor at the field's end, each marking the tile of the field it changes; other keys leave the tiles alone, and only LEFT leaves the page |
| NewSms.NewSmsPage.DrawTile | ui/pages/sms/new_sms.c:206-218 | rows 0 and 1 draw the number, rows 2 and 3 the message lines with the cursor in message mode, others nothing |
| Call.KeyChar | ui/pages/phone/call.c:179-216 | exactly the digit keys, `*` and `#` type a character, their own |
| Call.KeyCharInjective | ui/pages/phone/call.c:179-216 | no two keys type the same character |
| Call.TypedKeys | ui/pages/phone/call.c:40-52 | up to 10 keys type their characters in order |
| Call.Placed | ui/pages/phone/call.c:82-90 | calling starts from idle exactly with a non-empty number, and nothing else changes the status |
| Call.PlacedTwice | ui/pages/phone/call.c:82-90 | placing a call twice is placing it once |
| Call.CallPage.constructor | ui/pages/phone/call.c:247-266 | no number, idle |
| Call.CallPage.AddDigit | ui/pages/phone/call.c:40-52 | the character is appended while the number has fewer than 10 and its tiles marked; the status is kept |
| Call.CallPage.RemoveDigit | ui/pages/phone/call.c:68-80 | the last character is dropped when there is one |
| Call.CallPage.MakeCall | ui/pages/phone/call.c:82-90 | the status becomes `Placed`'s, and every tile is marked when it changed |
| Call.CallPage.HangUpCall | ui/pages/phone/call.c:92-100 | the status becomes idle, and every tile is marked when it was not |
| Call.CallPage.HandleInput | ui/pages/phone/call.c:179-230 | typing keys append and left erases, marking the number tiles when the number changes; pickup calls and hangup hangs up, marking every tile when the status changes |
| Call.CallPage.Reset | ui/pages/phone/call.c:232-237 | the number cleared, idle, cursor at 0 |
| Messages.LayoutInOrder | ui/pages/sms/messages.c:13-35 | each glyph drawn is the text's character at its offset, and the offsets rise strictly, so characters are drawn in text order and each at most once |
| Messages.LayoutSkipsLeadingSpaces | ui/pages/sms/messages.c:23-28 | every non-space character is drawn; a space is left out exactly when it would start a line |
| Messages.LayoutKeepsMargin | ui/pages/sms/messages.c:15-21 | no glyph lies left of the start column, and a glyph reaches past the right margin only when it is the first on its line |
| Messages.LayoutSteps | ui/pages/sms/messages.c:15-33 | the first glyph is at the pen or at the start of the next line (one line height down); each later glyph is one character width right of the previous one or starts a new line |
| Messages.LayoutFitsWidth | ui/pages/sms/messages.c:15-21 | when one character fits the width, nothing drawn from the left edge reaches past the right margin |
| Messages.DrawWrappedText | ui/pages/sms/messages.c:6-35 | the method's loop draws exactly the glyphs of the layout function, in order |
| Messages.MessagePage.constructor | ui/pages/sms/messages.c:87-105 | sender and message are copied with strncpy into equal-sized buffers and cut to one byte less, NUL-terminated |
| Messages.MessagePage.DrawBody | ui/pages/sms/messages.c:52-58 | the body is laid out 15 pixels inside tile (0, 1), 30 pixels narrower than the grid, at size 2, and stays within those margins |
| Messages.MessagePage.HandleInput | ui/pages/sms/messages.c:68-76 | a reply to the sender is opened exactly on LEFT; other events do nothing |
| Sweeper.RevealOutcome | ui/pages/games/sweeper.c:69-162 | a flag stops a reveal; it explodes exactly on an unflagged mine; it uncovers exactly an unflagged non-mine that is hidden, or a revealed non-zero number reached by a recursive call |
| Sweeper.Revealed | ui/pages/games/sweeper.c:80-162 | an ignored reveal leaves the cell alone; any other reveal unhides it and marks it for a redraw, keeping its value and flag |
| Sweeper.RevealSettles | ui/pages/games/sweeper.c:69-162 | revealing a cell twice changes it no further than once, and the second reveal explodes exactly when the first did |
| Sweeper.UncoverClears | ui/pages/games/sweeper.c:158-162 | an uncovered cell counts as cleared for the win check, and was not before |
| Sweeper.U8 | ui/pages/games/sweeper.c:99 | a value stored in a uint8_t is in 0..255 and keeps any value already in that range |
| Sweeper.CountsNeverSet | ui/pages/games/sweeper.c:231-246 | (as written) the offset loops start from the uint8_t value of -1 (255), which already fails `< 2`, so no count is ever added: a cell next to a mine keeps the count 0 that the signed loop would have made 1 |
| Sweeper.IntendedCount | ui/pages/games/sweeper.c:230-246 | (corrected) with signed offsets, a cell's count is 0 exactly when no mine on the grid is within one step, and is at most 8 for a non-mine cell |
| Sweeper.BlockHits | ui/pages/games/sweeper.c:231-246 | the signed count is the sum of the hits of the nine cells of the 3x3 block |
| Sweeper.SweeperGame.constructor | ui/pages/games/sweeper.c:441-455 | the page starts zeroed and then restarted as `init_game` does |
| Sweeper.SweeperGame.InitGame | ui/pages/games/sweeper.c:254-281 | START, the cursor in the middle with the grid's bounds, and every cell hidden, unflagged, 0 and due for a redraw |
| Sweeper.SweeperGame.ResetCells | ui/pages/games/sweeper.c:269-278 | every cell of the grid is reset to hidden, unflagged, 0 and due for a redraw |
| Sweeper.SweeperGame.HasWon | ui/pages/games/sweeper.c:164-185 | the win check succeeds exactly when every mine is flagged and every other cell is revealed |
| Sweeper.SweeperGame.BoardReveal | ui/pages/games/sweeper.c:69-191 | (as written) only the cell at (x, y) changes, as RevealOutcome and Revealed say, because the uint8_t offset loops never reveal a neighbour; a mine gives GAME_OVER, an uncovered cell gives GAME_WIN exactly when the win check holds, and otherwise the state is kept |
| Sweeper.SweeperGame.BoardInit | ui/pages/games/sweeper.c:196-249 | mines go only on distinct cells outside the 3x3 block around the first reveal, at most 20 of them, and all 20 unless the rand() values run out; no count is added (as written) |
| Sweeper.SweeperGame.ToggleFlag | ui/pages/games/sweeper.c:307-311 | KEYPAD_2 on a hidden cell flips its flag and changes nothing else |
| Sweeper.SweeperGame.FirstReveal | ui/pages/games/sweeper.c:286-292 | SELECT in START lays the board around the cursor and reveals the cursor's cell, which is never a mine, so the game goes to ALIVE or WIN; at most the mine limit of mines are laid, none next to the cursor, and every other cell only gains its mine |
| Sweeper.SweeperGame.HandleInput | ui/pages/games/sweeper.c:283-328 | dispatches SELECT (first reveal, restart after OVER or WIN, or a reveal), KEYPAD_2 (flag) and the D-pad (cursor move) as the source's branch chain does; the first reveal's board is stated cell by cell |
| CallStateTask.Bits | kernel/tasks/call_state.c:72-123 | every command that is taken also sets the DISPLAY event bit |
| CallStateTask.Step | kernel/tasks/call_state.c:72-123 | a hang-up always returns to IDLE; the state becomes ACTIVE exactly on ANSWER while RINGING or when already ACTIVE and not hung up; ENDING is never entered |
| CallStateTask.ActiveOnlyAfterAnswer | kernel/tasks/call_state.c:91-97 | a command sequence from IDLE that ends in ACTIVE holds an ANSWER given while RINGING |
| CallStateTask.NeverRestsInEnding | kernel/tasks/call_state.c:113-121 | no command sequence from IDLE leaves the machine in ENDING |
| CallStateTask.DisplayFor | kernel/tasks/call_state.c:34-69 | IDLE posts nothing; ENDING posts without a caller id; the other states post with the caller id |
| CallStateTask.DisplayForInjective | kernel/tasks/call_state.c:41-68 | different states post different display commands |
| CallStateTask.CallStateContext.constructor | kernel/tasks/call_state.c:193-232 | IDLE, no event bits, an empty queue and a zeroed caller id |
| CallStateTask.CallStateContext.CopyCallerId | kernel/tasks/call_state.c:84-85 | the caller id holds at most 31 characters of the data and ends in a NUL |
| CallStateTask.CallStateContext.ProcessCommand | kernel/tasks/call_state.c:72-123 | the state moves as Step says; the event bits gain Bits(cmd) exactly when the state allows the command; INCOMING and DIALLING copy the caller id only when taken and data is given |
| CallStateTask.CallStateContext.UpdateDisplay | kernel/tasks/call_state.c:34-69 | without a display task nothing is posted; otherwise the post is DisplayFor of the current state |
| CallStateTask.SetDisplayContext | kernel/tasks/call_state.c:234-240 | a null context is ignored; otherwise only the display link changes |
| CallStateTask.PostCommand | kernel/tasks/call_state.c:242-254 | false without a context or queue; otherwise the message is appended exactly when the 5-slot queue has room |
| CallStateTask.GetCurrentState | kernel/tasks/call_state.c:256-264 | IDLE without a context, otherwise the context's state |
| CellularTask.SignalBars | kernel/tasks/cellular_task.c:4-17 | 0 to 5 bars; 0 exactly for 0 dBm or at most -93 dBm; 5 exactly above -61 dBm |
| CellularTask.SignalBarsCountsThresholds | kernel/tasks/cellular_task.c:6-16 | for a known reading, the bars are the number of the thresholds -92, -84, -76, -68, -60 that the reading reaches |
| CellularTask.SignalBarsMonotone | kernel/tasks/cellular_task.c:6-16 | a stronger known signal never shows fewer bars |
| CellularTask.Context.PollSignal | kernel/tasks/cellular_task.c:89-104 | after a successful query the bars follow SignalBars, and a display post is added exactly when they changed; a failed query changes nothing |
| CellularTask.Context.constructor | kernel/tasks/cellular_task.c:116-134 | no signal bars and nothing posted to the display yet |
| Snake.U8 | ui/pages/games/snake.c:74-86 | a value stored in a `uint8_t` lies in 0..255 |
| Snake.HeadStep | ui/pages/games/snake.c:71-109 | as written: from a cell on the grid the head stays on the grid and moves along its direction's axis only |
| Snake.WrapStep | ui/pages/games/snake.c:93-109 | corrected: from a cell on the grid the head always leaves its cell, stays on the grid, and moves along its direction's axis only |
| Snake.WrapStepMoves | ui/pages/games/snake.c:93-109 | corrected (`WrapStep`): on signed coordinates every step leaves the cell, stays on the grid, and the opposite step comes back |
| Snake.HeadStepStallsAtTopLeft | ui/pages/games/snake.c:71-109 | as written (`HeadStep`): the head stays on the grid and moves as on the torus, except that a step left from column 0 or up from row 0 leaves it where it is |
| Snake.Moved | ui/pages/games/snake.c:59-68 | the tail is saved and each cell takes the place of the one before it behind the new head |
| Snake.MovedIs | ui/pages/games/snake.c:59-109 | arrays holding the new head before all but the last cell, with that cell saved, are the moved game |
| Snake.ShiftedCells | ui/pages/games/snake.c:59-68 | arrays shifted one slot up behind a new head hold the moved body |
| Snake.MovedHits | ui/pages/games/snake.c:111-126 | the checks after the move find exactly the head meeting a later body cell, or at length 2 the saved tail |
| Snake.TickThroughGrowth | ui/pages/games/snake.c:128-167 | a tick without a collision is the move, the growth at the apple, and the apple's new place; it hangs exactly when that place is on the body |
| Snake.SpawnAsWritten | ui/pages/games/snake.c:151-166 | as written: the first draw off the body ends the loop only while the flag is still set |
| Snake.SpawnFlagStaysCleared | ui/pages/games/snake.c:151-166 | as written, once `safe_spawn` is false no draw ends the loop |
| Snake.SpawnAsWrittenHangs | ui/pages/games/snake.c:151-166 | as written, a first draw on the body never ends, whatever the later draws |
| Snake.TickHangsForever | ui/pages/games/snake.c:147-167 | as written, a tick whose first apple draw lands on the body never returns |
| Snake.SpawnIntended | ui/pages/games/snake.c:151-166 | corrected: the apple lands on a drawn cell off the body, and no cell is found only when every draw is on the body |
| Snake.SpawnIntendedRecovers | ui/pages/games/snake.c:151-166 | corrected: a later free draw places the apple where the loop as written never ends |
| Snake.TickMovesBody | ui/pages/games/snake.c:56-170 | the head steps, every other cell follows, the tail is saved; a collision sets OVER without growth; eating appends the old tail |
| Snake.Tick | ui/pages/games/snake.c:56-170 | as written: the body grows by at most one, the head takes `HeadStep`, the old tail is saved, the direction is kept, and the state either stays or becomes OVER: a tick never wins |
| Snake.IntendedTick | ui/pages/games/snake.c:56-170 | corrected: the same with `WrapStep`, and the state stays, becomes OVER, or becomes WIN only with the grid full |
| Snake.TickStaysOnGrid | ui/pages/games/snake.c:56-170 | a tick keeps every cell on the 8 x 9 grid when the apple's new place is on it |
| Snake.FullSnakeDoesNotWin | ui/pages/games/snake.c:136-140 | as written, eating the last free cell fills the grid but leaves the state as it was, since line 139 compares |
| Snake.FullSnakeWins | ui/pages/games/snake.c:136-140 | corrected (`Grow` in `IntendedTick`): eating the last free cell sets WIN |
| Snake.LeftEdgeEndsGame | ui/pages/games/snake.c:71-126 | as written, a two-cell snake heading left from column 0 stays put and dies; corrected, it comes out on column 7 and runs on |
| Snake.Initial | ui/pages/games/snake.c:175-184 | one cell in the middle of the grid, running, an apple wanted |
| Snake.AfterInput | ui/pages/games/snake.c:249-292 | the state changes only from OVER or WIN to NEW, on the pad or SELECT; the direction changes only while running, on the pad |
| Snake.PadTurns | ui/pages/games/snake.c:270-289 | each pad key turns a running snake its way |
| Snake.Cells | ui/pages/games/snake.c:157-164 | the body is the first `snake_len` slots of the two coordinate arrays |
| Snake.SnakeGame.constructor | ui/pages/games/snake.c:175-184 | a zeroed state after `init_game` |
| Snake.SnakeGame.InitGame | ui/pages/games/snake.c:175-184 | the initial game; the direction, the apple and the other slots are kept |
| Snake.SnakeGame.ShiftBody | ui/pages/games/snake.c:59-68 | the last slot holds the old tail, slot `k` the old slot `k - 1`, and the other slots are kept |
| Snake.SnakeGame.StepHead | ui/pages/games/snake.c:70-109 | the head takes the step as written, and no other slot changes |
| Snake.SnakeGame.HitsBody | ui/pages/games/snake.c:111-126 | reports exactly the head on its own body |
| Snake.SnakeGame.Eat | ui/pages/games/snake.c:129-145 | the game as written after eating: the saved tail appended, and a new apple wanted unless the grid is full |
| Snake.SnakeGame.Advance | ui/pages/games/snake.c:56-109 | the arrays hold the moved game |
| Snake.SnakeGame.PlaceApple | ui/pages/games/snake.c:147-167 | the apple goes to the first draw when one is wanted, and `stuck` is true exactly when that draw lands on the body |
| Snake.SnakeGame.GameTick | ui/pages/games/snake.c:56-170 | the arrays and fields hold the tick of the game before, and `stuck` is true exactly when the tick as written never returns |
| Snake.SnakeGame.HandleInput | ui/pages/games/snake.c:249-292 | the state and direction change as the input says; nothing else changes |
| ContactsBPTree.RecordLength | kernel/data_structures/contacts_bptree.c:34-36 | (as written) the length byte is at most 63, and for a name shorter than 256 characters it is the name's length capped at 63 |
| ContactsBPTree.IntendedRecordLength | kernel/data_structures/contacts_bptree.c:34-36 | (corrected) the length is at most 63 and at most the name's length, and is either the whole length or 63 |
| ContactsBPTree.Record | kernel/data_structures/contacts_bptree.c:30-41 | the record is the length byte followed by that many characters of the name |
| ContactsBPTree.ReadRecord | kernel/data_structures/contacts_bptree.c:43-50 | a record is read exactly when its length byte and its characters lie inside the file, and it is those characters |
| ContactsBPTree.AppendThenRead | kernel/data_structures/contacts_bptree.c:30-50 | the record just appended reads back as the name cut to its record length, and every record already in the file reads the same as before |
| ContactsBPTree.LongNameRecordEmpty | kernel/data_structures/contacts_bptree.c:34 | (as written) a 256-character name is cast to the length byte 0 and reads back empty, where the intended cap gives 63 characters |
| ContactsBPTree.IntendedRecordRoundTrip | kernel/data_structures/contacts_bptree.c:34-38 | (corrected) with the cap applied to the full length, every name reads back as its first 63 characters, and it agrees with the as-written cap below 256 characters |
| ContactsBPTree.StrNCmp | kernel/data_structures/contacts_bptree.c:78 | strncmp gives -1, 0 or 1 |
| ContactsBPTree.StrNCmpFlip | kernel/data_structures/contacts_bptree.c:104 | swapping the strings negates the comparison |
| ContactsBPTree.StrNCmpTransitive | kernel/data_structures/contacts_bptree.c:104 | the strncmp order is transitive |
| ContactsBPTree.StrNCmpZero | kernel/data_structures/contacts_bptree.c:78 | two strings compare equal within n characters exactly when they are equal, or both reach n characters and agree on the first n |
| ContactsBPTree.KeyOf | kernel/data_structures/contacts_bptree.c:98-99 | the key is the name cut to 15 characters, with no NUL inside |
| ContactsBPTree.InsertPos | kernel/data_structures/contacts_bptree.c:103-109 | the insertion point lies between 0 and the old key count |
| ContactsBPTree.InsertPosBetween | kernel/data_structures/contacts_bptree.c:104 | every key from the insertion point up to the old count compares greater than the new key, and the key just before it does not |
| ContactsBPTree.Inserted | kernel/data_structures/contacts_bptree.c:103-113 | the leaf keeps its slot counts and holds one more key |
| ContactsBPTree.ShiftIn | kernel/data_structures/contacts_bptree.c:103-113 | the shifting loop with the new entry written at its stop gives exactly the inserted leaf |
| ContactsBPTree.InsertedShape | kernel/data_structures/contacts_bptree.c:103-113 | entries before the insertion point stay, the new key and child take that slot, entries up to the old count move one slot up, and the slots past it stay |
| ContactsBPTree.InsertKeepsWellFormed | kernel/data_structures/contacts_bptree.c:98-113 | inserting a key of fewer than 16 characters keeps a leaf well formed |
| ContactsBPTree.InsertKeepsSorted | kernel/data_structures/contacts_bptree.c:103-113 | inserting keeps a sorted leaf sorted |
| ContactsBPTree.InsertAddsEntry | kernel/data_structures/contacts_bptree.c:103-113 | the leaf's entries gain exactly the one (key, child) pair: a permutation of the old entries plus the new one |
| ContactsBPTree.EntriesOfInserted | kernel/data_structures/contacts_bptree.c:103-113 | the new entry list is the old one with (key, child) spliced in at the insertion point |
| ContactsBPTree.FindKey | kernel/data_structures/contacts_bptree.c:76-83 | (corrected) the search reports the first key equal to the name within 16 characters, and reports none exactly when no key matches |
| ContactsBPTree.InsertThenFind | kernel/data_structures/contacts_bptree.c:98-113 | a name of fewer than 16 characters is found in the leaf it was just inserted into |
| ContactsBPTree.LongNameNeverFound | kernel/data_structures/contacts_bptree.c:76-83 | (as written) a name of 16 characters or more never matches a stored key, which holds at most 15, so the search returns 0 |
| ContactsBPTree.NoneWhenNoMatch | kernel/data_structures/contacts_bptree.c:76-83 | when no key matches, the search reports none |
| ContactsBPTree.IntendedInsertThenFind | kernel/data_structures/contacts_bptree.c:98-113 | (corrected) searching by the name's key finds every inserted name, whatever its length |
| ContactsBPTree.FirstRecordLooksMissing | kernel/data_structures/contacts_bptree.c:76-83 | (as written) the first record of an empty data file sits at offset 0, so finding it returns the same 0 as a miss, while FindKey tells the two apart |
| ContactsBPTree.BPTree.constructor | kernel/data_structures/contacts_bptree.c:5-28 | each file is opened, or created empty; a new tree file holds an empty root leaf at offset 0 |
| ContactsBPTree.BPTree.ContactsAppend | kernel/data_structures/contacts_bptree.c:30-41 | the record is added at the end of the data file and its offset is the old file length; the tree is unchanged |
| ContactsBPTree.BPTree.LoadPage | kernel/data_structures/contacts_bptree.c:52-65 | the records of the leaf's first keys are read, at most 8 of them, and the next-leaf offset is returned |
| ContactsBPTree.BPTree.SearchLeaf | kernel/data_structures/contacts_bptree.c:67-84 | (as written) the child of the first key matching the name, or 0 when none matches |
| ContactsBPTree.BPTree.InsertLeaf | kernel/data_structures/contacts_bptree.c:86-120 | a full leaf (4 keys) is refused and nothing is written; otherwise the record is appended and the leaf becomes the inserted leaf for the name's key and the record's offset |
| Keypad.DebounceStep | drivers/peripherals/keypad.c:94-106 | the record always takes the level read; a change of level restarts the timer and clears the debounced flag; a held level keeps the timer and becomes debounced once 30 ms (wrapping uint32_t ticks) have passed since the change |
| Keypad.HeldPressDebounces | drivers/peripherals/keypad.c:94-106 | a released button pressed at t1 and still pressed at a scan 30 ms or more later is debounced and pressed from that scan on |
| Keypad.BounceNeverCounts | drivers/peripherals/keypad.c:95-99 | a scan that sees a new level never reports the button as debounced |
| Keypad.Pressed | drivers/peripherals/keypad.c:108-111 | a button is in the scan's state set exactly when it is debounced and pressed |
| Keypad.ButtonEvent | drivers/peripherals/keypad.c:129-134 | an index is a button exactly when its event is not INPUT_NONE |
| Keypad.ButtonEventsAreDistinct | drivers/peripherals/keypad.c:26-61 | no two buttons of the table report the same event |
| Keypad.ButtonOf | drivers/peripherals/keypad.c:26-61 | every input event other than INPUT_NONE names a button index |
| Keypad.ButtonOfInvertsEvent | drivers/peripherals/keypad.c:26-61 | every event other than INPUT_NONE comes from the button ButtonOf names, so the button table is a bijection onto the events |
| Keypad.Keypad.constructor | drivers/peripherals/keypad.c:69-80 | no button is down, latched or recorded, and every debounce record is released |
| Keypad.Keypad.Init | drivers/peripherals/keypad.c:69-80 | on a running driver, every state set is emptied and every debounce record is released |
| Keypad.Keypad.UpdateStates | drivers/peripherals/keypad.c:82-117 | each button's record takes one DebounceStep; the state set is the buttons now debounced and pressed, and the latched edges gain those not down at the previous scan |
| Keypad.Keypad.IsButtonPressed | drivers/peripherals/keypad.c:119-127 | an index past the table reports false; otherwise the result is whether the button's edge was latched, and that edge alone is cleared |
| Keypad.Keypad.ReadButton | drivers/peripherals/keypad.c:141-150 | a button is found exactly when some edge is latched; then it is the lowest latched index, its event is returned and only its edge is cleared |
| LcdController.CommandWord | drivers/display/LCD_Controller.c:53-59 | a command goes out as a 9-bit word equal to the register, with the data flag clear |
| LcdController.DataWord | drivers/display/LCD_Controller.c:61-67 | a data byte goes out with the 9th bit set, the byte in the low 8 bits |
| LcdController.Data16Words | drivers/display/LCD_Controller.c:69-84 | a 16-bit value goes out as two data words, high byte first |
| LcdController.Data16RoundTrip | drivers/display/LCD_Controller.c:73-81 | the receiver reassembles every 16-bit value from the two words sent |
| LcdController.Forwarded | drivers/display/LCD_Controller.c:95-101 | one forwarded write per value, in order |
| LcdController.Bus.WriteReg | drivers/display/LCD_Controller.c:53-59 | the bus trace gains the one command word |
| LcdController.Bus.WriteData8 | drivers/display/LCD_Controller.c:61-67 | the bus trace gains the one data word |
| LcdController.Bus.WriteData16 | drivers/display/LCD_Controller.c:69-84 | the bus trace gains the high word, then the low word |
| LcdController.Bus.WriteMultipleData | drivers/display/LCD_Controller.c:95-101 | the trace gains one LCD_IO_WriteData per element, in order |
| Drv2603.ClampStrength | drivers/peripherals/drv2603.c:34-37 | the strength is clamped to 0..100 and kept when at most 100 |
| Drv2603.Compare | drivers/peripherals/drv2603.c:42-46 | the product is cut to 32 bits before the division, so the compare value never exceeds 429496 |
| Drv2603.LraCompare | drivers/peripherals/drv2603.c:27-50 | without 32-bit overflow the LRA compare value lies between 50% and 77% of `arr` |
| Drv2603.ErmCompare | drivers/peripherals/drv2603.c:52-77 | without 32-bit overflow the ERM compare value lies between 50% and 91% of `arr` |
| Drv2603.CompareExact | drivers/peripherals/drv2603.c:42-46 | without 32-bit overflow the compare value is arr times the scaled duty (5000 plus strength times slope) over 10000 |
| Drv2603.CompareBounds | drivers/peripherals/drv2603.c:42-46 | without 32-bit overflow the compare value lies between 50% of arr and (50 + slope)% of arr |
| Drv2603.CompareMonotone | drivers/peripherals/drv2603.c:42-46 | without 32-bit overflow a stronger setting never gives a smaller compare value |
| Drv2603.Driver.Init | drivers/peripherals/drv2603.c:6-18 | a NULL timer handle gives EINVAL and stores nothing; otherwise the handle is stored and 0 returned |
| Drv2603.Driver.SetStrengthLra | drivers/peripherals/drv2603.c:27-50 | without a timer, EINVAL and nothing changes; otherwise 0 and the compare register holds the LRA compare value (slope 27) |
| Drv2603.Driver.SetStrengthErm | drivers/peripherals/drv2603.c:52-77 | without a timer, EINVAL and nothing changes; otherwise 0 and the compare register holds the ERM compare value (slope 41) |
| Ws2812.Step | drivers/peripherals/ws2812.c:61-69 | after k + 1 bits sent most significant first, an LED has shifted in the byte's top k + 1 bits |
| Ws2812.MsbBitsRoundTrip | drivers/peripherals/ws2812.c:61-69 | an LED reassembles every byte from the eight bits sent for it |
| Ws2812.Frame | drivers/peripherals/ws2812.c:78-82 | a frame carries 24 bits per pixel |
| Ws2812.PixelBits | drivers/peripherals/ws2812.c:79-81 | one pixel goes out as 24 bits |
| Ws2812.FrameAt | drivers/peripherals/ws2812.c:78-82 | pixel k occupies bits 24k to 24k + 24 of the frame |
| Ws2812.FrameRoundTrip | drivers/peripherals/ws2812.c:78-82 | each LED along the strip latches the green, red and blue set for it |
| Ws2812.Strip.SetPixel | drivers/peripherals/ws2812.c:19-29 | an index of 17 or more gives EINVAL and changes nothing; otherwise 0 and only that pixel is set |
| Ws2812.Strip.Clear | drivers/peripherals/ws2812.c:31-38 | the first n pixels, n clamped to 17, are zeroed and the rest are kept; always 0 |
| Ws2812.Strip.SendByte | drivers/peripherals/ws2812.c:61-69 | the line gains the byte's bits, bit 7 first |
| Ws2812.Strip.SendPixel | drivers/peripherals/ws2812.c:79-81 | the line gains the pixel's green, red and blue bytes |
| Ws2812.Strip.SendPixels | drivers/peripherals/ws2812.c:78-82 | the line gains the frame of the pixels, in strip order |
| Ws2812.Strip.Update | drivers/peripherals/ws2812.c:71-89 | more than 17 pixels gives EINVAL and sends nothing; otherwise 0 and the line gains the frame of the first n pixels |
| Mcp73871.StatusInvertsPins | drivers/power/mcp73871.c:4-27 | every known charger state is decoded from exactly its own STAT1, STAT2 and PG levels |
| Mcp73871.Status | drivers/power/mcp73871.c:4-27 | UNKNOWN exactly for STAT2 low with PG high; with STAT2 high, SHUTDOWN or STANDBY exactly when STAT1 is high; SHUTDOWN or LOW_BATTERY_OUT exactly when STAT2 and PG are both high |
| Drv2603.Driver.constructor | drivers/peripherals/drv2603.c:4 | before drv2603_init no timer handle is stored |
| Ws2812.Strip.constructor | drivers/peripherals/ws2812.c:14-17 | a fresh pixel buffer and an empty data line |
| LcdController.Bus.constructor | drivers/display/LCD_Controller.c:45-51 | nothing has been sent on the bus |
| Display.Colour565 | drivers/display/display.c:507-510 | red, green and blue keep their top 5, 6 and 5 bits, in the word's top, middle and bottom fields |
| Display.Colour565Expand | drivers/display/display.c:507-510 | every RGB565 word is the packing of the colour its fields stand for |
| Display.Span | drivers/display/display.c:141-159 | the line helpers draw nothing when an end lies past the panel; otherwise they start at the smaller end and run to the larger, inclusive |
| Display.LineExtend | drivers/display/display.c:161-189 | one more pixel in the box, one step on from the last, keeps the pixels a line |
| Display.BresenhamStep | drivers/display/display.c:175-187 | from the error term after `i` and `j` steps, a step never passes the far end on either axis, and it moves on at least one |
| Display.BresenhamNext | drivers/display/display.c:175-187 | one turn of the loop keeps the error term and its bounds and moves one step on at least one axis |
| Display.GlyphIndex | drivers/display/display.c:414-416 | characters 32 to 127 select their own glyph and every other character the space |
| Display.ColumnCalls | drivers/display/display.c:423-448 | a glyph column is 8 calls, top row first |
| Display.Columns | drivers/display/display.c:420-449 | `n` glyph columns are `8n` calls |
| Display.CharCalls | drivers/display/display.c:412-450 | a character is 40 calls |
| Display.ColumnsAt | drivers/display/display.c:420-449 | call `8i + j` of a character draws row `j` of column `i`, from bit `j` of that column's byte |
| Display.StringCalls | drivers/display/display.c:452-461 | a string is 40 calls per character |
| Display.StringCallsAt | drivers/display/display.c:452-461 | character `i` is drawn at `x + 6 * size * i` by calls `40i` to `40i + 39` |
| Display.BitsRow | drivers/display/display.c:469-482 | a bitmap row is `w` calls, pixel `j` from bit `7 - j % 8` of byte `j / 8` of the row |
| Display.BitsRows | drivers/display/display.c:467-483 | `n` rows are `n * w` calls |
| Display.CounterWraps | drivers/display/display.c:465-469 | a `uint8_t` counter stepped `n` times holds `(j + n) mod 256` |
| Display.DrawBitsAsWrittenLoopsForever | drivers/display/display.c:465-469 | as written, for a bitmap wider than 255 the `uint8_t` column counter returns to 0 after 256 steps with `j < w` true throughout, so the row never ends |
| Display.Unpack | drivers/display/display.c:474 | bytes unpacked most significant bit first, 8 bits each |
| Display.UnpackAt | drivers/display/display.c:474 | bit `j` of the unpacked run is bit `7 - j % 8` of byte `j / 8` |
| Display.BitsCellReadsRow | drivers/display/display.c:463-484 | pixel `j` of row `i` is the foreground colour exactly when bit `j` of that row's unpacked bytes is set |
| Display.ProgressFill | drivers/display/display.c:530-539 | the fill never passes the frame's inside |
| Display.ProgressFillFullAndMonotone | drivers/display/display.c:530-539 | the bar is full exactly at 100 percent or more, and a larger percentage never fills less |
| Display.ProgressFillIs | drivers/display/display.c:532-538 | for a bar at least 2 wide the fill is `(width - 2) * min(percent, 100) / 100` |
| Display.FillFraction | drivers/display/display.c:536-538 | `a * p / 100` grows with `p` and reaches `a` only at 100 |
| Display.BatteryFill | drivers/display/display.c:541-558 | the fill is at most 18 and full exactly at 100 percent or more |
| Display.BatteryColour | drivers/display/display.c:553 | green exactly above 20 percent |
| Display.SignalBar | drivers/display/display.c:566-571 | bar `i` is 2 wide and `3(i + 1)` tall, in the colour when `i` is below the strength and grey otherwise |
| Display.SignalCalls | drivers/display/display.c:560-572 | five bars, in order |
| Display.SignalBarsShareBaseline | drivers/display/display.c:566-571 | bars share one bottom edge, 4 pixels apart, each 3 taller than the one before |
| Display.Canvas.constructor | drivers/display/display.c:117-121 | `display_init`: a panel of the given size with the 5x7 font, whose trace starts with the driver's `init()` call |
| Display.Canvas.FillRectangle | drivers/display/display.c:128-131 | one fill call |
| Display.Canvas.DrawRect | drivers/display/display.c:133-139 | the four edges |
| Display.Canvas.DrawVerticalLine | drivers/display/display.c:141-149 | no call when `x` or an end lies past the panel; otherwise one run from the smaller end, of the ends' distance plus one |
| Display.Canvas.DrawHorizontalLine | drivers/display/display.c:151-159 | the same along x |
| Display.Canvas.DrawLine | drivers/display/display.c:161-189 | the pixels start at `(x0, y0)`, end at `(x1, y1)`, lie in the box they span, and each is one step from the one before |
| Display.Canvas.DrawChar | drivers/display/display.c:412-450 | exactly the calls of the character's glyph |
| Display.Canvas.DrawString | drivers/display/display.c:452-461 | the calls of the characters before the NUL |
| Display.Canvas.DrawBits | drivers/display/display.c:463-484 | corrected: with counters wide enough for the size, exactly `h` rows of `w` pixels, each from its bit |
| Display.Canvas.DrawBitsRow | drivers/display/display.c:469-482 | one row of pixels, left to right |
| Display.Canvas.DrawProgressBar | drivers/display/display.c:530-539 | the white frame, the cleared inside, then the fill |
| Display.Canvas.DrawBatteryIcon | drivers/display/display.c:541-558 | the icon's calls with the fill and colour of the percentage |
| Display.Canvas.DrawSignalBars | drivers/display/display.c:560-572 | the five bars |
| St7789v.RegFrame | drivers/display/st7789v.c:226-238 | a register write is the command word and then one data word per parameter, in order |
| St7789v.BigEndian | drivers/display/st7789v.c:172-181 | a coordinate is sent as two bytes, high byte first, that make up its value |
| St7789v.Pixels | drivers/display/st7789v.c:299-305 | `n` pixel words are `2n` bus words |
| St7789v.MadctlFor | drivers/display/st7789v.c:120-138 | MADCTL is 0x60 exactly for landscape, 0xA0 exactly for landscape rotated 180, and 0x00 for every other value |
| St7789v.HeaderFieldIsLittleEndian | drivers/display/st7789v.c:334-338 | the two 16-bit halves read from the header make the little-endian 32-bit value of its four bytes |
| St7789v.Panel.constructor | drivers/display/st7789v.c:1-8 | the window starts as the whole 240 x 320 panel |
| St7789v.Panel.WriteReg | drivers/display/st7789v.c:226-238 | the trace gains exactly the command and its parameters |
| St7789v.Panel.SetOrientation | drivers/display/st7789v.c:120-138 | one MADCTL write with the orientation's parameter |
| St7789v.Panel.SetAddressWindow | drivers/display/st7789v.c:167-192 | CASET with the two column bounds, then RASET with the two row bounds |
| St7789v.Panel.WritePixel | drivers/display/st7789v.c:199-209 | a 1 x 1 window, RAMWR, and one pixel |
| St7789v.Panel.SendPixels | drivers/display/st7789v.c:299-305 | `n` pixels of one colour |
| St7789v.Panel.DrawHLine | drivers/display/st7789v.c:291-306 | the window from `(x, y)` to `(x + len - 1, y)`, RAMWR, then exactly `len` pixels |
| St7789v.Panel.DrawVLine | drivers/display/st7789v.c:308-323 | the same down a column |
| St7789v.Panel.SetDisplayWindow | drivers/display/st7789v.c:252-289 | an off-panel start falls back to 0; the end is start plus size minus 1 when it fits and the panel's last column or row otherwise |
| St7789v.Panel.DrawBitmap | drivers/display/st7789v.c:325-354 | the pixel data starts at the offset in header bytes 10 to 13; the window of the current size at `(xpos, ypos)`, RAMWR, then `Ysize` rows of `Xsize` words |
| St7789v.Panel.SendBitmap | drivers/display/st7789v.c:342-354 | the window, RAMWR, then the rows of little-endian words from the data offset |
| St7789v.Panel.StreamRows | drivers/display/st7789v.c:348-353 | `ysize` row writes forward the bitmap's next `xsize * ysize` words in order |
| St7789v.RowsTimes | drivers/display/st7789v.c:348-353 | `n` rows of `width` words are `width * n` words |
| St7789v.BitmapWords | drivers/display/st7789v.c:351 | word `j` is the little-endian pair of bytes at `index + 2j` |
| St7789v.RowStep | drivers/display/st7789v.c:351-352 | sending the next row extends the trace by the words that follow those already sent |
| St7789v.ForwardedAppend | drivers/display/st7789v.c:351 | forwarding two runs of words is forwarding their concatenation |
| Nau88c22.WriteFrame | drivers/audio/nau88c22.c:15-28 | write_reg sends the address and then the value high byte first, and the two bytes join back to the value |
| Nau88c22.JoinSplit | drivers/audio/nau88c22.c:19-20 | a register value survives being split into bytes by write_reg and joined by read_reg |
| Nau88c22.SplitJoin | drivers/audio/nau88c22.c:44 | two received bytes survive being joined and split again |
| Nau88c22.Gain | drivers/audio/nau88c22.c:175 | the gain field of a volume register is below 0x40 |
| Nau88c22.MuteWord | drivers/audio/nau88c22.c:300-318 | the mute read-modify-write sets bit 6 to `enable`, sets 0x100 on a right-channel register, and keeps every other bit |
| Nau88c22.MuteAt | drivers/audio/nau88c22.c:300-318 | one mute read-modify-write changes only its own register |
| Nau88c22.MuteOutputRegs | drivers/audio/nau88c22.c:288-343 | mute_output's effect: all four output registers muted as asked, both right ones with the update bit, nothing else touched |
| Nau88c22.ApplyMuteState | drivers/audio/nau88c22.c:551-565 | putting back a saved state makes it the state save_and_mute_all would read, mutes all outputs alike, and touches only the six mute registers |
| Nau88c22.RawVolume | drivers/audio/nau88c22.c:203-211 | a percentage at most 100 becomes `volume * 63 / 100` in six bits |
| Nau88c22.VolumePercent | drivers/audio/nau88c22.c:176-188 | a raw gain reads as a percentage at most 100, 0 exactly for 0 and 100 for 0x3F |
| Nau88c22.VolumeRoundTrip | drivers/audio/nau88c22.c:164-211 | setting a percentage and reading it back loses at most 2 points and never rounds up |
| Nau88c22.RawRoundTrip | drivers/audio/nau88c22.c:164-211 | reading a raw gain as a percentage and setting it again loses at most one step |
| Nau88c22.VolumePercentMonotone | drivers/audio/nau88c22.c:176-188 | a louder raw gain never reads as a lower percentage |
| Nau88c22.StepPercent | drivers/audio/nau88c22.c:262-283 | a step changes the percentage by 5, stopping at 100 going up and at 0 going down |
| Nau88c22.StepRoundTrip | drivers/audio/nau88c22.c:262-283 | away from the ends, a step up and then a step down return to the start |
| Nau88c22.EqReg | drivers/audio/nau88c22.c:577-597 | bands 0 to 4 select EQ1 to EQ5, one register per band |
| Nau88c22.SleepEffect | drivers/audio/nau88c22.c:121-129 | sleep sets or clears bit 6 of PWR2 only |
| Nau88c22.SleepWord | drivers/audio/nau88c22.c:124-127 | the sleep bit is set exactly when asked and no other bit moves |
| Nau88c22.HpMicEffect | drivers/audio/nau88c22.c:144-150 | the headset-mic toggle writes 0x02A or 0x015 to PWR2 and nothing else |
| Nau88c22.OutputVolumeEffect | drivers/audio/nau88c22.c:200-230 | both channels get the raw volume, the right one with the update bit, the left keeps its 0x140 bits, no other register changes |
| Nau88c22.MicVolumeEffect | drivers/audio/nau88c22.c:405-456 | the PGA register gets the raw volume in its low six bits and keeps the rest |
| Nau88c22.EqEffect | drivers/audio/nau88c22.c:569-610 | the band's register gets the gain's five low bits and keeps the rest |
| Nau88c22.MicReg | drivers/audio/nau88c22.c:405-430 | the built-in mic uses the left PGA register, the headset mic the right one, and any other channel is refused |
| Nau88c22.ApplyWritesUntouched | drivers/audio/nau88c22.c:87-101 | a register the write list never names keeps its value |
| Nau88c22.ApplyWritesLast | drivers/audio/nau88c22.c:87-101 | a register ends with the last value written to it |
| Nau88c22.InitRegisters | drivers/audio/nau88c22.c:55-101 | after init, RESET holds 0, PWR1 0x03D, PWR2 0x015, PWR3 0x06F and PLL N 0x019 |
| Nau88c22.Frames | drivers/audio/nau88c22.c:84-101 | each write in a list is one three-byte frame, in order |
| Nau88c22.FramesAppend | drivers/audio/nau88c22.c:84-101 | the frames of two write lists are the frames of each, one after the other |
| Nau88c22.ResetThenScript | drivers/audio/nau88c22.c:84-101 | the reset, the start-up writes and the configuration together equal one run of the whole script |
| Nau88c22.ApplyAppend | drivers/audio/nau88c22.c:84-101 | writing two lists one after the other equals writing their concatenation |
| Nau88c22.Codec.constructor | drivers/audio/nau88c22.c:3-13 | power-on: not initialised, nothing saved, no transfers yet |
| Nau88c22.Codec.WriteReg | drivers/audio/nau88c22.c:15-28 | one write frame is logged; the register takes the value exactly when the bus succeeds |
| Nau88c22.Codec.ReadReg | drivers/audio/nau88c22.c:30-46 | the address is logged; on success the value read is the register's |
| Nau88c22.Codec.WriteAll | drivers/audio/nau88c22.c:84-101 | on a working bus the whole list is written and logged; on a failing one only the first frame is tried |
| Nau88c22.Codec.Init | drivers/audio/nau88c22.c:48-107 | succeeds exactly when the bus does, and then the registers and the log are those of the reset and both sequences; the initialised flag is set on success |
| Nau88c22.Codec.IsMuted | drivers/audio/nau88c22.c:524-532 | reads bit 6 of the register, and 0 on a failing bus |
| Nau88c22.Codec.MuteReg | drivers/audio/nau88c22.c:300-318 | one read-modify-write of a mute bit |
| Nau88c22.Codec.MuteOutput | drivers/audio/nau88c22.c:288-343 | corrected: uninitialised does nothing; otherwise the four output registers are muted as asked, succeeding exactly when the bus does |
| Nau88c22.Codec.MuteMic | drivers/audio/nau88c22.c:345-373 | corrected: the left PGA register is muted as asked |
| Nau88c22.Codec.MuteHpMic | drivers/audio/nau88c22.c:375-403 | corrected: the right PGA register is muted as asked |
| Nau88c22.Codec.ApplyMutes | drivers/audio/nau88c22.c:551-565 | corrected: the outputs and both microphones take the given mute state |
| Nau88c22.Codec.MuteAll | drivers/audio/nau88c22.c:510-522 | corrected: everything is muted or unmuted alike |
| Nau88c22.Codec.SaveAndMuteAll | drivers/audio/nau88c22.c:534-549 | corrected: refused when uninitialised or already saved; otherwise the state read is saved, the mark set, and everything muted |
| Nau88c22.Codec.RestoreMuteState | drivers/audio/nau88c22.c:551-565 | corrected: refused unless a state is saved; otherwise the saved state is put back and the mark cleared |
| Nau88c22.Codec.Sleep | drivers/audio/nau88c22.c:109-136 | corrected: the sleep bit set under the mute guard, with the mute state put back |
| Nau88c22.Codec.SleepWrite | drivers/audio/nau88c22.c:118-129 | the read-modify-write of PWR2 |
| Nau88c22.Codec.HpMicToggle | drivers/audio/nau88c22.c:138-157 | corrected: PWR2 written under the mute guard |
| Nau88c22.Codec.ReadVolumePercent | drivers/audio/nau88c22.c:164-191 | refused when uninitialised; otherwise one read, and the percentage of the register's gain |
| Nau88c22.Codec.SetOutputVolume | drivers/audio/nau88c22.c:193-236 | corrected: the output volume written under the mute guard |
| Nau88c22.Codec.OutputVolumeWrite | drivers/audio/nau88c22.c:211-230 | the two channel writes, succeeding exactly when the bus does |
| Nau88c22.Codec.IncrementOutputVolume | drivers/audio/nau88c22.c:238-286 | corrected: the jack pin picks headphones or speaker; the left channel's percentage is stepped and set on both |
| Nau88c22.Codec.SetMicVolume | drivers/audio/nau88c22.c:405-456 | corrected: an unknown channel is refused; otherwise its PGA volume is written under the mute guard |
| Nau88c22.Codec.MicVolumeWrite | drivers/audio/nau88c22.c:430-450 | the PGA read-modify-write |
| Nau88c22.Codec.IncrementMicVolume | drivers/audio/nau88c22.c:458-508 | corrected: the channel's percentage is stepped and set |
| Nau88c22.Codec.SetEq | drivers/audio/nau88c22.c:567-616 | corrected: a band above 4 is refused; otherwise its gain is written under the mute guard |
| Nau88c22.Codec.EqWrite | drivers/audio/nau88c22.c:599-610 | the EQ read-modify-write |
| Nau88c22.Codec.SaveAndMuteAllAsWritten | drivers/audio/nau88c22.c:534-549 | as written: the mark is set before mute_all, whose mute calls are then refused, so it never succeeds, mutes nothing and the mark stays set |
| Nau88c22.Codec.MuteAllReentered | drivers/audio/nau88c22.c:510-522 | as written, mute_all under the mark changes nothing and fails |
| Nau88c22.Codec.MuteReentered | drivers/audio/nau88c22.c:288-299 | as written, a mute function under the mark returns 0 before touching a register |
| PngToBitmap.CellText | tools/png_to_bmp.py:16-20 | a pixel's cell is one character, "0" exactly when it is fully transparent and "1" otherwise |
| PngToBitmap.PngToCBitmap | tools/png_to_bmp.py:4-24 | the method's nested loops build exactly the C array text the bitmap function defines |
| PngToBitmap.BuildRow | tools/png_to_bmp.py:14-20 | the inner loop builds the cells of a row, left to right |
| PngToBitmap.RowsTextStep | tools/png_to_bmp.py:12-21 | one turn of the outer loop appends the line of row y |
| PngToBitmap.JoinedCells | tools/png_to_bmp.py:21 | a ", "-joined list of n one-character cells is 3n - 2 characters long with cell k at offset 3k |
| PngToBitmap.ReadRowText | tools/png_to_bmp.py:13-21 | a row line has a fixed length for its width, and reading its cells back gives which pixels of the row are drawn |
| PngToBitmap.ReadRowsText | tools/png_to_bmp.py:12-21 | the row lines read back, row by row, as the drawn pixels of every row |
| PngToBitmap.BitmapReadsBack | tools/png_to_bmp.py:11-22 | the output opens with the declaration of a height-by-width array, closes with "};\n", and between them holds one line per row from which the opaque pixels read back exactly |
| PngToBitmap.Run | tools/png_to_bmp.py:26-35 | without a file name the usage is printed and the exit code is 1; otherwise the bitmap is printed under the given array name, or "bitmap" by default, and the exit code is 0 |
| WavToHeader.HeaderFile.Write | tools/wav_to_h.py:9-17 | a write in append mode adds its text at the end of the file |
| WavToHeader.Kept | tools/wav_to_h.py:6 | the first 32768 samples are kept, or all of them when there are fewer |
| WavToHeader.ToSixteenBitWav | tools/wav_to_h.py:4-17 | the header file keeps what it held and gains the fragment for the rate and the kept samples |
| WavToHeader.BodyReadsBack | tools/wav_to_h.py:14 | splitting the sample line at its commas and reading each field with atoi gives back every sample |
| WavToHeader.FragmentLayout | tools/wav_to_h.py:10-17 | the fragment is the declarations of rate and count, then the sample line of the kept samples, then "\r\n};" |
| PyText.Split | tools/wav_to_h.py:14 | splitting gives at least one field, and the whole string when the separator does not occur |
| PyText.SplitField | tools/wav_to_h.py:14 | a field without the separator followed by the separator is peeled off by the split |
| PyText.SplitJoin | tools/wav_to_h.py:14 | splitting on c undoes joining with c when no item holds c |
| PyText.SignedDecimal | tools/wav_to_h.py:14 | "{}".format of an integer is non-empty and holds no comma |
| PyText.AtoiOfSignedDecimal | tools/wav_to_h.py:14 | atoi reads back the integer "{}".format printed, when a non-digit or nothing follows |
| PyText.Prefix | tools/wav_to_h.py:6 | slicing [0:n] gives the first n items, or all of them when there are fewer |
| WavToHeader.HeaderFile.constructor | tools/wav_to_h.py:9 | opening the header in append mode keeps what it held |

## Left out

- Snake.SnakeGame.GameTick: requires `snakeLen < MaxSnake`. Because line 139 of snake.c compares instead of assigning, a 72-cell snake keeps running. Its next apple then writes `snake_x[72]` past the array at snake.c:132; that out-of-bounds write is not modelled.
- Snake.SnakeGame.PlaceApple: takes one pair of `rand()` results and reports `stuck` when the loop as written would never end. The later draws of a loop that does end are left to `SpawnAsWritten` and `SpawnIntended`.
- Pdu.EncodePDU: requires `|dest| <= 62` and `|message| < 0x8000_0000`, because the source's 64-byte semi-octet buffers and `int` lengths overflow beyond these. It also requires the output array to hold the whole PDU, which the source writes without a bound check.
- Display.Canvas.DrawLine: requires coordinates below 0x1000, so the `int16_t` error term of the Bresenham loop cannot wrap; the wrap for larger coordinates is not modelled.
- Display.Canvas.DrawBits: requires the buffer to hold `h` rows of `(w + 7) / 8` bytes; the source reads past a shorter buffer.
- St7789v.Panel.DrawBitmap: requires the bitmap to hold its header and the window's pixels from the data offset on; the source reads past a shorter buffer.
- Calendar.CalendarPage.DrawTile: requires the real-time clock's month in 1 to 12, because the source indexes its month tables with it.
- AtCommands.CallStatus: requires `maxItems` not to exceed the array it fills, as the source's callers must.
- Pdu.DecodePDU: requires every field, up to the user data length, to lie inside the string (`FieldsFrom(pdu, 14).Some?`), and at most 280 user-data octets. On a shorter PDU `hexToByte` reads past the terminating NUL. On a longer one the loop at pdu.c:208-209 writes past `uint8_t buf[280]`. Both are undefined behaviour and are not modelled. A modem that follows section 9.2.3.16 of 3GPP TS 23.040 sends at most 140 user-data octets, but the firmware does not check the string it receives.
- Pdu.FillBuffer: requires at most 280 user-data octets, for the same reason: the write past `buf[280]` is not modelled.
- AtCommands.Checked: `DIR_MT`, `MODE_UNKNOWN`, `MPTY_YES` and `MAXNUMBERSTR`, used at at_commands.c:631-671, are defined in no source file. The model takes 1, 9, 1 and 16 (`DirMt`, `ModeUnknown`, `MptyYes`, `NumberSize`) from section 7.18 of 3GPP TS 27.007 and from the `%15s` conversion. The ranges `Checked` accepts, and so `CallStatus`, depend on these values.
- AtCommands.Ok, AtCommands.Connect, AtCommands.NoCarrier, AtCommands.Error, AtCommands.NoDialtone, AtCommands.Busy, AtCommands.NoAnswer: `at_call_dial` and `at_call_answer` (at_commands.c:715-751 and 779-797) assign `ATV0_CONNECT`, `ATV0_NO_CARRIER`, `ATV0_ERROR`, `ATV0_BUSY`, `ATV0_NO_ANSWER`, `ATV0_NO_DAILTONE` and `ATV0_OK`, which no source file defines, and at_commands.c:791 assigns the bare `ERROR`. The model takes the values 1, 3, 4, 7, 8, 6 and 0 of the same names without the prefix in `enum ATV0ResultCodes` (include/drivers/modem/at_commands.h:41-51).
- Debug logging: the `DEBUG_PRINTF` diagnostics of the modem drivers (for example at_commands.c:15, 700, 708 and 756) only print, and are not modelled.
- Calculator.CalculatorPage.HandleInput: the operands are reals rather than `double`s, and `atof` and the `%.6g` formatting are function parameters, so rounding and the exact text of a result are not modelled.
- Nau88c22.Codec: one `busOk` flag stands for every I2C transfer, so a sequence in which only some transfers fail is not modelled.
- mark_tile_clean: it is called from the draw_tile functions of option_overlay.c, contact_details.c, calendar.c, calculator.c, new_sms.c and call.c, but no source file defines it. The DrawTile methods return what they draw and leave the dirty-tile set as it was.
- ContactRecord is not defined in any source file. The contact details page holds the record as opaque text fields.
- LCD_IO_WriteData is declared but not defined. LcdController.Bus.WriteMultipleData records one call per word instead of its words.
- WavToHeader.ToSixteenBitWav: the `print` of the duration, the division by a sample rate of 0 (a ZeroDivisionError in Python), multi-channel sample arrays and the fixed output path are not modelled. The samples arrive as one flat sequence of integers.
- PngToBitmap.Run: the decoding by Pillow and its errors are not modelled; the decoded image is a parameter.
- Pdu.Pack7bit: the packing is not the packing of TS 23.038 section 6.1.2.1.1, and decoding its output does not give back the text (on "AB", for instance). The model follows the code and claims no round trip.
- FreeRTOS tasks, queues, event groups and delays: the task loops of call_state.c and cellular_task.c are modelled one step at a time (ProcessCommand, PollSignal). Waiting on a full queue and the hang-up's `osDelay` between ENDING and IDLE are not modelled.
- HAL_Delay, the cycle-counted bit timing and the interrupt masking of ws2812.c are timing only and are not modelled.
- The drawing-only pages, overlays and components (status bar, clock, phone, games and debug pages, menu rows, bottom bar, theme and screen stack) are not part of this model. The pages above are modelled for their state logic and for the draw calls that state decides.
- The UART, I2C, SPI and SD-card plumbing (rc7620.c, rc7620_api.c, sdcard.c, bq27441.c, lsm6dsv.c) are not part of this model. `modem_send_command` appears as a send status and a reply text.
- Floating-point code (oscillator, mixer, clock-face trigonometry, IMU scaling) is not part of this model.

## Findings

| source | as written | input that shows it | evidently intended | confidence | as-written member | corrected member |
|---|---|---|---|---|---|---|
| drivers/audio/nau88c22.c:534-549 | `save_and_mute_all` sets `mute_state_saved` before it calls `mute_all`. Each mute function that `mute_all` calls first calls `save_and_mute_all` (line 297), which sees the mark and returns 0. So `mute_all` fails, `save_and_mute_all` fails, and the mark is never cleared | after a successful init, `nau88c22_set_output_volume(50, ...)` returns 0 and writes no register; every later guarded call (sleep, hp-mic toggle, volumes, EQ) does the same | the save mutes through register writes that do not re-enter the guard and succeeds; the guarded operation then writes its register and restores the mute state | not executed | Nau88c22.Codec.SaveAndMuteAllAsWritten | Nau88c22.Codec.SaveAndMuteAll |
| drivers/modem/pdu.c:198-207 | the time stamp loop advances the read pointer only for the pairs it copies into the caller's buffer, so a buffer shorter than 15 leaves the pointer inside the time stamp | a one-character time stamp buffer: the user data length is read from the year's digits "21" instead of the real length 1 | skip all 7 time stamp octets (14 hex digits) whatever the buffer holds | not executed | Pdu.TimestampSkipCounterexample | Pdu.FieldsFrom |
| drivers/modem/at_commands.c:81-101 | only the reply's length (at least 26) is checked before six `atoi` calls at fixed offsets past the first quote; without a quote they start at the end of the string | a 99-character reply holding "OK" and no quote passes every check, and the last `atoi` starts 15 characters past the end of the 100-byte buffer | refuse with `EBADMSG` unless a whole "yy/MM/dd,hh:mm:ss" stamp follows the quote | not executed | AtCommands.ClockReadsPastBuffer | AtCommands.GetClock |
| drivers/modem/at_commands.c:126 | the `sscanf` format is "AT+CSQ: %hhd,%hhd", but the modem's reply starts "\r\n+CSQ: " | the reply "\r\n+CSQ: 20,99\r\n\r\nOK\r\n" matches nothing, so the call returns `EBADMSG` | the format " +CSQ: %hhd,%hhd": its leading space skips the "\r\n" before "+CSQ", which a literal '+' cannot match, and the two numbers are the RSSI and the bit error rate | not executed | AtCommands.SignalStrengthAsWrittenRejectsReply | AtCommands.SignalStrengthReadBack |
| drivers/modem/at_commands.c:197-204 | the password is `strcat`-ed straight after the storage's closing quote | storage "SM" and password "1234" send `AT+CPBS="SM"1234`, which is not a parameter list | `AT+CPBS="SM","1234"`, the storage and then the password as a second parameter | not executed | AtCommands.PhonebookPasswordUnreadable | AtCommands.PhonebookPasswordReadBack |
| drivers/modem/at_commands.c:742 | the dial table looks for "NO DAILTONE" | the modem's verbose result "NO DIALTONE" matches no word, so the dial returns `EBADMSG` | the ITU-T V.250 result code "NO DIALTONE" | not executed | AtCommands.DialNoDialtoneAsWritten | AtCommands.DialNoDialtone |
| ui/pages/menu.c:64 | the draw loop runs to `TILE_ROWS * TILE_ROWS` (81) | drawing the menu draws rows 9 and 10, below the 9-row grid | `TILE_ROWS * TILE_COLS` (72) tiles: rows 0 to 8, once each | not executed | Menu.DrawLeavesGrid | Menu.DrawStaysInGrid |
| drivers/display/display.c:465-469 | the row and column counters of `display_draw_bits` are `uint8_t` | a bitmap 256 pixels wide: the column counter wraps from 255 to 0 while `j < w` stays true, so the row never ends | counters as wide as `w` and `h` | not executed | Display.DrawBitsAsWrittenLoopsForever | Display.Canvas.DrawBits |
| drivers/modem/modem_terminal.c:71-78 | `if (modem_init())` takes a non-zero result, which is an error, for success | `modem_init` returning 0 prints "initialization FAILED" | report success exactly when the result is 0 | not executed | ModemTerminal.InitNoteAsWritten | ModemTerminal.InitNote |
| drivers/modem/modem_terminal.c:112-119 | `if (!modem_send_command(...))` takes the result 0, which is success, for failure | a command that the modem answers prints "Failed to send command" | report the response exactly when the result is 0 | not executed | ModemTerminal.SendNoteAsWritten | ModemTerminal.SendNote |
| ui/pages/games/snake.c:137-140 | line 139 compares `game_state == GAME_WIN` instead of assigning it | a 71-cell snake that eats the last free cell fills the grid and keeps running | set GAME_WIN | not executed | Snake.FullSnakeDoesNotWin | Snake.FullSnakeWins |
| ui/pages/games/snake.c:71-109 | the head coordinates are `uint8_t`, so a step left or up from 0 gives 255, which the bound check resets to 0 | a two-cell snake at column 0 heading left stays where it is and runs into its own tail | wrap to the opposite edge (column 7 or row 8), as the `< 0` checks intend | not executed | Snake.HeadStepStallsAtTopLeft | Snake.WrapStepMoves |
| ui/pages/games/snake.c:151-166 | the respawn loop never sets `safe_spawn` back to true, so once a draw lands on the body no later draw ends the loop | an apple's first draw on a body cell: the tick never returns, whatever `rand()` gives next | set the flag at the top of each attempt, so the first free draw places the apple | not executed | Snake.SpawnAsWrittenHangs | Snake.SpawnIntendedRecovers |
| ui/pages/games/sweeper.c:231-246 | each neighbour loop starts its `uint8_t` counter at -1, which is 255, and so never runs; the same loops at lines 99-156 never run either | a mine at (0, 0): the cell (1, 0) next to it shows 0 | signed offsets -1, 0 and 1, so each cell counts the mines around it | not executed | Sweeper.CountsNeverSet | Sweeper.IntendedCount |
| kernel/data_structures/contacts_bptree.c:34-36 | the name's length is cast to `uint8_t` before it is capped at 63 | a 256-character name is stored with the length byte 0 and reads back empty | cap the full length, so every name reads back as its first 63 characters | not executed | ContactsBPTree.LongNameRecordEmpty | ContactsBPTree.IntendedRecordRoundTrip |
| kernel/data_structures/contacts_bptree.c:76-83 | the search compares 16 characters (`MAX_KEY_LEN`) of the stored key, which the insert cut to 15, with the name | a contact inserted as a 16-character name is never found | compare the key of the name, as the insert stores it | not executed | ContactsBPTree.LongNameNeverFound | ContactsBPTree.IntendedInsertThenFind |
| kernel/data_structures/contacts_bptree.c:83 | a miss returns 0, which is also the offset of the first record in the data file | in new files holding only "Al", searching for "Al" and for "Bo" both return 0 | a miss told apart from a hit | not executed | ContactsBPTree.FirstRecordLooksMissing | ContactsBPTree.FindKey |
