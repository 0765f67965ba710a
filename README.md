# GSMTC35 driver, modelled in Dafny

`GSMTC35/GSMTC35.py` drives a Siemens TC35 GSM modem over a serial line
with AT commands. It writes a command terminated by `\r\n` and then reads
the modem's reply lines with one of three matching policies:

- the boolean match (`__waitDataContains`): the first line holding the
  expected text wins, and the error line loses;
- the single-line match (`__getNotEmptyLine`): the first non-empty line
  holding the expected text is the answer, and the error line gives "";
- the multi-line match (`__sendCmdAndGetFullResult`): every non-empty line
  before the success line is collected, and the error line gives [].

The public operations cover identification, signal strength, operators,
the clock, SMS sending, listing and deleting, call control and the SIM
PIN. They are built from these policies and from small field parsers.

This project models that core:

- `Wire` models the serial link as a value,
  `PortState(rx, script, sent)`: `rx` holds the characters received and
  not yet read, `script` the chunks the modem will deliver, and `sent` the
  log of everything written. The modem delivers one scripted chunk per
  100 ms sleep of a poll loop, so a deadline of `t` seconds is `10 * t`
  polls. `Wire` also gives the line transport and the three matching
  policies as functions.
- `Text` models the Python string and integer built-ins the parsers use
  (`in`, `split`, `int()`, `str()`).
- `Fields` models the parsers of `+CSQ`, `+COPS`, `+COPN`, `+CCLK`,
  `^SLCD`, `+CLCC` and `+CPAS` lines, and `__deleteQuote`.
- `SmsListing` models the `+CMGL` listing parser of `getSMS`, with a
  listing printer that it reads back.
- `Session` gives every public operation as a function of the port state.
- `SerialPort.Port` is the pyserial object as a class with the same three
  fields and an open flag.
- `Modem.Gsm` is the driver class itself. Its methods loop over the port
  as the source does: one character per read, an inner loop while
  characters are waiting, then a sleep. Each method is proved to return,
  and leave the port in, exactly what the matching `Wire` or `Session`
  function gives for the port as it was.
- `Exchanges` proves, for each operation, what it returns when the
  modem answers in the usual way: a bare `OK` or `ERROR`, or the reply
  lines and a final `OK`. For the calls this covers a refused hang-up, and
  for `deleteSMS` both the index and the listing paths.
- `Findings` covers three places where the code does not do what it
  evidently means to.

`setup` given no port (`_port` is `None`) reports success: pyserial then
creates the port without opening it, so nothing is sent and `is_init`
stays true. The model keeps that, with `opens` false standing for a call
without a port.

## Model

| member | source | states |
|---|---|---|
| Text.ContainsAt | GSMTC35/GSMTC35.py:195 | `content in line` holds exactly when `content` occurs at some position of `line` |
| Text.Split | GSMTC35/GSMTC35.py:470 | `str.split(",")` gives at least one piece and no piece holds the separator |
| Text.JoinSplit | GSMTC35/GSMTC35.py:470 | joining the pieces of a split with the separator gives the text back |
| Text.SplitJoin | GSMTC35/GSMTC35.py:470 | splitting a join of separator-free pieces gives the pieces back |
| Text.IntRoundTrip | GSMTC35/GSMTC35.py:474 | `int()` reads back every integer printed by `str()` |
| Text.NoDigitNoInt | GSMTC35/GSMTC35.py:474-476 | a field without any digit is refused by `int()` (the `ValueError` path) |
| Fields.DeleteQuote | GSMTC35/GSMTC35.py:132-150 | texts of at most one character come back unchanged; otherwise one leading and then one trailing quote are dropped, so the result is a slice of the input whose length is between len-2 and len |
| Fields.DeleteQuoteOfQuoted | GSMTC35/GSMTC35.py:140-150 | a text wrapped in double quotes comes back unwrapped |
| Fields.DeleteQuoteOfUnquoted | GSMTC35/GSMTC35.py:140-150 | a text neither starting nor ending with a quote is left alone |
| Fields.CsqRaw | GSMTC35/GSMTC35.py:466-476 | a raw value other than -1 comes only from a line longer than 7 that starts with `+CSQ: ` and whose first comma field parses to that value |
| Fields.RawToDbm | GSMTC35/GSMTC35.py:483-490 | the result is not -1 only for 0 <= raw < 99; then it is odd, between -113 and 83, and the raw value is (dBm + 113) / 2 |
| Fields.SignalFromLine | GSMTC35/GSMTC35.py:463-490 | the reading is -1 or an odd value between -113 and 83 |
| Fields.SignalOfCsqLine | GSMTC35/GSMTC35.py:463-490 | a `+CSQ: <rssi>,<ber>` line reads as 2*rssi - 113 for 0 <= rssi < 99 and as -1 otherwise, and its raw value is rssi |
| Fields.OperatorFromCops | GSMTC35/GSMTC35.py:432-441 | a name comes only from a line longer than 8 that starts with `+COPS: ` and has at least three fields; it is the third field unquoted |
| Fields.OperatorOfCopsLine | GSMTC35/GSMTC35.py:432-441 | the operator name is read back from a well-formed `+COPS` line |
| Fields.OperatorFromCopn | GSMTC35/GSMTC35.py:503-513 | a name comes only from a line longer than 8 that starts with `+COPN: ` and has at least two fields; it is the second field unquoted |
| Fields.OperatorOfCopnLine | GSMTC35/GSMTC35.py:503-513 | the operator name is read back from a well-formed `+COPN` line |
| Fields.OperatorNamesFrom | GSMTC35/GSMTC35.py:501-515 | there are never more names than lines, and no name is "" |
| Fields.OperatorNamesAppend | GSMTC35/GSMTC35.py:501-515 | the names of two runs of lines are the names of the first run followed by those of the second, so input order is kept |
| Fields.DateFromCclk | GSMTC35/GSMTC35.py:542-546 | a date comes only from a line longer than 8 that starts with `+CCLK: `; it is the rest of the line unquoted |
| Fields.DateOfCclkLine | GSMTC35/GSMTC35.py:542-546 | the date is read back from a well-formed `+CCLK` line |
| Fields.DurationFromSlcd | GSMTC35/GSMTC35.py:767-772 | the duration is non-empty exactly when the line is longer than 7 and starts with `^SLCD: `, and the line is then that prefix followed by the duration |
| Fields.CallStateFromClcc | GSMTC35/GSMTC35.py:790-806 | a short or wrongly prefixed line, or a non-integer third field, gives (NOCALL, ""); otherwise the state is the third field; a number comes only from a line with at least six fields and is the sixth field unquoted |
| Fields.CallStateOfClccLine | GSMTC35/GSMTC35.py:790-806 | state and number are read back from a well-formed `+CLCC` line |
| Fields.CpasPollsExclusive | GSMTC35/GSMTC35.py:684-705 | on a `+CPAS: <d>` line, "someone calling" holds exactly for d = 3 and "call in progress" exactly for d = 4 |
| Fields.CpasPollsOverlap | GSMTC35/GSMTC35.py:695-705 | a line holding both 3 and 4 makes both polls true, because they test characters anywhere in the line |
| Wire.CutLine | GSMTC35/GSMTC35.py:153-170 | the line holds no `\r\n`; the buffer was the line, `\r\n` and the rest, or the whole buffer was taken when no terminator had arrived; a non-empty buffer shrinks |
| Wire.NotEmptyLineQuiet | GSMTC35/GSMTC35.py:203-222 | with nothing received and a quiet module, the single-line match gives "" after one poll per sleep of its timeout |
| Wire.CutFramed | GSMTC35/GSMTC35.py:158-170 | a terminated line is taken exactly, with its terminator, and the rest is left untouched |
| Wire.CutPartial | GSMTC35/GSMTC35.py:158-170 | without a terminator the whole buffer is taken |
| Wire.DrainFrame | GSMTC35/GSMTC35.py:153-170 | lines sent with `\r\n` terminators are read back one by one, in order |
| Wire.WaitContains | GSMTC35/GSMTC35.py:181-200 | the boolean match writes nothing, never grows the input, and is false without reading when no poll is left |
| Wire.WaitContainsDecidedByFirstLine | GSMTC35/GSMTC35.py:192-200 | the result is true exactly when the first line that holds `content` or equals the error line holds `content` (the content check comes first) |
| Wire.WaitUndecided | GSMTC35/GSMTC35.py:192-200 | when no line decides, the match is false and the lines read are consumed |
| Wire.NotEmptyLine | GSMTC35/GSMTC35.py:203-222 | the result is "" or a non-empty single line holding `content`, and it is "" when no poll is left |
| Wire.NotEmptyLineDecidedByFirstLine | GSMTC35/GSMTC35.py:214-222 | the first deciding line decides: it is returned when it is non-empty and holds `content` (checked before the error line), otherwise "" |
| Wire.NotEmptyLineSilent | GSMTC35/GSMTC35.py:214-222 | a silent modem gives "" at the deadline |
| Wire.NotEmptyLineFramed | GSMTC35/GSMTC35.py:214-222 | with the empty text as the expected content, the first received line is the answer whenever it is non-empty, and the rest stays in the buffer |
| Wire.Collect | GSMTC35/GSMTC35.py:272-284 | the collected lines extend those collected so far (or are []), and none is "", the success line or the error line |
| Wire.FlushAndSend | GSMTC35/GSMTC35.py:173-178 | pending input is dropped and the command is logged; with a trailing payload, one chunk arrives during the 100 ms sleep before the payload is written |
| Wire.CheckCmd | GSMTC35/GSMTC35.py:287-302 | the command (and payload) are written once each, and nothing else |
| Wire.LineCmd | GSMTC35/GSMTC35.py:238-253 | the command is written once, and a non-empty answer holds `content` |
| Wire.FullCmd | GSMTC35/GSMTC35.py:256-284 | the command is written once, and every returned line is non-empty and differs from the success and error lines |
| Wire.StaleInputIgnored | GSMTC35/GSMTC35.py:269-270 | input pending before a command never changes its outcome, because it is cleared before the command is written |
| Wire.CollectFramed | GSMTC35/GSMTC35.py:272-282 | the lines before the success line are returned exactly, and the input after it is left |
| Wire.CollectRejected | GSMTC35/GSMTC35.py:279-280 | an error line gives [] whatever was collected before it |
| Wire.CollectTimedOut | GSMTC35/GSMTC35.py:273-276 | at the deadline the lines collected so far are returned |
| Wire.CollectKeeps | GSMTC35/GSMTC35.py:273-284 | a received line that is neither "", the success line nor the error line is appended, and collection goes on after it |
| Wire.CollectStops | GSMTC35/GSMTC35.py:276-277 | the success line ends collection with what was gathered, and the input after it stays unread |
| Wire.CollectRefuses | GSMTC35/GSMTC35.py:279-280 | a non-empty error line ends collection with [] |
| Wire.FullCmdReply | GSMTC35/GSMTC35.py:256-284 | a reply ended by the success line yields exactly its lines, and the input after it stays unread |
| Wire.FullCmdSilent | GSMTC35/GSMTC35.py:256-284 | a silent modem yields [] |
| Wire.WaitFramed | GSMTC35/GSMTC35.py:192-200 | on framed lines, the first deciding line gives the result and consumes the input up to it |
| Wire.LineFramed | GSMTC35/GSMTC35.py:214-222 | on framed lines, the first deciding line is the answer, or "" when it is the error line |
| Wire.CheckCmdAnswered | GSMTC35/GSMTC35.py:287-302 | a reply is decided by its first line that holds the expected text or is the error line: success exactly when that line holds the expected text; the reply is consumed and later chunks are left |
| Wire.CheckCmdAnsweredThen | GSMTC35/GSMTC35.py:287-302 | the lines after the deciding line stay in the buffer for the next read |
| Wire.WaitSkipsPartial | GSMTC35/GSMTC35.py:192-200 | a received fragment that does not decide is consumed, and the wait goes on at the next poll |
| Wire.CheckCmdPrompted | GSMTC35/GSMTC35.py:225-235 | a command with a trailing payload skips the prompt delivered during the sleep, and is decided by the reply that follows |
| Wire.LineCmdAnswered | GSMTC35/GSMTC35.py:238-253 | the first deciding line of the reply is the answer when it is non-empty and holds the expected text, otherwise ""; the lines after it stay in the buffer |
| Wire.CheckCmdUnanswered | GSMTC35/GSMTC35.py:287-302 | a reply without any deciding line makes the command fail |
| SmsListing.HeaderRecord | GSMTC35/GSMTC35.py:604-620 | a header yields a record exactly when it has at least six fields and an integer index; index, status, number, date and time are fields 0, 1, 2, 4 and 5, the last four unquoted; the body starts empty |
| SmsListing.Step | GSMTC35/GSMTC35.py:604-627 | a header stores the record being built; any other line never changes the stored records, and is skipped when no record is being built |
| SmsListing.ParseSmsLines | GSMTC35/GSMTC35.py:602-637 | the parsing loop returns exactly `ParseListing` of the lines, whose records `ListingRoundTrip`, `LastRecordTrimmed`, `LastBodyNewlineTrimmed` and `EarlierBodyNewlineKept` characterise |
| SmsListing.RunAppend | GSMTC35/GSMTC35.py:603-627 | parsing two runs of lines is parsing the first, then the second from where the first left off |
| SmsListing.OrphanLinesDropped | GSMTC35/GSMTC35.py:626-627 | lines before any header are dropped |
| SmsListing.BadHeaderDropsRecord | GSMTC35/GSMTC35.py:614-620 | a header with fewer than six fields or a non-integer index stores the previous record and starts none |
| SmsListing.BodyLinesJoined | GSMTC35/GSMTC35.py:621-625 | the body lines of a record are joined with `\n` |
| SmsListing.DraftGrows | GSMTC35/GSMTC35.py:624-628 | lines that are not headers only append to the body of the record being built, and store nothing |
| SmsListing.LastRecordTrimmed | GSMTC35/GSMTC35.py:602-637 | when the last header parses, the records are every earlier record exactly as the next header stored it, then the last record with its body built from the lines after its header and one trailing `\n` trimmed, unless an equal record is already stored |
| SmsListing.LastBodyNewlineTrimmed | GSMTC35/GSMTC35.py:632-637 | a last record whose body line ends in `\n` is stored without that `\n` |
| SmsListing.EarlierBodyNewlineKept | GSMTC35/GSMTC35.py:605-607 | a record stored by the header after it keeps the `\n` that ends its body |
| SmsListing.HeaderRoundTrip | GSMTC35/GSMTC35.py:604-620 | a header as the module prints it parses back to its record |
| SmsListing.ListablePrinted | GSMTC35/GSMTC35.py:604-625 | printed records satisfy what the parser needs: every header parses to its record and every body joins to its text |
| SmsListing.LinesRun | GSMTC35/GSMTC35.py:603-627 | parsing printed records from any state stores the record pending before them, then all but the last of them in order, and leaves the last one being built |
| SmsListing.ListingRoundTrip | GSMTC35/GSMTC35.py:602-637 | a listing of records parses back to exactly those records, in order, when the last one does not repeat an earlier one |
| SmsListing.RepeatedLastRecordDropped | GSMTC35/GSMTC35.py:630-635 | a last record equal to an earlier one is not stored again |
| Session.Check | GSMTC35/GSMTC35.py:287-302 | the command is written once and the input never grows |
| Session.Setup | GSMTC35/GSMTC35.py:81-128 | a port that did not open reports success and writes nothing; an open one is sent `ATE0`, `AT+CLIP=1` and `AT+CMGF=1`, in that order |
| Session.Info | GSMTC35/GSMTC35.py:329-391 | the identification query is written once, and a non-empty answer is a single line |
| Session.SwitchOff | GSMTC35/GSMTC35.py:402-412 | `AT^SMSO` is written once |
| Session.OperatorName | GSMTC35/GSMTC35.py:415-447 | `AT+COPS?` is written exactly when `AT+COPS=3,0` succeeded |
| Session.SignalStrength | GSMTC35/GSMTC35.py:450-492 | `AT+CSQ` is written once, and the result is -1 or an odd value between -113 and 83 |
| Session.OperatorNames | GSMTC35/GSMTC35.py:495-516 | `AT+COPN` is written once, and no name is "" |
| Session.SetDate | GSMTC35/GSMTC35.py:520-526 | the date is written quoted in `AT+CCLK=` |
| Session.GetDate | GSMTC35/GSMTC35.py:529-553 | `AT+CCLK?` is written once |
| Session.SendSms | GSMTC35/GSMTC35.py:556-569 | the number is sent in `AT+CMGS=`, then the text followed by Ctrl-Z |
| Session.ListQueries | GSMTC35/GSMTC35.py:590 | a run of `n` listing commands |
| Session.SmsLines | GSMTC35/GSMTC35.py:586-600 | the loop writes one or more listing commands and nothing else, and every line gathered is non-empty and not `OK` |
| Session.GetSms | GSMTC35/GSMTC35.py:572-639 | `getSMS` writes one or more listing commands and nothing else |
| Session.DeleteOne | GSMTC35/GSMTC35.py:305-318 | `AT+CMGD=<index>` is written once |
| Session.DeleteEach | GSMTC35/GSMTC35.py:660-664 | one delete command is written per record, in record order, and an empty listing reports success |
| Session.DeleteSms | GSMTC35/GSMTC35.py:642-666 | a selector that reads as an integer writes exactly one delete command; any other selector writes the listing, then one delete per listed record |
| Session.HangUp | GSMTC35/GSMTC35.py:670-681 | when `AT+CHUP` succeeds nothing else is written; otherwise `ATH` follows and decides |
| Session.SomeoneCalling | GSMTC35/GSMTC35.py:684-695 | `AT+CPAS` is written once |
| Session.CallInProgress | GSMTC35/GSMTC35.py:698-705 | `AT+CPAS` is written once |
| Session.Call | GSMTC35/GSMTC35.py:716-734 | the hang-up commands come first, then the dial command |
| Session.ReCall | GSMTC35/GSMTC35.py:737-752 | the hang-up commands come first, then `ATDL;` |
| Session.LastCallDuration | GSMTC35/GSMTC35.py:755-778 | `AT^SLCD` is written once |
| Session.CurrentCallState | GSMTC35/GSMTC35.py:781-807 | `AT+CLCC` is written once |
| Session.PinRequired | GSMTC35/GSMTC35.py:811-817 | `AT+CPIN?` is written once |
| Session.EnterPin | GSMTC35/GSMTC35.py:820-831 | the PIN is written in `AT+CPIN=` |
| Exchanges.SetupDecidedByTextMode | GSMTC35/GSMTC35.py:99-122 | with the port open and each command answered by a bare `OK` or `ERROR`, setup succeeds exactly when `AT+CMGF=1` is answered `OK`, whichever of the two `ATE0` and `AT+CLIP=1` get |
| Exchanges.TokenAnswered | GSMTC35/GSMTC35.py:287-302 | a command answered by a bare `OK` or `ERROR` succeeds exactly on `OK`, and the reply is consumed |
| Exchanges.InfoAnswered | GSMTC35/GSMTC35.py:329-339 | an identification reply gives its line, and the final `OK` is consumed |
| Exchanges.SignalStrengthAnswered | GSMTC35/GSMTC35.py:450-492 | a `+CSQ` reply reads as 2*rssi - 113 for 0 <= rssi < 99 and as -1 otherwise |
| Exchanges.OperatorNameAnswered | GSMTC35/GSMTC35.py:415-447 | once the format is accepted, the `+COPS` reply gives the operator name |
| Exchanges.OperatorNameRefused | GSMTC35/GSMTC35.py:423-424 | a refused format selection gives "" without asking for the name |
| Exchanges.OperatorNamesOfCopnLines | GSMTC35/GSMTC35.py:501-515 | the names of a list of `+COPN` lines are exactly their operator names, in order |
| Exchanges.CopnReplyLines | GSMTC35/GSMTC35.py:501-515 | `+COPN` lines are single lines, none of them empty, `OK` or `ERROR` |
| Exchanges.OperatorNamesAnswered | GSMTC35/GSMTC35.py:495-516 | a `+COPN` reply gives every operator name, in order, and consumes the reply |
| Exchanges.GetDateAnswered | GSMTC35/GSMTC35.py:529-553 | a `+CCLK` reply gives the date, and the final `OK` is consumed |
| Exchanges.ClockRoundTrip | GSMTC35/GSMTC35.py:520-553 | a date set and then read back from a module that keeps it is the same date |
| Exchanges.SwitchOffAnswered | GSMTC35/GSMTC35.py:402-412 | `MS OFF` reports success, and the final `OK` is consumed |
| Exchanges.LastCallDurationAnswered | GSMTC35/GSMTC35.py:755-778 | a `^SLCD` reply gives the duration, and the final `OK` is consumed |
| Exchanges.CallStateAnswered | GSMTC35/GSMTC35.py:781-807 | a `+CLCC` reply gives state and number, and its final `OK` stays unread |
| Exchanges.NoCallAnswered | GSMTC35/GSMTC35.py:788-789 | a bare `OK` (the error line of this query) gives (NOCALL, "") |
| Exchanges.CpasAnswered | GSMTC35/GSMTC35.py:684-705 | a `+CPAS: <d>` reply means someone is calling exactly for d = 3 and a call is in progress exactly for d = 4 |
| Exchanges.HangUpFallsBack | GSMTC35/GSMTC35.py:675-681 | after a refused `AT+CHUP`, `ATH` is sent and its answer is the result |
| Exchanges.CallAnswered | GSMTC35/GSMTC35.py:716-734 | after a successful hang-up, the dial command is sent and only its answer is the result |
| Exchanges.ReCallAnswered | GSMTC35/GSMTC35.py:737-752 | after a successful hang-up, `ATDL;` is sent and only its answer is the result |
| Exchanges.CallAfterRefusedHangUp | GSMTC35/GSMTC35.py:716-734 | when `AT+CHUP` is refused, `ATH` is sent, its answer is ignored, and the dial's answer alone is the result |
| Exchanges.PinReadyAnswered | GSMTC35/GSMTC35.py:811-817 | `+CPIN: READY` means no PIN is needed |
| Exchanges.PinNeededAnswered | GSMTC35/GSMTC35.py:811-817 | any other `+CPIN` answer means the PIN is needed |
| Exchanges.SendSmsAnswered | GSMTC35/GSMTC35.py:556-569 | the message is sent after the prompt, and the reply after it decides the result |
| Exchanges.LinesFrom | GSMTC35/GSMTC35.py:602-637 | every line of a listing is a header or a body line |
| Exchanges.ListingLines | GSMTC35/GSMTC35.py:602-637 | every line of a listing is a non-empty single line, and a line `OK` can only come from a message body |
| Exchanges.GetSmsAnswered | GSMTC35/GSMTC35.py:572-639 | a listing with no `OK` inside a message gives exactly the listed records, with one listing command |
| Exchanges.DeleteSmsByIndex | GSMTC35/GSMTC35.py:652-655 | a selector printed from an index deletes exactly that index, with one command |
| Exchanges.ListingPayload | GSMTC35/GSMTC35.py:590 | a listing with no `OK` inside a message is a reply of non-empty single lines, none of them `OK` |
| Exchanges.GetSmsListedThen | GSMTC35/GSMTC35.py:572-639 | a listing followed by a quiet module: the look-ahead waits out its timeout, and exactly the listed records come back with one listing command |
| Exchanges.DeleteEachSplit | GSMTC35/GSMTC35.py:660-664 | deleting the records of `a + b` is deleting those of `a`, then those of `b`, and is true exactly when both are |
| Exchanges.DeleteEachAllDeleted | GSMTC35/GSMTC35.py:650-666 | the delete loop reports true exactly when no record's delete failed, each delete meeting the port as the earlier ones left it |
| Exchanges.DeleteFailureSticks | GSMTC35/GSMTC35.py:659-666 | a failed delete at any position makes the result false, and the delete commands of all records are still sent |
| Exchanges.DeleteEachAnswered | GSMTC35/GSMTC35.py:659-666 | against one `OK` or `ERROR` per delete, the loop writes one delete per record and is true exactly when no answer was `ERROR` |
| Exchanges.DeleteSmsByListing | GSMTC35/GSMTC35.py:657-666 | a selector that is not an integer deletes exactly the records `getSMS` returns for it |
| Exchanges.DeleteSmsListed | GSMTC35/GSMTC35.py:642-666 | a message type lists, then deletes every listed record; the result is true exactly when no delete was answered `ERROR` |
| Findings.GetSmsOkInBody | GSMTC35/GSMTC35.py:588-600 | as written, an `OK` line inside a message makes the loop send the listing again; the lines gathered so far are lost, and `getSMS` returns no record |
| Findings.GetSmsRelistsEachAnswer | GSMTC35/GSMTC35.py:588-600 | as written, a module that answers `n` listing commands with the same listing holding an `OK` inside a message gets `n + 1` listing commands, and `getSMS` returns no record |
| Findings.SmsLinesRelisted | GSMTC35/GSMTC35.py:588-600 | the loop as written, against `n` such answers, writes `n + 1` listing commands and ends with no line |
| Findings.RelistRound | GSMTC35/GSMTC35.py:588-600 | a round cut at an `OK` inside a message consumes one answer, writes one listing command and starts the loop over |
| Findings.ListingUpToOk | GSMTC35/GSMTC35.py:588-590 | a listing round stops at the first `OK`, and the rest of the listing stays unread |
| Findings.LookAheadRelists | GSMTC35/GSMTC35.py:592-596 | the look-ahead finds the line after that `OK`, and the listing sent again meets a modem with nothing more to say |
| Findings.RelistedToSilence | GSMTC35/GSMTC35.py:588-600 | a round whose look-ahead finds a line starts the loop over, and whatever the next rounds return is the result |
| Findings.OkLineInMessage | GSMTC35/GSMTC35.py:572-639 | a one-record listing whose message holds a line `OK`: it parses to that record, `getSMS` as written returns none, and the corrected gathering returns it |
| Findings.GatherRest | GSMTC35/GSMTC35.py:592-596 | the corrected look-ahead writes nothing and never grows the input |
| Findings.SmsLinesGathered | GSMTC35/GSMTC35.py:586-600 | the corrected gathering writes exactly one listing command |
| Findings.GetSmsGathered | GSMTC35/GSMTC35.py:572-639 | the corrected `getSMS` writes exactly one listing command |
| Findings.GatherTail | GSMTC35/GSMTC35.py:592-596 | the corrected gathering reads the rest of a listing up to its final `OK`, keeping every inner `OK` |
| Findings.GatherRound | GSMTC35/GSMTC35.py:592-596 | one corrected round keeps the line found and every line up to the next `OK`, and gathering goes on after that `OK` |
| Findings.GatherDone | GSMTC35/GSMTC35.py:592-599 | once the port stays silent, corrected gathering ends with what it has |
| Findings.SmsLinesGatheredWhole | GSMTC35/GSMTC35.py:586-600 | corrected, a listing whose first and last lines are not `OK` comes back whole, whatever `OK` lines it holds |
| Findings.SignalSentinelClash | GSMTC35/GSMTC35.py:483-490 | as written, raw 56 is accepted and converted to -1, the "not valid" answer |
| Findings.SignalPastDocumentedRange | GSMTC35/GSMTC35.py:451-452 | as written, raw 32 gives -49 dBm, outside the documented range -113 to -51 |
| Findings.RawToDbmChecked | GSMTC35/GSMTC35.py:451-454 | corrected, the result is not -1 exactly for raw 0 to 31; it then lies between -113 and -51 and determines the raw value |
| Findings.SignalStrengthChecked | GSMTC35/GSMTC35.py:450-492 | the corrected reading is -1 or lies between -113 and -51 dBm |
| Findings.SignalCheckedAgrees | GSMTC35/GSMTC35.py:450-492 | the corrected reading keeps every reading the driver as written gives inside the documented range, gives -1 for the rest, and leaves the same port state |
| Findings.SignalCheckedAnswered | GSMTC35/GSMTC35.py:450-492 | corrected, a `+CSQ` reply reads as dBm exactly when its raw value is 0 to 31 |
| Findings.NotEmptyLineErrFirst | GSMTC35/GSMTC35.py:203-222 | the corrected single-line match never returns the error line |
| Findings.ErrFirstAgrees | GSMTC35/GSMTC35.py:214-220 | the corrected match differs from the one as written only where that one returns the error line itself; it then returns "" and leaves the same state |
| Findings.InfoChecked | GSMTC35/GSMTC35.py:329-391 | the corrected identification query never answers `ERROR` |
| Findings.InfoCheckedAgrees | GSMTC35/GSMTC35.py:329-391 | the corrected query answers everything the one as written does, except `ERROR`, which becomes "" |
| Findings.InfoErrorReplyCorrected | GSMTC35/GSMTC35.py:329-339 | on a refused query, the ID as written is `ERROR` and the corrected one is "" |
| Exchanges.InfoOnErrorReply | GSMTC35/GSMTC35.py:214-220 | as written, a refused identification query answers `ERROR` as the ID |
| Modem.Gsm.constructor | GSMTC35/GSMTC35.py:74-77 | a new driver is uninitialised, on a closed port that has received and written nothing |
| Modem.Gsm.ReadLine | GSMTC35/GSMTC35.py:153-170 | reading one character at a time up to the first `\r\n` takes exactly what `CutLine` cuts, and touches nothing else |
| Modem.Gsm.DeleteAllRxData | GSMTC35/GSMTC35.py:173-178 | pending input is dropped and nothing else changes |
| Modem.Gsm.WaitDataContains | GSMTC35/GSMTC35.py:181-200 | the polling loops return and leave exactly what `WaitContains` gives |
| Modem.Gsm.GetNotEmptyLine | GSMTC35/GSMTC35.py:203-222 | the polling loops return and leave exactly what `NotEmptyLine` gives |
| Modem.Gsm.SendLine | GSMTC35/GSMTC35.py:225-235 | the command and `\r\n` are written; with a payload, one 100 ms sleep and then the payload |
| Modem.Gsm.FlushAndSendLine | GSMTC35/GSMTC35.py:251-252 | dropping pending input and writing the command leave exactly what `FlushAndSend` gives |
| Modem.Gsm.SendCmdAndCheckResult | GSMTC35/GSMTC35.py:287-302 | returns and leaves exactly what `CheckCmd` gives |
| Modem.Gsm.SendCmdAndGetNotEmptyLine | GSMTC35/GSMTC35.py:238-253 | returns and leaves exactly what `LineCmd` gives |
| Modem.Gsm.SendCmdAndGetFullResult | GSMTC35/GSMTC35.py:256-284 | the collecting loop returns and leaves exactly what `FullCmd` gives |
| Modem.Gsm.Setup | GSMTC35/GSMTC35.py:81-128 | the previous port is closed and a fresh one is used; the result, the initialised flag and the new port agree with `Session.Setup`; the port stays open exactly when it opened and setup succeeded |
| Modem.Gsm.IsAlive | GSMTC35/GSMTC35.py:321-326 | agrees with `Check` of `AT` |
| Modem.Gsm.GetId | GSMTC35/GSMTC35.py:334-339 | agrees with `Session.Info` |
| Modem.Gsm.GetManufacturerId | GSMTC35/GSMTC35.py:329-339 | agrees with `Session.Info` of `AT+CGMI` |
| Modem.Gsm.GetModelId | GSMTC35/GSMTC35.py:342-352 | agrees with `Session.Info` of `AT+CGMM` |
| Modem.Gsm.GetRevisionId | GSMTC35/GSMTC35.py:355-365 | agrees with `Session.Info` of `AT+CGMR` |
| Modem.Gsm.GetImei | GSMTC35/GSMTC35.py:368-378 | agrees with `Session.Info` of `AT+CGSN` |
| Modem.Gsm.GetImsi | GSMTC35/GSMTC35.py:381-391 | agrees with `Session.Info` of `AT+CIMI` |
| Modem.Gsm.SetModuleToManufacturerState | GSMTC35/GSMTC35.py:394-399 | agrees with `Check` of `AT&F0` |
| Modem.Gsm.SwitchOff | GSMTC35/GSMTC35.py:402-412 | agrees with `Session.SwitchOff` |
| Modem.Gsm.GetOperatorName | GSMTC35/GSMTC35.py:415-447 | agrees with `Session.OperatorName` |
| Modem.Gsm.GetSignalStrength | GSMTC35/GSMTC35.py:450-492 | agrees with `Session.SignalStrength` |
| Modem.Gsm.GetOperatorNames | GSMTC35/GSMTC35.py:495-516 | the loop over the reply lines agrees with `Session.OperatorNames` |
| Modem.Gsm.SetCurrentDateToInternalClock | GSMTC35/GSMTC35.py:520-526 | agrees with `Session.SetDate` |
| Modem.Gsm.GetDateFromInternalClock | GSMTC35/GSMTC35.py:529-553 | agrees with `Session.GetDate` |
| Modem.Gsm.SendSMS | GSMTC35/GSMTC35.py:556-569 | agrees with `Session.SendSms` |
| Modem.Gsm.GetSMS | GSMTC35/GSMTC35.py:572-639 | the listing loop and the parsing loop together agree with `Session.GetSms` |
| Modem.Gsm.DeleteSpecificSMS | GSMTC35/GSMTC35.py:305-318 | agrees with `Session.DeleteOne` |
| Modem.Gsm.DeleteSMS | GSMTC35/GSMTC35.py:642-666 | the delete loop agrees with `Session.DeleteSms` |
| Modem.Gsm.HangUpCall | GSMTC35/GSMTC35.py:670-681 | agrees with `Session.HangUp` |
| Modem.Gsm.IsSomeoneCalling | GSMTC35/GSMTC35.py:684-695 | agrees with `Session.SomeoneCalling` |
| Modem.Gsm.IsCallInProgress | GSMTC35/GSMTC35.py:698-705 | agrees with `Session.CallInProgress` |
| Modem.Gsm.PickUpCall | GSMTC35/GSMTC35.py:708-713 | agrees with `Check` of `ATA;` |
| Modem.Gsm.CallNumber | GSMTC35/GSMTC35.py:716-734 | agrees with `Session.Call` |
| Modem.Gsm.ReCallLast | GSMTC35/GSMTC35.py:737-752 | agrees with `Session.ReCall` |
| Modem.Gsm.GetLastCallDuration | GSMTC35/GSMTC35.py:755-778 | agrees with `Session.LastCallDuration` |
| Modem.Gsm.GetCurrentCallState | GSMTC35/GSMTC35.py:781-807 | agrees with `Session.CurrentCallState` |
| Modem.Gsm.IsPinRequired | GSMTC35/GSMTC35.py:811-817 | agrees with `Session.PinRequired` |
| Modem.Gsm.EnterPin | GSMTC35/GSMTC35.py:820-831 | agrees with `Session.EnterPin` |

## Left out

- Time: a deadline is counted in 100 ms polls. The time spent reading and
  writing is not counted, so a wait of `t` seconds gives exactly `10 * t`
  polls.
- The modem: it is a script of chunks, one delivered per sleep. Unsolicited
  lines, such as `RING` arriving during a command, are only what the
  script says.
- Modem.Gsm.ReadLine: `read(1)` is taken to be non-blocking, as the
  docstring says. The per-read serial timeout of pyserial is not modelled.
- Modem.Gsm.Setup: opening the port with a baud rate, parity, stop bits and
  byte size is replaced by the two parameters `script` and `opens`. A port
  name that cannot be opened makes pyserial raise `SerialException`; that
  exception is not modelled, and `opens` false stands for a call without a
  port.
- Modem.Gsm.constructor: a command issued before `setup` raises in the
  driver as written. pyserial refuses the unopened port (GSMTC35.py:175),
  and the timeout read at GSMTC35.py:192 is only set by `setup`, so it
  would raise `AttributeError`. The model starts with a 2-second timeout
  and lets such a command run against the script instead of raising.
- SerialPort.Port: pyserial raises when a closed port is polled, read or
  written, as after a failed `setup` closes it (GSMTC35.py:126). The
  model's `InWaiting`, `Read` and `Write` do not look at the open flag, so
  commands on a closed port run against the script instead of raising.
- Byte decoding (`encode`/`decode`): characters stand for bytes.
- Modem.Gsm.SetCurrentDateToInternalClock: the local time from
  `time.strftime` is a parameter.
- Modem.Gsm.DeleteSMS: the selector is a string. A Python integer selector
  is the same as its decimal text.
- Text.IntRoundTrip: `int()` is modelled on ASCII whitespace, an optional
  sign and ASCII digits. Underscores between digits and non-ASCII digits,
  both of which Python accepts, are not modelled.
- Logging and the `print` warnings of `setup` and `hangUpCall` are left
  out.
- The command-line interface (`__help`, `main`) is not part of this model.
- Exchanges: every lemma about an answered exchange assumes a base timeout
  of at least one second. With a zero timeout, every wait gives up at once.

## Findings

| source | as written | input that shows it | evidently intended | confidence | as-written member | corrected member |
|---|---|---|---|---|---|---|
| GSMTC35/GSMTC35.py:588-600 | after the look-ahead finds a line behind an `OK`, the loop sends `AT+CMGL` again and reassigns `lines`, so the `OK` and the extra line appended at 595-596 are thrown away with everything gathered before | one stored message whose text holds the line `OK`: the listing is header, `OK`, rest of text, `OK`. A module that answers the listing once gives no message; one that lists the same messages at every `AT+CMGL` is asked again at every round, so `getSMS` never returns | keep the `OK` and the extra line and go on collecting the same listing, so the message comes back whole | not executed | Findings.GetSmsRelistsEachAnswer | Findings.SmsLinesGatheredWhole |
| GSMTC35/GSMTC35.py:483-490 | every raw value from 0 to 98 is converted with 2*raw - 113 | `+CSQ: 56,0` gives -1, the "not valid" answer, although the value was accepted; `+CSQ: 32,0` gives -49, outside the documented -113 to -51 | only raw 0 to 31 are readings, so -1 means exactly "no reading" | not executed | Findings.SignalSentinelClash | Findings.SignalCheckedAgrees |
| GSMTC35/GSMTC35.py:214-220 | the content check comes before the error check, and the content "" matches every non-empty line | a module that answers `AT+CGMI` with `ERROR`: `getManufacturerId` returns the text `ERROR` as the ID | an error line gives "", as the docstring of `__getNotEmptyLine` says | not executed | Exchanges.InfoOnErrorReply | Findings.InfoCheckedAgrees |

The corrected definitions are `Findings.GetSmsGathered`,
`Findings.SignalStrengthChecked` and `Findings.InfoChecked`. The driver
class `Modem.Gsm` keeps the behaviour as written. Each corrected
definition is tied to it by an all-inputs lemma where the two agree
(`SignalCheckedAgrees`, `InfoCheckedAgrees`). For the listing, the lemma
is on the inputs that show the difference (`OkLineInMessage`).
